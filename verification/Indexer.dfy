// The indexer: one block bundle inside an open SQL transaction, batches with a checkpoint, and the run loop.
// Every call to the node or the database may fail; the committed tables are always those of a whole number of blocks.
module Indexer {
  import opened Options
  import opened Chain
  import opened Index
  import opened Faults

  datatype ChainState = ChainState(bestHeight: int, bestHash: string)

  const ZEROS := "0000000000000000"
  const ZERO_HASH := ZEROS + ZEROS + ZEROS + ZEROS

  // 64 zero digits.
  ghost predicate IsZeros(s: string) {
    |s| == 64 && forall i :: 0 <= i < 64 ==> s[i] == '0'
  }

  lemma ZeroHash()
    ensures IsZeros(ZERO_HASH)
  {
    assert |ZEROS| == 16 && forall i :: 0 <= i < 16 ==> ZEROS[i] == '0';
  }

  // An open transaction: its own copy of the tables, and whether the server has marked it failed.
  class SqlTx {
    const env: Env
    var blocks: map<string, BlockRow>
    var txs: map<string, TxRow>
    var inputs: map<InKey, InRow>
    var outputs: map<OutKey, OutRow>
    var aborted: bool

    constructor Begin(env: Env, t: Tables)
      ensures this.env == env && View() == t && !aborted
    {
      this.env := env;
      blocks, txs, inputs, outputs := t.blocks, t.txs, t.inputs, t.outputs;
      aborted := false;
    }

    ghost function View(): Tables
      reads this
    {
      Tables(blocks, txs, inputs, outputs)
    }

    // Send one statement. Once a statement has failed, the server refuses every later one.
    method Send() returns (e: Option<Error>)
      modifies this`aborted, env`now
      ensures env.now == old(env.now) + 1
      ensures e == if old(aborted) && env.fault(old(env.now)).None? then Some(Permanent) else env.fault(old(env.now))
      ensures aborted == e.Some?
    {
      e := env.Call();
      if aborted && e.None? {
        e := Some(Permanent);
      }
      aborted := e.Some?;
    }

    method SumOutputs(outs: seq<TxOut>) returns (total: int)
      ensures total == TotalOut(outs, |outs|)
    {
      total := 0;
      for j := 0 to |outs|
        invariant total == TotalOut(outs, j)
      {
        total := total + outs[j].value;
      }
    }

    method InsertInputRows(tx: Tx) returns (e: Option<Error>)
      requires !aborted
      modifies this`inputs, this`aborted, env`now
      ensures env.Outcome(old(env.now), env.now, e) && aborted == e.Some?
      ensures e.None? ==> inputs == InsertInputs(old(inputs), tx, |tx.vin|)
    {
      e := None;
      for v := 0 to |tx.vin|
        invariant env.now >= old(env.now) && env.Calm(old(env.now), env.now) && !aborted && e.None?
        invariant inputs == InsertInputs(old(inputs), tx, v)
      {
        var vin := tx.vin[v];
        e := Send();
        if e.Some? {
          return;
        }
        if vin.coinbase != "" {
          inputs := PutIfAbsent(inputs, InKey(tx.txid, v),
            InRow(None, None, None, vin.sequence, None, None, true, Some(vin.coinbase)));
        } else {
          inputs := PutIfAbsent(inputs, InKey(tx.txid, v),
            InRow(NullIfEmpty(vin.txid), vin.vout, NullIfEmpty(vin.scriptSig), vin.sequence, None, None, false, None));
        }
      }
    }

    method InsertOutputRows(tx: Tx) returns (e: Option<Error>)
      requires !aborted
      modifies this`outputs, this`aborted, env`now
      ensures env.Outcome(old(env.now), env.now, e) && aborted == e.Some?
      ensures e.None? ==> outputs == InsertOutputs(old(outputs), tx, |tx.vout|)
    {
      e := None;
      for j := 0 to |tx.vout|
        invariant env.now >= old(env.now) && env.Calm(old(env.now), env.now) && !aborted && e.None?
        invariant outputs == InsertOutputs(old(outputs), tx, j)
      {
        var o := tx.vout[j];
        e := Send();
        if e.Some? {
          return;
        }
        outputs := PutIfAbsent(outputs, OutKey(tx.txid, o.n),
          OutRow(o.value, NullIfEmpty(o.scriptType), NullIfEmpty(o.scriptHex), NullIfEmpty(o.address), None));
      }
    }

    method LinkInputs(p: Placed) returns (e: Option<Error>)
      requires !aborted
      modifies this`inputs, this`outputs, this`aborted, env`now
      ensures env.Outcome(old(env.now), env.now, e) && (e.None? ==> !aborted)
      ensures e.None? ==> View() == Link(old(View()), p, |p.tx.vin|)
    {
      hide NullIfEmpty, IsCoinbase, LinkOne, env.Last;
      e := None;
      for v := 0 to |p.tx.vin|
        invariant env.now >= old(env.now) && env.Calm(old(env.now), env.now) && !aborted && e.None?
        invariant View() == Link(old(View()), p, v)
      {
        ghost var mid := env.now;
        e := LinkInput(p, v);
        env.After(old(env.now), mid, env.now, e);
        if e.Some? {
          return;
        }
      }
    }

    // The error of the lookup is ignored; it cannot do harm because the next statement of a failed transaction fails
    // too.
    method LinkInput(p: Placed, v: nat) returns (e: Option<Error>)
      requires !aborted && v < |p.tx.vin|
      modifies this`inputs, this`outputs, this`aborted, env`now
      ensures env.Outcome(old(env.now), env.now, e) && (e.None? ==> !aborted)
      ensures e.None? ==> View() == LinkOne(old(View()), p, v)
    {
      hide NullIfEmpty, IsCoinbase;
      var vin := p.tx.vin[v];
      if vin.txid == "" {
        return None;
      }
      var prevVal: int, prevAddr: Option<string> := 0, None;
      var ignored := Send();
      if ignored.None? && LookUp(outputs, vin).Some? {
        prevVal, prevAddr := LookUp(outputs, vin).value.value, LookUp(outputs, vin).value.address;
      }
      e := Send();
      if e.Some? {
        return;
      }
      if InKey(p.tx.txid, v) in inputs {
        var key := InKey(p.tx.txid, v);
        inputs := inputs[key := inputs[key].(prevValue := Some(prevVal), prevAddress := prevAddr)];
      }
      e := Send();
      if e.Some? {
        return;
      }
      if vin.vout.Some? && OutKey(vin.txid, vin.vout.value) in outputs {
        var key := OutKey(vin.txid, vin.vout.value);
        outputs := outputs[key := outputs[key].(spent := Some(Spend(p.tx.txid, v, p.height)))];
      }
    }

    method InsertTransaction(p: Placed) returns (e: Option<Error>)
      requires !aborted
      modifies this`txs, this`inputs, this`outputs, this`aborted, env`now
      ensures env.Outcome(old(env.now), env.now, e) && (e.None? ==> !aborted)
      ensures e.None? ==> View() == IndexTx(old(View()), p)
    {
      hide env.Last, Link, InsertInputs, InsertOutputs;
      env.Single(env.now);
      var isCoinbase := |p.tx.vin| > 0 && p.tx.vin[0].coinbase != "";
      var totalOut := SumOutputs(p.tx.vout);
      e := Send();
      if e.Some? {
        return;
      }
      txs := PutIfAbsent(txs, p.tx.txid, TxRow(p.hash, p.height, p.pos, isCoinbase, totalOut));
      ghost var mid := env.now;
      e := InsertInputRows(p.tx);
      env.After(old(env.now), mid, env.now, e);
      if e.Some? {
        return;
      }
      mid := env.now;
      e := InsertOutputRows(p.tx);
      env.After(old(env.now), mid, env.now, e);
      if e.Some? {
        return;
      }
      if !isCoinbase {
        mid := env.now;
        e := LinkInputs(p);
        env.After(old(env.now), mid, env.now, e);
      }
    }

    method InsertBlockBundle(b: Block) returns (e: Option<Error>)
      requires !aborted
      modifies this`blocks, this`txs, this`inputs, this`outputs, this`aborted, env`now
      ensures env.Outcome(old(env.now), env.now, e) && (e.None? ==> !aborted)
      ensures e.None? ==> View() == IndexBlock(old(View()), b)
    {
      hide IndexTx;
      var blockTotalOut := 0;
      for k := 0 to |b.txs|
        invariant blockTotalOut == BlockTotalOut(b.txs, k)
        invariant View() == old(View()) && !aborted && env.now == old(env.now)
      {
        var t := SumOutputs(b.txs[k].vout);
        blockTotalOut := blockTotalOut + t;
      }
      e := Send();
      if e.Some? {
        return;
      }
      blocks := PutIfAbsent(blocks, b.hash, BlockRow(b.height, NullIfEmpty(b.prevHash), |b.txs|, blockTotalOut));
      ghost var t0 := View();
      for k := 0 to |b.txs|
        invariant env.now >= old(env.now) && env.Calm(old(env.now), env.now) && !aborted && e.None?
        invariant View() == IndexTxs(t0, b, k)
      {
        e := InsertTransaction(Placed(b.txs[k], b.hash, b.height, k));
        if e.Some? {
          return;
        }
      }
    }
  }

  // The hash the checkpoint carries when blocks 0 .. height are indexed.
  function HashAt(chain: seq<Block>, height: int): string
    requires -1 <= height < |chain|
  {
    if height == -1 then ZERO_HASH else chain[height].hash
  }

  // A batch that was tried, and how it ended.
  datatype Batch = Batch(lo: int, hi: int, e: Option<Error>)

  // How one turn of the run loop ended: looking whether the process is to stop, asking the node for its height, reading
  // the checkpoint, ingesting a range, or waiting at the tip; and with which error.
  datatype Event =
    | Looked(e: Option<Error>)
    | Polled(e: Option<Error>)
    | TipRead(e: Option<Error>)
    | Ranged(e: Option<Error>)
    | Waited(e: Option<Error>)

  function Least(x: int, y: int): int {
    if x < y then x else y
  }

  class Ingestor {
    const env: Env
    // The node's chain as it will ever be: it only grows, so whatever any call sees is a prefix of it.
    const chain: seq<Block>
    // The height the node reports at each successful poll.
    const tips: nat -> int
    const batchBlocks: int
    // The committed database.
    var tables: Tables
    var state: Option<ChainState>
    var polls: nat

    // A new process, perhaps with another batch size, over whatever the processes before it have committed.
    constructor Open(env: Env, chain: seq<Block>, tips: nat -> int, batchBlocks: int, tables: Tables,
                     state: Option<ChainState>)
      requires ValidChain(chain) && batchBlocks >= 1 && forall j :: tips(j) < |chain|
      requires state.Some? ==>
                 && -1 <= state.value.bestHeight < |chain|
                 && state.value.bestHash == HashAt(chain, state.value.bestHeight)
      requires tables == IndexChain(EMPTY, chain, 0, if state.None? then 0 else state.value.bestHeight + 1)
      ensures Valid() && this.env == env && this.chain == chain && this.batchBlocks == batchBlocks && fresh(this)
      ensures this.tables == tables && this.state == state && this.tips == tips && polls == 0
    {
      this.env, this.chain, this.tips, this.batchBlocks := env, chain, tips, batchBlocks;
      this.tables, this.state, polls := tables, state, 0;
    }

    // A new process over an empty database.
    constructor (env: Env, chain: seq<Block>, tips: nat -> int, batchBlocks: int)
      requires ValidChain(chain) && batchBlocks >= 1 && forall j :: tips(j) < |chain|
      ensures Valid() && Height() == -1 && this.env == env && this.chain == chain && fresh(this)
      ensures this.batchBlocks == batchBlocks && this.tips == tips && polls == 0
    {
      this.env, this.chain, this.tips, this.batchBlocks := env, chain, tips, batchBlocks;
      tables, state, polls := EMPTY, None, 0;
    }

    ghost function Height(): int
      reads this
    {
      if state.None? then -1 else state.value.bestHeight
    }

    // The committed tables are those of blocks 0 .. Height(), and the checkpoint says so.
    ghost predicate Valid()
      reads this
    {
      && ValidChain(chain) && batchBlocks >= 1 && (forall j :: tips(j) < |chain|)
      && -1 <= Height() < |chain|
      && tables == IndexChain(EMPTY, chain, 0, Height() + 1)
      && (state.Some? ==> state.value.bestHash == HashAt(chain, Height()))
    }

    method EnsureChainState() returns (e: Option<Error>)
      requires Valid()
      modifies this`state, env`now
      ensures Valid() && env.now == old(env.now) + 1 && e == env.fault(old(env.now))
      ensures old(state).Some? ==> state == old(state)
      ensures old(state).None? ==> state.None? || (state.value.bestHeight == -1 && IsZeros(state.value.bestHash))
      ensures e.None? ==> state.Some?
    {
      ZeroHash();
      var installed;
      e, installed := env.Commit();
      if installed && state.None? {
        state := Some(ChainState(-1, ZERO_HASH));
      }
    }

    method GetBlockHash(h: int) returns (e: Option<Error>, hash: string)
      requires 0 <= h < |chain|
      modifies env`now
      ensures env.Outcome(old(env.now), env.now, e)
      ensures e.None? ==> hash == chain[h].hash
    {
      e := env.Call();
      hash := if e.None? then chain[h].hash else "";
    }

    // getblock <hash> 2
    method GetBlock(hash: string) returns (e: Option<Error>, b: Block)
      requires exists i :: 0 <= i < |chain| && chain[i].hash == hash
      modifies env`now
      ensures env.Outcome(old(env.now), env.now, e)
      ensures b in chain && b.hash == hash
    {
      e := env.Call();
      var i :| 0 <= i < |chain| && chain[i].hash == hash;
      b := chain[i];
    }

    // Fetch and index blocks lo .. hi inside an open transaction.
    method IndexBlocks(tx: SqlTx, lo: int, hi: int) returns (e: Option<Error>, lastHeight: int, lastHash: string)
      requires ValidChain(chain) && 0 <= lo <= hi < |chain|
      requires tx.env == env && !tx.aborted && tx.View() == IndexChain(EMPTY, chain, 0, lo)
      modifies tx, env`now
      ensures env.Outcome(old(env.now), env.now, e)
      ensures e.None? ==> !tx.aborted && tx.View() == IndexChain(EMPTY, chain, 0, hi + 1)
      ensures e.None? ==> lastHeight == hi && lastHash == chain[hi].hash
    {
      hide ValidChain, IndexBlock;
      e, lastHeight, lastHash := None, -1, ZERO_HASH;
      for h := lo to hi + 1
        invariant env.now >= old(env.now) && env.Calm(old(env.now), env.now) && !tx.aborted && e.None?
        invariant tx.View() == IndexChain(EMPTY, chain, 0, h)
        invariant h > lo ==> lastHeight == h - 1 && lastHash == chain[h - 1].hash
      {
        var hash, b;
        e, hash := GetBlockHash(h);
        if e.Some? {
          return;
        }
        e, b := GetBlock(hash);
        if e.Some? {
          return;
        }
        HashNamesBlock(chain, b, h);
        e := tx.InsertBlockBundle(b);
        if e.Some? {
          return;
        }
        lastHeight, lastHash := b.height, b.hash;
      }
    }

    // One batch: blocks lo .. hi in one SQL transaction, then the checkpoint, then COMMIT.
    method IngestBatch(lo: int, hi: int) returns (e: Option<Error>)
      requires Valid() && state.Some? && lo == Height() + 1 && lo <= hi < |chain|
      modifies this`tables, this`state, env`now
      ensures Valid() && state.Some? && env.Outcome(old(env.now), env.now, e)
      ensures e.None? ==> Height() == hi
      ensures Height() == old(Height()) || Height() == hi
    {
      hide ValidChain, IndexChain;
      e := env.Call();
      if e.Some? {
        return;
      }
      var tx := new SqlTx.Begin(env, tables);
      var lastHeight, lastHash;
      e, lastHeight, lastHash := IndexBlocks(tx, lo, hi);
      if e.Some? {
        return;
      }
      e := tx.Send();
      if e.Some? {
        return;
      }
      var installed;
      e, installed := env.Commit();
      if installed {
        tables := Tables(tx.blocks, tx.txs, tx.inputs, tx.outputs);
        state := Some(ChainState(lastHeight, lastHash));
      }
    }

    // Blocks startHeight .. endHeight, batchBlocks at a time. `tried` lists the batches: consecutive runs of that many
    // blocks, the last one cut off at endHeight, and only the last may have failed.
    method IngestRange(startHeight: int, endHeight: int) returns (e: Option<Error>, ghost tried: seq<Batch>)
      requires Valid() && state.Some? && startHeight == Height() + 1 && endHeight < |chain|
      modifies this`tables, this`state, env`now
      ensures Valid() && state.Some? && env.now >= old(env.now)
      ensures e.None? <==> env.Calm(old(env.now), env.now)
      ensures e.None? && startHeight <= endHeight ==> Height() == endHeight
      ensures old(Height()) <= Height() && (Height() == old(Height()) || Height() <= endHeight)
      ensures forall i :: 0 <= i < |tried| ==>
                && tried[i].lo == startHeight + i * batchBlocks <= endHeight
                && tried[i].hi == Least(tried[i].lo + batchBlocks - 1, endHeight)
                && (i < |tried| - 1 ==> tried[i].e.None?)
      ensures if tried == [] then Height() == old(Height())
              else Height() == tried[|tried| - 1].lo - 1 || Height() == tried[|tried| - 1].hi
      // the error is that of the last batch, unless the process was stopped before the next one
      ensures e.Some? ==>
                || (tried != [] && tried[|tried| - 1].e == e && env.Last(env.now, e))
                || (e == Some(Cancelled) && env.now > old(env.now) && env.fault(env.now - 1).Some?)
    {
      hide ValidChain, IndexChain, HashAt;
      e, tried := None, [];
      var batchStart := startHeight;
      while batchStart <= endHeight
        invariant Valid() && state.Some? && env.now >= old(env.now) && env.Calm(old(env.now), env.now) && e.None?
        invariant batchStart == Height() + 1 && old(Height()) <= Height()
        invariant Height() == old(Height()) || Height() <= endHeight
        invariant startHeight <= endHeight ==> batchStart <= endHeight + 1
        invariant batchStart == Least(startHeight + |tried| * batchBlocks, endHeight + 1) || startHeight > endHeight
        invariant forall i :: 0 <= i < |tried| ==>
                    && tried[i].lo == startHeight + i * batchBlocks <= endHeight
                    && tried[i].hi == Least(tried[i].lo + batchBlocks - 1, endHeight) && tried[i].e.None?
        invariant if tried == [] then Height() == old(Height()) else Height() == tried[|tried| - 1].hi
      {
        e := env.Call();
        if e.Some? {
          e := Some(Cancelled);
          return;
        }
        var batchEnd := batchStart + batchBlocks - 1;
        if batchEnd > endHeight {
          batchEnd := endHeight;
        }
        e := IngestBatch(batchStart, batchEnd);
        assert (|tried| + 1) * batchBlocks == |tried| * batchBlocks + batchBlocks;
        tried := tried + [Batch(batchStart, batchEnd, e)];
        if e.Some? {
          return;
        }
        batchStart := batchEnd + 1;
      }
    }

    // The height the node reports. A transient error is retried after a pause; the loop itself never gives up, so
    // `tries` is how often it gets to try before the process is stopped. The k-th try is the one that ends it.
    method GetBlockCount(tries: nat) returns (e: Option<Error>, tip: int, ghost k: nat)
      modifies this`polls, env`now
      ensures k <= tries && forall j :: 0 <= j < k ==>
                env.fault(old(env.now) + 2 * j) == Some(Transient) &&
                env.fault(old(env.now) + 2 * j + 1) != Some(Cancelled)
      ensures if k == tries then env.now == old(env.now) + 2 * k && e == Some(Cancelled)
              else if env.fault(old(env.now) + 2 * k) == Some(Transient)
              then env.now == old(env.now) + 2 * k + 2 && e == env.fault(env.now - 1) == Some(Cancelled)
              else env.now == old(env.now) + 2 * k + 1 && e == env.fault(env.now - 1)
      ensures e.None? ==> polls == old(polls) + 1 && tip == tips(old(polls))
      ensures e.Some? ==> polls == old(polls)
      ensures tries > 0 && env.Calm(old(env.now), env.now) ==> e.None?
    {
      tip := -1;
      for attempt := 0 to tries
        invariant attempt > 0 ==> env.fault(old(env.now)).Some?
        invariant env.now == old(env.now) + 2 * attempt && polls == old(polls)
        invariant forall j :: 0 <= j < attempt ==>
                    env.fault(old(env.now) + 2 * j) == Some(Transient) &&
                    env.fault(old(env.now) + 2 * j + 1) != Some(Cancelled)
      {
        k := attempt;
        e := env.Call();
        if e.None? {
          tip := tips(polls);
          polls := polls + 1;
          return;
        }
        if e != Some(Transient) {
          return;
        }
        e := env.Call();
        if e == Some(Cancelled) {
          return;
        }
      }
      e, k := Some(Cancelled), tries;
    }

    // The run loop, for any number of turns before the process is stopped. Calling it again on the same database is a
    // restart. `began` is when the last turn began; `log` says of each turn how far it came and how that ended.
    method Run(turns: nat, tries: nat) returns (e: Option<Error>, ghost began: nat, ghost log: seq<Event>)
      requires Valid()
      modifies this`tables, this`state, this`polls, env`now
      ensures Valid() && env.now >= old(env.now)
      ensures Height() >= old(Height())
      // nothing is indexed beyond a height the node reported
      ensures Height() == old(Height()) || exists j :: old(polls) <= j < polls && Height() <= tips(j)
      // a transient error while blocks are fetched and indexed never ends the run
      ensures forall i :: 0 <= i < |log| && log[i] == Ranged(Some(Transient)) ==>
                i + 1 < |log| || (|log| == turns && e.None?)
      // any other error of a turn, but for what is not a cancellation in the wait, ends it there and is reported
      ensures forall i :: 0 <= i < |log| && log[i].e.Some? && log[i] != Ranged(Some(Transient)) ==>
                (log[i].Waited? && log[i].e != Some(Cancelled)) || (i + 1 == |log| && e == log[i].e)
      // unless one does, all turns are made, each with its own poll
      ensures if e.None? then |log| == turns && polls == old(polls) + turns
              else if log == [] then e == env.fault(old(env.now)) && polls == old(polls)
              else e == log[|log| - 1].e && |log| - 1 <= polls - old(polls) <= |log|
      ensures e.Some? ==> env.Last(env.now, e) || e == Some(Cancelled)
      // whatever failed and was retried before, a last turn without failure has indexed up to the tip it was told of
      ensures old(env.now) <= began <= env.now
      ensures turns > 0 && tries > 0 && env.Calm(began, env.now) ==> polls > old(polls) && tips(polls - 1) <= Height()
      // a run that met no failure has indexed every block up to every tip it was told of
      ensures tries > 0 && env.Calm(old(env.now), env.now) ==> polls == old(polls) + turns
      ensures tries > 0 && env.Calm(old(env.now), env.now) ==>
                forall j :: old(polls) <= j < polls ==> tips(j) <= Height()
    {
      hide ValidChain, IndexChain, HashAt;
      began, log := env.now, [];
      e := EnsureChainState();
      if e.Some? {
        return;
      }
      for turn := 0 to turns
        invariant Valid() && state.Some? && env.now >= old(env.now) && Height() >= old(Height())
        invariant polls == old(polls) + turn && old(env.now) <= began <= env.now
        invariant turn > 0 && tries > 0 && env.Calm(began, env.now) ==>
                  polls > old(polls) && tips(polls - 1) <= Height()
        invariant Height() == old(Height()) || exists j :: old(polls) <= j < polls && Height() <= tips(j)
        invariant |log| == turn && forall i :: 0 <= i < |log| ==>
                    log[i].e.None? || log[i] == Ranged(Some(Transient)) ||
                    (log[i].Waited? && log[i].e != Some(Cancelled))
        invariant tries > 0 && env.Calm(old(env.now), env.now) ==>
                    forall j :: old(polls) <= j < polls ==> tips(j) <= Height()
      {
        began := env.now;
        var goOn;
        ghost var how;
        e, goOn, how := Turn(tries);
        log := log + [how];
        if !goOn {
          return;
        }
      }
      e := None;
    }

    // One turn of the loop, and whether the loop goes on after it; if it does not, with which error it ends.
    method Turn(tries: nat) returns (e: Option<Error>, goOn: bool, ghost how: Event)
      requires Valid() && state.Some?
      modifies this`tables, this`state, this`polls, env`now
      ensures Valid() && state.Some? && env.now > old(env.now) && Height() >= old(Height())
      ensures polls == old(polls) + if how.Looked? || how.Polled? then 0 else 1
      ensures how.Looked? || how.Polled? || how.TipRead? ==> how.e.Some? && Height() == old(Height())
      ensures how.Ranged? ==> tips(old(polls)) > old(Height()) && Height() <= tips(old(polls))
      ensures how.Ranged? && how.e.None? ==> Height() == tips(old(polls))
      ensures how.Waited? ==> tips(old(polls)) <= old(Height()) == Height()
      ensures how.e.Some? ==> env.Last(env.now, how.e) || how.e == Some(Cancelled)
      ensures tries > 0 && env.Calm(old(env.now), env.now) ==> how.e.None?
      ensures goOn <==> how.e.None? || how == Ranged(Some(Transient)) || (how.Waited? && how.e != Some(Cancelled))
      ensures !goOn ==> e == how.e
    {
      hide ValidChain, IndexChain, HashAt;
      e := env.Call();
      if e.Some? {
        e := Some(Cancelled);
        return e, false, Looked(e);
      }
      var tip;
      ghost var k;
      e, tip, k := GetBlockCount(tries);
      if e.Some? {
        return e, false, Polled(e);
      }
      e := env.Call();
      if e.Some? {
        return e, false, TipRead(e);
      }
      var dbHeight := state.value.bestHeight;
      if tip - dbHeight > 0 {
        ghost var tried;
        e, tried := IngestRange(dbHeight + 1, tip);
        return e, e.None? || e == Some(Transient), Ranged(e);
      }
      // At the tip: wait for a notification or the poll interval.
      e := env.Call();
      return e, e != Some(Cancelled), Waited(e);
    }
  }

  // Whatever failures, restarts and batch sizes two indexers went through: the committed tables of each are the join
  // of the UTXO semantics with its blocks 0 .. height, and if they stand at the same height they are the same
  // database.
  lemma CommittedState(a: Ingestor, b: Ingestor)
    requires a.Valid() && b.Valid() && a.chain == b.chain
    ensures a.tables == SpecTables(a.chain, a.Height() + 1)
    ensures a.Height() >= 0 ==> a.state.value.bestHash == a.chain[a.Height()].hash
    ensures a.Height() == b.Height() ==> a.tables == b.tables
  {
    IndexIsJoin(a.chain, a.Height() + 1);
  }

  lemma HashNamesBlock(chain: seq<Block>, b: Block, h: int)
    requires ValidChain(chain) && 0 <= h < |chain| && b in chain && b.hash == chain[h].hash
    ensures b == chain[h] && b.height == h
  {
  }
}
