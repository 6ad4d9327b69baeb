// The block page: several separate reads, with the indexer committing between any two of them.
module BlockPage {
  import opened Options
  import opened Chain
  import opened Index
  import opened Refinement
  import opened Balances
  import opened Paging

  datatype Where = ByHeight(height: int) | ByHash(hash: string)

  datatype InDetail = InDetail(
    prevTxid: Option<string>, prevVout: Option<int>, prevAddress: Option<string>, prevValue: int,
    isCoinbase: bool, coinbaseHex: Option<string>)

  datatype OutDetail = OutDetail(vout: int, value: int, scriptType: Option<string>, address: Option<string>)

  datatype TxDetail = TxDetail(
    txid: string, isCoinbase: bool, totalOut: int, inputs: seq<InDetail>, outputs: seq<OutDetail>)

  datatype BlockDetail = BlockDetail(
    hash: string, height: int, nextHash: Option<string>, confirmations: int, txs: seq<TxDetail>)

  /******* The reads *******/

  // A block row with the given height or hash, if there is one.
  method FindBlock(t: Tables, w: Where) returns (hash: Option<string>)
    ensures hash.Some? ==> hash.value in t.blocks && Matches(t, w, hash.value)
    ensures hash.None? ==> forall x :: x in t.blocks ==> !Matches(t, w, x)
  {
    if x :| x in t.blocks && Matches(t, w, x) {
      hash := Some(x);
    } else {
      hash := None;
    }
  }

  predicate Matches(t: Tables, w: Where, hash: string)
    requires hash in t.blocks
  {
    match w
    case ByHeight(h) => t.blocks[hash].height == h
    case ByHash(x) => hash == x
  }

  // The best height, or 0 for an empty table.
  method MaxHeight(t: Tables) returns (m: int)
    ensures t.blocks == map[] ==> m == 0
    ensures t.blocks != map[] ==> exists x :: x in t.blocks && t.blocks[x].height == m
    ensures forall x :: x in t.blocks ==> t.blocks[x].height <= m
  {
    m := 0;
    var todo := t.blocks.Keys;
    if todo != {} {
      var x :| x in todo;
      m := t.blocks[x].height;
      while todo != {}
        invariant todo <= t.blocks.Keys
        invariant exists x :: x in t.blocks && t.blocks[x].height == m
        invariant forall x :: x in t.blocks && x !in todo ==> t.blocks[x].height <= m
        decreases todo
      {
        var y :| y in todo;
        if t.blocks[y].height > m {
          m := t.blocks[y].height;
        }
        todo := todo - {y};
      }
    }
  }

  // The transactions of a block, ordered by position.
  ghost predicate IsTxList(rows: seq<string>, t: Tables, hash: string) {
    && (forall i :: 0 <= i < |rows| ==> rows[i] in t.txs && t.txs[rows[i]].blockHash == hash)
    && (forall x :: x in t.txs && t.txs[x].blockHash == hash ==> exists i :: 0 <= i < |rows| && rows[i] == x)
    && (forall i, j :: 0 <= i < j < |rows| ==> rows[i] != rows[j] && t.txs[rows[i]].position <= t.txs[rows[j]].position)
  }

  // The input rows of a transaction, ordered by vin; the key is unique, so no two have the same.
  ghost predicate IsInList(vins: seq<int>, t: Tables, txid: string) {
    && (forall i :: 0 <= i < |vins| ==> InKey(txid, vins[i]) in t.inputs)
    && (forall k :: k in t.inputs && k.txid == txid ==> k.vin in vins)
    && (forall i, j :: 0 <= i < j < |vins| ==> vins[i] < vins[j])
  }

  // The output rows of a transaction, ordered by vout.
  ghost predicate IsOutList(vouts: seq<int>, t: Tables, txid: string) {
    && (forall i :: 0 <= i < |vouts| ==> OutKey(txid, vouts[i]) in t.outputs)
    && (forall k :: k in t.outputs && k.txid == txid ==> k.vout in vouts)
    && (forall i, j :: 0 <= i < j < |vouts| ==> vouts[i] < vouts[j])
  }

  // A NULL value is shown as 0.
  function ShowIn(r: InRow): InDetail {
    var value := if r.prevValue.Some? then r.prevValue.value else 0;
    InDetail(r.prevTxid, r.prevVout, r.prevAddress, value, r.isCoinbase, r.coinbaseHex)
  }

  function ShowOut(vout: int, r: OutRow): OutDetail {
    OutDetail(vout, r.value, r.scriptType, r.address)
  }

  /******* What the page should show, from the chain alone *******/

  // A coinbase input, or an input with the value and address of the output it spends, as the chain up to its own block
  // has it.
  ghost predicate ShowsIn(d: InDetail, chain: seq<Block>, h: nat, i: TxIn)
    requires h < |chain|
  {
    var created := Created(Hist(chain, h + 1));
    if i.coinbase != ""
    then
      && d.isCoinbase && d.coinbaseHex == Some(i.coinbase)
      && d.prevTxid == None && d.prevVout == None && d.prevValue == 0 && d.prevAddress == None
    else
      && !d.isCoinbase && d.coinbaseHex == None
      && d.prevTxid == Some(i.txid) && i.vout.Some? && d.prevVout == i.vout
      && OutKey(i.txid, i.vout.value) in created
      && d.prevValue == created[OutKey(i.txid, i.vout.value)].value
      && d.prevAddress == NullIfEmpty(created[OutKey(i.txid, i.vout.value)].address)
  }

  function ChainOut(o: TxOut): OutDetail {
    OutDetail(o.n, o.value, NullIfEmpty(o.scriptType), NullIfEmpty(o.address))
  }

  ghost predicate ShowsTx(d: TxDetail, chain: seq<Block>, h: nat, tx: Tx)
    requires h < |chain|
  {
    && d.txid == tx.txid && d.isCoinbase == (|tx.vin| > 0 && tx.vin[0].coinbase != "")
    && d.totalOut == TotalOut(tx.vout, |tx.vout|)
    && ShowsInputs(d.inputs, chain, h, tx)
    && ShowsOutputs(d.outputs, tx)
  }

  ghost predicate ShowsInputs(inputs: seq<InDetail>, chain: seq<Block>, h: nat, tx: Tx)
    requires h < |chain|
  {
    |inputs| == |tx.vin| && forall v :: 0 <= v < |tx.vin| ==> ShowsIn(inputs[v], chain, h, tx.vin[v])
  }

  ghost function ChainOuts(tx: Tx): set<OutDetail> {
    set j | 0 <= j < |tx.vout| :: ChainOut(tx.vout[j])
  }

  ghost predicate ShowsOut(d: OutDetail, o: TxOut) {
    && d.vout == o.n && d.value == o.value && d.scriptType == NullIfEmpty(o.scriptType)
    && d.address == NullIfEmpty(o.address)
  }

  // The transaction's outputs, all of them and no others, in rising order of their number.
  ghost predicate ShowsOutputs(outputs: seq<OutDetail>, tx: Tx) {
    && (forall o :: o in tx.vout ==> exists d :: d in outputs && ShowsOut(d, o))
    && (forall d :: d in outputs ==> exists o :: o in tx.vout && ShowsOut(d, o))
    && forall i, j :: 0 <= i < j < |outputs| ==> outputs[i].vout < outputs[j].vout
  }

  // The listed input rows are the transaction's inputs in order and show what they should.
  ghost predicate InRowsShow(vins: seq<int>, t: Tables, chain: seq<Block>, h: nat, tx: Tx)
    requires h < |chain|
  {
    && |vins| == |tx.vin|
    && forall v :: 0 <= v < |tx.vin| ==>
         && vins[v] == v && InKey(tx.txid, v) in t.inputs
         && ShowsIn(ShowIn(t.inputs[InKey(tx.txid, v)]), chain, h, tx.vin[v])
  }

  ghost predicate KeysIn(vouts: seq<int>, t: Tables, txid: string) {
    forall i :: 0 <= i < |vouts| ==> OutKey(txid, vouts[i]) in t.outputs
  }

  ghost function ShownOuts(vouts: seq<int>, t: Tables, txid: string): set<OutDetail>
    requires KeysIn(vouts, t, txid)
  {
    set i | 0 <= i < |vouts| :: ShowOut(vouts[i], t.outputs[OutKey(txid, vouts[i])])
  }

  // The listed output rows, in rising order, show the transaction's outputs, all of them and no others.
  ghost predicate OutRowsShow(vouts: seq<int>, t: Tables, tx: Tx) {
    && KeysIn(vouts, t, tx.txid) && ShownOuts(vouts, t, tx.txid) == ChainOuts(tx)
    && forall i, j :: 0 <= i < j < |vouts| ==> vouts[i] < vouts[j]
  }

  method ReadInputs(t: Tables, txid: string, vins: seq<int>, ghost chain: seq<Block>, ghost h: nat, ghost tx: Tx)
    returns (inputs: seq<InDetail>)
    requires h < |chain| && txid == tx.txid && InRowsShow(vins, t, chain, h, tx)
    ensures ShowsInputs(inputs, chain, h, tx)
  {
    hide ShowsIn;
    inputs := [];
    for i := 0 to |vins|
      invariant |inputs| == i && forall v :: 0 <= v < i ==> ShowsIn(inputs[v], chain, h, tx.vin[v])
    {
      inputs := inputs + [ShowIn(t.inputs[InKey(txid, vins[i])])];
    }
  }

  method ReadOutputs(t: Tables, txid: string, vouts: seq<int>, ghost tx: Tx) returns (outputs: seq<OutDetail>)
    requires txid == tx.txid && OutRowsShow(vouts, t, tx)
    ensures ShowsOutputs(outputs, tx)
  {
    hide ChainOuts, ShowsOut;
    outputs := [];
    for i := 0 to |vouts|
      invariant |outputs| == i
      invariant forall k :: 0 <= k < i ==>
                  OutKey(txid, vouts[k]) in t.outputs
                    && outputs[k] == ShowOut(vouts[k], t.outputs[OutKey(txid, vouts[k])])
    {
      outputs := outputs + [ShowOut(vouts[i], t.outputs[OutKey(txid, vouts[i])])];
    }
    forall o | o in outputs ensures o in ShownOuts(vouts, t, txid) {
      var k :| 0 <= k < |outputs| && outputs[k] == o;
      assert o == ShowOut(vouts[k], t.outputs[OutKey(txid, vouts[k])]);
    }
    forall o | o in ShownOuts(vouts, t, txid) ensures o in outputs {
      var k :| 0 <= k < |vouts| && o == ShowOut(vouts[k], t.outputs[OutKey(txid, vouts[k])]);
      assert outputs[k] == o;
    }
    assert (set o | o in outputs) == ShownOuts(vouts, t, txid);
    ShowsAll(outputs, tx);
  }

  lemma ShowsAll(outputs: seq<OutDetail>, tx: Tx)
    requires (set d | d in outputs) == ChainOuts(tx)
    ensures forall o :: o in tx.vout ==> exists d :: d in outputs && ShowsOut(d, o)
    ensures forall d :: d in outputs ==> exists o :: o in tx.vout && ShowsOut(d, o)
  {
    var all := set d | d in outputs;
    forall o | o in tx.vout ensures exists d :: d in outputs && ShowsOut(d, o) {
      assert ChainOut(o) in ChainOuts(tx);
      assert ChainOut(o) in all && ShowsOut(ChainOut(o), o);
    }
    forall d | d in outputs ensures exists o :: o in tx.vout && ShowsOut(d, o) {
      assert d in all;
      var j :| 0 <= j < |tx.vout| && d == ChainOut(tx.vout[j]);
      assert tx.vout[j] in tx.vout && ShowsOut(d, tx.vout[j]);
    }
  }

  // What each read sees: the committed tables with n(i) blocks indexed, never fewer than the read before.
  ghost predicate Reads(db: nat -> Tables, chain: seq<Block>, n: nat -> nat) {
    && (forall i: nat :: n(i) <= |chain| && db(i) == IndexChain(EMPTY, chain, 0, n(i)))
    && (forall i: nat, j: nat :: i <= j ==> n(i) <= n(j))
  }

  // The i-th transaction's lists, each a read of its own after the four of the block.
  ghost predicate ListsOf(rows: seq<string>, vins: nat -> seq<int>, vouts: nat -> seq<int>, db: nat -> Tables) {
    forall i :: 0 <= i < |rows| ==>
      IsInList(vins(i), db(4 + 2 * i), rows[i]) && IsOutList(vouts(i), db(5 + 2 * i), rows[i])
  }

  /******* The page *******/

  method LoadBlock(w: Where, db: nat -> Tables, nextOk: bool, tipOk: bool, rows: seq<string>,
                   vins: nat -> seq<int>, vouts: nat -> seq<int>, ghost chain: seq<Block>, ghost n: nat -> nat)
    returns (b: Option<BlockDetail>)
    requires ValidChain(chain) && Reads(db, chain, n)
    requires forall hash :: hash in db(0).blocks && Matches(db(0), w, hash) ==> IsTxList(rows, db(3), hash)
    requires ListsOf(rows, vins, vouts, db)
    ensures b.None? <==> forall h :: 0 <= h < n(0) <= |chain| ==> !Asked(w, chain, h)
    ensures b.Some? ==>
              var h := b.value.height;
              && 0 <= h < n(0) <= |chain| && Asked(w, chain, h) && b.value.hash == chain[h].hash
              && b.value.nextHash == (if nextOk && h + 1 < n(1) <= |chain| then Some(chain[h + 1].hash) else None)
              && b.value.confirmations == (if tipOk then n(2) - h else 0)
              && (tipOk ==> b.value.confirmations >= if b.value.nextHash.Some? then 2 else 1)
              && |b.value.txs| == |chain[h].txs|
              && forall k :: 0 <= k < |chain[h].txs| ==> ShowsTx(b.value.txs[k], chain, h, chain[h].txs[k])
  {
    hide IndexChain, ValidChain, IsTxList, ShowsTx, ListsOf;
    var hash := FindBlock(db(0), w);
    Committed(chain, n(0), db(0), w);
    if hash.None? {
      return None;
    }
    ghost var h: nat := BlockOf(chain, n(0), db(0), hash.value);
    var height := db(0).blocks[hash.value].height;
    var next := FindBlock(db(1), ByHeight(height + 1));
    Committed(chain, n(1), db(1), ByHeight(height + 1));
    if !nextOk {
      next := None;
    }
    var confirmations := 0;
    if tipOk {
      var tip := MaxHeight(db(2));
      TipIs(chain, n(2), db(2), tip);
      confirmations := tip - height + 1;
    }
    var txs := LoadTxs(db, rows, vins, vouts, chain, n, h);
    b := Some(BlockDetail(hash.value, height, next, confirmations, txs));
  }

  method LoadTxs(db: nat -> Tables, rows: seq<string>, vins: nat -> seq<int>, vouts: nat -> seq<int>,
                 ghost chain: seq<Block>, ghost n: nat -> nat, ghost h: nat)
    returns (txs: seq<TxDetail>)
    requires ValidChain(chain) && Reads(db, chain, n) && h < n(0) <= |chain|
    requires IsTxList(rows, db(3), chain[h].hash) && ListsOf(rows, vins, vouts, db)
    ensures |txs| == |chain[h].txs|
    ensures forall k :: 0 <= k < |chain[h].txs| ==> ShowsTx(txs[k], chain, h, chain[h].txs[k])
  {
    hide IndexChain, ValidChain, IsTxList, IsInList, IsOutList, InRowsShow, OutRowsShow, ShowsInputs, ShowsOutputs,
         TotalOut;
    TxListIs(chain, n(3), h, db(3), rows);
    txs := [];
    for i := 0 to |rows|
      invariant |txs| == i && forall j :: 0 <= j < i ==> ShowsTx(txs[j], chain, h, chain[h].txs[j])
    {
      InListIs(chain, n(4 + 2 * i), h, i, db(4 + 2 * i), vins(i));
      var inputs := ReadInputs(db(4 + 2 * i), rows[i], vins(i), chain, h, chain[h].txs[i]);
      OutListIs(chain, n(5 + 2 * i), h, i, db(5 + 2 * i), vouts(i));
      var outputs := ReadOutputs(db(5 + 2 * i), rows[i], vouts(i), chain[h].txs[i]);
      txs := txs + [TxDetail(rows[i], db(3).txs[rows[i]].isCoinbase, db(3).txs[rows[i]].totalOut, inputs, outputs)];
    }
  }

  predicate Asked(w: Where, chain: seq<Block>, h: nat)
    requires h < |chain|
  {
    match w
    case ByHeight(x) => x == h
    case ByHash(x) => x == chain[h].hash
  }

  // The block rows of a committed index are the first n blocks of the chain.
  lemma Committed(chain: seq<Block>, n: nat, t: Tables, w: Where)
    requires ValidChain(chain) && n <= |chain| && t == IndexChain(EMPTY, chain, 0, n)
    ensures forall i :: 0 <= i < n ==> chain[i].hash in t.blocks && t.blocks[chain[i].hash].height == i
    ensures forall x :: x in t.blocks ==> exists i: nat :: i < n && chain[i].hash == x
    ensures forall i :: 0 <= i < n ==> (Matches(t, w, chain[i].hash) <==> Asked(w, chain, i))
  {
    hide Hist, Valid;
    IndexIsJoin(chain, n);
    BlockKeys(chain, n);
  }

  lemma BlockOf(chain: seq<Block>, n: nat, t: Tables, hash: string) returns (h: nat)
    requires ValidChain(chain) && n <= |chain| && t == IndexChain(EMPTY, chain, 0, n) && hash in t.blocks
    ensures h < n && chain[h].hash == hash && t.blocks[hash].height == h
  {
    hide Hist, Valid, IndexChain;
    Committed(chain, n, t, ByHash(hash));
    h :| h < n && chain[h].hash == hash;
  }

  lemma TipIs(chain: seq<Block>, n: nat, t: Tables, tip: int)
    requires ValidChain(chain) && 0 < n <= |chain| && t == IndexChain(EMPTY, chain, 0, n)
    requires t.blocks != map[] ==> exists x :: x in t.blocks && t.blocks[x].height == tip
    requires forall x :: x in t.blocks ==> t.blocks[x].height <= tip
    ensures tip == n - 1
  {
    hide Hist, Valid, IndexChain;
    Committed(chain, n, t, ByHeight(0));
    assert chain[n - 1].hash in t.blocks;
    var x :| x in t.blocks && t.blocks[x].height == tip;
    var h := BlockOf(chain, n, t, x);
  }

  // The inputs listed for a transaction of block h, at any later time, are its inputs in order, with the values and
  // addresses the chain gave them when the block was made.
  lemma InListIs(chain: seq<Block>, m: nat, h: nat, k: nat, t: Tables, vins: seq<int>)
    requires ValidChain(chain) && h < m <= |chain| && k < |chain[h].txs| && t == IndexChain(EMPTY, chain, 0, m)
    requires IsInList(vins, t, chain[h].txs[k].txid)
    ensures InRowsShow(vins, t, chain, h, chain[h].txs[k])
  {
    hide Hist, Valid, Created, Spends, Ins, SpecTxs, SpecInRow, ShowIn, SpecBlocks;
    IndexIsJoin(chain, m);
    var tx := chain[h].txs[k];
    forall i | 0 <= i < |vins| ensures 0 <= vins[i] < |tx.vin| {
      InputOf(chain, m, h, k, InKey(tx.txid, vins[i]));
    }
    forall v | 0 <= v < |tx.vin|
      ensures InKey(tx.txid, v) in t.inputs && v in vins
      ensures ShowsIn(ShowIn(t.inputs[InKey(tx.txid, v)]), chain, h, tx.vin[v])
    {
      InputKept(chain, m, h, k, v);
      InputShown(chain, h, k, v);
      assert InKey(tx.txid, v) in t.inputs;
    }
    Identity(vins, |tx.vin|);
  }

  // What an input row made in block h shows.
  lemma InputShown(chain: seq<Block>, h: nat, k: nat, v: nat)
    requires ValidChain(chain) && h < |chain| && k < |chain[h].txs| && v < |chain[h].txs[k].vin|
    ensures var i := chain[h].txs[k].vin[v]; ShowsIn(ShowIn(SpecInRow(i, Created(Hist(chain, h + 1)))), chain, h, i)
  {
    hide Hist, Valid, Created, Spends;
    var made := Hist(chain, h + 1);
    ValidHist(chain, h + 1);
    var y := FindPlaced(chain, h + 1, h, k);
    Lasting(made, y);
    if !IsCoinbase(made[y].tx) {
      SpendsLast(made, y, v);
    }
  }

  lemma InputOf(chain: seq<Block>, m: nat, h: nat, k: nat, key: InKey)
    requires ValidChain(chain) && h < m <= |chain| && k < |chain[h].txs|
    requires key in Ins(Hist(chain, m)) && key.txid == chain[h].txs[k].txid
    ensures 0 <= key.vin < |chain[h].txs[k].vin|
  {
    hide Hist, Valid, Ins;
    var hist := Hist(chain, m);
    ValidHist(chain, m);
    var x := FindPlaced(chain, m, h, k);
    var i := InputOwner(hist, key);
    if i < x { TxidsUnique(hist, i, x); } else if x < i { TxidsUnique(hist, x, i); }
  }

  // The row of an input is the same at every time after its block was indexed.
  lemma InputKept(chain: seq<Block>, m: nat, h: nat, k: nat, v: nat)
    requires ValidChain(chain) && h < m <= |chain| && k < |chain[h].txs| && v < |chain[h].txs[k].vin|
    ensures var tx, key := chain[h].txs[k], InKey(chain[h].txs[k].txid, v);
            && key in Ins(Hist(chain, m))
            && SpecInputs(Hist(chain, m))[key] == SpecInRow(tx.vin[v], Created(Hist(chain, h + 1)))
  {
    hide Hist, Valid, Created, Spends, Ins, SpecTxs, Blank;
    var now, made := Hist(chain, m), Hist(chain, h + 1);
    ValidHist(chain, m);
    ValidHist(chain, h + 1);
    HistPrefix(chain, h + 1, m);
    var x := FindPlaced(chain, m, h, k);
    var y := FindPlaced(chain, h + 1, h, k);
    RowsLast(now, x);
    Lasting(now, x);
    if !IsCoinbase(now[x].tx) {
      SpendsLast(now, x, v);
      SpendsLast(made, x, v);
      assert now[..x] == made[..x];
    }
  }

  // The same for outputs: spent columns change later, the columns shown do not.
  lemma OutListIs(chain: seq<Block>, m: nat, h: nat, k: nat, t: Tables, vouts: seq<int>)
    requires ValidChain(chain) && h < m <= |chain| && k < |chain[h].txs| && t == IndexChain(EMPTY, chain, 0, m)
    requires IsOutList(vouts, t, chain[h].txs[k].txid)
    ensures OutRowsShow(vouts, t, chain[h].txs[k])
  {
    hide Hist, Valid, Created, Spends, Ins, SpecTxs, SpecBlocks, Blank;
    IndexIsJoin(chain, m);
    var tx := chain[h].txs[k];
    assert KeysIn(vouts, t, tx.txid);
    forall o | o in ChainOuts(tx) ensures o in ShownOuts(vouts, t, tx.txid) {
      var j :| 0 <= j < |tx.vout| && o == ChainOut(tx.vout[j]);
      OutputKept(chain, m, h, k, j);
      var key := OutKey(tx.txid, tx.vout[j].n);
      assert key in t.outputs;
      var i :| 0 <= i < |vouts| && vouts[i] == key.vout;
      assert o == ShowOut(vouts[i], t.outputs[OutKey(tx.txid, vouts[i])]);
    }
    forall o | o in ShownOuts(vouts, t, tx.txid) ensures o in ChainOuts(tx) {
      var i :| 0 <= i < |vouts| && o == ShowOut(vouts[i], t.outputs[OutKey(tx.txid, vouts[i])]);
      var j := OutputOf(chain, m, h, k, OutKey(tx.txid, vouts[i]));
      OutputKept(chain, m, h, k, j);
      assert o == ChainOut(tx.vout[j]);
    }
  }

  lemma OutputKept(chain: seq<Block>, m: nat, h: nat, k: nat, j: nat)
    requires ValidChain(chain) && h < m <= |chain| && k < |chain[h].txs| && j < |chain[h].txs[k].vout|
    ensures var tx := chain[h].txs[k];
            var key := OutKey(tx.txid, tx.vout[j].n);
            key in Created(Hist(chain, m)) && Created(Hist(chain, m))[key] == tx.vout[j]
  {
    hide Hist, Valid, Created, Spends, Outs;
    ValidHist(chain, m);
    var x := FindPlaced(chain, m, h, k);
    Lasting(Hist(chain, m), x);
    CreatesOut(chain[h].txs[k], j);
  }

  lemma OutputOf(chain: seq<Block>, m: nat, h: nat, k: nat, key: OutKey) returns (j: nat)
    requires ValidChain(chain) && h < m <= |chain| && k < |chain[h].txs|
    requires key in Created(Hist(chain, m)) && key.txid == chain[h].txs[k].txid
    ensures j < |chain[h].txs[k].vout| && chain[h].txs[k].vout[j].n == key.vout
  {
    hide Hist, Valid, Created, Spends;
    var hist, tx := Hist(chain, m), chain[h].txs[k];
    ValidHist(chain, m);
    var x := FindPlaced(chain, m, h, k);
    var i := OutputOwner(hist, key);
    if i < x { TxidsUnique(hist, i, x); } else if x < i { TxidsUnique(hist, x, i); }
    Lasting(hist, x);
    OutsToMembers(tx, |tx.vout|);
    j :| 0 <= j < |tx.vout| && tx.vout[j].n == key.vout && OutsTo(tx, |tx.vout|)[key] == tx.vout[j];
  }

  ghost predicate RowShows(r: TxRow, txid: string, tx: Tx) {
    txid == tx.txid && r.isCoinbase == IsCoinbase(tx) && r.totalOut == TotalOut(tx.vout, |tx.vout|)
  }

  // The transactions listed for block h, at any later time, are those of block h, in block order.
  lemma TxListIs(chain: seq<Block>, n: nat, h: nat, t: Tables, rows: seq<string>)
    requires ValidChain(chain) && h < n <= |chain| && t == IndexChain(EMPTY, chain, 0, n)
    requires IsTxList(rows, t, chain[h].hash)
    ensures |rows| == |chain[h].txs|
    ensures forall k :: 0 <= k < |rows| ==>
              rows[k] in t.txs && RowShows(t.txs[rows[k]], rows[k], chain[h].txs[k])
  {
    hide Hist, Valid, Created, Spends, Ins, TotalOut;
    IndexIsJoin(chain, n);
    ValidHist(chain, n);
    var txs := chain[h].txs;
    forall k | 0 <= k < |txs|
      ensures txs[k].txid in t.txs && t.txs[txs[k].txid].blockHash == chain[h].hash && t.txs[txs[k].txid].position == k
      ensures RowShows(t.txs[txs[k].txid], txs[k].txid, txs[k])
    {
      var m := FindPlaced(chain, n, h, k);
      RowsLast(Hist(chain, n), m);
    }
    forall x | x in t.txs && t.txs[x].blockHash == chain[h].hash
      ensures exists k :: 0 <= k < |txs| && txs[k].txid == x
    {
      var k := TxInBlock(chain, n, h, x);
    }
    SortedList(rows, txs, map x | x in t.txs && t.txs[x].blockHash == chain[h].hash :: t.txs[x].position);
  }

  lemma TxInBlock(chain: seq<Block>, n: nat, h: nat, x: string) returns (k: nat)
    requires ValidChain(chain) && h < n <= |chain|
    requires x in SpecTxs(Hist(chain, n)) && SpecTxs(Hist(chain, n))[x].blockHash == chain[h].hash
    ensures k < |chain[h].txs| && chain[h].txs[k].txid == x
  {
    hide Hist, Valid, Created, Spends, Ins, TotalOut;
    var hist := Hist(chain, n);
    ValidHist(chain, n);
    TxKeys(hist);
    var m: nat :| m < |hist| && hist[m].tx.txid == x;
    RowsLast(hist, m);
    HistSorted(chain, n);
    var p := hist[m];
    assert p.height == h by {
      assert chain[p.height].hash == chain[h].hash;
    }
    k := p.pos;
  }

  // Rows listed by position, where position k belongs to the k-th transaction, are the transactions in order.
  lemma SortedList(rows: seq<string>, txs: seq<Tx>, pos: map<string, nat>)
    requires forall k :: 0 <= k < |txs| ==> txs[k].txid in pos && pos[txs[k].txid] == k
    requires forall x :: x in pos ==> exists k :: 0 <= k < |txs| && txs[k].txid == x
    requires forall i :: 0 <= i < |rows| ==> rows[i] in pos
    requires forall x :: x in pos ==> exists i :: 0 <= i < |rows| && rows[i] == x
    requires forall i, j :: 0 <= i < j < |rows| ==> rows[i] != rows[j] && pos[rows[i]] <= pos[rows[j]]
    ensures |rows| == |txs| && forall k :: 0 <= k < |rows| ==> rows[k] == txs[k].txid
  {
    var ps := seq(|rows|, i requires 0 <= i < |rows| => pos[rows[i]]);
    forall i | 0 <= i < |rows| ensures ps[i] < |txs| && rows[i] == txs[ps[i]].txid {
      var k :| 0 <= k < |txs| && txs[k].txid == rows[i];
    }
    forall v | 0 <= v < |txs| ensures v in ps {
      assert txs[v].txid in pos;
      var i :| 0 <= i < |rows| && rows[i] == txs[v].txid;
      assert ps[i] == v;
    }
    Identity(ps, |txs|);
  }

  // A strictly rising sequence that takes every value below n, and no other, counts 0 .. n - 1.
  lemma {:induction false} Identity(ps: seq<int>, n: nat)
    requires forall i, j :: 0 <= i < j < |ps| ==> ps[i] < ps[j]
    requires forall i :: 0 <= i < |ps| ==> 0 <= ps[i] < n
    requires forall v :: 0 <= v < n ==> v in ps
    ensures |ps| == n && forall i :: 0 <= i < n ==> ps[i] == i
  {
    assert |ps| > 0 ==> 0 <= ps[0] < n;
    if n == 0 {
    } else {
      assert n - 1 in ps;
      var i :| 0 <= i < |ps| && ps[i] == n - 1;
      var qs := ps[..|ps| - 1];
      assert forall j :: 0 <= j < |ps| - 1 ==> ps[j] < ps[|ps| - 1];
      assert i == |ps| - 1;
      forall v | 0 <= v < n - 1 ensures v in qs {
        assert v in ps && v != n - 1;
      }
      Identity(qs, n - 1);
    }
  }

  /******* The list of blocks *******/

  // All blocks, highest first.
  ghost predicate IsNewestFirst(rows: seq<string>, t: Tables) {
    && (forall i :: 0 <= i < |rows| ==> rows[i] in t.blocks)
    && (forall x :: x in t.blocks ==> exists i :: 0 <= i < |rows| && rows[i] == x)
    && (forall i, j :: 0 <= i < j < |rows| ==>
      rows[i] != rows[j] && t.blocks[rows[i]].height >= t.blocks[rows[j]].height)
  }

  // The list has one entry per block, from the tip down to block 0.
  lemma NewestFirst(chain: seq<Block>, n: nat, rows: seq<string>)
    requires ValidChain(chain) && n <= |chain| && IsNewestFirst(rows, IndexChain(EMPTY, chain, 0, n))
    ensures |rows| == n && forall i :: 0 <= i < n ==> rows[i] == chain[n - 1 - i].hash
  {
    hide ValidChain, IndexChain, IsNewestFirst;
    var t := IndexChain(EMPTY, chain, 0, n);
    ListedRows(rows, t);
    var hs := seq(|rows|, i requires 0 <= i < |rows| => t.blocks[rows[i]].height);
    forall i | 0 <= i < |rows| ensures 0 <= hs[i] < n && rows[i] == chain[hs[i]].hash {
      var h := BlockOf(chain, n, t, rows[i]);
    }
    forall v | 0 <= v < n ensures v in hs {
      Committed(chain, n, t, ByHeight(v));
      var i := ListedAt(rows, t, chain[v].hash);
      assert hs[i] == v;
    }
    CountDown(hs, n);
  }

  lemma ListedRows(rows: seq<string>, t: Tables)
    requires IsNewestFirst(rows, t)
    ensures forall i :: 0 <= i < |rows| ==> rows[i] in t.blocks
    ensures forall i, j :: 0 <= i < j < |rows| ==>
              rows[i] != rows[j] && t.blocks[rows[i]].height >= t.blocks[rows[j]].height
  {
  }

  lemma ListedAt(rows: seq<string>, t: Tables, x: string) returns (i: nat)
    requires IsNewestFirst(rows, t) && x in t.blocks
    ensures i < |rows| && rows[i] == x
  {
    i :| 0 <= i < |rows| && rows[i] == x;
  }

  // Heights that fall strictly, take every value below n, and no other, count down from n - 1.
  lemma CountDown(hs: seq<int>, n: nat)
    requires forall i, j :: 0 <= i < j < |hs| ==> hs[i] > hs[j]
    requires forall i :: 0 <= i < |hs| ==> 0 <= hs[i] < n
    requires forall v :: 0 <= v < n ==> v in hs
    ensures |hs| == n && forall i :: 0 <= i < n ==> hs[i] == n - 1 - i
  {
    var ps := seq(|hs|, i requires 0 <= i < |hs| => n - 1 - hs[i]);
    forall v | 0 <= v < n ensures v in ps {
      var u := n - 1 - v;
      assert u in hs;
      var i :| 0 <= i < |hs| && hs[i] == u;
      assert ps[i] == v;
    }
    Identity(ps, n);
    assert forall i :: 0 <= i < |hs| ==> ps[i] == n - 1 - hs[i];
  }

  // Page p of the home list shows exactly the 24 blocks at heights n - 1 - 24 (p - 1) and below, newest first.
  lemma HomePageHeights(chain: seq<Block>, n: nat, rows: seq<string>, page: nat, i: nat)
    requires ValidChain(chain) && n <= |chain| && IsNewestFirst(rows, IndexChain(EMPTY, chain, 0, n)) && page >= 1
    requires i < |Page(rows, HOME_PAGE_SIZE, page)|
    ensures var h := n - 1 - (page - 1) * 24 - i;
            0 <= h < n && Page(rows, HOME_PAGE_SIZE, page)[i] == chain[h].hash
  {
    hide ValidChain, IndexChain, IsNewestFirst;
    NewestFirst(chain, n, rows);
  }

  // The home page written to disk takes the best height for the number of blocks and always links page 2. For an
  // index of n blocks, its page count is right exactly when n does not spill one block onto a last page, and its link
  // leads to something exactly when there are more than 24 blocks.
  method StaticHomePage(t: Tables, ghost chain: seq<Block>, ghost n: nat, ghost rows: seq<string>)
    returns (totalPages: nat, nextPage: nat)
    requires ValidChain(chain) && n <= |chain| && t == IndexChain(EMPTY, chain, 0, n) && IsNewestFirst(rows, t)
    ensures totalPages == TotalPages(|rows|, 24) <==> n % 24 != 1
    ensures nextPage == 2 && (Page(rows, 24, nextPage) != [] <==> n > 24)
  {
    hide ValidChain, IndexChain, IsNewestFirst;
    var numBlocks := MaxHeight(t);
    NewestFirst(chain, n, rows);
    if n > 0 {
      TipIs(chain, n, t, numBlocks);
    } else {
      NoBlocks(chain);
    }
    totalPages, nextPage := (numBlocks + HOME_PAGE_SIZE - 1) / HOME_PAGE_SIZE, 2;
  }

  lemma NoBlocks(chain: seq<Block>)
    ensures IndexChain(EMPTY, chain, 0, 0).blocks == map[]
  {
  }
}
