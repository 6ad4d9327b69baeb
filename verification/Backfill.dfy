// The backfill tool: decode addresses into old output rows, then copy them onto the inputs that spend those outputs.
module Backfill {
  import opened Options
  import opened Chain
  import opened Index
  import opened Base58
  import opened Faults

  /******* What the two phases do to the tables *******/

  // A row the first phase looks at: no address yet, a script, and a type that can have an address.
  predicate Candidate(r: OutRow) {
    r.address.None? && r.scriptHex.Some? && (r.scriptType == Some("pubkeyhash") || r.scriptType == Some("scripthash"))
  }

  function Decoded(r: OutRow, sha: Sha): string
    requires Candidate(r)
  {
    DecodeScriptAddress(r.scriptType.value, r.scriptHex.value, sha)
  }

  function FillRow(r: OutRow, sha: Sha): OutRow {
    if Candidate(r) && Decoded(r, sha) != "" then r.(address := Some(Decoded(r, sha))) else r
  }

  function FillInRow(r: InRow, outputs: map<OutKey, OutRow>): InRow {
    if r.prevTxid.Some? && r.prevVout.Some? && OutKey(r.prevTxid.value, r.prevVout.value) in outputs
       && !r.isCoinbase && (r.prevValue.None? || r.prevAddress.None?)
       && outputs[OutKey(r.prevTxid.value, r.prevVout.value)].address.Some?
    then
      var o := outputs[OutKey(r.prevTxid.value, r.prevVout.value)];
      r.(prevValue := Some(o.value), prevAddress := o.address)
    else r
  }

  function Phase1(outputs: map<OutKey, OutRow>, sha: Sha): map<OutKey, OutRow> {
    map k | k in outputs :: FillRow(outputs[k], sha)
  }

  function Phase2(inputs: map<InKey, InRow>, outputs: map<OutKey, OutRow>): map<InKey, InRow> {
    map k | k in inputs :: FillInRow(inputs[k], outputs)
  }

  function Fill(t: Tables, sha: Sha): Tables {
    t.(outputs := Phase1(t.outputs, sha), inputs := Phase2(t.inputs, Phase1(t.outputs, sha)))
  }

  // An input row takes the value and address of the output it names exactly if it is no coinbase, lacks one of the two,
  // and that output has an address; nothing else about it changes.
  lemma InputFilled(r: InRow, outputs: map<OutKey, OutRow>, x: OutKey)
    requires r.prevTxid == Some(x.txid) && r.prevVout == Some(x.vout)
    ensures var eligible := !r.isCoinbase && (r.prevValue == None || r.prevAddress == None) && x in outputs
                            && outputs[x].address != None;
            var after := FillInRow(r, outputs);
            && (!eligible ==> after == r)
            && (eligible ==> after.prevValue == Some(outputs[x].value) && after.prevAddress == outputs[x].address)
            && after.prevTxid == r.prevTxid && after.prevVout == r.prevVout && after.scriptSig == r.scriptSig
            && after.sequence == r.sequence && after.isCoinbase == r.isCoinbase && after.coinbaseHex == r.coinbaseHex
  {
  }

  /******* The tool *******/

  datatype Found = Found(key: OutKey, scriptType: string, scriptHex: string)
  datatype Update = Update(key: OutKey, addr: string)

  // Rows of the SELECT, in whatever order the database returns them. The tool does not check whether the result
  // stream broke off, so these may be only some of the rows.
  ghost predicate FromSelect(rows: seq<Found>, outputs: map<OutKey, OutRow>) {
    forall i :: 0 <= i < |rows| ==>
      && rows[i].key in outputs && Candidate(outputs[rows[i].key])
      && Some(rows[i].scriptType) == outputs[rows[i].key].scriptType
      && Some(rows[i].scriptHex) == outputs[rows[i].key].scriptHex
  }

  // The stream delivered every row that has an address to be filled in.
  ghost predicate AllDelivered(rows: seq<Found>, outputs: map<OutKey, OutRow>, sha: Sha) {
    forall k :: k in outputs && Candidate(outputs[k]) && Decoded(outputs[k], sha) != "" ==> k in Delivered(rows)
  }

  // A phase that reports success has done all its work exactly when the stream did not break off before such a row.
  lemma CompleteExactly(outputs: map<OutKey, OutRow>, rows: seq<Found>, sha: Sha)
    ensures FillThese(outputs, Delivered(rows), sha) == Phase1(outputs, sha) <==> AllDelivered(rows, outputs, sha)
  {
    hide DecodeScriptAddress;
    if FillThese(outputs, Delivered(rows), sha) == Phase1(outputs, sha) {
      forall k | k in outputs && Candidate(outputs[k]) && Decoded(outputs[k], sha) != "" ensures k in Delivered(rows) {
        assert FillThese(outputs, Delivered(rows), sha)[k] == Phase1(outputs, sha)[k];
      }
    }
  }

  // A table for which it does not: one P2PKH output, and a stream that broke off at once.
  lemma RowLeftOver(sha: Sha) returns (outputs: map<OutKey, OutRow>, rows: seq<Found>)
    ensures |outputs| == 1 && rows == []
    ensures FromSelect(rows, outputs) && FillThese(outputs, Delivered(rows), sha) != Phase1(outputs, sha)
  {
    var hash20: seq<Byte> := seq(20, i => 0);
    var script: seq<Byte> := [0x76, 0xa9, 0x14] + hash20 + [0x88, 0xac];
    var hex := HexEncode(script);
    HexRoundTrip(script);
    assert script[3..23] == hash20;
    AddressShape(hash20, sha);
    var row := OutRow(0, Some("pubkeyhash"), Some(hex), None, None);
    outputs, rows := map[OutKey("t", 0) := row], [];
    assert DecodeScriptAddress("pubkeyhash", hex, sha) != "" by {
      assert IsP2pkh(script);
    }
    CompleteExactly(outputs, rows, sha);
    assert OutKey("t", 0) in outputs && Decoded(row, sha) != "";
  }

  // The rows the stream delivered, and the table once exactly those are filled.
  ghost function Delivered(rows: seq<Found>): set<OutKey> {
    set i | 0 <= i < |rows| :: rows[i].key
  }

  function FillThese(outputs: map<OutKey, OutRow>, keys: set<OutKey>, sha: Sha): map<OutKey, OutRow> {
    map k | k in outputs :: if k in keys then FillRow(outputs[k], sha) else outputs[k]
  }

  // Rows outside a set of keys are as they were.
  ghost predicate Untouched(was: map<OutKey, OutRow>, after: map<OutKey, OutRow>, keys: set<OutKey>) {
    forall k :: k in was && k in after && k !in keys ==> after[k] == was[k]
  }

  // Some rows have been filled, the others not yet.
  ghost predicate Partly(was: map<OutKey, OutRow>, after: map<OutKey, OutRow>, sha: Sha) {
    after.Keys == was.Keys && forall k :: k in was ==> after[k] == was[k] || after[k] == FillRow(was[k], sha)
  }

  ghost predicate DoneFor(was: map<OutKey, OutRow>, after: map<OutKey, OutRow>, sha: Sha, key: OutKey)
  {
    key in was && key in after && after[key] == FillRow(was[key], sha)
  }

  ghost predicate Pending(was: map<OutKey, OutRow>, batch: seq<Update>, sha: Sha) {
    forall i :: 0 <= i < |batch| ==>
      batch[i].key in was && Candidate(was[batch[i].key]) && batch[i].addr == Decoded(was[batch[i].key], sha) != ""
  }

  // What a run leaves that may have been interrupted or cut short: some outputs filled, and the inputs either
  // untouched or filled from those.
  ghost predicate Stopped(t: Tables, u: Tables, sha: Sha) {
    && u.blocks == t.blocks && u.txs == t.txs
    && Partly(t.outputs, u.outputs, sha)
    && (u.inputs == t.inputs || u.inputs == Phase2(t.inputs, u.outputs))
  }

  // The row is filled already, or will be by the pending batch.
  ghost predicate Covered(was: map<OutKey, OutRow>, after: map<OutKey, OutRow>, sha: Sha, batch: seq<Update>,
                          key: OutKey) {
    DoneFor(was, after, sha, key) || exists u :: 0 <= u < |batch| && batch[u].key == key
  }

  lemma CoverOne(was: map<OutKey, OutRow>, after: map<OutKey, OutRow>, sha: Sha, batch: seq<Update>, u: Update)
    ensures forall k :: Covered(was, after, sha, batch, k) ==> Covered(was, after, sha, batch + [u], k)
    ensures Covered(was, after, sha, batch + [u], u.key)
  {
    assert (batch + [u])[|batch|].key == u.key;
    forall k | Covered(was, after, sha, batch, k) ensures Covered(was, after, sha, batch + [u], k) {
      if !DoneFor(was, after, sha, k) {
        var i :| 0 <= i < |batch| && batch[i].key == k;
        assert (batch + [u])[i].key == k;
      }
    }
  }

  lemma UntouchedNone(was: map<OutKey, OutRow>, keys: set<OutKey>)
    ensures Untouched(was, was, keys)
  {
  }

  lemma PartlyNone(was: map<OutKey, OutRow>, sha: Sha)
    ensures Partly(was, was, sha)
  {
  }

  lemma Selected(rows: seq<Found>, was: map<OutKey, OutRow>, i: nat)
    requires FromSelect(rows, was) && i < |rows|
    ensures rows[i].key in was && Candidate(was[rows[i].key])
    ensures was[rows[i].key].scriptType == Some(rows[i].scriptType)
            && was[rows[i].key].scriptHex == Some(rows[i].scriptHex)
  {
  }

  // A row whose script has no address stays as it is, and that is what filling it means.
  lemma LeftAlone(was: map<OutKey, OutRow>, after: map<OutKey, OutRow>, sha: Sha, batch: seq<Update>, key: OutKey)
    requires Partly(was, after, sha) && key in was && Candidate(was[key]) && Decoded(was[key], sha) == ""
    ensures Covered(was, after, sha, batch, key)
  {
  }

  lemma Flushed(was: map<OutKey, OutRow>, mid: map<OutKey, OutRow>, after: map<OutKey, OutRow>, sha: Sha,
                batch: seq<Update>)
    requires forall k :: DoneFor(was, mid, sha, k) ==> DoneFor(was, after, sha, k)
    requires forall i :: 0 <= i < |batch| ==> DoneFor(was, after, sha, batch[i].key)
    ensures forall k :: Covered(was, mid, sha, batch, k) ==> Covered(was, after, sha, [], k)
  {
  }

  lemma OthersUntouched(was: map<OutKey, OutRow>, mid: map<OutKey, OutRow>, after: map<OutKey, OutRow>, sha: Sha,
                        batch: seq<Update>, keys: set<OutKey>)
    requires Partly(was, mid, sha) && Untouched(was, mid, keys) && forall i :: 0 <= i < |batch| ==> batch[i].key in keys
    requires forall k :: k in mid && (forall i :: 0 <= i < |batch| ==> batch[i].key != k) ==>
             k in after && after[k] == mid[k]
    ensures Untouched(was, after, keys)
  {
  }

  // Once every delivered row is covered and nothing is pending, exactly the delivered rows are filled.
  lemma NonePending(was: map<OutKey, OutRow>, after: map<OutKey, OutRow>, sha: Sha, rows: seq<Found>)
    requires Partly(was, after, sha) && Untouched(was, after, Delivered(rows))
    requires forall j :: 0 <= j < |rows| ==> Covered(was, after, sha, [], rows[j].key)
    ensures after == FillThese(was, Delivered(rows), sha)
  {
  }

  // Every row of the batch is filled.
  ghost predicate AllDone(was: map<OutKey, OutRow>, after: map<OutKey, OutRow>, sha: Sha, batch: seq<Update>) {
    forall i :: 0 <= i < |batch| ==> DoneFor(was, after, sha, batch[i].key)
  }

  lemma JustDone(was: map<OutKey, OutRow>, after: map<OutKey, OutRow>, sha: Sha, batch: seq<Update>)
    requires forall i :: 0 <= i < |batch| ==> DoneFor(was, after, sha, batch[i].key)
    ensures AllDone(was, after, sha, batch)
  {
  }

  lemma StillDone(was: map<OutKey, OutRow>, mid: map<OutKey, OutRow>, after: map<OutKey, OutRow>, sha: Sha,
                  sent: seq<seq<Update>>)
    requires forall k :: DoneFor(was, mid, sha, k) ==> DoneFor(was, after, sha, k)
    ensures forall i :: 0 <= i < |sent| && AllDone(was, mid, sha, sent[i]) ==> AllDone(was, after, sha, sent[i])
  {
  }

  class Tool {
    const env: Env
    const sha: Sha
    var inputs: map<InKey, InRow>
    var outputs: map<OutKey, OutRow>

    constructor (env: Env, sha: Sha, inputs: map<InKey, InRow>, outputs: map<OutKey, OutRow>)
      ensures this.env == env && this.sha == sha && this.inputs == inputs && this.outputs == outputs
    {
      this.env, this.sha, this.inputs, this.outputs := env, sha, inputs, outputs;
    }

    // One transaction of UPDATEs: installed whole, or not at all.
    method Flush(batch: seq<Update>, ghost was: map<OutKey, OutRow>) returns (e: Option<Error>)
      requires Partly(was, outputs, sha) && Pending(was, batch, sha)
      modifies this`outputs, env`now
      ensures e.None? <==> env.Calm(old(env.now), env.now)
      ensures env.now >= old(env.now)
      ensures Partly(was, outputs, sha)
      ensures forall k :: DoneFor(was, old(outputs), sha, k) ==> DoneFor(was, outputs, sha, k)
      ensures e.None? ==> forall i :: 0 <= i < |batch| ==> DoneFor(was, outputs, sha, batch[i].key)
      ensures forall k :: k in old(outputs) && (forall i :: 0 <= i < |batch| ==> batch[i].key != k) ==>
                k in outputs && outputs[k] == old(outputs)[k]
    {
      hide DecodeScriptAddress;
      if |batch| == 0 {
        return None;
      }
      e := env.Call();
      if e.Some? {
        return;
      }
      var work := outputs;
      for i := 0 to |batch|
        invariant env.Calm(old(env.now), env.now) && env.now >= old(env.now) && outputs == old(outputs)
        invariant Partly(was, work, sha)
        invariant forall k :: DoneFor(was, outputs, sha, k) ==> DoneFor(was, work, sha, k)
        invariant forall j :: 0 <= j < i ==> DoneFor(was, work, sha, batch[j].key)
        invariant forall k :: k in outputs && (forall j :: 0 <= j < |batch| ==> batch[j].key != k) ==>
                  work[k] == outputs[k]
      {
        e := env.Call();
        if e.Some? {
          return;
        }
        var u := batch[i];
        if u.key in work {
          work := work[u.key := work[u.key].(address := Some(u.addr))];
        }
        assert work[u.key] == FillRow(was[u.key], sha);
      }
      var installed;
      e, installed := env.Commit();
      if installed {
        outputs := work;
      }
    }

    // `sent` lists the batches flushed: all of batchSize rows but the last, and each but the last of them done for
    // good.
    method BackfillOutputAddresses(rows: seq<Found>, batchSize: int)
      returns (e: Option<Error>, ghost sent: seq<seq<Update>>)
      requires FromSelect(rows, outputs)
      modifies this`outputs, env`now
      ensures e.None? <==> env.Calm(old(env.now), env.now)
      ensures env.now >= old(env.now)
      ensures Partly(old(outputs), outputs, sha)
      ensures Untouched(old(outputs), outputs, Delivered(rows))
      ensures e.None? ==> outputs == FillThese(old(outputs), Delivered(rows), sha)
      ensures forall i :: 0 <= i < |sent| - 1 ==>
                |sent[i]| == (if batchSize < 1 then 1 else batchSize) && AllDone(old(outputs), outputs, sha, sent[i])
      ensures sent != [] ==> |sent[|sent| - 1]| <= if batchSize < 1 then 1 else batchSize
    {
      hide DecodeScriptAddress, FromSelect, Covered, DoneFor, Partly, Untouched, AllDone;
      sent := [];
      ghost var was := outputs;
      var batch: seq<Update> := [];
      PartlyNone(was, sha);
      UntouchedNone(was, Delivered(rows));
      e := env.Call();
      if e.Some? {
        return;
      }
      for i := 0 to |rows|
        invariant env.Calm(old(env.now), env.now) && env.now >= old(env.now)
        invariant Partly(was, outputs, sha) && Pending(was, batch, sha)
        invariant Untouched(was, outputs, Delivered(rows))
        invariant forall u :: 0 <= u < |batch| ==> batch[u].key in Delivered(rows)
        invariant forall j :: 0 <= j < i ==> Covered(was, outputs, sha, batch, rows[j].key)
        invariant |batch| == 0 || |batch| < batchSize
        invariant forall j :: 0 <= j < |sent| ==>
                    |sent[j]| == (if batchSize < 1 then 1 else batchSize) && AllDone(was, outputs, sha, sent[j])
      {
        Selected(rows, was, i);
        var addr := DecodeScriptAddress(rows[i].scriptType, rows[i].scriptHex, sha);
        if addr == "" {
          LeftAlone(was, outputs, sha, batch, rows[i].key);
          continue;
        }
        CoverOne(was, outputs, sha, batch, Update(rows[i].key, addr));
        batch := batch + [Update(rows[i].key, addr)];
        if |batch| >= batchSize {
          ghost var covered := outputs;
          e := Flush(batch, was);
          StillDone(was, covered, outputs, sha, sent);
          sent := sent + [batch];
          OthersUntouched(was, covered, outputs, sha, batch, Delivered(rows));
          if e.Some? {
            return;
          }
          Flushed(was, covered, outputs, sha, batch);
          assert AllDone(was, outputs, sha, batch) by { JustDone(was, outputs, sha, batch); }
          batch := [];
        }
      }
      ghost var covered := outputs;
      e := Flush(batch, was);
      StillDone(was, covered, outputs, sha, sent);
      if |batch| > 0 {
        sent := sent + [batch];
      }
      OthersUntouched(was, covered, outputs, sha, batch, Delivered(rows));
      if e.None? {
        Flushed(was, covered, outputs, sha, batch);
        NonePending(was, outputs, sha, rows);
      }
    }

    method BackfillInputAddresses() returns (e: Option<Error>)
      modifies this`inputs, env`now
      ensures e.None? <==> env.Calm(old(env.now), env.now)
      ensures env.now >= old(env.now)
      ensures inputs == old(inputs) || inputs == Phase2(old(inputs), outputs)
      ensures e.None? ==> inputs == Phase2(old(inputs), outputs)
    {
      var installed;
      e, installed := env.Commit();
      if installed {
        inputs := Phase2(inputs, outputs);
      }
    }

    ghost function View(): Tables
      reads this
    {
      Tables(map[], map[], inputs, outputs)
    }

    // Both phases; the second runs only if the first succeeded.
    method BackfillAll(rows: seq<Found>, batchSize: int) returns (e: Option<Error>)
      requires FromSelect(rows, outputs)
      modifies this`inputs, this`outputs, env`now
      ensures e.None? <==> env.Calm(old(env.now), env.now)
      ensures Stopped(old(View()), View(), sha)
      // both phases over what was delivered; all of the work exactly when AllDelivered, by CompleteExactly
      ensures e.None? ==>
                outputs == FillThese(old(outputs), Delivered(rows), sha) && inputs == Phase2(old(inputs), outputs)
      ensures e.None? && AllDelivered(rows, old(outputs), sha) ==> View() == Fill(old(View()), sha)
    {
      hide FromSelect, Partly, Phase1, Phase2, FillThese, AllDelivered;
      CompleteExactly(outputs, rows, sha);
      ghost var sent;
      e, sent := BackfillOutputAddresses(rows, batchSize);
      if e.None? {
        e := BackfillInputAddresses();
      }
    }
  }
}
