// What the index promises its readers: it refines the UTXO semantics, and indexing a block again changes nothing.
module Refinement {
  import opened Options
  import opened Chain
  import opened Index

  /******* Tracing rows back to transactions *******/

  // The rows of the i-th transaction are still there at the end of the history.
  lemma {:induction false} RowsLast(h: seq<Placed>, i: nat)
    requires Valid(h) && i < |h|
    ensures h[i].tx.txid in SpecTxs(h) && SpecTxs(h)[h[i].tx.txid] == NewTxRow(h[i])
    ensures forall v :: 0 <= v < |h[i].tx.vin| ==>
              InKey(h[i].tx.txid, v) in Ins(h) && Ins(h)[InKey(h[i].tx.txid, v)] == h[i].tx.vin[v]
  {
    var g, p := h[..|h| - 1], h[|h| - 1];
    InsToMembers(p.tx, |p.tx.vin|);
    if i == |g| {
    } else {
      RowsLast(g, i);
      assert g[i] == h[i];
    }
  }

  lemma {:induction false} InputOwner(h: seq<Placed>, key: InKey) returns (i: nat)
    requires Valid(h) && key in Ins(h)
    ensures i < |h| && h[i].tx.txid == key.txid && 0 <= key.vin < |h[i].tx.vin| && Ins(h)[key] == h[i].tx.vin[key.vin]
  {
    var g, p := h[..|h| - 1], h[|h| - 1];
    InsToMembers(p.tx, |p.tx.vin|);
    if key in InsTo(p.tx, |p.tx.vin|) {
      i := |h| - 1;
    } else {
      i := InputOwner(g, key);
    }
  }

  lemma {:induction false} SpendOwner(h: seq<Placed>, key: OutKey) returns (i: nat, v: nat)
    requires Valid(h) && key in Spends(h)
    ensures i < |h| && !IsCoinbase(h[i].tx) && v < |h[i].tx.vin| && PrevOut(h[i].tx.vin[v]) == key
    ensures Spends(h)[key] == Spend(h[i].tx.txid, v, h[i].height)
  {
    var g, p := h[..|h| - 1], h[|h| - 1];
    RefsToMembers(p, |p.tx.vin|);
    if key in Refs(p) {
      i := |h| - 1;
      v :| 0 <= v < |p.tx.vin| && PrevOut(p.tx.vin[v]) == key && Refs(p)[key] == Spend(p.tx.txid, v, p.height);
    } else {
      i, v := SpendOwner(g, key);
    }
  }

  // The i-th transaction's inputs, if it is not a coinbase: each names a created output, and is the one that spends it.
  lemma SpendsLast(h: seq<Placed>, i: nat, v: nat)
    requires Valid(h) && i < |h| && !IsCoinbase(h[i].tx) && v < |h[i].tx.vin|
    ensures InputsFit(h[i].tx)
    ensures var key := PrevOut(h[i].tx.vin[v]);
            && key in Created(h) && key in Created(h[..i]) && Created(h[..i])[key] == Created(h)[key]
            && key in Spends(h) && Spends(h)[key] == Spend(h[i].tx.txid, v, h[i].height)
  {
    Lasting(h, i);
    RefsToMembers(h[i], |h[i].tx.vin|);
  }

  /******* The index refines the UTXO semantics *******/

  // The output an input row names, if any.
  ghost function Named(r: InRow): Option<OutKey> {
    if !r.isCoinbase && r.prevTxid.Some? && r.prevVout.Some?
    then Some(OutKey(r.prevTxid.value, r.prevVout.value))
    else None
  }

  // The input row a spent pointer leads to names that output, and sits at the recorded height.
  ghost predicate PointerSound(t: Tables, key: OutKey)
    requires key in t.outputs && t.outputs[key].spent.Some?
  {
    var s := t.outputs[key].spent.value;
    && InKey(s.txid, s.vin) in t.inputs && Named(t.inputs[InKey(s.txid, s.vin)]) == Some(key)
    && s.txid in t.txs && t.txs[s.txid].blockHeight == s.height
  }

  // A non-coinbase input row names an output row that points back to it, and carries that row's value and address.
  ghost predicate InputLinked(t: Tables, key: InKey)
    requires key in t.inputs
  {
    var r := t.inputs[key];
    && Named(r).Some? && Named(r).value in t.outputs && key.txid in t.txs
    && var o := t.outputs[Named(r).value];
    && o.spent == Some(Spend(key.txid, key.vin, t.txs[key.txid].blockHeight))
    && r.prevValue == Some(o.value)
    && r.prevAddress == o.address
  }

  lemma JoinPointerSound(blocks: map<string, BlockRow>, h: seq<Placed>, key: OutKey)
    requires Valid(h) && key in Spends(h)
    ensures key in Created(h) && PointerSound(Join(blocks, h), key)
  {
    KeysBelong(h);
    var i, v := SpendOwner(h, key);
    SpendsLast(h, i, v);
    RowsLast(h, i);
  }

  lemma JoinInputLinked(blocks: map<string, BlockRow>, h: seq<Placed>, key: InKey)
    requires Valid(h) && key in Ins(h) && !SpecInputs(h)[key].isCoinbase
    ensures InputLinked(Join(blocks, h), key)
  {
    var i := InputOwner(h, key);
    RowsLast(h, i);
    Lasting(h, i);
    SpendsLast(h, i, key.vin);
  }

  // After any valid chain: spent pointers and non-coinbase input rows are in one-to-one correspondence, every such
  // input carries the value and address of the output it spends, and an output is unspent exactly when no input names
  // it.
  lemma UtxoRefinement(chain: seq<Block>, n: nat)
    requires ValidChain(chain) && n <= |chain|
    ensures var t := IndexChain(EMPTY, chain, 0, n);
            && t.outputs.Keys == Created(Hist(chain, n)).Keys
            && (forall key :: key in t.outputs && t.outputs[key].spent.Some? ==> PointerSound(t, key))
            && (forall key :: key in t.inputs && !t.inputs[key].isCoinbase ==> InputLinked(t, key))
            && (forall key :: key in t.outputs ==>
                  (t.outputs[key].spent.None? <==> forall i :: i in t.inputs ==> Named(t.inputs[i]) != Some(key)))
  {
    hide Created, Spends, Ins, Valid, Hist, SpecTxs, SpecBlocks;
    var t, h := IndexChain(EMPTY, chain, 0, n), Hist(chain, n);
    IndexIsJoin(chain, n);
    ValidHist(chain, n);
    forall key | key in t.outputs && t.outputs[key].spent.Some? ensures PointerSound(t, key) {
      JoinPointerSound(SpecBlocks(chain, n), h, key);
    }
    forall key | key in t.inputs && !t.inputs[key].isCoinbase ensures InputLinked(t, key) {
      JoinInputLinked(SpecBlocks(chain, n), h, key);
    }
    forall key | key in t.outputs
      ensures t.outputs[key].spent.None? <==> forall i :: i in t.inputs ==> Named(t.inputs[i]) != Some(key)
    {
      if t.outputs[key].spent.None? {
        forall i | i in t.inputs ensures Named(t.inputs[i]) != Some(key) {
          assert Named(t.inputs[i]).Some? ==> InputLinked(t, i);
        }
      } else {
        assert PointerSound(t, key);
      }
    }
  }

  /******* Replay *******/

  // Everything indexing p would write is already in the tables.
  ghost predicate Settled(t: Tables, p: Placed) {
    && p.tx.txid in t.txs
    && (forall v :: 0 <= v < |p.tx.vin| ==> InKey(p.tx.txid, v) in t.inputs)
    && (forall j :: 0 <= j < |p.tx.vout| ==> OutKey(p.tx.txid, p.tx.vout[j].n) in t.outputs)
    && (!IsCoinbase(p.tx) ==> forall v :: 0 <= v < |p.tx.vin| ==> LinkSettled(t, p, v))
  }

  ghost predicate LinkSettled(t: Tables, p: Placed, v: nat)
    requires v < |p.tx.vin|
  {
    var i, key := p.tx.vin[v], InKey(p.tx.txid, v);
    && i.vout.Some? && PrevOut(i) in t.outputs && key in t.inputs
    && t.outputs[PrevOut(i)].spent == Some(Spend(p.tx.txid, v, p.height))
    && t.inputs[key].prevValue == Some(t.outputs[PrevOut(i)].value)
    && t.inputs[key].prevAddress == t.outputs[PrevOut(i)].address
  }

  lemma {:induction false} InsertInputsNoOp(t: map<InKey, InRow>, tx: Tx, k: nat)
    requires k <= |tx.vin| && forall v :: 0 <= v < |tx.vin| ==> InKey(tx.txid, v) in t
    ensures InsertInputs(t, tx, k) == t
  {
    if k == 0 {
    } else {
      InsertInputsNoOp(t, tx, k - 1);
    }
  }

  lemma {:induction false} InsertOutputsNoOp(t: map<OutKey, OutRow>, tx: Tx, k: nat)
    requires k <= |tx.vout| && forall j :: 0 <= j < |tx.vout| ==> OutKey(tx.txid, tx.vout[j].n) in t
    ensures InsertOutputs(t, tx, k) == t
  {
    if k == 0 {
    } else {
      InsertOutputsNoOp(t, tx, k - 1);
    }
  }

  lemma {:induction false} LinkNoOp(t: Tables, p: Placed, k: nat)
    requires k <= |p.tx.vin| && Settled(t, p) && !IsCoinbase(p.tx)
    ensures Link(t, p, k) == t
  {
    if k == 0 {
    } else {
      LinkNoOp(t, p, k - 1);
      assert LinkSettled(t, p, k - 1);
      var i, key := p.tx.vin[k - 1], InKey(p.tx.txid, k - 1);
      assert FillInput(t.inputs, key, LookUp(t.outputs, i)) == t.inputs;
      assert MarkSpent(t.outputs, i, Spend(p.tx.txid, k - 1, p.height)) == t.outputs;
    }
  }

  lemma SettledNoOp(t: Tables, p: Placed)
    requires Settled(t, p)
    ensures IndexTx(t, p) == t
  {
    InsertInputsNoOp(t.inputs, p.tx, |p.tx.vin|);
    InsertOutputsNoOp(t.outputs, p.tx, |p.tx.vout|);
    if !IsCoinbase(p.tx) {
      LinkNoOp(t, p, |p.tx.vin|);
    }
  }

  // However long the history has grown, each of its transactions is settled: no later spend is ever cleared.
  lemma JoinSettled(blocks: map<string, BlockRow>, h: seq<Placed>, i: nat)
    requires Valid(h) && i < |h|
    ensures Settled(Join(blocks, h), h[i])
  {
    hide Created, Spends, Ins, Valid, SpecTxs, Outs, Refs;
    var t, p := Join(blocks, h), h[i];
    RowsLast(h, i);
    Lasting(h, i);
    forall j | 0 <= j < |p.tx.vout| ensures OutKey(p.tx.txid, p.tx.vout[j].n) in t.outputs {
      CreatesOut(p.tx, j);
    }
    if !IsCoinbase(p.tx) {
      forall v | 0 <= v < |p.tx.vin| ensures LinkSettled(t, p, v) {
        SpendsLast(h, i, v);
      }
    }
  }

  lemma CreatesOut(tx: Tx, j: nat)
    requires WellFormed(tx) && j < |tx.vout|
    ensures OutKey(tx.txid, tx.vout[j].n) in Outs(tx) && Outs(tx)[OutKey(tx.txid, tx.vout[j].n)] == tx.vout[j]
  {
    OutsToMembers(tx, |tx.vout|);
  }

  // p and q agree on everything but the columns an existing row is not rewritten with.
  ghost predicate SameLinks(p: Placed, q: Placed) {
    && p.tx.txid == q.tx.txid && p.height == q.height && p.tx.vin == q.tx.vin
    && |p.tx.vout| == |q.tx.vout| && forall j :: 0 <= j < |p.tx.vout| ==> p.tx.vout[j].n == q.tx.vout[j].n
  }

  ghost predicate SameBlock(b: Block, c: Block) {
    && b.hash == c.hash && |b.txs| == |c.txs|
    && forall k :: 0 <= k < |b.txs| ==>
      SameLinks(Placed(b.txs[k], b.hash, b.height, k), Placed(c.txs[k], c.hash, c.height, k))
  }

  lemma {:induction false} ReplayTxs(t: Tables, b: Block, k: nat)
    requires k <= |b.txs| && forall j :: 0 <= j < |b.txs| ==> Settled(t, Placed(b.txs[j], b.hash, b.height, j))
    ensures IndexTxs(t, b, k) == t
  {
    if k == 0 {
    } else {
      ReplayTxs(t, b, k - 1);
      SettledNoOp(t, Placed(b.txs[k - 1], b.hash, b.height, k - 1));
    }
  }

  // The k-th transaction of block i, found in the history.
  lemma FindPlaced(chain: seq<Block>, n: nat, i: nat, k: nat) returns (m: nat)
    requires i < n <= |chain| && k < |chain[i].txs|
    ensures m == |Hist(chain, i)| + k
    ensures m < |Hist(chain, n)| && Hist(chain, n)[m] == Placed(chain[i].txs[k], chain[i].hash, chain[i].height, k)
  {
    m := |Hist(chain, i)| + k;
    PlaceAt(chain[i], |chain[i].txs|);
    HistPrefix(chain, i + 1, n);
  }

  // Indexing any block again, even with other addresses reported for its outputs, changes nothing.
  lemma Replay(chain: seq<Block>, n: nat, i: nat, b: Block)
    requires ValidChain(chain) && i < n <= |chain| && SameBlock(chain[i], b)
    ensures var t := IndexChain(EMPTY, chain, 0, n); IndexBlock(t, b) == t
  {
    hide Created, Spends, Ins, Valid, SpecTxs, Hist;
    var t, h := IndexChain(EMPTY, chain, 0, n), Hist(chain, n);
    IndexIsJoin(chain, n);
    ValidHist(chain, n);
    BlockKeys(chain, n);
    assert InsertBlockRow(t, b) == t;
    forall k | 0 <= k < |b.txs| ensures Settled(t, Placed(b.txs[k], b.hash, b.height, k)) {
      var m := FindPlaced(chain, n, i, k);
      JoinSettled(SpecBlocks(chain, n), h, m);
      SettledAlike(t, h[m], Placed(b.txs[k], b.hash, b.height, k));
    }
    ReplayTxs(t, b, |b.txs|);
  }

  lemma SettledAlike(t: Tables, p: Placed, q: Placed)
    requires Settled(t, p) && SameLinks(p, q)
    ensures Settled(t, q)
  {
    forall v | 0 <= v < |q.tx.vin| && !IsCoinbase(q.tx) ensures LinkSettled(t, q, v) {
      assert LinkSettled(t, p, v);
    }
  }
}
