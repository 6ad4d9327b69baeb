// What every column of a committed index holds, read off the chain alone: no term of the writer occurs here.
module Columns {
  import opened Options
  import opened Sums
  import opened Chain
  import opened Index
  import opened Refinement
  import opened Balances
  import opened BlockPage

  // The value a text column gets: NULL for a text with nothing but white space in it.
  ghost function Stored(s: string): Option<string> {
    if Trim(s) == "" then None else Some(s)
  }

  lemma StoredIs(s: string)
    ensures NullIfEmpty(s) == Stored(s)
  {
    TrimBlank(s);
  }

  // Block i has a transaction k, with an input v.
  ghost predicate HasTx(chain: seq<Block>, n: nat, i: nat, k: nat) {
    i < n <= |chain| && k < |chain[i].txs|
  }

  ghost predicate HasIn(chain: seq<Block>, n: nat, i: nat, k: nat, v: nat) {
    HasTx(chain, n, i, k) && v < |chain[i].txs[k].vin|
  }

  ghost predicate HasOut(chain: seq<Block>, n: nat, i: nat, k: nat, j: nat) {
    HasTx(chain, n, i, k) && j < |chain[i].txs[k].vout|
  }

  // The input names that output.
  ghost predicate Names(i: TxIn, tx: Tx, o: TxOut) {
    i.coinbase == "" && i.txid == tx.txid && i.vout == Some(o.n)
  }

  /******* Blocks *******/

  lemma BlockColumns(chain: seq<Block>, n: nat, i: nat)
    requires ValidChain(chain) && i < n <= |chain|
    ensures var t, b := IndexChain(EMPTY, chain, 0, n), chain[i];
            && b.hash in t.blocks
            && t.blocks[b.hash].height == i
            && t.blocks[b.hash].prevHash == Stored(b.prevHash)
            && t.blocks[b.hash].txCount == |b.txs| == |set x | x in t.txs && t.txs[x].blockHash == b.hash|
  {
    hide Hist, Valid, SpecTxs;
    IndexIsJoin(chain, n);
    BlockKeys(chain, n);
    StoredIs(chain[i].prevHash);
    BlockTxids(chain, n, i);
    CountDistinct(chain[i].txs, |chain[i].txs|);
  }

  lemma OnlyBlocks(chain: seq<Block>, n: nat, hash: string)
    requires ValidChain(chain) && n <= |chain|
    ensures hash in IndexChain(EMPTY, chain, 0, n).blocks <==> exists i: nat :: i < n && chain[i].hash == hash
  {
    hide Hist, Valid;
    IndexIsJoin(chain, n);
    BlockKeys(chain, n);
  }

  ghost function Txids(txs: seq<Tx>, k: nat): set<string>
    requires k <= |txs|
  {
    set j | 0 <= j < k :: txs[j].txid
  }

  lemma BlockTxids(chain: seq<Block>, n: nat, i: nat)
    requires ValidChain(chain) && i < n <= |chain|
    ensures var txs, hash := SpecTxs(Hist(chain, n)), chain[i].hash;
            (set x | x in txs && txs[x].blockHash == hash) == Txids(chain[i].txs, |chain[i].txs|)
    ensures forall j, k :: 0 <= j < k < |chain[i].txs| ==> chain[i].txs[j].txid != chain[i].txs[k].txid
  {
    hide Hist, Valid, SpecTxs;
    var h, b := Hist(chain, n), chain[i];
    ValidHist(chain, n);
    forall x | x in SpecTxs(h) && SpecTxs(h)[x].blockHash == b.hash ensures x in Txids(b.txs, |b.txs|) {
      var k := TxInBlock(chain, n, i, x);
    }
    forall k | 0 <= k < |b.txs|
      ensures b.txs[k].txid in SpecTxs(h) && SpecTxs(h)[b.txs[k].txid].blockHash == b.hash
    {
      var m := FindPlaced(chain, n, i, k);
      RowsLast(h, m);
    }
    forall j, k | 0 <= j < k < |b.txs| ensures b.txs[j].txid != b.txs[k].txid {
      var x := FindPlaced(chain, n, i, j);
      var y := FindPlaced(chain, n, i, k);
      TxidsUnique(h, x, y);
    }
  }

  lemma {:induction false} CountDistinct(txs: seq<Tx>, k: nat)
    requires k <= |txs| && forall i, j :: 0 <= i < j < |txs| ==> txs[i].txid != txs[j].txid
    ensures |Txids(txs, k)| == k
  {
    if k == 0 {
    } else {
      CountDistinct(txs, k - 1);
      assert txs[k - 1].txid !in Txids(txs, k - 1);
      assert Txids(txs, k) == Txids(txs, k - 1) + {txs[k - 1].txid};
    }
  }

  /******* Transactions *******/

  // The values of the first k outputs, by position.
  ghost function OutValues(outs: seq<TxOut>, k: nat): map<int, int>
    requires k <= |outs|
  {
    map j | 0 <= j < k :: outs[j].value
  }

  lemma TotalNone()
    ensures Total<int>(map[]) == 0
  {
  }

  lemma {:induction false} SumsOutputs(outs: seq<TxOut>, k: nat)
    requires k <= |outs|
    ensures TotalOut(outs, k) == Total(OutValues(outs, k))
  {
    hide Total;
    if k == 0 {
      assert OutValues(outs, 0) == map[];
      TotalNone();
    } else {
      SumsOutputs(outs, k - 1);
      TotalInsert(OutValues(outs, k - 1), k - 1, outs[k - 1].value);
      assert OutValues(outs, k) == OutValues(outs, k - 1)[k - 1 := outs[k - 1].value];
    }
  }

  lemma TxColumns(chain: seq<Block>, n: nat, i: nat, k: nat)
    requires ValidChain(chain) && HasTx(chain, n, i, k)
    ensures var t, tx := IndexChain(EMPTY, chain, 0, n), chain[i].txs[k];
            && tx.txid in t.txs
            && t.txs[tx.txid].blockHash == chain[i].hash
            && t.txs[tx.txid].blockHeight == i
            && t.txs[tx.txid].position == k
            && t.txs[tx.txid].isCoinbase == (|tx.vin| > 0 && tx.vin[0].coinbase != "")
            && t.txs[tx.txid].totalOut == Total(OutValues(tx.vout, |tx.vout|))
  {
    hide Hist, Valid, SpecTxs;
    IndexIsJoin(chain, n);
    ValidHist(chain, n);
    var m := FindPlaced(chain, n, i, k);
    RowsLast(Hist(chain, n), m);
    SumsOutputs(chain[i].txs[k].vout, |chain[i].txs[k].vout|);
  }

  lemma OnlyTxs(chain: seq<Block>, n: nat, txid: string)
    requires ValidChain(chain) && n <= |chain|
    ensures txid in IndexChain(EMPTY, chain, 0, n).txs <==>
            exists i: nat, k: nat :: HasTx(chain, n, i, k) && chain[i].txs[k].txid == txid
  {
    hide Hist, Valid, SpecTxs;
    IndexIsJoin(chain, n);
    ValidHist(chain, n);
    TxKeys(Hist(chain, n));
    if txid in SpecTxs(Hist(chain, n)) {
      var m: nat :| m < |Hist(chain, n)| && Hist(chain, n)[m].tx.txid == txid;
      var i, k := PlaceOf(chain, n, m);
    }
    forall i: nat, k: nat | HasTx(chain, n, i, k) && chain[i].txs[k].txid == txid
      ensures txid in SpecTxs(Hist(chain, n))
    {
      var m := FindPlaced(chain, n, i, k);
      RowsLast(Hist(chain, n), m);
    }
  }

  // Where the m-th transaction of the history stands.
  lemma PlaceOf(chain: seq<Block>, n: nat, m: nat) returns (i: nat, k: nat)
    requires ValidChain(chain) && n <= |chain| && m < |Hist(chain, n)|
    ensures HasTx(chain, n, i, k) && Hist(chain, n)[m] == Placed(chain[i].txs[k], chain[i].hash, i, k)
  {
    hide Hist, Valid;
    HistSorted(chain, n);
    i, k := Hist(chain, n)[m].height, Hist(chain, n)[m].pos;
  }

  /******* Inputs *******/

  // An output of an earlier transaction, possibly of the same block.
  ghost predicate EarlierOut(chain: seq<Block>, n: nat, i: nat, k: nat, i0: nat, k0: nat, j0: nat) {
    HasOut(chain, n, i0, k0, j0) && (i0 < i || (i0 == i && k0 < k))
  }

  // The row of an input that spends that output.
  ghost predicate SpendingRow(r: InRow, i: TxIn, tx: Tx, o: TxOut) {
    && Names(i, tx, o)
    && r.prevTxid == Some(tx.txid) && r.prevVout == Some(o.n)
    && r.prevValue == Some(o.value) && r.prevAddress == Stored(o.address)
  }

  lemma InColumns(chain: seq<Block>, n: nat, i: nat, k: nat, v: nat)
    requires ValidChain(chain) && HasIn(chain, n, i, k, v)
    ensures var t, tx := IndexChain(EMPTY, chain, 0, n), chain[i].txs[k];
            var vin, key := tx.vin[v], InKey(tx.txid, v);
            && key in t.inputs
            && t.inputs[key].sequence == vin.sequence
            && t.inputs[key].isCoinbase == (vin.coinbase != "")
            && (vin.coinbase != "" ==>
                  && t.inputs[key].coinbaseHex == Some(vin.coinbase) && t.inputs[key].scriptSig == None
                  && t.inputs[key].prevTxid == None && t.inputs[key].prevVout == None
                  && t.inputs[key].prevValue == None && t.inputs[key].prevAddress == None)
            && (vin.coinbase == "" ==>
                  && t.inputs[key].coinbaseHex == None && t.inputs[key].scriptSig == Stored(vin.scriptSig)
                  && exists i0: nat, k0: nat, j0: nat ::
                       && EarlierOut(chain, n, i, k, i0, k0, j0)
                       && SpendingRow(t.inputs[key], vin, chain[i0].txs[k0], chain[i0].txs[k0].vout[j0]))
  {
    hide Hist, Valid, SpecTxs, Created, Spends, Ins;
    var h, tx := Hist(chain, n), chain[i].txs[k];
    var vin := tx.vin[v];
    IndexIsJoin(chain, n);
    ValidHist(chain, n);
    var m := FindPlaced(chain, n, i, k);
    RowsLast(h, m);
    Lasting(h, m);
    StoredIs(vin.scriptSig);
    if vin.coinbase == "" {
      SpendsLast(h, m, v);
      StoredIs(vin.txid);
      var i0, k0, j0 := SpentFrom(chain, n, i, k, v, m);
      StoredIs(chain[i0].txs[k0].vout[j0].address);
    }
  }

  // The output an input spends, found in the chain before it.
  lemma SpentFrom(chain: seq<Block>, n: nat, i: nat, k: nat, v: nat, m: nat) returns (i0: nat, k0: nat, j0: nat)
    requires ValidChain(chain) && HasIn(chain, n, i, k, v) && chain[i].txs[k].vin[v].coinbase == ""
    requires m < |Hist(chain, n)| && Hist(chain, n)[m] == Placed(chain[i].txs[k], chain[i].hash, i, k)
    requires !IsCoinbase(chain[i].txs[k])
    ensures EarlierOut(chain, n, i, k, i0, k0, j0)
    ensures var tx0, vin := chain[i0].txs[k0], chain[i].txs[k].vin[v];
            && Names(vin, tx0, tx0.vout[j0])
            && PrevOut(vin) in Created(Hist(chain, n)) && Created(Hist(chain, n))[PrevOut(vin)] == tx0.vout[j0]
  {
    hide Hist, Valid, Created, Spends;
    var h, vin := Hist(chain, n), chain[i].txs[k].vin[v];
    ValidHist(chain, n);
    SpendsLast(h, m, v);
    ValidPrefix(h, m);
    var m0 := OutputOwner(h[..m], PrevOut(vin));
    i0, k0 := PlaceOf(chain, n, m0);
    HistSorted(chain, n);
    assert Earlier(h[m0], h[m]);
    Lasting(h, m0);
    j0 := OutAt(h[m0].tx, PrevOut(vin));
  }

  lemma OutAt(tx: Tx, key: OutKey) returns (j: nat)
    requires WellFormed(tx) && key in Outs(tx)
    ensures j < |tx.vout| && key == OutKey(tx.txid, tx.vout[j].n) && Outs(tx)[key] == tx.vout[j]
  {
    OutsToMembers(tx, |tx.vout|);
    j :| 0 <= j < |tx.vout| && tx.vout[j].n == key.vout && OutsTo(tx, |tx.vout|)[key] == tx.vout[j];
  }

  lemma OnlyInputs(chain: seq<Block>, n: nat, key: InKey)
    requires ValidChain(chain) && n <= |chain|
    ensures key in IndexChain(EMPTY, chain, 0, n).inputs <==>
            exists i: nat, k: nat, v: nat :: HasIn(chain, n, i, k, v) && key == InKey(chain[i].txs[k].txid, v)
  {
    hide Hist, Valid, Ins;
    IndexIsJoin(chain, n);
    ValidHist(chain, n);
    var h := Hist(chain, n);
    if key in Ins(h) {
      var m := InputOwner(h, key);
      var i, k := PlaceOf(chain, n, m);
      var v: nat := key.vin;
      assert HasIn(chain, n, i, k, v);
    }
    forall i: nat, k: nat, v: nat | HasIn(chain, n, i, k, v) && key == InKey(chain[i].txs[k].txid, v)
      ensures key in Ins(h)
    {
      var m := FindPlaced(chain, n, i, k);
      RowsLast(h, m);
    }
  }

  /******* Outputs *******/

  lemma OutColumns(chain: seq<Block>, n: nat, i: nat, k: nat, j: nat)
    requires ValidChain(chain) && HasOut(chain, n, i, k, j)
    ensures var t, tx := IndexChain(EMPTY, chain, 0, n), chain[i].txs[k];
            var o, key := tx.vout[j], OutKey(tx.txid, tx.vout[j].n);
            && key in t.outputs
            && t.outputs[key].value == o.value
            && t.outputs[key].scriptType == Stored(o.scriptType)
            && t.outputs[key].scriptHex == Stored(o.scriptHex)
            && t.outputs[key].address == Stored(o.address)
            && forall s :: t.outputs[key].spent == Some(s) <==>
                 exists i1: nat, k1: nat, v: nat :: HasIn(chain, n, i1, k1, v) &&
                   Names(chain[i1].txs[k1].vin[v], tx, o) && s == Spend(chain[i1].txs[k1].txid, v, i1)
  {
    hide Hist, Valid, SpecTxs, Created, Spends, Ins;
    var h, tx := Hist(chain, n), chain[i].txs[k];
    var o, key := tx.vout[j], OutKey(tx.txid, tx.vout[j].n);
    IndexIsJoin(chain, n);
    ValidHist(chain, n);
    OutputKept(chain, n, i, k, j);
    StoredIs(o.scriptType);
    StoredIs(o.scriptHex);
    StoredIs(o.address);
    if key in Spends(h) {
      var m, v := SpendOwner(h, key);
      var i1, k1 := PlaceOf(chain, n, m);
      Lasting(h, m);
      assert HasIn(chain, n, i1, k1, v) && Names(chain[i1].txs[k1].vin[v], tx, o);
    }
    forall i1: nat, k1: nat, v: nat | HasIn(chain, n, i1, k1, v) && Names(chain[i1].txs[k1].vin[v], tx, o)
      ensures key in Spends(h) && Spends(h)[key] == Spend(chain[i1].txs[k1].txid, v, i1)
    {
      var m := FindPlaced(chain, n, i1, k1);
      Lasting(h, m);
      SpendsLast(h, m, v);
    }
  }

  lemma OnlyOutputs(chain: seq<Block>, n: nat, key: OutKey)
    requires ValidChain(chain) && n <= |chain|
    ensures key in IndexChain(EMPTY, chain, 0, n).outputs <==>
            exists i: nat, k: nat, j: nat ::
              HasOut(chain, n, i, k, j) && key == OutKey(chain[i].txs[k].txid, chain[i].txs[k].vout[j].n)
  {
    hide Hist, Valid, Created, Spends;
    IndexIsJoin(chain, n);
    ValidHist(chain, n);
    var h := Hist(chain, n);
    if key in Created(h) {
      var m := OutputOwner(h, key);
      var i, k := PlaceOf(chain, n, m);
      Lasting(h, m);
      var j := OutAt(h[m].tx, key);
      assert HasOut(chain, n, i, k, j);
    }
    forall i: nat, k: nat, j: nat |
      HasOut(chain, n, i, k, j) && key == OutKey(chain[i].txs[k].txid, chain[i].txs[k].vout[j].n)
      ensures key in Created(h)
    {
      OutputKept(chain, n, i, k, j);
    }
  }

  /******* A chain with spends in it *******/

  const COIN := OutKey("a", 0)
  const ISSUE := Tx("a", [TxIn("c", "", None, "", None)], [TxOut(50, 0, "", "", "x")])
  const SPLIT := Tx("b", [TxIn("", "a", Some(0), "", None)], [TxOut(30, 0, "", "", "x"), TxOut(20, 1, "", "", "y")])
  const MOVE := Tx("d", [TxIn("", "b", Some(1), "", None)], [TxOut(20, 0, "", "", "x")])
  const SPENDING := [Block("g", 0, "", [ISSUE]), Block("h", 1, "g", [SPLIT, MOVE])]

  lemma SpendingHist()
    ensures Hist(SPENDING, 2) == [Placed(ISSUE, "g", 0, 0), Placed(SPLIT, "h", 1, 0), Placed(MOVE, "h", 1, 1)]
  {
    assert Place(SPENDING[0], 1) == [Placed(ISSUE, "g", 0, 0)];
    assert Place(SPENDING[1], 1) == [Placed(SPLIT, "h", 1, 0)];
    assert Place(SPENDING[1], 2) == [Placed(SPLIT, "h", 1, 0), Placed(MOVE, "h", 1, 1)];
    assert Hist(SPENDING, 0) == [];
    assert Hist(SPENDING, 1) == [Placed(ISSUE, "g", 0, 0)];
  }

  lemma FirstValid()
    ensures var h := [Placed(ISSUE, "g", 0, 0)];
            Valid(h) && Created(h) == map[COIN := ISSUE.vout[0]] && Spends(h) == map[]
  {
    var p := Placed(ISSUE, "g", 0, 0);
    assert OutsTo(ISSUE, 0) == map[];
    assert Outs(ISSUE) == map[COIN := ISSUE.vout[0]];
    assert WellFormed(ISSUE) && Refs(p) == map[];
    assert [p] == [] + [p];
    Snoc([], p);
    assert Valid([]);
  }

  lemma SecondValid()
    ensures var h := [Placed(ISSUE, "g", 0, 0), Placed(SPLIT, "h", 1, 0)];
            && Valid(h) && OutKey("b", 1) in Created(h) && Spends(h) == map[COIN := Spend("b", 0, 1)]
  {
    FirstValid();
    var g, p := [Placed(ISSUE, "g", 0, 0)], Placed(SPLIT, "h", 1, 0);
    assert !IsSpace("a"[0]);
    assert RefsTo(p, 0) == map[];
    assert Refs(p) == map[COIN := Spend("b", 0, 1)];
    assert OutKey("b", 1) in Outs(SPLIT);
    assert WellFormed(SPLIT);
    assert FreshTxid(g, "b");
    Snoc(g, p);
    assert g + [p] == [g[0], p];
  }

  // Valid chains do contain spends, of an earlier block and of the same block: here is one, and what its index holds.
  lemma SpendingValid()
    ensures ValidChain(SPENDING)
    ensures var t := IndexChain(EMPTY, SPENDING, 0, 2);
            && COIN in t.outputs && t.outputs[COIN].spent == Some(Spend("b", 0, 1))
            && OutKey("b", 1) in t.outputs && t.outputs[OutKey("b", 1)].spent == Some(Spend("d", 0, 1))
            && OutKey("b", 0) in t.outputs && t.outputs[OutKey("b", 0)].spent == None
            && InKey("d", 0) in t.inputs && t.inputs[InKey("d", 0)].prevValue == Some(20)
            && t.inputs[InKey("d", 0)].prevAddress == Some("y")
  {
    assert ValidChain(SPENDING) by { ThirdValid(); SpendingHist(); hide Hist, Valid; }
    SpendingOutputs();
    SpendingInput();
  }

  lemma ThirdValid()
    ensures Valid([Placed(ISSUE, "g", 0, 0), Placed(SPLIT, "h", 1, 0), Placed(MOVE, "h", 1, 1)])
  {
    SecondValid();
    var g, p := [Placed(ISSUE, "g", 0, 0), Placed(SPLIT, "h", 1, 0)], Placed(MOVE, "h", 1, 1);
    assert !IsSpace("b"[0]);
    assert RefsTo(p, 0) == map[];
    assert Refs(p) == map[OutKey("b", 1) := Spend("d", 0, 1)];
    assert WellFormed(MOVE);
    assert FreshTxid(g, "d");
    hide Valid, Created, Spends, Refs, WellFormed, FreshTxid;
    Snoc(g, p);
    assert g + [p] == [g[0], g[1], p];
  }

  lemma SpendingOutputs()
    requires ValidChain(SPENDING)
    ensures var t := IndexChain(EMPTY, SPENDING, 0, 2);
            && COIN in t.outputs && t.outputs[COIN].spent == Some(Spend("b", 0, 1))
            && OutKey("b", 1) in t.outputs && t.outputs[OutKey("b", 1)].spent == Some(Spend("d", 0, 1))
            && OutKey("b", 0) in t.outputs && t.outputs[OutKey("b", 0)].spent == None
  {
    hide ValidChain, IndexChain, Stored;
    OutColumns(SPENDING, 2, 0, 0, 0);
    OutColumns(SPENDING, 2, 1, 0, 1);
    OutColumns(SPENDING, 2, 1, 0, 0);
    assert HasIn(SPENDING, 2, 1, 0, 0) && Names(SPENDING[1].txs[0].vin[0], ISSUE, ISSUE.vout[0]);
    assert HasIn(SPENDING, 2, 1, 1, 0) && Names(SPENDING[1].txs[1].vin[0], SPLIT, SPLIT.vout[1]);
  }

  lemma SpendingInput()
    requires ValidChain(SPENDING)
    ensures var t := IndexChain(EMPTY, SPENDING, 0, 2);
            && InKey("d", 0) in t.inputs && t.inputs[InKey("d", 0)].prevValue == Some(20)
            && t.inputs[InKey("d", 0)].prevAddress == Some("y")
  {
    hide ValidChain, IndexChain, Stored;
    InColumns(SPENDING, 2, 1, 1, 0);
    assert Stored("y") == Some("y") by {
      assert !IsSpace("y"[0]);
      StoredIs("y");
    }
  }
}
