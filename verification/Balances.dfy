// Money in the UTXO semantics and in the tables: what each transaction adds and takes,
// conservation over the whole chain, and the totals kept on block rows.
module Balances {
  import opened Options
  import opened Sums
  import opened Chain
  import opened Index
  import opened Refinement

  // Which outputs to count: all of them, or those of one address.
  datatype Sel = All | Of(addr: string)

  ghost predicate Picks(sel: Sel, address: Option<string>) {
    sel.Of? ==> address == Some(sel.addr)
  }

  ghost predicate PicksOut(sel: Sel, o: TxOut) {
    Picks(sel, NullIfEmpty(o.address))
  }

  /******* One transaction at a time *******/

  ghost function ValuesOf(outs: map<OutKey, TxOut>, sel: Sel): map<OutKey, int> {
    map k | k in outs && PicksOut(sel, outs[k]) :: outs[k].value
  }

  // Outputs created and not yet spent.
  ghost function Unspent(h: seq<Placed>, sel: Sel): map<OutKey, int> {
    ValuesOf(Created(h) - Spends(h).Keys, sel)
  }

  ghost function Received(tx: Tx, sel: Sel): map<OutKey, int> {
    ValuesOf(Outs(tx), sel)
  }

  // What p spends, given the history before it.
  ghost function Spent(h: seq<Placed>, p: Placed, sel: Sel): map<OutKey, int> {
    ValuesOf(map k | k in Created(h) && k in Refs(p) :: Created(h)[k], sel)
  }

  ghost function Net(h: seq<Placed>, p: Placed, sel: Sel): int {
    Total(Received(p.tx, sel)) - Total(Spent(h, p, sel))
  }

  lemma OutsFresh(h: seq<Placed>, p: Placed)
    requires Valid(h) && ValidNext(h, p)
    ensures Outs(p.tx).Keys !! Created(h).Keys && Outs(p.tx).Keys !! Spends(h).Keys && Outs(p.tx).Keys !! Refs(p).Keys
  {
    KeysBelong(h);
    OutsToMembers(p.tx, |p.tx.vout|);
  }

  lemma ValuesUnion(a: map<OutKey, TxOut>, b: map<OutKey, TxOut>, sel: Sel)
    requires a.Keys !! b.Keys
    ensures Total(ValuesOf(a + b, sel)) == Total(ValuesOf(a, sel)) + Total(ValuesOf(b, sel))
  {
    hide Total, PicksOut;
    TotalUnion(ValuesOf(a, sel), ValuesOf(b, sel));
    assert ValuesOf(a + b, sel) == ValuesOf(a, sel) + ValuesOf(b, sel);
  }

  // The unspent total moves by exactly the net amount of the transaction.
  lemma UtxoStep(h: seq<Placed>, p: Placed, sel: Sel)
    requires Valid(h) && ValidNext(h, p)
    ensures Total(Unspent(h + [p], sel)) == Total(Unspent(h, sel)) + Net(h, p, sel)
  {
    hide Created, Spends, Valid, Outs, Refs, WellFormed, FreshTxid, ValuesOf, Total;
    Snoc(h, p);
    OutsFresh(h, p);
    var live := Created(h) - Spends(h).Keys;
    var spent := map k | k in Created(h) && k in Refs(p) :: Created(h)[k];
    var rest := live - Refs(p).Keys;
    assert live == rest + spent;
    ValuesUnion(rest, spent, sel);
    assert Created(h + [p]) - Spends(h + [p]).Keys == rest + Outs(p.tx);
    ValuesUnion(rest, Outs(p.tx), sel);
  }

  lemma {:induction false} CreatedNonNegative(h: seq<Placed>)
    requires Valid(h)
    ensures forall k :: k in Created(h) ==> Created(h)[k].value >= 0
  {
    if h == [] {
    } else {
      CreatedNonNegative(h[..|h| - 1]);
      OutsToMembers(h[|h| - 1].tx, |h[|h| - 1].tx.vout|);
    }
  }

  lemma UnspentNonNegative(h: seq<Placed>, sel: Sel)
    requires Valid(h)
    ensures Total(Unspent(h, sel)) >= 0
  {
    CreatedNonNegative(h);
    TotalNonNegative(Unspent(h, sel));
  }

  /******* Rows of one transaction *******/

  lemma {:induction false} TxidsUnique(h: seq<Placed>, i: nat, j: nat)
    requires Valid(h) && i < j < |h|
    ensures h[i].tx.txid != h[j].tx.txid
  {
    var g := h[..|h| - 1];
    if j < |g| {
      TxidsUnique(g, i, j);
    } else {
      assert g[i] == h[i];
    }
  }

  lemma {:induction false} OutputOwner(h: seq<Placed>, key: OutKey) returns (i: nat)
    requires Valid(h) && key in Created(h)
    ensures i < |h| && h[i].tx.txid == key.txid && key in Outs(h[i].tx)
  {
    var g, p := h[..|h| - 1], h[|h| - 1];
    OutsToMembers(p.tx, |p.tx.vout|);
    if key in Outs(p.tx) {
      i := |h| - 1;
    } else {
      i := OutputOwner(g, key);
    }
  }

  // SUM(value) over the address's output rows of one transaction.
  ghost function RecvRows(t: Tables, a: string, txid: string): map<OutKey, int> {
    map k | k in t.outputs && k.txid == txid && t.outputs[k].address == Some(a) :: t.outputs[k].value
  }

  // SUM(prev_value) over the address's input rows of one transaction; a NULL adds nothing.
  ghost function SentRows(t: Tables, a: string, txid: string): map<InKey, int> {
    map k | k in t.inputs && k.txid == txid && t.inputs[k].prevAddress == Some(a) ::
      if t.inputs[k].prevValue.Some? then t.inputs[k].prevValue.value else 0
  }

  lemma RecvRowsMatch(blocks: map<string, BlockRow>, h: seq<Placed>, m: nat, a: string)
    requires Valid(h) && m < |h|
    ensures RecvRows(Join(blocks, h), a, h[m].tx.txid) == Received(h[m].tx, Of(a))
  {
    hide WellFormed, FreshTxid;
    hide Created, Spends, Valid, Outs, Ins, SpecTxs;
    Lasting(h, m);
    var r, s := RecvRows(Join(blocks, h), a, h[m].tx.txid), Received(h[m].tx, Of(a));
    forall k | k in r ensures k in s && r[k] == s[k] {
      var i := OutputOwner(h, k);
      if i < m { TxidsUnique(h, i, m); } else if m < i { TxidsUnique(h, m, i); }
    }
    forall k | k in s ensures k in r {
      OutKeysOf(h[m].tx, k);
    }
  }

  lemma OutKeysOf(tx: Tx, k: OutKey)
    requires WellFormed(tx) && k in Outs(tx)
    ensures k.txid == tx.txid
  {
    OutsToMembers(tx, |tx.vout|);
  }

  // The m-th transaction's input rows for the address, one for one with the outputs it spends.
  lemma SentRowsMatch(blocks: map<string, BlockRow>, h: seq<Placed>, m: nat, a: string)
    requires Valid(h) && m < |h|
    ensures Total(SentRows(Join(blocks, h), a, h[m].tx.txid)) == Total(Spent(h[..m], h[m], Of(a)))
    ensures Spent(h[..m], h[m], Of(a)) != map[] ==> SentRows(Join(blocks, h), a, h[m].tx.txid) != map[]
  {
    hide Created, Spends, Valid, Outs, Ins, SpecTxs, Refs, Total;
    var t, p := Join(blocks, h), h[m];
    var rows, spent := SentRows(t, a, p.tx.txid), Spent(h[..m], p, Of(a));
    forall k | k in rows
      ensures SentRow(h, m, k) && PrevOut(p.tx.vin[k.vin]) in spent
      ensures spent[PrevOut(p.tx.vin[k.vin])] == rows[k] {
      SentRowNames(blocks, h, m, a, k);
    }
    var ren := map k | k in rows :: PrevOut(p.tx.vin[k.vin]);
    forall x | x in spent ensures exists k :: k in rows && ren[k] == x {
      var v := SpentHasRow(blocks, h, m, a, x);
      assert ren[InKey(p.tx.txid, v)] == x;
    }
    Lasting(h, m);
    TotalRename(rows, spent, ren);
    if spent != map[] {
      var x :| x in spent;
      var k :| k in rows && ren[k] == x;
    }
  }

  ghost predicate SentRow(h: seq<Placed>, m: nat, k: InKey)
    requires m < |h|
  {
    !IsCoinbase(h[m].tx) && k.txid == h[m].tx.txid && 0 <= k.vin < |h[m].tx.vin|
  }

  // An input's row repeats the value and address of the output it spends.
  lemma InputRow(h: seq<Placed>, m: nat, v: nat)
    requires Valid(h) && m < |h| && !IsCoinbase(h[m].tx) && v < |h[m].tx.vin|
    ensures var key, x := InKey(h[m].tx.txid, v), PrevOut(h[m].tx.vin[v]);
            && key in SpecInputs(h) && x in Created(h[..m])
            && SpecInputs(h)[key].prevValue == Some(Created(h[..m])[x].value)
            && SpecInputs(h)[key].prevAddress == NullIfEmpty(Created(h[..m])[x].address)
  {
    hide Created, Spends, Valid, Outs, Ins, SpecTxs;
    SpendsLast(h, m, v);
    RowsLast(h, m);
  }

  lemma SentRowNames(blocks: map<string, BlockRow>, h: seq<Placed>, m: nat, a: string, k: InKey)
    requires Valid(h) && m < |h| && k in SentRows(Join(blocks, h), a, h[m].tx.txid)
    ensures SentRow(h, m, k)
    ensures var x, spent := PrevOut(h[m].tx.vin[k.vin]), Spent(h[..m], h[m], Of(a));
            x in spent && spent[x] == SentRows(Join(blocks, h), a, h[m].tx.txid)[k]
  {
    hide Created, Spends, Valid, Outs, Ins, SpecTxs, Refs, WellFormed, Blank;
    SentRowOwner(h, m, k);
    InputRow(h, m, k.vin);
    SpendsLast(h, m, k.vin);
    InRefs(h, m, k.vin);
  }

  lemma InRefs(h: seq<Placed>, m: nat, v: nat)
    requires Valid(h) && m < |h| && !IsCoinbase(h[m].tx) && v < |h[m].tx.vin|
    ensures PrevOut(h[m].tx.vin[v]) in Refs(h[m])
  {
    hide Created, Spends, Valid, Outs;
    Lasting(h, m);
    RefsToMembers(h[m], |h[m].tx.vin|);
  }

  // An input row with an address belongs to a transaction that is not a coinbase.
  lemma SentRowOwner(h: seq<Placed>, m: nat, k: InKey)
    requires Valid(h) && m < |h| && k in Ins(h) && k.txid == h[m].tx.txid && SpecInputs(h)[k].prevAddress.Some?
    ensures SentRow(h, m, k)
  {
    hide Created, Spends, Valid, Outs, Ins, SpecTxs, Refs;
    var i := InputOwner(h, k);
    if i < m { TxidsUnique(h, i, m); } else if m < i { TxidsUnique(h, m, i); }
    Lasting(h, m);
  }

  lemma SpentHasRow(blocks: map<string, BlockRow>, h: seq<Placed>, m: nat, a: string, x: OutKey) returns (v: nat)
    requires Valid(h) && m < |h| && x in Spent(h[..m], h[m], Of(a))
    ensures v < |h[m].tx.vin| && PrevOut(h[m].tx.vin[v]) == x
            && InKey(h[m].tx.txid, v) in SentRows(Join(blocks, h), a, h[m].tx.txid)
  {
    hide Created, Spends, Valid, Outs, Ins, SpecTxs, SpecInputs;
    Lasting(h, m);
    RefsToMembers(h[m], |h[m].tx.vin|);
    v :| 0 <= v < |h[m].tx.vin| && PrevOut(h[m].tx.vin[v]) == x && Refs(h[m])[x] == Spend(h[m].tx.txid, v, h[m].height);
    InputRow(h, m, v);
  }
}
