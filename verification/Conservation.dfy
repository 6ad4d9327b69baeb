// Conservation of value over the whole index, and the totals stored on block and transaction rows.
module Conservation {
  import opened Options
  import opened Sums
  import opened Chain
  import opened Index
  import opened Refinement
  import opened Balances

  ghost predicate InBlock(hash: Option<string>, blockHash: string) {
    hash.Some? ==> blockHash == hash.value
  }

  // total_out of the transaction rows of one block, or of all blocks.
  ghost function TxTotals(txs: map<string, TxRow>, hash: Option<string>): map<string, int> {
    map x | x in txs && InBlock(hash, txs[x].blockHash) :: txs[x].totalOut
  }

  // Values of the output rows of one block's transactions, or of all transactions.
  ghost function OutTotals(txs: map<string, TxRow>, outs: map<OutKey, TxOut>, hash: Option<string>): map<OutKey, int> {
    map k | k in outs && k.txid in txs && InBlock(hash, txs[k.txid].blockHash) :: outs[k].value
  }

  ghost function HistTotal(h: seq<Placed>, hash: Option<string>): int {
    if h == [] then 0
    else
      var p := h[|h| - 1];
      HistTotal(h[..|h| - 1], hash) + if InBlock(hash, p.hash) then TotalOut(p.tx.vout, |p.tx.vout|) else 0
  }

  lemma {:induction false} OutsTotal(tx: Tx, k: nat)
    requires k <= |tx.vout| && DistinctOuts(tx)
    ensures Total(ValuesOf(OutsTo(tx, k), All)) == TotalOut(tx.vout, k)
  {
    if k > 0 {
      OutsTotal(tx, k - 1);
      NewOutKey(tx, k - 1);
      var o := tx.vout[k - 1];
      assert ValuesOf(OutsTo(tx, k), All) == ValuesOf(OutsTo(tx, k - 1), All)[OutKey(tx.txid, o.n) := o.value];
      TotalInsert(ValuesOf(OutsTo(tx, k - 1), All), OutKey(tx.txid, o.n), o.value);
    } else {
      assert ValuesOf(OutsTo(tx, 0), All) == map[];
    }
  }

  lemma TotalsStep(h: seq<Placed>, p: Placed, hash: Option<string>)
    requires Valid(h) && ValidNext(h, p)
    ensures Total(TxTotals(SpecTxs(h + [p]), hash)) ==
            Total(TxTotals(SpecTxs(h), hash)) + if InBlock(hash, p.hash) then TotalOut(p.tx.vout, |p.tx.vout|) else 0
    ensures Total(OutTotals(SpecTxs(h + [p]), Created(h + [p]), hash)) ==
            Total(OutTotals(SpecTxs(h), Created(h), hash))
            + if InBlock(hash, p.hash) then TotalOut(p.tx.vout, |p.tx.vout|) else 0
  {
    hide Created, Spends, Valid, SpecTxs, Total, TotalOut;
    Snoc(h, p);
    SnocRows(h, p);
    TxKeys(h);
    KeysBelong(h);
    OutsTotal(p.tx, |p.tx.vout|);
    OutsToMembers(p.tx, |p.tx.vout|);
    TxTotalsStep(SpecTxs(h), p, hash);
    OutTotalsStep(SpecTxs(h), Created(h), p, hash);
  }

  lemma TxTotalsStep(txs: map<string, TxRow>, p: Placed, hash: Option<string>)
    requires p.tx.txid !in txs
    ensures Total(TxTotals(txs[p.tx.txid := NewTxRow(p)], hash)) ==
            Total(TxTotals(txs, hash)) + if InBlock(hash, p.hash) then TotalOut(p.tx.vout, |p.tx.vout|) else 0
  {
    var a, b := TxTotals(txs, hash), TxTotals(txs[p.tx.txid := NewTxRow(p)], hash);
    if InBlock(hash, p.hash) {
      assert b == a[p.tx.txid := NewTxRow(p).totalOut];
      TotalInsert(a, p.tx.txid, NewTxRow(p).totalOut);
    } else {
      assert b == a;
    }
  }

  lemma OutTotalsStep(txs: map<string, TxRow>, created: map<OutKey, TxOut>, p: Placed, hash: Option<string>)
    requires p.tx.txid !in txs && (forall k :: k in created ==> k.txid in txs)
    requires forall k :: k in Outs(p.tx) ==> k.txid == p.tx.txid
    ensures Total(OutTotals(txs[p.tx.txid := NewTxRow(p)], created + Outs(p.tx), hash)) ==
            Total(OutTotals(txs, created, hash)) + if InBlock(hash, p.hash) then Total(ValuesOf(Outs(p.tx), All)) else 0
  {
    hide Outs, Total, NewTxRow, TotalOut;
    var row := TxRow(p.hash, p.height, p.pos, IsCoinbase(p.tx), TotalOut(p.tx.vout, |p.tx.vout|));
    assert row == NewTxRow(p) by { RowOf(p); }
    var a, b := OutTotals(txs, created, hash), OutTotals(txs[p.tx.txid := row], created + Outs(p.tx), hash);
    if InBlock(hash, p.hash) {
      assert b == a + ValuesOf(Outs(p.tx), All);
      TotalUnion(a, ValuesOf(Outs(p.tx), All));
    } else {
      assert b == a;
    }
  }

  lemma RowOf(p: Placed)
    ensures NewTxRow(p) == TxRow(p.hash, p.height, p.pos, IsCoinbase(p.tx), TotalOut(p.tx.vout, |p.tx.vout|))
  {
  }

  lemma {:induction false} HistTotals(h: seq<Placed>, hash: Option<string>)
    requires Valid(h)
    ensures Total(TxTotals(SpecTxs(h), hash)) == HistTotal(h, hash)
    ensures Total(OutTotals(SpecTxs(h), Created(h), hash)) == HistTotal(h, hash)
  {
    if h == [] {
      assert TxTotals(SpecTxs(h), hash) == map[] && OutTotals(SpecTxs(h), Created(h), hash) == map[];
    } else {
      var g, p := h[..|h| - 1], h[|h| - 1];
      HistTotals(g, hash);
      assert h == g + [p];
      TotalsStep(g, p, hash);
    }
  }

  lemma {:induction false} HistTotalAppend(g: seq<Placed>, b: Block, k: nat, hash: string)
    requires k <= |b.txs|
    ensures HistTotal(g + Place(b, k), Some(hash)) ==
            HistTotal(g, Some(hash)) + if b.hash == hash then BlockTotalOut(b.txs, k) else 0
  {
    if k == 0 {
      assert g + Place(b, 0) == g;
    } else {
      HistTotalAppend(g, b, k - 1, hash);
      var h := g + Place(b, k);
      assert h[..|h| - 1] == g + Place(b, k - 1);
    }
  }

  lemma {:induction false} ChainTotal(chain: seq<Block>, n: nat, i: nat)
    requires ValidChain(chain) && n <= |chain| && i < |chain|
    ensures HistTotal(Hist(chain, n), Some(chain[i].hash))
            == if i < n then BlockTotalOut(chain[i].txs, |chain[i].txs|) else 0
  {
    if n == 0 {
    } else {
      ChainTotal(chain, n - 1, i);
      HistTotalAppend(Hist(chain, n - 1), chain[n - 1], |chain[n - 1].txs|, chain[i].hash);
      assert chain[n - 1].hash == chain[i].hash <==> i == n - 1;
    }
  }

  // The output rows of a block's transactions, as the tables hold them.
  ghost function BlockOutRows(t: Tables, hash: string): map<OutKey, int> {
    map k | k in t.outputs && k.txid in t.txs && t.txs[k.txid].blockHash == hash :: t.outputs[k].value
  }

  // total_out of a block row is the sum of its transactions' total_out, and of its output rows, at every later time.
  lemma BlockTotals(chain: seq<Block>, n: nat, i: nat)
    requires ValidChain(chain) && i < n <= |chain|
    ensures var t, hash := IndexChain(EMPTY, chain, 0, n), chain[i].hash;
            && hash in t.blocks
            && t.blocks[hash].totalOut == Total(TxTotals(t.txs, Some(hash)))
            && t.blocks[hash].totalOut == Total(BlockOutRows(t, hash))
  {
    hide Hist, Valid, BlockOutRows, TxTotals, OutTotals, Total, BlockTotalOut, HistTotal, ValidChain, SpecTxs,
         SpecBlocks, Join;
    var h, hash := Hist(chain, n), chain[i].hash;
    IndexIsJoin(chain, n);
    ValidHist(chain, n);
    BlockRowAt(chain, n, i);
    HistTotals(h, Some(hash));
    ChainTotal(chain, n, i);
    OutRowsAre(SpecBlocks(chain, n), h, hash);
    assert SpecTables(chain, n) == Join(SpecBlocks(chain, n), h);
  }

  lemma BlockRowAt(chain: seq<Block>, n: nat, i: nat)
    requires ValidChain(chain) && i < n <= |chain|
    ensures chain[i].hash in SpecTables(chain, n).blocks
    ensures SpecTables(chain, n).blocks[chain[i].hash].totalOut == BlockTotalOut(chain[i].txs, |chain[i].txs|)
  {
    hide Hist, Valid, BlockTotalOut;
    BlockKeys(chain, n);
  }

  lemma OutRowsAre(blocks: map<string, BlockRow>, h: seq<Placed>, hash: string)
    ensures Join(blocks, h).txs == SpecTxs(h)
    ensures BlockOutRows(Join(blocks, h), hash) == OutTotals(SpecTxs(h), Created(h), Some(hash))
  {
  }

  /******* Conservation *******/

  ghost function UnspentRows(t: Tables): map<OutKey, int> {
    map k | k in t.outputs && t.outputs[k].spent.None? :: t.outputs[k].value
  }

  ghost function TxOutRows(t: Tables, coinbase: bool): map<string, int> {
    map x | x in t.txs && t.txs[x].isCoinbase == coinbase :: t.txs[x].totalOut
  }

  ghost function InputValues(t: Tables): map<InKey, int> {
    map k | k in t.inputs && !t.inputs[k].isCoinbase ::
      if t.inputs[k].prevValue.Some? then t.inputs[k].prevValue.value else 0
  }

  // The values on the input rows are the values of the spent outputs, one for one.
  lemma InputsAreSpent(blocks: map<string, BlockRow>, h: seq<Placed>, spent: map<OutKey, int>)
    requires Valid(h)
    requires spent == map k | k in Created(h) && k in Spends(h) :: Created(h)[k].value
    ensures Total(InputValues(Join(blocks, h))) == Total(spent)
  {
    hide Created, Spends, Valid, Ins, SpecTxs, Total, SpecInRow;
    var t := Join(blocks, h);
    var rows := InputValues(t);
    forall k | k in rows
      ensures InputLinked(t, k) && Named(t.inputs[k]).value in spent && spent[Named(t.inputs[k]).value] == rows[k]
    {
      JoinInputLinked(blocks, h, k);
    }
    var ren := map k | k in rows :: Named(t.inputs[k]).value;
    forall x | x in spent ensures exists k :: k in rows && ren[k] == x {
      JoinPointerSound(blocks, h, x);
      var s := t.outputs[x].spent.value;
      assert ren[InKey(s.txid, s.vin)] == x;
    }
    TotalRename(rows, spent, ren);
  }

  // Unspent value is what coinbases issued, less what the other transactions took in and did not put out.
  lemma ValueConserved(chain: seq<Block>, n: nat)
    requires ValidChain(chain) && n <= |chain|
    ensures var t := IndexChain(EMPTY, chain, 0, n);
            Total(UnspentRows(t)) ==
            Total(TxOutRows(t, true)) - (Total(InputValues(t)) - Total(TxOutRows(t, false)))
  {
    hide Hist, Valid, TxTotals, OutTotals, TxOutRows, UnspentRows, InputValues, Total, HistTotal, ValidChain,
         SpecTxs, SpecInputs, SpecOutputs, SpecBlocks;
    var h, blocks := Hist(chain, n), SpecBlocks(chain, n);
    var t := Join(blocks, h);
    IndexIsJoin(chain, n);
    ValidHist(chain, n);
    HistTotals(h, None);
    SplitCoinbase(t);
    SplitSpent(blocks, h);
  }

  lemma SplitCoinbase(t: Tables)
    ensures Total(TxTotals(t.txs, None)) == Total(TxOutRows(t, true)) + Total(TxOutRows(t, false))
  {
    hide Total;
    assert TxTotals(t.txs, None) == TxOutRows(t, true) + TxOutRows(t, false);
    TotalUnion(TxOutRows(t, true), TxOutRows(t, false));
  }

  lemma SplitSpent(blocks: map<string, BlockRow>, h: seq<Placed>)
    requires Valid(h)
    ensures Total(OutTotals(SpecTxs(h), Created(h), None))
            == Total(UnspentRows(Join(blocks, h))) + Total(InputValues(Join(blocks, h)))
  {
    hide SpecInRow, InputValues;
    hide Created, Spends, Valid, Ins, SpecTxs, Total, OutTotals;
    var created, spends := Created(h), Spends(h);
    var spent := map k | k in created && k in spends :: created[k].value;
    InputsAreSpent(blocks, h, spent);
    AllOutputs(h);
    assert UnspentRows(Join(blocks, h)) == map k | k in created && k !in spends :: created[k].value;
    SplitByKeys(created, spends);
  }

  lemma SplitByKeys(created: map<OutKey, TxOut>, spends: map<OutKey, Spend>)
    ensures Total(map k | k in created :: created[k].value)
            == Total(map k | k in created && k !in spends :: created[k].value)
               + Total(map k | k in created && k in spends :: created[k].value)
  {
    hide Total;
    var spent := map k | k in created && k in spends :: created[k].value;
    var unspent := map k | k in created && k !in spends :: created[k].value;
    assert unspent + spent == map k | k in created :: created[k].value;
    TotalUnion(unspent, spent);
  }

  lemma AllOutputs(h: seq<Placed>)
    requires Valid(h)
    ensures OutTotals(SpecTxs(h), Created(h), None) == map k | k in Created(h) :: Created(h)[k].value
  {
    hide Created, SpecTxs, Valid;
    KeysBelong(h);
    TxKeys(h);
  }
}
