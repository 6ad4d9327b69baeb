// Backfilling an index gives the index that would have been built had the addresses been there from the start,
// wherever the tool is interrupted.
module Repair {
  import opened Options
  import opened Chain
  import opened Index
  import opened Refinement
  import opened Base58
  import opened Backfill
  import opened Columns

  /******* The chain with addresses filled in *******/

  function FillOut(o: TxOut, sha: Sha): TxOut {
    if Blank(o.address) then o.(address := DecodeScriptAddress(o.scriptType, o.scriptHex, sha)) else o
  }

  function FillTx(tx: Tx, sha: Sha): (r: Tx) {
    tx.(vout := seq(|tx.vout|, j requires 0 <= j < |tx.vout| => FillOut(tx.vout[j], sha)))
  }

  function FillBlock(b: Block, sha: Sha): Block {
    b.(txs := seq(|b.txs|, k requires 0 <= k < |b.txs| => FillTx(b.txs[k], sha)))
  }

  function FillChain(chain: seq<Block>, sha: Sha): seq<Block> {
    seq(|chain|, i requires 0 <= i < |chain| => FillBlock(chain[i], sha))
  }

  function FillPlaced(p: Placed, sha: Sha): Placed {
    p.(tx := FillTx(p.tx, sha))
  }

  function FillHist(h: seq<Placed>, sha: Sha): (r: seq<Placed>)
    ensures |r| == |h|
  {
    if h == [] then [] else FillHist(h[..|h| - 1], sha) + [FillPlaced(h[|h| - 1], sha)]
  }

  /******* A decoded address is never blank *******/

  lemma DecodedShows(scriptType: string, scriptHex: string, sha: Sha)
    ensures var a := DecodeScriptAddress(scriptType, scriptHex, sha); a != "" ==> !Blank(a)
  {
    hide HexDecode, Address;
    var a := DecodeScriptAddress(scriptType, scriptHex, sha);
    if a != "" {
      var version, hash20 := ScriptParts(scriptType, scriptHex, sha);
      AddressShape(hash20, sha);
      assert !IsSpace(a[0]);
    }
  }

  lemma BlankScript(scriptType: string, scriptHex: string, sha: Sha)
    requires Blank(scriptHex)
    ensures DecodeScriptAddress(scriptType, scriptHex, sha) == ""
  {
    if |scriptHex| >= 1 {
      assert IsSpace(scriptHex[0]) && HexDigit(scriptHex[0]) == -1;
    }
  }

  // Filling a row commutes with reading the row off the chain.
  lemma FillRowIs(k: OutKey, o: TxOut, spends: map<OutKey, Spend>, sha: Sha)
    ensures FillRow(SpecOutRow(k, o, spends), sha) == SpecOutRow(k, FillOut(o, sha), spends)
  {
    DecodedShows(o.scriptType, o.scriptHex, sha);
    hide HexDecode, Address, IsP2pkh, IsP2sh;
    var r := SpecOutRow(k, o, spends);
    if Blank(o.scriptHex) {
      BlankScript(o.scriptType, o.scriptHex, sha);
    }
    assert !IsSpace("pubkeyhash"[0]) && !IsSpace("scripthash"[0]);
    assert Blank("");
  }

  /******* The filled history *******/

  ghost function FillMap(outs: map<OutKey, TxOut>, sha: Sha): map<OutKey, TxOut> {
    map key | key in outs :: FillOut(outs[key], sha)
  }

  lemma FillMapUnion(a: map<OutKey, TxOut>, b: map<OutKey, TxOut>, sha: Sha)
    ensures FillMap(a + b, sha) == FillMap(a, sha) + FillMap(b, sha)
  {
  }

  lemma {:induction false} FillOuts(tx: Tx, k: nat, sha: Sha)
    requires k <= |tx.vout|
    ensures OutsTo(FillTx(tx, sha), k) == FillMap(OutsTo(tx, k), sha)
    ensures TotalOut(FillTx(tx, sha).vout, k) == TotalOut(tx.vout, k)
  {
    hide FillOut;
    if k == 0 {
    } else {
      FillOuts(tx, k - 1, sha);
      FillOutKeeps(tx.vout[k - 1], sha);
    }
  }

  lemma FillOutKeeps(o: TxOut, sha: Sha)
    ensures FillOut(o, sha).n == o.n && FillOut(o, sha).value == o.value
  {
  }

  lemma {:induction false} FillRefs(p: Placed, k: nat, sha: Sha)
    requires k <= |p.tx.vin|
    ensures RefsTo(FillPlaced(p, sha), k) == RefsTo(p, k)
  {
    if k == 0 {
    } else {
      FillRefs(p, k - 1, sha);
    }
  }

  lemma FillHistSnoc(h: seq<Placed>, p: Placed, sha: Sha)
    ensures FillHist(h + [p], sha) == FillHist(h, sha) + [FillPlaced(p, sha)]
  {
  }

  // Filling changes only what outputs are created with: not the rows of transactions, the inputs, or who spends what.
  lemma {:induction false} FillHistIs(h: seq<Placed>, sha: Sha)
    ensures Created(FillHist(h, sha)) == FillMap(Created(h), sha)
    ensures Spends(FillHist(h, sha)) == Spends(h)
    ensures Ins(FillHist(h, sha)) == Ins(h)
    ensures SpecTxs(FillHist(h, sha)) == SpecTxs(h)
    ensures forall i :: 0 <= i < |h| ==> FillHist(h, sha)[i].tx.txid == h[i].tx.txid
  {
    hide FillMap, TotalOut, FillTx, Outs, Refs, NewTxRow, InsTo;
    if h == [] {
      EmptyFill(sha);
    } else {
      var g, p := h[..|h| - 1], h[|h| - 1];
      var q := FillPlaced(p, sha);
      FillHistIs(g, sha);
      assert h == g + [p];
      FillHistSnoc(g, p, sha);
      Snoc(g, p);
      SnocRows(g, p);
      Snoc(FillHist(g, sha), q);
      SnocRows(FillHist(g, sha), q);
      FillMapUnion(Created(g), Outs(p.tx), sha);
      FillTxIs(p, sha);
    }
  }

  lemma EmptyFill(sha: Sha)
    ensures FillMap(map[], sha) == map[]
  {
  }

  lemma FillTxIs(p: Placed, sha: Sha)
    ensures var q := FillPlaced(p, sha);
            && Outs(q.tx) == FillMap(Outs(p.tx), sha) && Refs(q) == Refs(p) && NewTxRow(q) == NewTxRow(p)
            && |q.tx.vin| == |p.tx.vin| && q.tx.txid == p.tx.txid && InsTo(q.tx, |q.tx.vin|) == InsTo(p.tx, |p.tx.vin|)
  {
    FillOuts(p.tx, |p.tx.vout|, sha);
    FillRefs(p, |p.tx.vin|, sha);
    SameIns(p.tx, sha, |p.tx.vin|);
  }

  lemma {:induction false} SameIns(tx: Tx, sha: Sha, k: nat)
    requires k <= |tx.vin|
    ensures InsTo(FillTx(tx, sha), k) == InsTo(tx, k)
  {
    if k == 0 {
    } else {
      SameIns(tx, sha, k - 1);
    }
  }

  lemma FillWellFormed(tx: Tx, sha: Sha)
    requires WellFormed(tx)
    ensures WellFormed(FillTx(tx, sha))
  {
  }

  lemma {:induction false} FillValid(h: seq<Placed>, sha: Sha)
    requires Valid(h)
    ensures Valid(FillHist(h, sha))
  {
    hide ValidNext;
    if h == [] {
    } else {
      var g, p := h[..|h| - 1], h[|h| - 1];
      FillValid(g, sha);
      FillNext(g, p, sha);
      Extend(FillHist(g, sha), FillPlaced(p, sha));
    }
  }

  lemma Extend(h: seq<Placed>, p: Placed)
    requires Valid(h) && ValidNext(h, p)
    ensures Valid(h + [p])
  {
  }

  lemma FillNext(g: seq<Placed>, p: Placed, sha: Sha)
    requires ValidNext(g, p)
    ensures ValidNext(FillHist(g, sha), FillPlaced(p, sha))
  {
    hide Created, Spends, Ins, SpecTxs, WellFormed;
    FillHistIs(g, sha);
    FillRefs(p, |p.tx.vin|, sha);
    FillWellFormed(p.tx, sha);
  }

  /******* Backfill commutes with indexing *******/

  lemma FillInputIs(h: seq<Placed>, key: InKey, sha: Sha)
    requires Valid(h) && key in Ins(h)
    ensures key in Ins(FillHist(h, sha))
    ensures FillInRow(SpecInputs(h)[key], Phase1(SpecOutputs(h), sha)) == SpecInputs(FillHist(h, sha))[key]
  {
    hide Created, Spends, Ins, SpecTxs, Valid, FillOut, FillRow;
    FillHistIs(h, sha);
    var i := InputOwner(h, key);
    Lasting(h, i);
    var vin := Ins(h)[key];
    if vin.coinbase == "" {
      SpendsLast(h, i, key.vin);
      var x := PrevOut(vin);
      FillRowIs(x, Created(h)[x], Spends(h), sha);
      FilledAddress(Created(h)[x], sha);
      assert Phase1(SpecOutputs(h), sha)[x] == SpecOutRow(x, FillOut(Created(h)[x], sha), Spends(h));
    }
  }

  lemma FilledAddress(o: TxOut, sha: Sha)
    ensures FillOut(o, sha).value == o.value
    ensures NullIfEmpty(o.address).Some? ==> FillOut(o, sha).address == o.address
  {
  }

  lemma FillJoin(blocks: map<string, BlockRow>, h: seq<Placed>, sha: Sha)
    requires Valid(h)
    ensures Fill(Join(blocks, h), sha) == Join(blocks, FillHist(h, sha))
  {
    hide Created, Spends, Ins, SpecTxs, Valid, FillOut, FillRow, SpecOutRow, SpecInRow, FillInRow;
    FillHistIs(h, sha);
    forall k | k in Created(h) ensures Phase1(SpecOutputs(h), sha)[k] == SpecOutputs(FillHist(h, sha))[k] {
      FillRowIs(k, Created(h)[k], Spends(h), sha);
    }
    assert Phase1(SpecOutputs(h), sha) == SpecOutputs(FillHist(h, sha));
    forall k | k in Ins(h)
      ensures Phase2(SpecInputs(h), Phase1(SpecOutputs(h), sha))[k] == SpecInputs(FillHist(h, sha))[k] {
      FillInputIs(h, k, sha);
    }
    assert Phase2(SpecInputs(h), Phase1(SpecOutputs(h), sha)) == SpecInputs(FillHist(h, sha));
  }

  lemma {:induction false} FillPlace(g: seq<Placed>, b: Block, k: nat, sha: Sha)
    requires k <= |b.txs|
    ensures FillHist(g + Place(b, k), sha) == FillHist(g, sha) + Place(FillBlock(b, sha), k)
  {
    hide FillTx, FillHist;
    if k == 0 {
      assert g + Place(b, 0) == g;
    } else {
      FillPlace(g, b, k - 1, sha);
      var p := Placed(b.txs[k - 1], b.hash, b.height, k - 1);
      FillHistSnoc(g + Place(b, k - 1), p, sha);
      assert g + Place(b, k) == (g + Place(b, k - 1)) + [p];
    }
  }

  lemma {:induction false} FillChainHist(chain: seq<Block>, n: nat, sha: Sha)
    requires n <= |chain|
    ensures Hist(FillChain(chain, sha), n) == FillHist(Hist(chain, n), sha)
    ensures SpecBlocks(FillChain(chain, sha), n) == SpecBlocks(chain, n)
  {
    hide Place, FillHist, FillBlock, NewBlockRow;
    if n == 0 {
    } else {
      FillChainHist(chain, n - 1, sha);
      FillPlace(Hist(chain, n - 1), chain[n - 1], |chain[n - 1].txs|, sha);
      FillBlockRow(chain[n - 1], sha);
    }
  }

  lemma FillBlockRow(b: Block, sha: Sha)
    ensures NewBlockRow(FillBlock(b, sha)) == NewBlockRow(b) && FillBlock(b, sha).hash == b.hash
    ensures |FillBlock(b, sha).txs| == |b.txs|
  {
    hide BlockTotalOut, FillTx;
    FillBlockTotal(b, |b.txs|, sha);
  }

  lemma {:induction false} FillBlockTotal(b: Block, k: nat, sha: Sha)
    requires k <= |b.txs|
    ensures BlockTotalOut(FillBlock(b, sha).txs, k) == BlockTotalOut(b.txs, k)
  {
    hide FillOut, OutsTo, FillMap, TotalOut;
    if k == 0 {
    } else {
      FillBlockTotal(b, k - 1, sha);
      FillOuts(b.txs[k - 1], |b.txs[k - 1].vout|, sha);
    }
  }

  lemma FillChainValid(chain: seq<Block>, sha: Sha)
    requires ValidChain(chain)
    ensures ValidChain(FillChain(chain, sha))
  {
    hide Valid, Hist;
    FillChainHist(chain, |chain|, sha);
    FillValid(Hist(chain, |chain|), sha);
  }

  // Backfilling what was indexed equals indexing the chain with the decoded addresses in it.
  lemma BackfillCommutes(chain: seq<Block>, n: nat, sha: Sha)
    requires ValidChain(chain) && n <= |chain|
    ensures Fill(IndexChain(EMPTY, chain, 0, n), sha) == IndexChain(EMPTY, FillChain(chain, sha), 0, n)
  {
    hide Valid, Hist, ValidChain, SpecBlocks, Join, Fill, FillHist;
    IndexIsJoin(chain, n);
    ValidHist(chain, n);
    FillJoin(SpecBlocks(chain, n), Hist(chain, n), sha);
    FillChainHist(chain, n, sha);
    FillChainValid(chain, sha);
    IndexIsJoin(FillChain(chain, sha), n);
  }

  // Filling one row, in terms of the output the chain has for it.
  lemma FilledRow(row: OutRow, o: TxOut, sha: Sha)
    requires row.scriptType == Stored(o.scriptType) && row.scriptHex == Stored(o.scriptHex)
    requires row.address == Stored(o.address)
    ensures FillRow(row, sha) == row.(address := FillRow(row, sha).address)
    ensures Stored(o.address) != None ==> FillRow(row, sha).address == Some(o.address)
    ensures Stored(o.address) == None ==>
              FillRow(row, sha).address ==
              var a := DecodeScriptAddress(o.scriptType, o.scriptHex, sha); if a == "" then None else Some(a)
  {
    hide DecodeScriptAddress;
    StoredIs(o.scriptHex);
    StoredIs(o.scriptType);
    if Blank(o.scriptHex) {
      BlankScript(o.scriptType, o.scriptHex, sha);
    }
    if DecodeScriptAddress(o.scriptType, o.scriptHex, sha) != "" {
      var version, hash20 := ScriptParts(o.scriptType, o.scriptHex, sha);
      assert !IsSpace("pubkeyhash"[0]) && !IsSpace("scripthash"[0]);
    }
  }

  // What the backfill leaves in each output row: the address the node gave, or else the address of its script's hash if
  // the script has one of the two forms, or else none; and nothing but the address changes.
  lemma BackfilledOutput(chain: seq<Block>, n: nat, i: nat, k: nat, j: nat, sha: Sha)
    requires ValidChain(chain) && HasOut(chain, n, i, k, j)
    ensures var t, tx, o := IndexChain(EMPTY, chain, 0, n), chain[i].txs[k], chain[i].txs[k].vout[j];
            var key := OutKey(tx.txid, o.n);
            && key in t.outputs && key in Fill(t, sha).outputs
            && var was, row := t.outputs[key], Fill(t, sha).outputs[key];
            && row == was.(address := row.address)
            && (Trim(o.address) != "" ==> row.address == Some(o.address))
            && (Trim(o.address) == "" ==>
                  && (row.address.Some? <==> exists raw: seq<Byte>, version: Byte, hash20: seq<Byte> ::
                        Spells(o.scriptHex, raw) && PaysToHash(o.scriptType, raw, version, hash20))
                  && forall raw: seq<Byte>, version: Byte, hash20: seq<Byte> ::
                       Spells(o.scriptHex, raw) && PaysToHash(o.scriptType, raw, version, hash20) ==>
                         row.address == Some(Address(version, hash20, sha)))
  {
    hide IndexChain, ValidChain, DecodeScriptAddress, Spells, Address, Candidate, HexDecode;
    var t, tx, o := IndexChain(EMPTY, chain, 0, n), chain[i].txs[k], chain[i].txs[k].vout[j];
    OutColumns(chain, n, i, k, j);
    FilledRow(t.outputs[OutKey(tx.txid, o.n)], o, sha);
    AddressExactly(o.scriptType, o.scriptHex, sha);
    forall raw: seq<Byte>, version: Byte, hash20: seq<Byte> |
      Spells(o.scriptHex, raw) && PaysToHash(o.scriptType, raw, version, hash20)
      ensures DecodeScriptAddress(o.scriptType, o.scriptHex, sha) == Address(version, hash20, sha) != ""
    {
      HexDecodes(o.scriptHex, raw);
      ScriptAddress(o.scriptType, o.scriptHex, sha, version, hash20);
    }
  }

  // What it leaves in each input row that spends an output: that output's value and, if it has one now, its address.
  lemma BackfilledInput(chain: seq<Block>, n: nat, key: InKey, sha: Sha)
    requires ValidChain(chain) && n <= |chain|
    ensures var t := Fill(IndexChain(EMPTY, chain, 0, n), sha);
            key in t.inputs && !t.inputs[key].isCoinbase ==> InputLinked(t, key)
  {
    hide IndexChain, ValidChain, InputLinked, Fill;
    BackfillCommutes(chain, n, sha);
    FillChainValid(chain, sha);
    UtxoRefinement(FillChain(chain, sha), n);
  }

  lemma {:induction false} IndexAppend(t: Tables, chain: seq<Block>, n: nat, m: nat)
    requires n <= m <= |chain|
    ensures IndexChain(IndexChain(t, chain, 0, n), chain, n, m) == IndexChain(t, chain, 0, m)
  {
    hide IndexBlock;
    if n == m {
    } else {
      IndexAppend(t, chain, n, m - 1);
    }
  }

  // The tool may also run between two upgrades of the indexer: what is ingested afterwards, with addresses, fits on.
  lemma BackfillThenIngest(chain: seq<Block>, n: nat, m: nat, sha: Sha)
    requires ValidChain(chain) && n <= m <= |chain|
    ensures IndexChain(Fill(IndexChain(EMPTY, chain, 0, n), sha), FillChain(chain, sha), n, m)
         == IndexChain(EMPTY, FillChain(chain, sha), 0, m)
  {
    BackfillCommutes(chain, n, sha);
    IndexAppend(EMPTY, FillChain(chain, sha), n, m);
  }

  /******* Interruption *******/

  // Running again after any interruption ends where an uninterrupted run ends, and one more run changes nothing.
  lemma Resumable(t: Tables, u: Tables, sha: Sha)
    requires Stopped(t, u, sha)
    ensures Fill(u, sha) == Fill(t, sha)
    ensures Stopped(t, Fill(t, sha), sha) && Fill(Fill(t, sha), sha) == Fill(t, sha)
  {
    hide DecodeScriptAddress;
    var o, q := Phase1(t.outputs, sha), u.outputs;
    RefilledOutputs(t.outputs, q, sha);
    RefilledInputs(t.inputs, t.outputs, q, sha);
    RefilledOutputs(t.outputs, o, sha);
    RefilledInputs(t.inputs, t.outputs, o, sha);
  }

  lemma RefilledOutputs(was: map<OutKey, OutRow>, after: map<OutKey, OutRow>, sha: Sha)
    requires Partly(was, after, sha)
    ensures Phase1(after, sha) == Phase1(was, sha)
    ensures Partly(was, Phase1(was, sha), sha)
  {
  }

  // Inputs filled from half-filled outputs are filled right as far as they go.
  lemma RefilledInputs(inputs: map<InKey, InRow>, was: map<OutKey, OutRow>, after: map<OutKey, OutRow>, sha: Sha)
    requires Partly(was, after, sha)
    ensures Phase2(Phase2(inputs, after), Phase1(was, sha)) == Phase2(inputs, Phase1(was, sha))
  {
  }
}
