// The four tables, what writing one block does to them, and the proof that the tables
// are exactly the join of the UTXO semantics with the rows of the chain.
module Index {
  import opened Options
  import opened Chain

  datatype BlockRow = BlockRow(height: int, prevHash: Option<string>, txCount: nat, totalOut: int)

  datatype TxRow = TxRow(blockHash: string, blockHeight: int, position: nat, isCoinbase: bool, totalOut: int)

  datatype InRow = InRow(
    prevTxid: Option<string>, prevVout: Option<int>, scriptSig: Option<string>, sequence: Option<int>,
    prevValue: Option<int>, prevAddress: Option<string>, isCoinbase: bool, coinbaseHex: Option<string>)

  // The three spent_* columns are always written together; `spent` is NULL for all three or none.
  datatype OutRow = OutRow(
    value: int, scriptType: Option<string>, scriptHex: Option<string>, address: Option<string>, spent: Option<Spend>)

  datatype Tables = Tables(
    blocks: map<string, BlockRow>, txs: map<string, TxRow>, inputs: map<InKey, InRow>, outputs: map<OutKey, OutRow>)

  const EMPTY := Tables(map[], map[], map[], map[])

  /******* What the writer does *******/

  // An insert that does nothing when the key is taken.
  function PutIfAbsent<K, V>(t: map<K, V>, k: K, v: V): map<K, V> {
    if k in t then t else t[k := v]
  }

  function TotalOut(outs: seq<TxOut>, k: nat): int
    requires k <= |outs|
  {
    if k == 0 then 0 else TotalOut(outs, k - 1) + outs[k - 1].value
  }

  function BlockTotalOut(txs: seq<Tx>, k: nat): int
    requires k <= |txs|
  {
    if k == 0 then 0 else BlockTotalOut(txs, k - 1) + TotalOut(txs[k - 1].vout, |txs[k - 1].vout|)
  }

  function NewBlockRow(b: Block): BlockRow {
    BlockRow(b.height, NullIfEmpty(b.prevHash), |b.txs|, BlockTotalOut(b.txs, |b.txs|))
  }

  function NewTxRow(p: Placed): TxRow {
    TxRow(p.hash, p.height, p.pos, IsCoinbase(p.tx), TotalOut(p.tx.vout, |p.tx.vout|))
  }

  function NewInRow(i: TxIn): InRow {
    if i.coinbase != "" then InRow(None, None, None, i.sequence, None, None, true, Some(i.coinbase))
    else InRow(NullIfEmpty(i.txid), i.vout, NullIfEmpty(i.scriptSig), i.sequence, None, None, false, None)
  }

  function NewOutRow(o: TxOut): OutRow {
    OutRow(o.value, NullIfEmpty(o.scriptType), NullIfEmpty(o.scriptHex), NullIfEmpty(o.address), None)
  }

  function InsertInputs(t: map<InKey, InRow>, tx: Tx, k: nat): map<InKey, InRow>
    requires k <= |tx.vin|
  {
    if k == 0 then t else PutIfAbsent(InsertInputs(t, tx, k - 1), InKey(tx.txid, k - 1), NewInRow(tx.vin[k - 1]))
  }

  function InsertOutputs(t: map<OutKey, OutRow>, tx: Tx, k: nat): map<OutKey, OutRow>
    requires k <= |tx.vout|
  {
    if k == 0 then t
    else PutIfAbsent(InsertOutputs(t, tx, k - 1), OutKey(tx.txid, tx.vout[k - 1].n), NewOutRow(tx.vout[k - 1]))
  }

  // The row an input names, if any: a NULL vout matches nothing.
  function LookUp(t: map<OutKey, OutRow>, i: TxIn): Option<OutRow> {
    if i.vout.Some? && PrevOut(i) in t then Some(t[PrevOut(i)]) else None
  }

  // The UPDATE of tx_inputs: a lookup that finds no row leaves the zero value and a NULL address to be written.
  function FillInput(t: map<InKey, InRow>, key: InKey, found: Option<OutRow>): map<InKey, InRow> {
    if key !in t then t
    else t[key := t[key].(prevValue := Some(if found.Some? then found.value.value else 0),
                          prevAddress := if found.Some? then found.value.address else None)]
  }

  // The UPDATE of tx_outputs.
  function MarkSpent(t: map<OutKey, OutRow>, i: TxIn, s: Spend): map<OutKey, OutRow> {
    if LookUp(t, i).None? then t else t[PrevOut(i) := t[PrevOut(i)].(spent := Some(s))]
  }

  function LinkOne(t: Tables, p: Placed, v: nat): Tables
    requires v < |p.tx.vin|
  {
    var i := p.tx.vin[v];
    if i.txid == "" then t
    else t.(inputs := FillInput(t.inputs, InKey(p.tx.txid, v), LookUp(t.outputs, i)),
            outputs := MarkSpent(t.outputs, i, Spend(p.tx.txid, v, p.height)))
  }

  function Link(t: Tables, p: Placed, k: nat): Tables
    requires k <= |p.tx.vin|
  {
    if k == 0 then t else LinkOne(Link(t, p, k - 1), p, k - 1)
  }

  function InsertRows(t: Tables, p: Placed): Tables {
    t.(txs := PutIfAbsent(t.txs, p.tx.txid, NewTxRow(p)),
       inputs := InsertInputs(t.inputs, p.tx, |p.tx.vin|),
       outputs := InsertOutputs(t.outputs, p.tx, |p.tx.vout|))
  }

  function IndexTx(t: Tables, p: Placed): Tables {
    if IsCoinbase(p.tx) then InsertRows(t, p) else Link(InsertRows(t, p), p, |p.tx.vin|)
  }

  function IndexTxs(t: Tables, b: Block, k: nat): Tables
    requires k <= |b.txs|
  {
    if k == 0 then t else IndexTx(IndexTxs(t, b, k - 1), Placed(b.txs[k - 1], b.hash, b.height, k - 1))
  }

  function InsertBlockRow(t: Tables, b: Block): Tables {
    t.(blocks := PutIfAbsent(t.blocks, b.hash, NewBlockRow(b)))
  }

  // What insertBlockBundle does to the tables.
  function IndexBlock(t: Tables, b: Block): Tables {
    IndexTxs(InsertBlockRow(t, b), b, |b.txs|)
  }

  // One-block-at-a-time ingestion of blocks lo .. hi - 1.
  function IndexChain(t: Tables, chain: seq<Block>, lo: nat, hi: nat): Tables
    requires lo <= hi <= |chain|
  {
    if lo == hi then t else IndexBlock(IndexChain(t, chain, lo, hi - 1), chain[hi - 1])
  }

  /******* What the tables should hold *******/

  ghost function InsTo(tx: Tx, k: nat): map<InKey, TxIn>
    requires k <= |tx.vin|
  {
    if k == 0 then map[] else InsTo(tx, k - 1)[InKey(tx.txid, k - 1) := tx.vin[k - 1]]
  }

  // Every input of a history.
  ghost function Ins(h: seq<Placed>): map<InKey, TxIn> {
    if h == [] then map[] else Ins(h[..|h| - 1]) + InsTo(h[|h| - 1].tx, |h[|h| - 1].tx.vin|)
  }

  ghost function SpecTxs(h: seq<Placed>): map<string, TxRow> {
    if h == [] then map[] else SpecTxs(h[..|h| - 1])[h[|h| - 1].tx.txid := NewTxRow(h[|h| - 1])]
  }

  ghost function SpecInRow(i: TxIn, created: map<OutKey, TxOut>): InRow {
    if i.coinbase == "" && PrevOut(i) in created then
      NewInRow(i).(prevValue := Some(created[PrevOut(i)].value),
                   prevAddress := NullIfEmpty(created[PrevOut(i)].address))
    else NewInRow(i)
  }

  ghost function SpecOutRow(key: OutKey, o: TxOut, spends: map<OutKey, Spend>): OutRow {
    NewOutRow(o).(spent := if key in spends then Some(spends[key]) else None)
  }

  ghost function SpecInputs(h: seq<Placed>): map<InKey, InRow> {
    map key | key in Ins(h) :: SpecInRow(Ins(h)[key], Created(h))
  }

  ghost function SpecOutputs(h: seq<Placed>): map<OutKey, OutRow> {
    map key | key in Created(h) :: SpecOutRow(key, Created(h)[key], Spends(h))
  }

  ghost function SpecBlocks(chain: seq<Block>, n: nat): map<string, BlockRow>
    requires n <= |chain|
  {
    if n == 0 then map[] else SpecBlocks(chain, n - 1)[chain[n - 1].hash := NewBlockRow(chain[n - 1])]
  }

  // The rows of a history, each output joined with its spender and each input with the output it spends.
  ghost function Join(blocks: map<string, BlockRow>, h: seq<Placed>): Tables {
    Tables(blocks, SpecTxs(h), SpecInputs(h), SpecOutputs(h))
  }

  ghost function SpecTables(chain: seq<Block>, n: nat): Tables
    requires n <= |chain|
  {
    Join(SpecBlocks(chain, n), Hist(chain, n))
  }

  /******* The writer computes the join *******/

  lemma SnocRows(h: seq<Placed>, p: Placed)
    ensures Ins(h + [p]) == Ins(h) + InsTo(p.tx, |p.tx.vin|)
    ensures SpecTxs(h + [p]) == SpecTxs(h)[p.tx.txid := NewTxRow(p)]
  {
  }

  lemma {:induction false} InsToMembers(tx: Tx, k: nat)
    requires k <= |tx.vin|
    ensures forall key :: key in InsTo(tx, k) <==> key.txid == tx.txid && 0 <= key.vin < k
    ensures forall v :: 0 <= v < k ==> InsTo(tx, k)[InKey(tx.txid, v)] == tx.vin[v]
  {
    if k == 0 {
    } else {
      InsToMembers(tx, k - 1);
    }
  }

  lemma {:induction false} TxKeys(h: seq<Placed>)
    ensures forall txid :: txid in SpecTxs(h) <==> !FreshTxid(h, txid)
    ensures forall key :: key in Ins(h) ==> !FreshTxid(h, key.txid)
  {
    if h == [] {
    } else {
      var g, p := h[..|h| - 1], h[|h| - 1];
      TxKeys(g);
      InsToMembers(p.tx, |p.tx.vin|);
      forall txid ensures FreshTxid(h, txid) <==> FreshTxid(g, txid) && txid != p.tx.txid {
        assert forall i :: 0 <= i < |g| ==> h[i] == g[i];
      }
    }
  }

  lemma {:induction false} InsertInputsFresh(t: map<InKey, InRow>, tx: Tx, k: nat)
    requires k <= |tx.vin|
    requires forall key :: key in t ==> key.txid != tx.txid
    ensures InsertInputs(t, tx, k).Keys == t.Keys + InsTo(tx, k).Keys
    ensures forall key :: key in t ==> InsertInputs(t, tx, k)[key] == t[key]
    ensures forall key :: key in InsTo(tx, k) ==> InsertInputs(t, tx, k)[key] == NewInRow(InsTo(tx, k)[key])
  {
    hide NewInRow;
    if k == 0 {
    } else {
      InsertInputsFresh(t, tx, k - 1);
      InsToMembers(tx, k - 1);
    }
  }

  lemma {:induction false} InsertOutputsFresh(t: map<OutKey, OutRow>, tx: Tx, k: nat)
    requires k <= |tx.vout| && DistinctOuts(tx)
    requires forall key :: key in t ==> key.txid != tx.txid
    ensures InsertOutputs(t, tx, k).Keys == t.Keys + OutsTo(tx, k).Keys
    ensures forall key :: key in t ==> InsertOutputs(t, tx, k)[key] == t[key]
    ensures forall key :: key in OutsTo(tx, k) ==> InsertOutputs(t, tx, k)[key] == NewOutRow(OutsTo(tx, k)[key])
  {
    hide NewOutRow, DistinctOuts;
    if k == 0 {
    } else {
      InsertOutputsFresh(t, tx, k - 1);
      NewOutKey(tx, k - 1);
    }
  }

  lemma NewOutKey(tx: Tx, k: nat)
    requires k < |tx.vout| && DistinctOuts(tx)
    ensures OutKey(tx.txid, tx.vout[k].n) !in OutsTo(tx, k)
  {
    OutsToMembers(tx, k);
  }

  ghost function Filled(r: InRow, o: OutRow): InRow {
    r.(prevValue := Some(o.value), prevAddress := o.address)
  }

  ghost predicate Linkable(t: Tables, p: Placed) {
    && InputsFit(p.tx) && !IsCoinbase(p.tx)
    && forall v :: 0 <= v < |p.tx.vin| ==> PrevOut(p.tx.vin[v]) in t.outputs && InKey(p.tx.txid, v) in t.inputs
  }

  // The inputs after k link steps: the first k filled from the outputs they name.
  ghost function FillTo(t: Tables, p: Placed, k: nat): (r: map<InKey, InRow>)
    requires k <= |p.tx.vin| && Linkable(t, p)
    ensures r.Keys == t.inputs.Keys
  {
    if k == 0 then t.inputs
    else
      var key := InKey(p.tx.txid, k - 1);
      FillTo(t, p, k - 1)[key := Filled(t.inputs[key], t.outputs[PrevOut(p.tx.vin[k - 1])])]
  }

  lemma {:induction false} FillToAt(t: Tables, p: Placed, k: nat, key: InKey)
    requires k <= |p.tx.vin| && Linkable(t, p) && key in t.inputs
    ensures FillTo(t, p, k)[key] ==
            if key.txid == p.tx.txid && 0 <= key.vin < k
              then Filled(t.inputs[key], t.outputs[PrevOut(p.tx.vin[key.vin])])
            else t.inputs[key]
  {
    if k == 0 {
    } else {
      FillToAt(t, p, k - 1, key);
    }
  }

  ghost function Marked(t: map<OutKey, OutRow>, spends: map<OutKey, Spend>): map<OutKey, OutRow> {
    map key | key in t :: if key in spends then t[key].(spent := Some(spends[key])) else t[key]
  }

  // An input that names nothing is left alone; one that names an output that is not there, or has no number for it,
  // gets the value 0 and no address, and no output is marked.
  lemma LinkMissing(t: Tables, p: Placed, v: nat)
    requires v < |p.tx.vin|
    ensures var i, key := p.tx.vin[v], InKey(p.tx.txid, v);
            && (i.txid == "" ==> LinkOne(t, p, v) == t)
            && (i.txid != "" && (i.vout == None || OutKey(i.txid, i.vout.value) !in t.outputs) && key in t.inputs ==>
                  var row := t.inputs[key].(prevValue := Some(0), prevAddress := None);
                  LinkOne(t, p, v) == t.(inputs := t.inputs[key := row]))
  {
  }

  // One link step on tables that already hold the effect of the steps before it.
  lemma LinkStep(t: Tables, t': Tables, p: Placed, v: nat)
    requires v < |p.tx.vin| && Linkable(t, p)
    requires t'.inputs == FillTo(t, p, v) && t'.outputs == Marked(t.outputs, RefsTo(p, v))
    ensures LinkOne(t', p, v).inputs == FillTo(t, p, v + 1)
    ensures LinkOne(t', p, v).outputs == Marked(t.outputs, RefsTo(p, v + 1))
    ensures LinkOne(t', p, v).txs == t'.txs && LinkOne(t', p, v).blocks == t'.blocks
  {
    var i, key := p.tx.vin[v], InKey(p.tx.txid, v);
    FillToAt(t, p, v, key);
    assert i.txid != "" && LookUp(t'.outputs, i) == Some(t'.outputs[PrevOut(i)]);
    assert LinkOne(t', p, v).outputs[PrevOut(i)] ==
        t.outputs[PrevOut(i)].(spent := Some(Spend(p.tx.txid, v, p.height)));
  }

  // Linking fills each input from the output it names, marks that output as spent by it, and changes nothing else.
  lemma {:induction false} LinkEffect(t: Tables, p: Placed, k: nat)
    requires k <= |p.tx.vin| && Linkable(t, p)
    ensures Link(t, p, k) == t.(inputs := FillTo(t, p, k), outputs := Marked(t.outputs, RefsTo(p, k)))
  {
    hide LinkOne, Linkable;
    if k == 0 {
      assert t.outputs == Marked(t.outputs, map[]);
    } else {
      LinkEffect(t, p, k - 1);
      LinkStep(t, Link(t, p, k - 1), p, k - 1);
    }
  }

  // What inserting the rows of the next transaction of a valid history does.
  lemma InsertRowsJoins(blocks: map<string, BlockRow>, h: seq<Placed>, p: Placed)
    requires Valid(h) && ValidNext(h, p)
    ensures var t, t' := Join(blocks, h), InsertRows(Join(blocks, h), p);
            && t'.txs == SpecTxs(h + [p])
            && t'.inputs.Keys == Ins(h + [p]).Keys
            && (forall key :: key in t.inputs ==> t'.inputs[key] == t.inputs[key])
            && (forall key :: key in Ins(h + [p]) && key !in t.inputs ==> t'.inputs[key] == NewInRow(Ins(h + [p])[key]))
            && t'.outputs.Keys == Created(h + [p]).Keys
            && (forall key :: key in t.outputs ==> t'.outputs[key] == t.outputs[key])
            && (forall key :: key in Created(h + [p]) && key !in t.outputs ==>
              t'.outputs[key] == NewOutRow(Created(h + [p])[key]))
  {
    hide Created, Spends, Ins, SpecTxs, Valid, OutsTo, InsTo, InsertInputs, InsertOutputs, NewTxRow, NewInRow,
         NewOutRow, RefsTo;
    Snoc(h, p);
    SnocRows(h, p);
    TxKeys(h);
    KeysBelong(h);
    var t := Join(blocks, h);
    InsertInputsFresh(t.inputs, p.tx, |p.tx.vin|);
    InsertOutputsFresh(t.outputs, p.tx, |p.tx.vout|);
  }

  // Later transactions leave the joined rows of earlier inputs and outputs as they were, but for new spends.
  lemma JoinGrows(h: seq<Placed>, p: Placed)
    requires Valid(h) && ValidNext(h, p)
    ensures forall key :: key in Ins(h) ==>
              key in Ins(h + [p]) && Ins(h + [p])[key] == Ins(h)[key] && key.txid != p.tx.txid
    ensures forall key :: key in Ins(h + [p]) && key !in Ins(h) ==>
            key.txid == p.tx.txid && 0 <= key.vin < |p.tx.vin| && Ins(h + [p])[key] == p.tx.vin[key.vin]
    ensures forall key :: key in Created(h) ==> key in Created(h + [p]) && Created(h + [p])[key] == Created(h)[key]
  {
    Snoc(h, p);
    SnocRows(h, p);
    TxKeys(h);
    KeysBelong(h);
    InsToMembers(p.tx, |p.tx.vin|);
    OutsToMembers(p.tx, |p.tx.vout|);
  }

  lemma NoIns()
    ensures Ins([]) == map[]
  {
  }

  // Every non-coinbase input of a valid history names an output the history created.
  lemma {:induction false} InsNamed(h: seq<Placed>)
    requires Valid(h)
    ensures forall key :: key in Ins(h) && Ins(h)[key].coinbase == "" ==> PrevOut(Ins(h)[key]) in Created(h)
  {
    hide Blank, OutsTo, RefsTo, Spends, InsTo, Created, Valid, Ins;
    if h == [] {
      NoIns();
    } else {
      var g, p := h[..|h| - 1], h[|h| - 1];
      assert h == g + [p];
      Snoc(g, p);
      SnocRows(g, p);
      InsNamed(g);
      InsToMembers(p.tx, |p.tx.vin|);
      RefsToMembers(p, |p.tx.vin|);
    }
  }

  // The output a new input names was created earlier.
  lemma NewInputNamed(h: seq<Placed>, p: Placed, v: int)
    requires ValidNext(h, p) && !IsCoinbase(p.tx) && 0 <= v < |p.tx.vin|
    ensures PrevOut(p.tx.vin[v]) in Created(h) && PrevOut(p.tx.vin[v]) in Refs(p)
  {
    RefsToMembers(p, |p.tx.vin|);
  }

  lemma NextFits(h: seq<Placed>, p: Placed)
    requires ValidNext(h, p)
    ensures InputsFit(p.tx)
  {
  }

  lemma JoinLinkable(blocks: map<string, BlockRow>, h: seq<Placed>, p: Placed)
    requires Valid(h) && ValidNext(h, p) && !IsCoinbase(p.tx)
    ensures Linkable(InsertRows(Join(blocks, h), p), p)
  {
    hide Created, Spends, Ins, Valid, ValidNext, RefsTo, OutsTo, InsTo, InsertRows, Blank, SpecInRow, SpecOutRow,
         SpecTxs;
    var t := InsertRows(Join(blocks, h), p);
    assert InputsFit(p.tx) by { NextFits(h, p); }
    forall v | 0 <= v < |p.tx.vin| ensures PrevOut(p.tx.vin[v]) in t.outputs && InKey(p.tx.txid, v) in t.inputs {
      NewInputNamed(h, p, v);
      InsertRowsJoins(blocks, h, p);
      SnocRows(h, p);
      InsToMembers(p.tx, |p.tx.vin|);
      Snoc(h, p);
    }
  }

  lemma JoinInputAt(blocks: map<string, BlockRow>, h: seq<Placed>, p: Placed, key: InKey)
    requires Valid(h) && ValidNext(h, p) && key in Ins(h + [p])
    ensures key in InsertRows(Join(blocks, h), p).inputs
    ensures IsCoinbase(p.tx) ==> InsertRows(Join(blocks, h), p).inputs[key] == SpecInputs(h + [p])[key]
    ensures !IsCoinbase(p.tx) ==>
              && Linkable(InsertRows(Join(blocks, h), p), p)
              && FillTo(InsertRows(Join(blocks, h), p), p, |p.tx.vin|)[key] == SpecInputs(h + [p])[key]
  {
    hide Created, Spends, Ins, RefsTo, OutsTo, InsTo, Valid;
    hide InsertRows, Blank;
    var t1 := InsertRows(Join(blocks, h), p);
    InsertRowsJoins(blocks, h, p);
    JoinGrows(h, p);
    if key in Ins(h) {
      InsNamed(h);
    }
    if !IsCoinbase(p.tx) {
      JoinLinkable(blocks, h, p);
      FillToAt(t1, p, |p.tx.vin|, key);
      if key !in Ins(h) {
        NewInputNamed(h, p, key.vin);
      }
    }
  }

  lemma JoinInputs(blocks: map<string, BlockRow>, h: seq<Placed>, p: Placed)
    requires Valid(h) && ValidNext(h, p)
    ensures IndexTx(Join(blocks, h), p).inputs == SpecInputs(h + [p])
  {
    hide Created, Spends, Ins, RefsTo, OutsTo, InsTo, Valid, ValidNext, InsertRows, Link, FillTo, Linkable, Marked;
    var t1 := InsertRows(Join(blocks, h), p);
    assert t1.inputs.Keys == Ins(h + [p]).Keys by {
      InsertRowsJoins(blocks, h, p);
    }
    if !IsCoinbase(p.tx) {
      JoinLinkable(blocks, h, p);
      LinkEffect(t1, p, |p.tx.vin|);
    }
    var r := IndexTx(Join(blocks, h), p).inputs;
    assert r.Keys == SpecInputs(h + [p]).Keys;
    forall key | key in r ensures r[key] == SpecInputs(h + [p])[key] {
      JoinInputAt(blocks, h, p, key);
    }
  }

  lemma JoinOutputAt(blocks: map<string, BlockRow>, h: seq<Placed>, p: Placed, key: OutKey)
    requires Valid(h) && ValidNext(h, p) && key in Created(h + [p])
    ensures key in InsertRows(Join(blocks, h), p).outputs
    ensures Marked(InsertRows(Join(blocks, h), p).outputs, Refs(p))[key] == SpecOutputs(h + [p])[key]
  {
    hide Created, Spends, Ins, RefsTo, OutsTo, InsTo, Valid;
    InsertRowsJoins(blocks, h, p);
    JoinGrows(h, p);
    Snoc(h, p);
    KeysBelong(h);
  }

  lemma NoRefs(p: Placed)
    requires IsCoinbase(p.tx)
    ensures Refs(p) == map[]
  {
  }

  lemma JoinOutputs(blocks: map<string, BlockRow>, h: seq<Placed>, p: Placed)
    requires Valid(h) && ValidNext(h, p)
    ensures IndexTx(Join(blocks, h), p).outputs == SpecOutputs(h + [p])
  {
    hide Created, Spends, Ins, RefsTo, OutsTo, InsTo, Valid, ValidNext, InsertRows, Link, FillTo, Linkable;
    var t1 := InsertRows(Join(blocks, h), p);
    assert t1.outputs.Keys == Created(h + [p]).Keys by {
      InsertRowsJoins(blocks, h, p);
    }
    if IsCoinbase(p.tx) {
      NoRefs(p);
      assert t1.outputs == Marked(t1.outputs, Refs(p));
    } else {
      JoinLinkable(blocks, h, p);
      LinkEffect(t1, p, |p.tx.vin|);
    }
    var r := IndexTx(Join(blocks, h), p).outputs;
    assert r == Marked(t1.outputs, Refs(p));
    forall key | key in r ensures r[key] == SpecOutputs(h + [p])[key] {
      JoinOutputAt(blocks, h, p, key);
    }
  }

  // Indexing the next transaction of a valid history extends the join by that transaction.
  lemma IndexTxJoins(blocks: map<string, BlockRow>, h: seq<Placed>, p: Placed)
    requires Valid(h) && ValidNext(h, p)
    ensures IndexTx(Join(blocks, h), p) == Join(blocks, h + [p])
  {
    InsertRowsJoins(blocks, h, p);
    JoinInputs(blocks, h, p);
    JoinOutputs(blocks, h, p);
    if !IsCoinbase(p.tx) {
      JoinLinkable(blocks, h, p);
      LinkEffect(InsertRows(Join(blocks, h), p), p, |p.tx.vin|);
    }
  }

  lemma {:induction false} IndexTxsJoins(blocks: map<string, BlockRow>, chain: seq<Block>, n: nat, k: nat)
    requires ValidChain(chain) && n < |chain| && k <= |chain[n].txs|
    ensures IndexTxs(Join(blocks, Hist(chain, n)), chain[n], k) == Join(blocks, Hist(chain, n) + Place(chain[n], k))
  {
    hide Created, Spends, Ins, Valid, IndexTx, Join;
    var h, b := Hist(chain, n), chain[n];
    if k == 0 {
      assert h + Place(b, 0) == h;
    } else {
      IndexTxsJoins(blocks, chain, n, k - 1);
      var g, p := h + Place(b, k - 1), Placed(b.txs[k - 1], b.hash, b.height, k - 1);
      assert h + Place(b, k) == g + [p];
      ValidUpTo(chain, n, k);
      Snoc(g, p);
      IndexTxJoins(blocks, g, p);
    }
  }

  lemma {:induction false} BlockKeys(chain: seq<Block>, n: nat)
    requires n <= |chain|
    ensures forall hash :: hash in SpecBlocks(chain, n) <==> exists i :: 0 <= i < n && chain[i].hash == hash
    ensures (forall i, j :: 0 <= i < j < |chain| ==> chain[i].hash != chain[j].hash) ==>
              forall i :: 0 <= i < n ==> SpecBlocks(chain, n)[chain[i].hash] == NewBlockRow(chain[i])
  {
    if n == 0 {
    } else {
      BlockKeys(chain, n - 1);
    }
  }

  // The main theorem: for every valid chain, block-by-block ingestion computes the join of the
  // UTXO semantics with the rows of the chain.
  lemma {:induction false} IndexIsJoin(chain: seq<Block>, n: nat)
    requires ValidChain(chain) && n <= |chain|
    ensures IndexChain(EMPTY, chain, 0, n) == SpecTables(chain, n)
  {
    if n == 0 {
      assert SpecTables(chain, 0) == EMPTY;
    } else {
      IndexIsJoin(chain, n - 1);
      var b, h := chain[n - 1], Hist(chain, n - 1);
      BlockKeys(chain, n - 1);
      assert InsertBlockRow(SpecTables(chain, n - 1), b) == Join(SpecBlocks(chain, n), h);
      IndexTxsJoins(SpecBlocks(chain, n), chain, n - 1, |b.txs|);
    }
  }
}
