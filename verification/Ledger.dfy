// The address page: a summary balance from spent pointers, and a history replayed from the
// values copied onto inputs. They agree because of what the writer keeps.
module Ledger {
  import opened Options
  import opened Sums
  import opened Chain
  import opened Index
  import opened Refinement
  import opened Balances
  import opened Base58

  // One row of the history query, and the row the page shows for it.
  datatype NetRow = NetRow(txid: string, height: int, net: int)
  datatype AddressTxRow = AddressTxRow(txid: string, height: int, netSats: int, balanceSats: int)

  datatype Detail = Detail(
    address: string, totalRecv: int, totalSent: int, balance: int, txs: seq<AddressTxRow>, txCount: nat)

  /******* The queries *******/

  // Sum over the address's outputs, 0 if it has none.
  ghost function RecvTotal(t: Tables, a: string): int {
    Total(map k | k in t.outputs && t.outputs[k].address == Some(a) :: t.outputs[k].value)
  }

  // The same over the spent ones.
  ghost function SentTotal(t: Tables, a: string): int {
    Total(map k | k in t.outputs && t.outputs[k].address == Some(a) && t.outputs[k].spent.Some? :: t.outputs[k].value)
  }

  ghost function InputCount(t: Tables, a: string): nat {
    |set k | k in t.inputs && t.inputs[k].prevAddress == Some(a)|
  }

  // The transaction is in output_txs or in input_txs.
  ghost predicate Touches(t: Tables, a: string, txid: string) {
    RecvRows(t, a, txid) != map[] || SentRows(t, a, txid) != map[]
  }

  // It also survives the joins with transactions and blocks.
  ghost predicate Listed(t: Tables, a: string, txid: string) {
    Touches(t, a, txid) && txid in t.txs && t.txs[txid].blockHash in t.blocks
  }

  // The order of the history: by height, then by position in the block.
  ghost predicate Ordered(t: Tables, x: string, y: string)
    requires x in t.txs && y in t.txs
  {
    var p, q := t.txs[x], t.txs[y];
    p.blockHeight < q.blockHeight || (p.blockHeight == q.blockHeight && p.position <= q.position)
  }

  ghost predicate IsHistory(rows: seq<NetRow>, t: Tables, a: string) {
    && (forall i :: 0 <= i < |rows| ==>
          && Listed(t, a, rows[i].txid)
          && rows[i].height == t.txs[rows[i].txid].blockHeight
          && rows[i].net == Total(RecvRows(t, a, rows[i].txid)) - Total(SentRows(t, a, rows[i].txid)))
    && (forall txid :: Listed(t, a, txid) ==> exists i :: 0 <= i < |rows| && rows[i].txid == txid)
    && (forall i, j :: 0 <= i < j < |rows| ==> rows[i].txid != rows[j].txid && Ordered(t, rows[i].txid, rows[j].txid))
  }

  /******* The page *******/

  function RunningNet(rows: seq<NetRow>, k: nat): int
    requires k <= |rows|
  {
    if k == 0 then 0 else RunningNet(rows, k - 1) + rows[k - 1].net
  }

  // The rows that could be read: a row that fails to scan is skipped.
  function Kept(rows: seq<NetRow>, scans: seq<bool>, k: nat): seq<NetRow>
    requires k <= |rows| == |scans|
  {
    if k == 0 then []
    else if scans[k - 1] then Kept(rows, scans, k - 1) + [rows[k - 1]]
    else Kept(rows, scans, k - 1)
  }

  // The summary query finds nothing of value and no input row mentions the address.
  ghost predicate NothingFound(s1: Tables, s2: Tables, a: string) {
    RecvTotal(s1, a) == 0 && SentTotal(s1, a) == 0 && InputCount(s2, a) == 0
  }

  // Each row with the sum of the net amounts up to it.
  ghost predicate ShowsRunning(txs: seq<AddressTxRow>, rows: seq<NetRow>) {
    && |txs| == |rows|
    && forall i :: 0 <= i < |rows| ==>
         txs[i] == AddressTxRow(rows[i].txid, rows[i].height, rows[i].net, RunningNet(rows, i + 1))
  }

  // What was asked of the three queries, each with its own committed state: the summary at s1, the input count at s2,
  // and at s3 the history, of which the stream may have delivered only the first rows.
  ghost predicate Answers(a: string, recv: int, sent: int, countOk: bool, inputCount: nat, rows: seq<NetRow>,
                          s1: Tables, s2: Tables, s3: Tables, history: seq<NetRow>) {
    && recv == RecvTotal(s1, a) && sent == SentTotal(s1, a)
    && (countOk ==> inputCount == InputCount(s2, a))
    && rows <= history && IsHistory(history, s3, a)
  }

  // The page for an address, or failure when the summary or the history query fails. An error of the count is
  // ignored, and then counts as none found.
  method AddressDetail(query: string, sumOk: bool, recv: int, sent: int, countOk: bool, inputCount: nat,
                       listOk: bool, rows: seq<NetRow>, scans: seq<bool>,
                       ghost s1: Tables, ghost s2: Tables, ghost s3: Tables, ghost history: seq<NetRow>)
    returns (failed: bool, d: Option<Detail>)
    requires Answers(Trim(query), recv, sent, countOk, inputCount, rows, s1, s2, s3, history) && |scans| == |rows|
    ensures Blank(query) ==> !failed && d.None?
    ensures !Blank(query) && !sumOk ==> failed && d.None?
    ensures !Blank(query) && sumOk ==>
              var a := Trim(query);
              var missing := RecvTotal(s1, a) == 0 && SentTotal(s1, a) == 0 && (countOk ==> InputCount(s2, a) == 0);
              && failed == (!missing && !listOk) && (d.Some? <==> !missing && listOk)
              && (d.Some? ==>
                    && d.value.address == a && d.value.totalRecv == RecvTotal(s1, a)
                    && d.value.totalSent == SentTotal(s1, a)
                    && d.value.balance == RecvTotal(s1, a) - SentTotal(s1, a)
                    && d.value.txCount == |d.value.txs| && ShowsRunning(d.value.txs, Kept(rows, scans, |rows|)))
  {
    hide IsHistory, RecvTotal, SentTotal, InputCount, ShowsRunning, Kept;
    TrimBlank(query);
    var addr := Trim(query);
    if addr == "" {
      return false, None;
    }
    if !sumOk {
      return true, None;
    }
    if recv == 0 && sent == 0 {
      var count := 0;
      if countOk {
        count := inputCount;
      }
      if count == 0 {
        return false, None;
      }
    }
    if !listOk {
      return true, None;
    }
    var txs := ReadHistory(rows, scans);
    failed, d := false, Some(Detail(addr, recv, sent, recv - sent, txs, |txs|));
  }

  method ReadHistory(rows: seq<NetRow>, scans: seq<bool>) returns (txs: seq<AddressTxRow>)
    requires |scans| == |rows|
    ensures ShowsRunning(txs, Kept(rows, scans, |rows|))
  {
    var runningBalance := 0;
    txs := [];
    for i := 0 to |rows|
      invariant ShowsRunning(txs, Kept(rows, scans, i))
      invariant runningBalance == RunningNet(Kept(rows, scans, i), |Kept(rows, scans, i)|)
    {
      if !scans[i] {
        continue;
      }
      KeepOne(txs, Kept(rows, scans, i), rows[i]);
      runningBalance := runningBalance + rows[i].net;
      txs := txs + [AddressTxRow(rows[i].txid, rows[i].height, rows[i].net, runningBalance)];
    }
  }

  lemma KeepOne(txs: seq<AddressTxRow>, kept: seq<NetRow>, row: NetRow)
    requires ShowsRunning(txs, kept)
    ensures var sum := RunningNet(kept, |kept|) + row.net;
            && RunningNet(kept + [row], |kept| + 1) == sum
            && ShowsRunning(txs + [AddressTxRow(row.txid, row.height, row.net, sum)], kept + [row])
  {
    var more := kept + [row];
    forall k: nat | k <= |kept| ensures RunningNet(more, k) == RunningNet(kept, k) {
      RunningPrefix(kept, more, k);
    }
  }

  lemma {:induction false} RunningPrefix(rows: seq<NetRow>, more: seq<NetRow>, k: nat)
    requires rows <= more && k <= |rows|
    ensures RunningNet(more, k) == RunningNet(rows, k)
  {
    if k == 0 {
    } else {
      RunningPrefix(rows, more, k - 1);
    }
  }

  // How many of the first k rows could be read.
  function Count(scans: seq<bool>, k: nat): nat
    requires k <= |scans|
  {
    if k == 0 then 0 else Count(scans, k - 1) + if scans[k - 1] then 1 else 0
  }

  // Every row that could be read is kept, and only those, each behind as many as could be read before it.
  lemma {:induction false} KeptRows(rows: seq<NetRow>, scans: seq<bool>, k: nat)
    requires k <= |rows| == |scans|
    ensures |Kept(rows, scans, k)| == Count(scans, k)
    ensures forall i: nat :: i < k && scans[i] ==>
              Count(scans, i) < Count(scans, k) && Kept(rows, scans, k)[Count(scans, i)] == rows[i]
  {
    if k == 0 {
    } else {
      KeptRows(rows, scans, k - 1);
    }
  }

  function Dropped(rows: seq<NetRow>, scans: seq<bool>, k: nat): int
    requires k <= |rows| == |scans|
  {
    if k == 0 then 0 else Dropped(rows, scans, k - 1) + if scans[k - 1] then 0 else rows[k - 1].net
  }

  // The last balance shown is off by the net amounts of the rows that were skipped; with none skipped every row
  // delivered is shown, with the balance it would have in the complete history.
  lemma {:induction false} SkippedRows(rows: seq<NetRow>, scans: seq<bool>, k: nat)
    requires k <= |rows| == |scans|
    ensures var kept := Kept(rows, scans, k); RunningNet(kept, |kept|) == RunningNet(rows, k) - Dropped(rows, scans, k)
    ensures (forall i :: 0 <= i < k ==> scans[i]) ==> Kept(rows, scans, k) == rows[..k] && Dropped(rows, scans, k) == 0
  {
    if k == 0 {
    } else {
      SkippedRows(rows, scans, k - 1);
      var kept := Kept(rows, scans, k - 1);
      RunningPrefix(kept, kept + [rows[k - 1]], |kept|);
    }
  }

  // With no row skipped, the page shows the first rows of the complete history, each with its balance in it.
  lemma DeliveredRows(txs: seq<AddressTxRow>, rows: seq<NetRow>, scans: seq<bool>, history: seq<NetRow>)
    requires rows <= history && |scans| == |rows| && (forall i :: 0 <= i < |rows| ==> scans[i])
    requires ShowsRunning(txs, Kept(rows, scans, |rows|))
    ensures |txs| == |rows|
    ensures forall i :: 0 <= i < |rows| ==>
              txs[i] == AddressTxRow(history[i].txid, history[i].height, history[i].net, RunningNet(history, i + 1))
  {
    SkippedRows(rows, scans, |rows|);
    assert rows[..|rows|] == rows;
    forall k: nat | k <= |rows| ensures RunningNet(history, k) == RunningNet(rows, k) {
      RunningPrefix(rows, history, k);
    }
  }

  // An address pasted with white space around it finds the same page.
  lemma PaddedAddress(version: Byte, hash20: seq<Byte>, sha: Sha, left: string, right: string)
    requires |hash20| == 20 && version in [VERSION_P2PKH, VERSION_P2SH]
    requires forall i :: 0 <= i < |left| ==> left[i] in [' ', '\t', '\n', '\r']
    requires forall i :: 0 <= i < |right| ==> right[i] in [' ', '\t', '\n', '\r']
    ensures Trim(left + Address(version, hash20, sha) + right) == Address(version, hash20, sha)
  {
    hide Address;
    var s := Address(version, hash20, sha);
    AddressShape(hash20, sha);
    AddressLetters(version, hash20, sha, 0);
    AddressLetters(version, hash20, sha, |s| - 1);
    TrimPadded(left, s, right);
  }

  lemma AddressLetters(version: Byte, hash20: seq<Byte>, sha: Sha, i: nat)
    requires i < |Address(version, hash20, sha)|
    ensures !IsSpace(Address(version, hash20, sha)[i])
  {
    AlphabetIs();
    assert Address(version, hash20, sha)[i] in ALPHABET;
  }

  /******* What the page shows is the UTXO balance *******/

  // Unspent value of the address after the first m transactions.
  ghost function BalanceAt(h: seq<Placed>, m: nat, a: string): int
    requires m <= |h|
  {
    Total(Unspent(h[..m], Of(a)))
  }

  lemma BalanceStep(blocks: map<string, BlockRow>, h: seq<Placed>, m: nat, a: string)
    requires Valid(h) && m < |h|
    ensures var t, x := Join(blocks, h), h[m].tx.txid;
            BalanceAt(h, m + 1, a) == BalanceAt(h, m, a) + Total(RecvRows(t, a, x)) - Total(SentRows(t, a, x))
  {
    hide Valid, ValidNext, Unspent, RecvRows, SentRows, Received, Spent, Total, Join;
    NextTx(h, m);
    UtxoStep(h[..m], h[m], Of(a));
    RecvRowsMatch(blocks, h, m, a);
    SentRowsMatch(blocks, h, m, a);
  }

  lemma NextTx(h: seq<Placed>, m: nat)
    requires Valid(h) && m < |h|
    ensures h[..m + 1] == h[..m] + [h[m]] && Valid(h[..m]) && ValidNext(h[..m], h[m])
  {
    hide ValidNext, Created, Spends;
    ValidPrefix(h, m + 1);
    assert h[..m + 1] == h[..m] + [h[m]];
    Snoc(h[..m], h[m]);
  }

  lemma NoRowsNoChange(t: Tables, a: string, txid: string)
    requires !Touches(t, a, txid)
    ensures Total(RecvRows(t, a, txid)) == 0 && Total(SentRows(t, a, txid)) == 0
  {
  }

  lemma {:induction false} BalanceStill(blocks: map<string, BlockRow>, h: seq<Placed>, lo: nat, hi: nat, a: string)
    requires Valid(h) && lo <= hi <= |h|
    requires forall m :: lo <= m < hi ==> !Touches(Join(blocks, h), a, h[m].tx.txid)
    ensures BalanceAt(h, hi, a) == BalanceAt(h, lo, a)
  {
    hide BalanceAt, Touches, Valid;
    if lo == hi {
    } else {
      BalanceStill(blocks, h, lo, hi - 1, a);
      BalanceStep(blocks, h, hi - 1, a);
      NoRowsNoChange(Join(blocks, h), a, h[hi - 1].tx.txid);
    }
  }

  // Facts about a valid chain that the rows of a history rest on.
  ghost predicate Placing(chain: seq<Block>, n: nat, a: string, rows: seq<NetRow>) {
    && ValidChain(chain) && n <= |chain| && IsHistory(rows, SpecTables(chain, n), a)
  }

  // The row's transaction, and where it stands in the chain.
  ghost predicate StandsAt(chain: seq<Block>, n: nat, row: NetRow, m: nat)
    requires n <= |chain|
  {
    m < |Hist(chain, n)| && Hist(chain, n)[m].tx.txid == row.txid
  }

  lemma RowStands(chain: seq<Block>, n: nat, a: string, rows: seq<NetRow>, i: nat) returns (m: nat)
    requires Placing(chain, n, a, rows) && i < |rows|
    ensures StandsAt(chain, n, rows[i], m)
  {
    hide Valid, Hist, Created, Spends, Ins;
    var h := Hist(chain, n);
    TxKeys(h);
    assert rows[i].txid in SpecTxs(h);
    m :| 0 <= m < |h| && h[m].tx.txid == rows[i].txid;
  }

  lemma RowsInOrder(chain: seq<Block>, n: nat, a: string, rows: seq<NetRow>, i: nat, j: nat, mi: nat, mj: nat)
    requires Placing(chain, n, a, rows) && i < j < |rows|
    requires StandsAt(chain, n, rows[i], mi) && StandsAt(chain, n, rows[j], mj)
    ensures mi < mj
  {
    hide Valid, Hist, Created, Spends, Ins, Listed;
    var h := Hist(chain, n);
    ValidHist(chain, n);
    HistSorted(chain, n);
    RowsLast(h, mi);
    RowsLast(h, mj);
    assert Ordered(SpecTables(chain, n), rows[i].txid, rows[j].txid);
  }

  // Every transaction the address appears in has a row: its block is indexed.
  lemma TouchedListed(chain: seq<Block>, n: nat, a: string, rows: seq<NetRow>, m: nat) returns (j: nat)
    requires Placing(chain, n, a, rows) && m < |Hist(chain, n)|
    requires Touches(SpecTables(chain, n), a, Hist(chain, n)[m].tx.txid)
    ensures j < |rows| && StandsAt(chain, n, rows[j], m)
  {
    hide Valid, Hist, Created, Spends, Ins, Touches;
    var h := Hist(chain, n);
    ValidHist(chain, n);
    HistSorted(chain, n);
    RowsLast(h, m);
    BlockKeys(chain, n);
    assert Listed(SpecTables(chain, n), a, h[m].tx.txid);
    j :| 0 <= j < |rows| && rows[j].txid == h[m].tx.txid;
  }

  // No transaction strictly between two neighbouring rows touches the address.
  lemma NothingBetween(chain: seq<Block>, n: nat, a: string, rows: seq<NetRow>, i: nat, lo: nat, hi: nat)
    requires Placing(chain, n, a, rows) && i <= |rows| && lo <= hi <= |Hist(chain, n)|
    requires if i == 0 then lo == 0 else lo > 0 && StandsAt(chain, n, rows[i - 1], lo - 1)
    requires if i == |rows| then hi == |Hist(chain, n)| else StandsAt(chain, n, rows[i], hi)
    ensures BalanceAt(Hist(chain, n), hi, a) == BalanceAt(Hist(chain, n), lo, a)
  {
    hide Valid, Hist, BalanceAt, Touches, IsHistory, ValidChain;
    var h, t := Hist(chain, n), SpecTables(chain, n);
    ValidHist(chain, n);
    forall m | lo <= m < hi ensures !Touches(t, a, h[m].tx.txid) {
      if Touches(t, a, h[m].tx.txid) {
        var j := TouchedListed(chain, n, a, rows, m);
        if j + 1 < i {
          RowsInOrder(chain, n, a, rows, j, i - 1, m, lo - 1);
        } else if j > i {
          RowsInOrder(chain, n, a, rows, i, j, hi, m);
        } else if j + 1 == i {
          SameRow(chain, n, rows[j], m, lo - 1);
        } else {
          SameRow(chain, n, rows[j], m, hi);
        }
      }
    }
    BalanceStill(SpecBlocks(chain, n), h, lo, hi, a);
  }

  lemma SameRow(chain: seq<Block>, n: nat, row: NetRow, m: nat, k: nat)
    requires ValidChain(chain) && n <= |chain| && StandsAt(chain, n, row, m) && StandsAt(chain, n, row, k)
    ensures m == k
  {
    ValidHist(chain, n);
    if m < k {
      TxidsUnique(Hist(chain, n), m, k);
    } else if k < m {
      TxidsUnique(Hist(chain, n), k, m);
    }
  }

  // The balance shown on row i is the UTXO balance just after that row's transaction.
  lemma {:induction false} RunningIsUtxo(chain: seq<Block>, n: nat, a: string, rows: seq<NetRow>, i: nat, m: nat)
    requires Placing(chain, n, a, rows) && i < |rows| && StandsAt(chain, n, rows[i], m)
    ensures RunningNet(rows, i + 1) == BalanceAt(Hist(chain, n), m + 1, a)
  {
    hide Valid, Hist, Created, Spends, Ins, Unspent, Touches, RecvRows, SentRows, ValidChain;
    var h := Hist(chain, n);
    ValidHist(chain, n);
    if i == 0 {
      NothingBetween(chain, n, a, rows, 0, 0, m);
      NothingYet(h, a);
    } else {
      var k := RowStands(chain, n, a, rows, i - 1);
      RowsInOrder(chain, n, a, rows, i - 1, i, k, m);
      RunningIsUtxo(chain, n, a, rows, i - 1, k);
      NothingBetween(chain, n, a, rows, i, k + 1, m);
    }
    BalanceStep(SpecBlocks(chain, n), h, m, a);
  }

  lemma NothingYet(h: seq<Placed>, a: string)
    ensures BalanceAt(h, 0, a) == 0
  {
  }

  lemma SummaryIsUtxo(blocks: map<string, BlockRow>, h: seq<Placed>, a: string)
    requires Valid(h)
    ensures RecvTotal(Join(blocks, h), a) - SentTotal(Join(blocks, h), a) == BalanceAt(h, |h|, a)
  {
    hide Created, Spends, Valid, BalanceAt, Total;
    var created, spends := Created(h), Spends(h);
    SummaryRows(created, spends, SpecOutputs(h), a);
    SplitBySpends(created, spends, map k | k in created && k in spends :: created[k], a);
    UnspentIs(h, a);
  }

  // What the first m transactions paid to the address, and what they spent of it.
  ghost function PaidTo(h: seq<Placed>, m: nat, a: string): int
    requires m <= |h|
  {
    if m == 0 then 0 else PaidTo(h, m - 1, a) + Total(Received(h[m - 1].tx, Of(a)))
  }

  ghost function TakenFrom(h: seq<Placed>, m: nat, a: string): int
    requires m <= |h|
  {
    if m == 0 then 0 else TakenFrom(h, m - 1, a) + Total(Spent(h[..m - 1], h[m - 1], Of(a)))
  }

  lemma {:induction false} PaidAndTaken(h: seq<Placed>, m: nat, a: string)
    requires Valid(h) && m <= |h|
    ensures Total(ValuesOf(Created(h[..m]), Of(a))) == PaidTo(h, m, a)
    ensures BalanceAt(h, m, a) == PaidTo(h, m, a) - TakenFrom(h, m, a)
  {
    if m == 0 {
      assert ValuesOf(Created(h[..0]), Of(a)) == map[];
      NothingYet(h, a);
    } else {
      hide Valid, ValidNext, Created, Spends, Outs, ValuesOf, Total, Spent;
      var g, p := h[..m - 1], h[m - 1];
      PaidAndTaken(h, m - 1, a);
      NextTx(h, m - 1);
      Snoc(g, p);
      OutsFresh(g, p);
      ValuesUnion(Created(g), Outs(p.tx), Of(a));
      UtxoStep(g, p, Of(a));
    }
  }

  // Each half of the summary on its own: everything ever paid to the address, and everything of it ever spent.
  lemma SummaryHalves(chain: seq<Block>, n: nat, a: string)
    requires ValidChain(chain) && n <= |chain|
    ensures var t, h := IndexChain(EMPTY, chain, 0, n), Hist(chain, n);
            RecvTotal(t, a) == PaidTo(h, |h|, a) && SentTotal(t, a) == TakenFrom(h, |h|, a)
  {
    hide Valid, Hist, Created, Spends, Total, BalanceAt, IndexChain;
    var h := Hist(chain, n);
    IndexIsJoin(chain, n);
    ValidHist(chain, n);
    SummaryRows(Created(h), Spends(h), SpecOutputs(h), a);
    assert h[..|h|] == h;
    PaidAndTaken(h, |h|, a);
    SummaryIsUtxo(SpecBlocks(chain, n), h, a);
  }

  lemma SummaryRows(created: map<OutKey, TxOut>, spends: map<OutKey, Spend>, outputs: map<OutKey, OutRow>, a: string)
    requires outputs == map k | k in created :: SpecOutRow(k, created[k], spends)
    ensures (map k | k in outputs && outputs[k].address == Some(a) :: outputs[k].value) == ValuesOf(created, Of(a))
    ensures (map k | k in outputs && outputs[k].address == Some(a) && outputs[k].spent.Some? :: outputs[k].value)
         == ValuesOf(map k | k in created && k in spends :: created[k], Of(a))
  {
  }

  lemma SplitBySpends(created: map<OutKey, TxOut>, spends: map<OutKey, Spend>, sent: map<OutKey, TxOut>, a: string)
    requires sent == map k | k in created && k in spends :: created[k]
    ensures Total(ValuesOf(created, Of(a))) == Total(ValuesOf(created - spends.Keys, Of(a)))
            + Total(ValuesOf(sent, Of(a)))
  {
    hide ValuesOf, Total;
    assert created == (created - spends.Keys) + sent;
    ValuesUnion(created - spends.Keys, sent, Of(a));
  }

  lemma UnspentIs(h: seq<Placed>, a: string)
    ensures BalanceAt(h, |h|, a) == Total(ValuesOf(Created(h) - Spends(h).Keys, Of(a)))
  {
    hide Created, Spends, ValuesOf, Total;
    assert h[..|h|] == h;
  }

  // The balance shown on row i is the UTXO balance just after that row's transaction, and is not negative.
  ghost predicate ShowsUtxo(chain: seq<Block>, n: nat, a: string, rows: seq<NetRow>, i: nat)
    requires n <= |chain| && i < |rows|
  {
    exists m: nat | m < |Hist(chain, n)| ::
      StandsAt(chain, n, rows[i], m) && RunningNet(rows, i + 1) == BalanceAt(Hist(chain, n), m + 1, a) >= 0
  }

  lemma RowShowsUtxo(chain: seq<Block>, n: nat, a: string, rows: seq<NetRow>, i: nat)
    requires Placing(chain, n, a, rows) && i < |rows|
    ensures ShowsUtxo(chain, n, a, rows, i)
  {
    hide Valid, Hist, BalanceAt, IsHistory, ValidChain, StandsAt, SpecBlocks;
    ValidHist(chain, n);
    var m := RowStands(chain, n, a, rows, i);
    StandsBelow(chain, n, rows[i], m);
    RunningIsUtxo(chain, n, a, rows, i, m);
    BalanceNonNegative(Hist(chain, n), m + 1, a);
  }

  // For every valid chain, address and history: each row shows the UTXO balance at that transaction, which is never
  // negative, and the last row shows the balance computed from the spent pointers.
  lemma LedgerAgrees(chain: seq<Block>, n: nat, a: string, rows: seq<NetRow>)
    requires ValidChain(chain) && n <= |chain| && IsHistory(rows, IndexChain(EMPTY, chain, 0, n), a)
    ensures forall i :: 0 <= i < |rows| ==> ShowsUtxo(chain, n, a, rows, i)
    ensures var t := IndexChain(EMPTY, chain, 0, n);
            RunningNet(rows, |rows|) == RecvTotal(t, a) - SentTotal(t, a) ==
              BalanceAt(Hist(chain, n), |Hist(chain, n)|, a)
  {
    hide Valid, Hist, BalanceAt, RecvTotal, SentTotal, IsHistory, ValidChain, ShowsUtxo, SpecBlocks;
    IndexIsJoin(chain, n);
    ValidHist(chain, n);
    forall i | 0 <= i < |rows| ensures ShowsUtxo(chain, n, a, rows, i) {
      RowShowsUtxo(chain, n, a, rows, i);
    }
    SummaryIsUtxo(SpecBlocks(chain, n), Hist(chain, n), a);
    LastRow(chain, n, a, rows);
  }

  lemma StandsBelow(chain: seq<Block>, n: nat, row: NetRow, m: nat)
    requires n <= |chain| && StandsAt(chain, n, row, m)
    ensures m < |Hist(chain, n)|
  {
  }

  lemma BalanceNonNegative(h: seq<Placed>, m: nat, a: string)
    requires Valid(h) && m <= |h|
    ensures BalanceAt(h, m, a) >= 0
  {
    ValidPrefix(h, m);
    UnspentNonNegative(h[..m], Of(a));
  }

  lemma LastRow(chain: seq<Block>, n: nat, a: string, rows: seq<NetRow>)
    requires Placing(chain, n, a, rows)
    ensures RunningNet(rows, |rows|) == BalanceAt(Hist(chain, n), |Hist(chain, n)|, a)
  {
    hide Valid, Hist, BalanceAt, IsHistory, ValidChain;
    var h := Hist(chain, n);
    if |rows| == 0 {
      NothingBetween(chain, n, a, rows, 0, 0, |h|);
      NothingYet(h, a);
    } else {
      var m := RowStands(chain, n, a, rows, |rows| - 1);
      RunningIsUtxo(chain, n, a, rows, |rows| - 1, m);
      NothingBetween(chain, n, a, rows, |rows|, m + 1, |h|);
    }
  }

  /******* When the page is missing *******/

  // The address has outputs, but they are all worth nothing and unspent.
  ghost predicate OnlyDust(t: Tables, a: string) {
    && (exists k :: k in t.outputs && t.outputs[k].address == Some(a))
    && forall k :: k in t.outputs && t.outputs[k].address == Some(a) ==>
      t.outputs[k].value == 0 && t.outputs[k].spent.None?
  }

  ghost predicate NoTransactions(t: Tables, a: string) {
    forall txid :: !Listed(t, a, txid)
  }

  lemma NothingFoundMeans(blocks: map<string, BlockRow>, h: seq<Placed>, a: string)
    requires Valid(h)
    ensures var t := Join(blocks, h);
            NothingFound(t, t, a) <==>
            forall k :: k in t.outputs && t.outputs[k].address == Some(a) ==>
                t.outputs[k].value == 0 && t.outputs[k].spent.None?
  {
    hide Created, Spends, Valid, Ins, SpecTxs, Total, Blank, SpecInRow;
    var t := Join(blocks, h);
    var recv := map k | k in t.outputs && t.outputs[k].address == Some(a) :: t.outputs[k].value;
    var sent :=
      map k | k in t.outputs && t.outputs[k].address == Some(a) && t.outputs[k].spent.Some? :: t.outputs[k].value;
    CreatedNonNegative(h);
    TotalZero(recv);
    TotalZero(sent);
    InputsMentioned(blocks, h, a);
    var mentions := set k | k in t.inputs && t.inputs[k].prevAddress == Some(a);
    assert InputCount(t, a) == |mentions|;
    if NothingFound(t, t, a) {
      assert mentions == {};
      forall k | k in t.outputs && t.outputs[k].address == Some(a)
        ensures t.outputs[k].value == 0 && t.outputs[k].spent.None? {
        assert k in recv && recv[k] == 0;
        assert forall i :: i in t.inputs && t.inputs[i].prevAddress == Some(a) ==> i in mentions;
      }
    }
    if forall k :: k in t.outputs && t.outputs[k].address == Some(a) ==>
      t.outputs[k].value == 0 && t.outputs[k].spent.None? {
      forall k | k in recv ensures recv[k] == 0 {
        assert t.outputs[k].value == 0;
      }
      assert sent == map[];
      assert mentions == {};
    }
  }

  // Some input row mentions the address exactly when one of its outputs is spent.
  lemma InputsMentioned(blocks: map<string, BlockRow>, h: seq<Placed>, a: string)
    requires Valid(h)
    ensures var t := Join(blocks, h);
            (exists k :: k in t.inputs && t.inputs[k].prevAddress == Some(a)) <==>
            (exists k :: k in t.outputs && t.outputs[k].address == Some(a) && t.outputs[k].spent.Some?)
  {
    hide Created, Spends, Valid, Ins, SpecTxs;
    var t := Join(blocks, h);
    if exists k :: k in t.inputs && t.inputs[k].prevAddress == Some(a) {
      var k :| k in t.inputs && t.inputs[k].prevAddress == Some(a);
      JoinInputLinked(blocks, h, k);
      assert t.outputs[Named(t.inputs[k]).value].spent.Some?;
    }
    if exists k :: k in t.outputs && t.outputs[k].address == Some(a) && t.outputs[k].spent.Some? {
      var k :| k in t.outputs && t.outputs[k].address == Some(a) && t.outputs[k].spent.Some?;
      JoinPointerSound(blocks, h, k);
      var s := t.outputs[k].spent.value;
      JoinInputLinked(blocks, h, InKey(s.txid, s.vin));
      assert t.inputs[InKey(s.txid, s.vin)].prevAddress == Some(a);
    }
  }

  lemma NoTransactionsMeans(chain: seq<Block>, n: nat, a: string)
    requires ValidChain(chain) && n <= |chain|
    ensures var t := SpecTables(chain, n);
            NoTransactions(t, a) <==> forall k :: k in t.outputs ==> t.outputs[k].address != Some(a)
  {
    hide Valid, Hist, Created, Spends, Ins, SpecTxs, SpecBlocks;
    var t, h := SpecTables(chain, n), Hist(chain, n);
    ValidHist(chain, n);
    if NoTransactions(t, a) {
      forall k | k in t.outputs ensures t.outputs[k].address != Some(a) {
        OutputListed(chain, n, k);
        assert !Listed(t, a, k.txid);
        assert k !in RecvRows(t, a, k.txid);
      }
    } else {
      var txid :| Listed(t, a, txid);
      if RecvRows(t, a, txid) != map[] {
        var k :| k in RecvRows(t, a, txid);
      } else {
        InputsMentioned(SpecBlocks(chain, n), h, a);
        var k :| k in SentRows(t, a, txid);
      }
    }
  }

  lemma OutputListed(chain: seq<Block>, n: nat, k: OutKey)
    requires ValidChain(chain) && n <= |chain| && k in Created(Hist(chain, n))
    ensures k.txid in SpecTxs(Hist(chain, n)) && SpecTxs(Hist(chain, n))[k.txid].blockHash in SpecBlocks(chain, n)
  {
    ValidHist(chain, n);
    var m := OutputOwner(Hist(chain, n), k);
    RowsLast(Hist(chain, n), m);
    HistSorted(chain, n);
    BlockKeys(chain, n);
  }

  // An address with no transactions has no page. The converse fails exactly for an address that holds only dust:
  // outputs worth nothing, none of them spent.
  lemma PageMissingExactly(chain: seq<Block>, n: nat, a: string)
    requires ValidChain(chain) && n <= |chain|
    ensures var t := IndexChain(EMPTY, chain, 0, n);
            && (NoTransactions(t, a) ==> NothingFound(t, t, a))
            && ((NothingFound(t, t, a) ==> NoTransactions(t, a)) <==> !OnlyDust(t, a))
  {
    hide Valid, Hist, SpecTxs, SpecBlocks, NothingFound, NoTransactions;
    IndexIsJoin(chain, n);
    ValidHist(chain, n);
    NothingFoundMeans(SpecBlocks(chain, n), Hist(chain, n), a);
    NoTransactionsMeans(chain, n, a);
  }

  // A coinbase that pays nothing to one address.
  const DUST := Tx("t", [TxIn("c", "", None, "", None)], [TxOut(0, 0, "", "", "b")])
  const DUST_CHAIN := [Block("h", 0, "", [DUST])]
  const DUST_KEY := OutKey("t", 0)

  lemma DustHist()
    ensures Hist(DUST_CHAIN, 1) == [Placed(DUST, "h", 0, 0)]
  {
    assert Place(DUST_CHAIN[0], 1) == [Placed(DUST, "h", 0, 0)];
    assert Hist(DUST_CHAIN, 0) == [];
  }

  lemma DustRows()
    ensures var p := Placed(DUST, "h", 0, 0);
            && Valid([p]) && Created([p]) == map[DUST_KEY := DUST.vout[0]] && Spends([p]) == map[]
  {
    var p := Placed(DUST, "h", 0, 0);
    assert OutsTo(DUST, 0) == map[];
    assert Outs(DUST) == map[DUST_KEY := DUST.vout[0]];
    assert WellFormed(DUST) && Refs(p) == map[];
    assert [p] == [] + [p];
    Snoc([], p);
    assert Valid([]);
  }

  // Such an address exists: one block whose coinbase pays it nothing.
  lemma DustExists()
    ensures exists chain: seq<Block>, a: string ::
              ValidChain(chain) && OnlyDust(IndexChain(EMPTY, chain, 0, |chain|), a)
  {
    DustHist();
    DustRows();
    assert ValidChain(DUST_CHAIN) by { hide Hist, Valid; }
    IndexIsJoin(DUST_CHAIN, 1);
    DustIsDust();
  }

  lemma DustIsDust()
    requires IndexChain(EMPTY, DUST_CHAIN, 0, 1).outputs == SpecOutputs(Hist(DUST_CHAIN, 1))
    ensures OnlyDust(IndexChain(EMPTY, DUST_CHAIN, 0, |DUST_CHAIN|), "b")
  {
    DustHist();
    DustRows();
    hide Hist, Valid, Created, Spends, IndexChain;
    var t := IndexChain(EMPTY, DUST_CHAIN, 0, 1);
    assert !IsSpace("b"[0]);
    assert t.outputs == map[DUST_KEY := NewOutRow(DUST.vout[0])];
    assert t.outputs[DUST_KEY].address == Some("b");
  }
}
