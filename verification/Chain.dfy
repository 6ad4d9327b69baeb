// What the node serves (blocks, transactions, inputs, outputs), when a chain is valid,
// and the plain UTXO meaning of a history of transactions. Nothing here knows the database.
module Chain {
  import opened Options

  // `coinbase` and `txid` are empty strings when the node omits them.
  datatype TxIn = TxIn(coinbase: string, txid: string, vout: Option<int>, scriptSig: string, sequence: Option<int>)

  // `value` is in base units, as coinToBaseUnits gives it; `address` is the first address the node reports, or "".
  datatype TxOut = TxOut(value: int, n: int, scriptType: string, scriptHex: string, address: string)

  datatype Tx = Tx(txid: string, vin: seq<TxIn>, vout: seq<TxOut>)

  datatype Block = Block(hash: string, height: int, prevHash: string, txs: seq<Tx>)

  // A transaction together with its place in the chain.
  datatype Placed = Placed(tx: Tx, hash: string, height: int, pos: nat)

  datatype OutKey = OutKey(txid: string, vout: int)
  datatype InKey = InKey(txid: string, vin: int)
  datatype Spend = Spend(txid: string, vin: int, height: int)

  /******* Strings *******/

  predicate IsSpace(c: char) {
    || c == ' ' || '\t' <= c <= '\r' || c == '\U{85}' || c == '\U{A0}' || c == '\U{1680}'
    || '\U{2000}' <= c <= '\U{200A}' || c == '\U{2028}' || c == '\U{2029}' || c == '\U{202F}'
    || c == '\U{205F}' || c == '\U{3000}'
  }

  predicate Blank(s: string) {
    forall i :: 0 <= i < |s| ==> IsSpace(s[i])
  }

  function Trim(s: string): string
    decreases |s|
  {
    if s != "" && IsSpace(s[0]) then Trim(s[1..])
    else if s != "" && IsSpace(s[|s| - 1]) then Trim(s[..|s| - 1])
    else s
  }

  lemma {:induction false} TrimBlank(s: string)
    ensures Trim(s) == "" <==> Blank(s)
    decreases |s|
  {
    if s != "" && IsSpace(s[0]) {
      TrimBlank(s[1..]);
      assert forall i :: 0 < i < |s| ==> s[i] == s[1..][i - 1];
    } else if s != "" && IsSpace(s[|s| - 1]) {
      TrimBlank(s[..|s| - 1]);
    }
  }

  // From lo to hi is the part of s between its first and last character that is not a space.
  ghost predicate Middle(s: string, lo: nat, hi: nat) {
    && lo <= hi <= |s|
    && (forall i :: 0 <= i < lo ==> IsSpace(s[i])) && (forall i :: hi <= i < |s| ==> IsSpace(s[i]))
    && (lo < hi ==> !IsSpace(s[lo]) && !IsSpace(s[hi - 1]))
  }

  lemma {:induction false} TrimParts(s: string) returns (lo: nat, hi: nat)
    ensures Middle(s, lo, hi) && Trim(s) == s[lo..hi]
    decreases |s|
  {
    hide IsSpace;
    if s != "" && IsSpace(s[0]) {
      var t := s[1..];
      var l, h := TrimParts(t);
      lo, hi := l + 1, h + 1;
      assert forall i :: 0 < i < |s| ==> s[i] == t[i - 1];
      assert s[lo..hi] == t[l..h];
    } else if s != "" && IsSpace(s[|s| - 1]) {
      lo, hi := TrimParts(s[..|s| - 1]);
    } else {
      lo, hi := 0, |s|;
    }
  }

  // White space is these 25 characters and no others.
  lemma SpacesAre(c: char)
    ensures IsSpace(c) <==>
            (c as int) in [0x09, 0x0A, 0x0B, 0x0C, 0x0D, 0x20, 0x85, 0xA0, 0x1680,
                           0x2000, 0x2001, 0x2002, 0x2003, 0x2004, 0x2005, 0x2006, 0x2007, 0x2008, 0x2009, 0x200A,
                           0x2028, 0x2029, 0x202F, 0x205F, 0x3000]
  {
  }

  // Padding on either side is trimmed off a text that neither begins nor ends with white space.
  lemma TrimPadded(left: string, s: string, right: string)
    requires Blank(left) && Blank(right) && s != "" && !IsSpace(s[0]) && !IsSpace(s[|s| - 1])
    ensures Trim(left + s + right) == s
  {
    hide IsSpace, Blank;
    var all := left + s + right;
    var lo, hi := TrimParts(all);
    PaddedMiddle(left, s, right, lo, hi);
    assert all[lo..hi] == s;
  }

  lemma PaddedMiddle(left: string, s: string, right: string, lo: nat, hi: nat)
    requires Blank(left) && Blank(right) && s != "" && !IsSpace(s[0]) && !IsSpace(s[|s| - 1])
    requires Middle(left + s + right, lo, hi)
    ensures lo == |left| && hi == |left| + |s|
  {
    hide IsSpace;
    var all, end := left + s + right, |left| + |s|;
    assert all[|left|] == s[0] && all[end - 1] == s[|s| - 1];
    assert forall i :: 0 <= i < |left| ==> all[i] == left[i];
    assert forall i :: end <= i < |all| ==> all[i] == right[i - end];
  }

  function NullIfEmpty(s: string): Option<string> {
    if Blank(s) then None else Some(s)
  }

  /******* Histories *******/

  predicate IsCoinbase(tx: Tx) {
    |tx.vin| > 0 && tx.vin[0].coinbase != ""
  }

  // The output an input spends. Only meaningful for an input that names one.
  function PrevOut(i: TxIn): OutKey {
    OutKey(i.txid, if i.vout.Some? then i.vout.value else -1)
  }

  function Place(b: Block, k: nat): (h: seq<Placed>)
    requires k <= |b.txs|
  {
    if k == 0 then [] else Place(b, k - 1) + [Placed(b.txs[k - 1], b.hash, b.height, k - 1)]
  }

  // The transactions of the first n blocks, in chain order.
  function Hist(chain: seq<Block>, n: nat): seq<Placed>
    requires n <= |chain|
  {
    if n == 0 then [] else Hist(chain, n - 1) + Place(chain[n - 1], |chain[n - 1].txs|)
  }

  /******* Plain UTXO semantics *******/

  ghost function OutsTo(tx: Tx, k: nat): map<OutKey, TxOut>
    requires k <= |tx.vout|
  {
    if k == 0 then map[] else OutsTo(tx, k - 1)[OutKey(tx.txid, tx.vout[k - 1].n) := tx.vout[k - 1]]
  }

  ghost function Outs(tx: Tx): map<OutKey, TxOut> {
    OutsTo(tx, |tx.vout|)
  }

  ghost function RefsTo(p: Placed, k: nat): map<OutKey, Spend>
    requires k <= |p.tx.vin|
  {
    if k == 0 || IsCoinbase(p.tx) then map[]
    else RefsTo(p, k - 1)[PrevOut(p.tx.vin[k - 1]) := Spend(p.tx.txid, k - 1, p.height)]
  }

  ghost function Refs(p: Placed): map<OutKey, Spend> {
    RefsTo(p, |p.tx.vin|)
  }

  // Every output a history creates.
  ghost function Created(h: seq<Placed>): map<OutKey, TxOut> {
    if h == [] then map[] else Created(h[..|h| - 1]) + Outs(h[|h| - 1].tx)
  }

  // Every output a history spends, and by which input.
  ghost function Spends(h: seq<Placed>): map<OutKey, Spend> {
    if h == [] then map[] else Spends(h[..|h| - 1]) + Refs(h[|h| - 1])
  }

  /******* Valid histories *******/

  // A coinbase transaction has the coinbase input alone; any other transaction's inputs all name an output.
  ghost predicate InputsFit(tx: Tx) {
    if IsCoinbase(tx) then |tx.vin| == 1
    else forall v :: 0 <= v < |tx.vin| ==> tx.vin[v].coinbase == "" && !Blank(tx.vin[v].txid) && tx.vin[v].vout.Some?
  }

  ghost predicate DistinctRefs(tx: Tx) {
    forall v, w :: 0 <= v < w < |tx.vin| ==> PrevOut(tx.vin[v]) != PrevOut(tx.vin[w])
  }

  ghost predicate DistinctOuts(tx: Tx) {
    forall j, k :: 0 <= j < k < |tx.vout| ==> tx.vout[j].n != tx.vout[k].n
  }

  ghost predicate WellFormed(tx: Tx) {
    && InputsFit(tx)
    && DistinctRefs(tx)
    && DistinctOuts(tx)
    && (forall j :: 0 <= j < |tx.vout| ==> tx.vout[j].value >= 0)
  }

  ghost predicate FreshTxid(h: seq<Placed>, txid: string) {
    forall i :: 0 <= i < |h| ==> h[i].tx.txid != txid
  }

  // p may follow h: a new txid, spending only outputs that exist and are unspent.
  ghost predicate ValidNext(h: seq<Placed>, p: Placed) {
    && WellFormed(p.tx)
    && FreshTxid(h, p.tx.txid)
    && Refs(p).Keys <= Created(h).Keys - Spends(h).Keys
  }

  ghost predicate Valid(h: seq<Placed>) {
    h == [] || (Valid(h[..|h| - 1]) && ValidNext(h[..|h| - 1], h[|h| - 1]))
  }

  // The node's chain: heights count up from 0, block hashes are unique, and the transactions form a valid history.
  ghost predicate ValidChain(chain: seq<Block>) {
    && (forall i :: 0 <= i < |chain| ==> chain[i].height == i)
    && (forall i, j :: 0 <= i < j < |chain| ==> chain[i].hash != chain[j].hash)
    && Valid(Hist(chain, |chain|))
  }

  /******* Facts about histories *******/

  lemma Snoc(h: seq<Placed>, p: Placed)
    ensures Created(h + [p]) == Created(h) + Outs(p.tx)
    ensures Spends(h + [p]) == Spends(h) + Refs(p)
    ensures Valid(h + [p]) <==> Valid(h) && ValidNext(h, p)
  {
  }

  lemma {:induction false} ValidPrefix(h: seq<Placed>, m: nat)
    requires Valid(h) && m <= |h|
    ensures Valid(h[..m])
  {
    if m < |h| {
      assert h[..|h| - 1][..m] == h[..m];
      ValidPrefix(h[..|h| - 1], m);
    } else {
      assert h[..m] == h;
    }
  }

  lemma {:induction false} OutsToMembers(tx: Tx, k: nat)
    requires k <= |tx.vout|
    requires DistinctOuts(tx)
    ensures forall key :: key in OutsTo(tx, k) ==>
              && key.txid == tx.txid
              && exists j :: 0 <= j < k && tx.vout[j].n == key.vout && OutsTo(tx, k)[key] == tx.vout[j]
    ensures forall j :: 0 <= j < k ==>
              && OutKey(tx.txid, tx.vout[j].n) in OutsTo(tx, k)
              && OutsTo(tx, k)[OutKey(tx.txid, tx.vout[j].n)] == tx.vout[j]
  {
    if k == 0 {
    } else {
      OutsToMembers(tx, k - 1);
    }
  }

  lemma {:induction false} RefsToMembers(p: Placed, k: nat)
    requires k <= |p.tx.vin| && DistinctRefs(p.tx)
    ensures IsCoinbase(p.tx) ==> RefsTo(p, k) == map[]
    ensures forall key :: key in RefsTo(p, k) ==>
              exists v :: 0 <= v < k && PrevOut(p.tx.vin[v]) == key
                && RefsTo(p, k)[key] == Spend(p.tx.txid, v, p.height)
    ensures !IsCoinbase(p.tx) ==> forall v :: 0 <= v < k ==>
              PrevOut(p.tx.vin[v]) in RefsTo(p, k)
                && RefsTo(p, k)[PrevOut(p.tx.vin[v])] == Spend(p.tx.txid, v, p.height)
  {
    if k == 0 || IsCoinbase(p.tx) {
    } else {
      RefsToMembers(p, k - 1);
    }
  }

  // Created outputs belong to transactions of the history; only created outputs are spent.
  lemma {:induction false} KeysBelong(h: seq<Placed>)
    requires Valid(h)
    ensures forall key :: key in Created(h) ==> !FreshTxid(h, key.txid)
    ensures Spends(h).Keys <= Created(h).Keys
  {
    if h == [] {
    } else {
      var g, p := h[..|h| - 1], h[|h| - 1];
      KeysBelong(g);
      OutsToMembers(p.tx, |p.tx.vout|);
      assert forall i :: 0 <= i < |g| ==> h[i] == g[i];
    }
  }

  // What the i-th transaction creates and spends is still there, unchanged, at the end of the history.
  lemma {:induction false} Lasting(h: seq<Placed>, i: nat)
    requires Valid(h) && i < |h|
    ensures WellFormed(h[i].tx)
    ensures forall key :: key in Outs(h[i].tx) ==> key in Created(h) && Created(h)[key] == Outs(h[i].tx)[key]
    ensures forall key :: key in Refs(h[i]) ==>
              && key in Created(h) && key in Spends(h) && Spends(h)[key] == Refs(h[i])[key]
              && key in Created(h[..i]) && Created(h[..i])[key] == Created(h)[key]
  {
    var g, p := h[..|h| - 1], h[|h| - 1];
    KeysBelong(g);
    OutsToMembers(p.tx, |p.tx.vout|);
    if i == |g| {
    } else {
      assert g[..i] == h[..i];
      Lasting(g, i);
    }
  }

  lemma {:induction false} PlaceAt(b: Block, k: nat)
    requires k <= |b.txs|
    ensures |Place(b, k)| == k
    ensures forall i :: 0 <= i < k ==> Place(b, k)[i] == Placed(b.txs[i], b.hash, b.height, i)
  {
    if k == 0 {
    } else {
      PlaceAt(b, k - 1);
    }
  }

  lemma {:induction false} HistPrefix(chain: seq<Block>, n: nat, m: nat)
    requires n <= m <= |chain|
    ensures Hist(chain, n) <= Hist(chain, m)
  {
    if n == m {
    } else {
      HistPrefix(chain, n, m - 1);
    }
  }

  lemma {:induction false} PlacePrefix(b: Block, j: nat, k: nat)
    requires j <= k <= |b.txs|
    ensures Place(b, j) <= Place(b, k)
  {
    if j == k {
    } else {
      PlacePrefix(b, j, k - 1);
    }
  }

  lemma PrefixAppend<T>(g: seq<T>, a: seq<T>, b: seq<T>)
    requires a <= b
    ensures g + a <= g + b
  {
  }

  lemma PrefixOfValid(h: seq<Placed>, g: seq<Placed>, full: seq<Placed>)
    requires h <= g <= full && Valid(full)
    ensures Valid(h)
  {
    ValidPrefix(full, |h|);
    assert full[..|h|] == h;
  }

  // Every prefix of a valid chain, even one that stops inside a block, is a valid history.
  lemma ValidUpTo(chain: seq<Block>, n: nat, k: nat)
    requires ValidChain(chain) && n < |chain| && k <= |chain[n].txs|
    ensures Valid(Hist(chain, n) + Place(chain[n], k))
  {
    PlacePrefix(chain[n], k, |chain[n].txs|);
    PrefixAppend(Hist(chain, n), Place(chain[n], k), Place(chain[n], |chain[n].txs|));
    HistPrefix(chain, n + 1, |chain|);
    PrefixOfValid(Hist(chain, n) + Place(chain[n], k), Hist(chain, n + 1), Hist(chain, |chain|));
  }

  lemma ValidHist(chain: seq<Block>, n: nat)
    requires ValidChain(chain) && n <= |chain|
    ensures Valid(Hist(chain, n))
  {
    HistPrefix(chain, n, |chain|);
    ValidPrefix(Hist(chain, |chain|), |Hist(chain, n)|);
    assert Hist(chain, |chain|)[..|Hist(chain, n)|] == Hist(chain, n);
  }

  ghost predicate Earlier(p: Placed, q: Placed) {
    p.height < q.height || (p.height == q.height && p.pos < q.pos)
  }

  // The history is strictly ordered by height and position, and each entry comes from its block.
  lemma {:induction false} HistSorted(chain: seq<Block>, n: nat)
    requires n <= |chain| && forall i :: 0 <= i < |chain| ==> chain[i].height == i
    ensures forall i :: 0 <= i < |Hist(chain, n)| ==>
              var p := Hist(chain, n)[i];
              0 <= p.height < n && p.hash == chain[p.height].hash && p.pos < |chain[p.height].txs|
                && p.tx == chain[p.height].txs[p.pos]
    ensures forall i, j :: 0 <= i < j < |Hist(chain, n)| ==> Earlier(Hist(chain, n)[i], Hist(chain, n)[j])
  {
    if n == 0 {
    } else {
      HistSorted(chain, n - 1);
      PlaceAt(chain[n - 1], |chain[n - 1].txs|);
    }
  }
}
