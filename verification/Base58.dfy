// Base58Check addresses and the two script forms that have one. SHA-256 is a parameter: any function to 32 bytes.
module Base58 {
  import opened Options

  type Byte = x: int | 0 <= x < 256
  type Digest = s: seq<Byte> | |s| == 32 witness seq(32, i => 0)
  type Sha = seq<Byte> -> Digest

  const ALPHABET := "123456789" + "ABCDEFGH" + "JKLMN" + "PQRSTUVWXYZ" + "abcdefghijk" + "mnopqrstuvwxyz"
  const VERSION_P2PKH: Byte := 85
  const VERSION_P2SH: Byte := 5

  /******* Division *******/

  lemma MulGrows(k: int, base: int)
    requires base > 0
    ensures k >= 1 ==> k * base >= base
    ensures k <= -1 ==> k * base <= -base
  {
  }

  lemma DivFacts(n: nat, base: nat)
    requires base > 1
    ensures n == n / base * base + n % base && 0 <= n % base < base && 0 <= n / base
    ensures n > 0 ==> n / base < n
  {
    var q := n / base;
    assert n == base * q + n % base;
    assert base * q == q + q * (base - 1);
    MulGrows(q, base - 1);
  }

  lemma DivUnique(n: nat, base: nat, q: int, r: int)
    requires base > 0 && n == q * base + r && 0 <= r < base
    ensures q == n / base && r == n % base
  {
    var k := q - n / base;
    assert n == n / base * base + n % base;
    assert k * base == q * base - n / base * base;
    MulGrows(k, base);
  }

  /******* Positional numbers, most significant digit first *******/

  predicate InBase(base: nat, ds: seq<int>) {
    forall i :: 0 <= i < |ds| ==> 0 <= ds[i] < base
  }

  function Value(base: nat, ds: seq<int>): (v: int)
    requires InBase(base, ds)
    ensures v >= 0
  {
    if ds == [] then 0 else Value(base, ds[..|ds| - 1]) * base + ds[|ds| - 1]
  }

  function Digits(base: nat, n: nat): (ds: seq<int>)
    requires base > 1
    ensures InBase(base, ds)
  {
    if n == 0 then [] else
      DivFacts(n, base);
      Digits(base, n / base) + [n % base]
  }

  function LeadingZeros(ds: seq<int>): (z: nat)
    ensures z <= |ds| && (forall i :: 0 <= i < z ==> ds[i] == 0) && (z < |ds| ==> ds[z] != 0)
  {
    if ds == [] || ds[0] != 0 then 0 else 1 + LeadingZeros(ds[1..])
  }

  function Zeros(k: nat): seq<int> {
    seq(k, i => 0)
  }

  // Change of base; each leading zero digit is kept as one leading zero digit.
  function Convert(a: nat, b: nat, ds: seq<int>): (r: seq<int>)
    requires b > 1 && InBase(a, ds)
    ensures InBase(b, r)
  {
    Zeros(LeadingZeros(ds)) + Digits(b, Value(a, ds))
  }

  lemma ValueSnoc(base: nat, ds: seq<int>, d: int)
    requires InBase(base, ds) && 0 <= d < base
    ensures InBase(base, ds + [d]) && Value(base, ds + [d]) == Value(base, ds) * base + d
  {
  }

  lemma {:induction false} ValueOfDigits(base: nat, n: nat)
    requires base > 1
    ensures Value(base, Digits(base, n)) == n
    ensures n > 0 ==> |Digits(base, n)| > 0 && Digits(base, n)[0] != 0
  {
    if n == 0 {
    } else {
      hide Value, Digits;
      var hi, lo := n / base, n % base;
      DivFacts(n, base);
      ValueOfDigits(base, hi);
      ValueSnoc(base, Digits(base, hi), lo);
      DigitsSnoc(base, n, hi, lo);
    }
  }

  lemma DigitsSnoc(base: nat, n: nat, hi: nat, lo: int)
    requires base > 1 && n > 0 && n == hi * base + lo && 0 <= lo < base
    ensures Digits(base, n) == Digits(base, hi) + [lo]
  {
    DivUnique(n, base, hi, lo);
  }

  lemma ValuePositive(base: nat, hi: seq<int>, lo: int)
    requires base > 1 && InBase(base, hi) && 0 <= lo < base
    requires if hi == [] then lo != 0 else Value(base, hi) > 0
    ensures Value(base, hi + [lo]) > 0
  {
  }

  lemma {:induction false} DigitsOfValue(base: nat, ds: seq<int>)
    requires base > 1 && InBase(base, ds) && (ds != [] ==> ds[0] != 0)
    ensures Digits(base, Value(base, ds)) == ds
    ensures ds != [] ==> Value(base, ds) > 0
  {
    hide Value, Digits;
    if ds == [] {
      EmptyValue(base);
    } else {
      var hi, lo := ds[..|ds| - 1], ds[|ds| - 1];
      assert ds == hi + [lo];
      DigitsOfValue(base, hi);
      ValueSnoc(base, hi, lo);
      ValuePositive(base, hi, lo);
      DigitsSnoc(base, Value(base, ds), Value(base, hi), lo);
    }
  }

  lemma EmptyValue(base: nat)
    requires base > 1
    ensures Value(base, []) == 0 && Digits(base, 0) == []
  {
  }

  lemma {:induction false} ValueSkipsZeros(base: nat, k: nat, ds: seq<int>)
    requires base > 0 && InBase(base, ds)
    ensures InBase(base, Zeros(k) + ds) && Value(base, Zeros(k) + ds) == Value(base, ds)
    decreases k + |ds|
  {
    var all := Zeros(k) + ds;
    if ds != [] {
      ValueSkipsZeros(base, k, ds[..|ds| - 1]);
      assert all[..|all| - 1] == Zeros(k) + ds[..|ds| - 1];
    } else if k > 0 {
      ValueSkipsZeros(base, k - 1, []);
      assert all[..|all| - 1] == Zeros(k - 1) + [];
    }
  }

  lemma {:induction false} ZerosCounted(k: nat, ds: seq<int>)
    requires ds != [] ==> ds[0] != 0
    ensures LeadingZeros(Zeros(k) + ds) == k
  {
    if k == 0 {
    } else {
      ZerosCounted(k - 1, ds);
      assert (Zeros(k) + ds)[1..] == Zeros(k - 1) + ds;
    }
  }

  // The most significant digit counts that power of the base.
  lemma {:induction false} ValueCons(base: nat, d: int, ds: seq<int>)
    requires base > 0 && 0 <= d < base && InBase(base, ds)
    ensures InBase(base, [d] + ds) && Value(base, [d] + ds) == d * Pow(base, |ds|) + Value(base, ds)
  {
    var all := [d] + ds;
    if ds == [] {
      assert all[..0] == [];
    } else {
      var hi, lo := ds[..|ds| - 1], ds[|ds| - 1];
      ValueCons(base, d, hi);
      assert all[..|all| - 1] == [d] + hi;
      Distribute(d, Pow(base, |hi|), Value(base, hi), base);
    }
  }

  lemma Distribute(d: int, p: int, v: int, base: int)
    ensures (d * p + v) * base == d * (base * p) + v * base
  {
  }

  // Converting to another base and back gives every digit string back, leading zeros included.
  lemma ConvertRoundTrip(a: nat, b: nat, ds: seq<int>)
    requires a > 1 && b > 1 && InBase(a, ds)
    ensures Convert(b, a, Convert(a, b, ds)) == ds
    ensures LeadingZeros(Convert(a, b, ds)) == LeadingZeros(ds) && Value(b, Convert(a, b, ds)) == Value(a, ds)
  {
    var z := LeadingZeros(ds);
    var rest, v := ds[z..], Value(a, ds);
    assert ds == Zeros(z) + rest;
    ValueSkipsZeros(a, z, rest);
    DigitsOfValue(a, rest);
    ValueOfDigits(b, v);
    ZerosCounted(z, Digits(b, v));
    ValueSkipsZeros(b, z, Digits(b, v));
  }

  /******* Text *******/

  function Text(ds: seq<int>): (s: string)
    requires InBase(58, ds)
    ensures |s| == |ds|
  {
    seq(|ds|, i requires 0 <= i < |ds| => ALPHABET[ds[i]])
  }

  function IndexIn(s: string, c: char): (k: nat)
    ensures k <= |s| && (forall i :: 0 <= i < k ==> s[i] != c) && (k < |s| ==> s[k] == c)
  {
    if s == "" || s[0] == c then 0 else 1 + IndexIn(s[1..], c)
  }

  function Encode(bytes: seq<Byte>): string {
    Text(Convert(256, 58, bytes))
  }

  // Inverse by the standard algorithm: drop the text back to digits, then to bytes.
  function Decode(s: string): Option<seq<Byte>> {
    if exists i | 0 <= i < |s| :: IndexIn(ALPHABET, s[i]) == |ALPHABET| then None
    else Some(Convert(58, 256, seq(|s|, i requires 0 <= i < |s| => IndexIn(ALPHABET, s[i]))))
  }

  ghost predicate Distinct(s: string) {
    forall i, j :: 0 <= i < j < |s| ==> s[i] != s[j]
  }

  lemma IndexOfDigit(d: nat)
    requires d < 58
    ensures IndexIn(ALPHABET, ALPHABET[d]) == d
  {
    assert |ALPHABET| == 58;
    AlphabetDistinct();
    var k := IndexIn(ALPHABET, ALPHABET[d]);
    assert ALPHABET[k] == ALPHABET[d];
  }

  lemma AlphabetDistinct()
    ensures Distinct(ALPHABET)
  {
    AlphabetRises();
    RisingDistinct(ALPHABET);
  }

  lemma AlphabetRises()
    ensures Rising(ALPHABET)
  {
    hide Rising;
    Pieces();
    RisingAppend("123456789", "ABCDEFGH");
    RisingAppend("123456789" + "ABCDEFGH", "JKLMN");
    RisingAppend("123456789" + "ABCDEFGH" + "JKLMN", "PQRSTUVWXYZ");
    RisingAppend("123456789" + "ABCDEFGH" + "JKLMN" + "PQRSTUVWXYZ", "abcdefghijk");
    RisingAppend("123456789" + "ABCDEFGH" + "JKLMN" + "PQRSTUVWXYZ" + "abcdefghijk", "mnopqrstuvwxyz");
  }

  lemma Pieces()
    ensures Rising("123456789") && Rising("ABCDEFGH") && Rising("JKLMN")
    ensures Rising("PQRSTUVWXYZ") && Rising("abcdefghijk") && Rising("mnopqrstuvwxyz")
  {
  }

  lemma RisingAppend(s: string, t: string)
    requires Rising(s) && Rising(t) && |s| > 0 && |t| > 0 && s[|s| - 1] < t[0]
    ensures Rising(s + t)
  {
  }

  ghost predicate Rising(s: string) {
    forall i :: 0 < i < |s| ==> s[i - 1] < s[i]
  }

  // The alphabet: the digits but 0, then the capital letters but I and O, then the small letters but l.
  lemma AlphabetIs()
    ensures |ALPHABET| == 58 && forall i, j :: 0 <= i < j < 58 ==> ALPHABET[i] < ALPHABET[j]
    ensures forall c :: c in ALPHABET ==>
              '1' <= c <= '9' || ('A' <= c <= 'Z' && c != 'I' && c != 'O') || ('a' <= c <= 'z' && c != 'l')
  {
    hide Rising;
    AlphabetRises();
    assert |ALPHABET| == 58;
    forall i, j | 0 <= i < j < 58 ensures ALPHABET[i] < ALPHABET[j] {
      RisingFar(ALPHABET, i, j);
    }
    PieceRanges();
  }

  lemma PieceRanges()
    ensures forall c :: c in "123456789" ==> '1' <= c <= '9'
    ensures forall c :: c in "ABCDEFGH" || c in "JKLMN" || c in "PQRSTUVWXYZ" ==>
            'A' <= c <= 'Z' && c != 'I' && c != 'O'
    ensures forall c :: c in "abcdefghijk" || c in "mnopqrstuvwxyz" ==> 'a' <= c <= 'z' && c != 'l'
  {
  }

  lemma RisingDistinct(s: string)
    requires Rising(s)
    ensures Distinct(s)
  {
    forall i, j | 0 <= i < j < |s| ensures s[i] < s[j] {
      RisingFar(s, i, j);
    }
  }

  lemma {:induction false} RisingFar(s: string, i: nat, j: nat)
    requires Rising(s) && i < j < |s|
    ensures s[i] < s[j]
  {
    if i + 1 == j {
    } else {
      RisingFar(s, i, j - 1);
    }
  }

  // Decoding an encoding gives back exactly the bytes, for byte strings of every length,
  // and the leading '1' characters are the leading zero bytes one for one.
  lemma EncodeRoundTrip(bytes: seq<Byte>)
    ensures Decode(Encode(bytes)) == Some(bytes)
    ensures forall i :: 0 <= i < LeadingZeros(bytes) ==> i < |Encode(bytes)| && Encode(bytes)[i] == '1'
    ensures LeadingZeros(bytes) < |Encode(bytes)| ==> Encode(bytes)[LeadingZeros(bytes)] != '1'
  {
    var ds := Convert(256, 58, bytes);
    ConvertRoundTrip(256, 58, bytes);
    forall i | 0 <= i < |ds| ensures IndexIn(ALPHABET, Text(ds)[i]) == ds[i] {
      IndexOfDigit(ds[i]);
    }
    assert seq(|ds|, i requires 0 <= i < |ds| => IndexIn(ALPHABET, Text(ds)[i])) == ds;
  }

  lemma EncodeInjective(x: seq<Byte>, y: seq<Byte>)
    requires Encode(x) == Encode(y)
    ensures x == y
  {
    EncodeRoundTrip(x);
    EncodeRoundTrip(y);
  }

  /******* Addresses *******/

  // Version byte, hash, and the first four bytes of the double SHA-256 of both.
  function Payload(version: Byte, hash20: seq<Byte>, sha: Sha): seq<Byte> {
    var body := [version] + hash20;
    body + sha(sha(body))[..4]
  }

  function Address(version: Byte, hash20: seq<Byte>, sha: Sha): string {
    Encode(Payload(version, hash20, sha))
  }

  // The digits collected so far, least significant first.
  ghost predicate Collected(result: string, low: seq<int>) {
    InBase(58, low) && |result| == |low| && forall i :: 0 <= i < |low| ==> result[i] == ALPHABET[low[|low| - 1 - i]]
  }

  lemma CollectNone()
    ensures Collected("", []) && Digits(58, 0) == []
  {
  }

  lemma CollectOne(result: string, low: seq<int>, d: int)
    requires Collected(result, low) && 0 <= d < 58
    ensures |ALPHABET| == 58 && Collected(result + [ALPHABET[d]], [d] + low)
  {
  }

  // The loop that takes the number apart, least significant digit first.
  method LowDigits(v: nat) returns (result: string, ghost low: seq<int>)
    ensures low == Digits(58, v) && Collected(result, low)
  {
    hide Collected, Digits;
    CollectNone();
    var n: nat := v;
    result, low := "", [];
    while n > 0
      invariant Digits(58, v) == Digits(58, n) + low
      invariant Collected(result, low)
    {
      DivFacts(n, 58);
      DigitsSnoc(58, n, n / 58, n % 58);
      CollectOne(result, low, n % 58);
      result := result + [ALPHABET[n % 58]];
      low := [n % 58] + low;
      n := n / 58;
    }
  }

  // One '1' for each leading zero byte.
  method AppendOnes(full: seq<Byte>, digits: string, ghost low: seq<int>) returns (result: string)
    requires Collected(digits, low)
    ensures Collected(result, Zeros(LeadingZeros(full)) + low)
  {
    hide Collected;
    result := digits;
    var z := 0;
    ghost var all := low;
    while z < |full| && full[z] == 0
      invariant z <= LeadingZeros(full)
      invariant all == Zeros(z) + low && Collected(result, all)
    {
      CollectOne(result, all, 0);
      result := result + [ALPHABET[0]];
      all := [0] + all;
      z := z + 1;
    }
  }

  method Base58Check(version: Byte, hash20: seq<Byte>, sha: Sha) returns (s: string)
    requires |hash20| == 20
    ensures s == Address(version, hash20, sha)
  {
    hide Value, Encode, Collected, Digits;
    var full: seq<Byte> := [version] + hash20;
    var h1 := sha(full);
    var h2 := sha(h1);
    full := full + h2[..4];
    assert full == Payload(version, hash20, sha);
    ghost var low;
    var result;
    result, low := LowDigits(Value(256, full));
    result := AppendOnes(full, result, low);
    s := Reverse(result);
    TextOf(full, Zeros(LeadingZeros(full)) + low, result, s);
  }

  lemma TextOf(full: seq<Byte>, all: seq<int>, result: string, s: string)
    requires all == Zeros(LeadingZeros(full)) + Digits(58, Value(256, full)) && Collected(result, all)
    requires |s| == |result| && forall k :: 0 <= k < |s| ==> s[k] == result[|result| - 1 - k]
    ensures s == Encode(full)
  {
  }

  // Swap from both ends, in place.
  method Reverse(text: string) returns (s: string)
    ensures |s| == |text| && forall k :: 0 <= k < |s| ==> s[k] == text[|text| - 1 - k]
  {
    var a := new char[|text|](i requires 0 <= i < |text| => text[i]);
    var i: int, j: int := 0, a.Length - 1;
    while i < j
      invariant 0 <= i <= j + 1 && i + j == a.Length - 1
      invariant forall k :: 0 <= k < i ==> a[k] == text[|text| - 1 - k]
      invariant forall k :: j < k < |text| ==> a[k] == text[|text| - 1 - k]
      invariant forall k :: i <= k <= j ==> a[k] == text[k]
    {
      a[i], a[j] := a[j], a[i];
      i, j := i + 1, j - 1;
    }
    s := a[..];
  }

  /******* The shape of an address *******/

  function Pow(base: nat, k: nat): nat {
    if k == 0 then 1 else base * Pow(base, k - 1)
  }

  lemma DivBetween(n: nat, base: nat, x: int, y: int)
    requires base > 1 && x * base <= n < y * base
    ensures x <= n / base < y
  {
    DivFacts(n, base);
    var q := n / base;
    assert (x - q) * base == x * base - q * base;
    assert (y - q) * base == y * base - q * base;
    MulGrows(x - q, base);
    MulGrows(y - q - 1, base);
    assert (y - q) * base == (y - q - 1) * base + base;
  }

  // A number between d and d + 1 times base^k has k + 1 digits, the first of them d.
  lemma {:induction false} TopDigit(base: nat, n: nat, k: nat, d: nat)
    requires 1 <= d < base && d * Pow(base, k) <= n < (d + 1) * Pow(base, k)
    ensures |Digits(base, n)| == k + 1 && Digits(base, n)[0] == d
  {
    if k == 0 {
      DigitsSnoc(base, n, 0, n);
      EmptyValue(base);
    } else {
      hide Pow, Digits;
      PowPositive(base, k - 1);
      PowAdd(base, 1, k - 1);
      PowOne(base);
      TopDivided(n, base, Pow(base, k - 1), d);
      TopDigit(base, n / base, k - 1, d);
      DigitsSnoc(base, n, n / base, n % base);
    }
  }

  lemma PowOne(base: nat)
    ensures Pow(base, 1) == base
  {
  }

  lemma TopDivided(n: nat, base: nat, p: nat, d: nat)
    requires base > 1 && p > 0 && d > 0 && d * (base * p) <= n < (d + 1) * (base * p)
    ensures d * p <= n / base < (d + 1) * p
    ensures n > 0 && n == n / base * base + n % base && 0 <= n % base < base
  {
    assert d * (base * p) == (d * p) * base && (d + 1) * (base * p) == ((d + 1) * p) * base;
    DivBetween(n, base, d * p, (d + 1) * p);
    DivFacts(n, base);
    MulGrows(d, base * p);
    MulGrows(p, base);
  }

  lemma {:induction false} PowPositive(base: nat, k: nat)
    requires base > 0
    ensures Pow(base, k) > 0
  {
    if k == 0 {
    } else {
      PowPositive(base, k - 1);
    }
  }

  lemma {:induction false} TopValue(base: nat, ds: seq<int>, k: nat)
    requires base > 1 && InBase(base, ds) && |ds| == k + 1
    ensures ds[0] * Pow(base, k) <= Value(base, ds) < (ds[0] + 1) * Pow(base, k)
  {
    if k == 0 {
      assert ds == [] + ds;
      ValueSnoc(base, [], ds[0]);
    } else {
      var hi, lo := ds[..k], ds[k];
      assert ds == hi + [lo];
      ValueSnoc(base, hi, lo);
      TopValue(base, hi, k - 1);
      Scale(ds[0], Pow(base, k - 1), Value(base, hi), base, lo);
    }
  }

  lemma Scale(d: nat, p: nat, v: nat, base: nat, lo: int)
    requires d * p <= v < (d + 1) * p && 0 <= lo < base
    ensures d * (base * p) <= v * base + lo < (d + 1) * (base * p)
  {
    var e := v - d * p;
    var f := (d + 1) * p - 1 - v;
    assert e * base >= 0 && f * base >= 0;
    assert e * base == v * base - d * (base * p);
    assert f * base == (d + 1) * (base * p) - base - v * base;
  }

  lemma {:induction false} PowAdd(base: nat, j: nat, k: nat)
    ensures Pow(base, j + k) == Pow(base, j) * Pow(base, k)
  {
    if j == 0 {
    } else {
      PowAdd(base, j - 1, k);
      var x, y := Pow(base, j - 1), Pow(base, k);
      assert base * (x * y) == (base * x) * y;
    }
  }

  lemma Powers()
    ensures Pow(58, 33) == 15599970876632771988160814054146447252125923204784443097088
    ensures Pow(256, 24) == 6277101735386680763835789423207666416102355444464034512896
  {
    assert Pow(58, 1) == 58 && Pow(256, 1) == 256;
    PowAdd(58, 1, 1);
    PowAdd(58, 2, 2);
    PowAdd(58, 4, 4);
    PowAdd(58, 8, 8);
    PowAdd(58, 16, 16);
    PowAdd(58, 32, 1);
    PowAdd(256, 1, 1);
    PowAdd(256, 2, 1);
    PowAdd(256, 3, 3);
    PowAdd(256, 6, 6);
    PowAdd(256, 12, 12);
  }

  // A version byte that fixes the leading digit of every payload.
  lemma LeadingDigit(version: Byte, d: nat, hash20: seq<Byte>, sha: Sha)
    requires |hash20| == 20 && 1 <= d < 58 && version > 0
    requires d * Pow(58, 33) <= version * Pow(256, 24) && (version + 1) * Pow(256, 24) <= (d + 1) * Pow(58, 33)
    ensures |Address(version, hash20, sha)| == 34 && Address(version, hash20, sha)[0] == ALPHABET[d]
  {
    hide Pow, Value, Digits, Encode;
    var bytes := Payload(version, hash20, sha);
    TopValue(256, bytes, 24);
    TopDigit(58, Value(256, bytes), 33, d);
    EncodedTop(bytes, 34, d);
  }

  // Every P2PKH address has 34 characters and starts with 'b'; every P2SH address has 34 and starts with '3'.
  lemma AddressShape(hash20: seq<Byte>, sha: Sha)
    requires |hash20| == 20
    ensures |Address(VERSION_P2PKH, hash20, sha)| == 34 && Address(VERSION_P2PKH, hash20, sha)[0] == 'b'
    ensures |Address(VERSION_P2SH, hash20, sha)| == 34 && Address(VERSION_P2SH, hash20, sha)[0] == '3'
  {
    hide Pow, Address;
    Bounds();
    LeadingDigit(VERSION_P2PKH, 34, hash20, sha);
    LeadingDigit(VERSION_P2SH, 2, hash20, sha);
  }

  lemma Bounds()
    ensures 34 * Pow(58, 33) <= 85 * Pow(256, 24) && 86 * Pow(256, 24) <= 35 * Pow(58, 33)
    ensures 2 * Pow(58, 33) <= 5 * Pow(256, 24) && 6 * Pow(256, 24) <= 3 * Pow(58, 33)
  {
    hide Pow;
    Powers();
  }

  lemma EncodedTop(bytes: seq<Byte>, len: nat, d: nat)
    requires bytes != [] && bytes[0] != 0 && len > 0 && d < 58
    requires |Digits(58, Value(256, bytes))| == len && Digits(58, Value(256, bytes))[0] == d
    ensures |Encode(bytes)| == len && Encode(bytes)[0] == ALPHABET[d]
  {
  }

  /******* Scripts *******/

  function HexDigit(c: char): (d: int)
    ensures -1 <= d < 16
  {
    if '0' <= c <= '9' then c as int - '0' as int
    else if 'a' <= c <= 'f' then c as int - 'a' as int + 10
    else if 'A' <= c <= 'F' then c as int - 'A' as int + 10
    else -1
  }

  function HexDecode(s: string): Option<seq<Byte>> {
    if s == "" then Some([])
    else if |s| == 1 || HexDigit(s[0]) < 0 || HexDigit(s[1]) < 0 then None
    else
      var rest := HexDecode(s[2..]);
      if rest.None? then None else Some([HexDigit(s[0]) * 16 + HexDigit(s[1])] + rest.value)
  }

  function HexChar(d: int): char
    requires 0 <= d < 16
  {
    if d < 10 then ('0' as int + d) as char else ('a' as int + d - 10) as char
  }

  function HexEncode(bytes: seq<Byte>): string {
    if bytes == [] then "" else [HexChar(bytes[0] / 16), HexChar(bytes[0] % 16)] + HexEncode(bytes[1..])
  }

  // Every byte string has a hex text, and decoding it gives the bytes back.
  lemma {:induction false} HexRoundTrip(bytes: seq<Byte>)
    ensures HexDecode(HexEncode(bytes)) == Some(bytes)
  {
    if bytes == [] {
    } else {
      HexRoundTrip(bytes[1..]);
      var s, b := HexEncode(bytes), bytes[0];
      assert s[2..] == HexEncode(bytes[1..]);
      assert HexDigit(s[0]) == b / 16 && HexDigit(s[1]) == b % 16;
      assert HexDigit(s[0]) * 16 + HexDigit(s[1]) == b;
      assert bytes == [b] + bytes[1..];
    }
  }

  const HEX_LOWER := "0123456789" + "abcdef"
  const HEX_UPPER := "0123456789" + "ABCDEF"

  // The character is the hex digit d, in either case.
  ghost predicate IsHexDigit(c: char, d: int) {
    0 <= d < 16 && (c == HEX_LOWER[d] || c == HEX_UPPER[d])
  }

  lemma HexDigitIs(c: char, d: int)
    ensures d >= 0 ==> (HexDigit(c) == d <==> IsHexDigit(c, d))
  {
    assert HEX_LOWER == "0123456789abcdef" && HEX_UPPER == "0123456789ABCDEF";
    forall k | 0 <= k < 10 ensures HEX_LOWER[k] as int == '0' as int + k == HEX_UPPER[k] as int {
    }
    forall k | 10 <= k < 16
      ensures HEX_LOWER[k] as int == 'a' as int + k - 10 && HEX_UPPER[k] as int == 'A' as int + k - 10
    {
    }
  }

  // Two digits a byte, in either case, high digit first.
  ghost predicate Spells(s: string, bytes: seq<Byte>) {
    && |s| == 2 * |bytes|
    && forall i :: 0 <= i < |bytes| ==>
         IsHexDigit(s[2 * i], bytes[i] / 16) && IsHexDigit(s[2 * i + 1], bytes[i] % 16)
  }

  lemma SpellsMore(s: string, bytes: seq<Byte>)
    requires |s| >= 2 && bytes != []
    ensures Spells(s, bytes) <==>
            IsHexDigit(s[0], bytes[0] / 16) && IsHexDigit(s[1], bytes[0] % 16) && Spells(s[2..], bytes[1..])
  {
    hide IsHexDigit;
    var t, rest := s[2..], bytes[1..];
    if Spells(s, bytes) {
      forall i | 0 <= i < |rest|
        ensures IsHexDigit(t[2 * i], rest[i] / 16) && IsHexDigit(t[2 * i + 1], rest[i] % 16)
      {
        assert rest[i] == bytes[i + 1] && t[2 * i] == s[2 * (i + 1)] && t[2 * i + 1] == s[2 * (i + 1) + 1];
      }
      assert s[2 * 0] == s[0] && s[2 * 0 + 1] == s[1];
    }
    if IsHexDigit(s[0], bytes[0] / 16) && IsHexDigit(s[1], bytes[0] % 16) && Spells(t, rest) {
      forall i | 0 <= i < |bytes|
        ensures IsHexDigit(s[2 * i], bytes[i] / 16) && IsHexDigit(s[2 * i + 1], bytes[i] % 16)
      {
        if i > 0 {
          assert rest[i - 1] == bytes[i] && t[2 * (i - 1)] == s[2 * i] && t[2 * (i - 1) + 1] == s[2 * i + 1];
        }
      }
    }
  }

  lemma HexStep(s: string, bytes: seq<Byte>)
    requires |s| >= 2 && bytes != []
    ensures HexDecode(s) == Some(bytes) <==>
            && HexDigit(s[0]) == bytes[0] / 16 && HexDigit(s[1]) == bytes[0] % 16
            && HexDecode(s[2..]) == Some(bytes[1..])
  {
    hide HexDigit;
    var hi, lo, b := HexDigit(s[0]), HexDigit(s[1]), bytes[0];
    assert bytes == [b] + bytes[1..];
    assert hi >= 0 && lo >= 0 ==> (hi * 16 + lo == b <==> hi == b / 16 && lo == b % 16);
  }

  // A text decodes to exactly the bytes it spells, and not at all if it spells none.
  lemma {:induction false} HexDecodes(s: string, bytes: seq<Byte>)
    ensures HexDecode(s) == Some(bytes) <==> Spells(s, bytes)
  {
    if |s| <= 1 || bytes == [] {
    } else {
      hide IsHexDigit, HexDigit;
      var t, rest := s[2..], bytes[1..];
      HexDecodes(t, rest);
      HexDigitIs(s[0], bytes[0] / 16);
      HexDigitIs(s[1], bytes[0] % 16);
      assert |s| == 2 * |bytes| <==> |t| == 2 * |rest|;
      SpellsMore(s, bytes);
      HexStep(s, bytes);
    }
  }

  predicate IsP2pkh(raw: seq<Byte>) {
    |raw| == 25 && raw[0] == 0x76 && raw[1] == 0xa9 && raw[2] == 0x14 && raw[23] == 0x88 && raw[24] == 0xac
  }

  predicate IsP2sh(raw: seq<Byte>) {
    |raw| == 23 && raw[0] == 0xa9 && raw[1] == 0x14 && raw[22] == 0x87
  }

  // The address for P2PKH and P2SH scripts, or "".
  function DecodeScriptAddress(scriptType: string, scriptHex: string, sha: Sha): string {
    var raw := HexDecode(scriptHex);
    if raw.None? then ""
    else if scriptType == "pubkeyhash" && IsP2pkh(raw.value) then Address(VERSION_P2PKH, raw.value[3..23], sha)
    else if scriptType == "scripthash" && IsP2sh(raw.value) then Address(VERSION_P2SH, raw.value[2..22], sha)
    else ""
  }

  // The two forms of script around a hash, each under its own type.
  ghost predicate PaysToHash(scriptType: string, raw: seq<Byte>, version: Byte, hash20: seq<Byte>) {
    && |hash20| == 20
    && ((version == 85 && scriptType == "pubkeyhash" && raw == [0x76, 0xa9, 0x14] + hash20 + [0x88, 0xac])
        || (version == 5 && scriptType == "scripthash" && raw == [0xa9, 0x14] + hash20 + [0x87]))
  }

  // A script of one of the two forms has the address of its hash, in the version of its form.
  lemma ScriptAddress(scriptType: string, scriptHex: string, sha: Sha, version: Byte, hash20: seq<Byte>)
    requires HexDecode(scriptHex).Some? && PaysToHash(scriptType, HexDecode(scriptHex).value, version, hash20)
    ensures DecodeScriptAddress(scriptType, scriptHex, sha) == Address(version, hash20, sha) != ""
  {
    hide Address, HexDecode;
    var raw := HexDecode(scriptHex).value;
    AddressShape(hash20, sha);
    if version == 85 {
      assert raw[3..23] == hash20;
    } else {
      assert raw[2..22] == hash20;
    }
  }

  // A script has an address exactly if its hex text spells one of the two forms.
  lemma AddressExactly(scriptType: string, scriptHex: string, sha: Sha)
    ensures DecodeScriptAddress(scriptType, scriptHex, sha) != "" <==>
            exists raw: seq<Byte>, version: Byte, hash20: seq<Byte> ::
              Spells(scriptHex, raw) && PaysToHash(scriptType, raw, version, hash20)
  {
    hide Address, HexDecode, Spells;
    if DecodeScriptAddress(scriptType, scriptHex, sha) != "" {
      var version, hash20 := ScriptParts(scriptType, scriptHex, sha);
      var raw := HexDecode(scriptHex).value;
      HexDecodes(scriptHex, raw);
      assert PaysToHash(scriptType, raw, version, hash20);
    }
    forall raw: seq<Byte>, version: Byte, hash20: seq<Byte> |
      Spells(scriptHex, raw) && PaysToHash(scriptType, raw, version, hash20)
      ensures DecodeScriptAddress(scriptType, scriptHex, sha) != ""
    {
      HexDecodes(scriptHex, raw);
      ScriptAddress(scriptType, scriptHex, sha, version, hash20);
    }
  }

  // An address decodes to 25 bytes: the version, the hash, and the first four bytes of the double hash of these 21.
  lemma AddressChecks(version: Byte, hash20: seq<Byte>, sha: Sha)
    requires |hash20| == 20
    ensures var bytes := Decode(Address(version, hash20, sha));
            && bytes.Some? && |bytes.value| == 25
            && bytes.value[0] == version && bytes.value[1..21] == hash20
            && bytes.value[21..] == sha(sha(bytes.value[..21]))[..4]
  {
    hide Encode, Decode;
    var bytes := Payload(version, hash20, sha);
    EncodeRoundTrip(bytes);
    assert bytes[..21] == [version] + hash20;
  }

  // Two scripts with the same address are the same script, whatever the hash function does.
  lemma AddressDeterminesScript(type1: string, hex1: string, type2: string, hex2: string, sha: Sha)
    requires DecodeScriptAddress(type1, hex1, sha) == DecodeScriptAddress(type2, hex2, sha) != ""
    ensures type1 == type2 && HexDecode(hex1) == HexDecode(hex2)
  {
    var v1, h1 := ScriptParts(type1, hex1, sha);
    var v2, h2 := ScriptParts(type2, hex2, sha);
    EncodeInjective(Payload(v1, h1, sha), Payload(v2, h2, sha));
    assert Payload(v1, h1, sha)[0] == v1 && Payload(v1, h1, sha)[1..21] == h1;
    assert Payload(v2, h2, sha)[0] == v2 && Payload(v2, h2, sha)[1..21] == h2;
  }

  // The version and hash of a script that has an address; together with its type they spell out its bytes.
  lemma ScriptParts(scriptType: string, scriptHex: string, sha: Sha) returns (version: Byte, hash20: seq<Byte>)
    requires DecodeScriptAddress(scriptType, scriptHex, sha) != ""
    ensures |hash20| == 20 && DecodeScriptAddress(scriptType, scriptHex, sha) == Address(version, hash20, sha)
    ensures if version == VERSION_P2PKH
            then scriptType == "pubkeyhash" && HexDecode(scriptHex) == Some([0x76, 0xa9, 0x14] + hash20 + [0x88, 0xac])
            else version == VERSION_P2SH && scriptType == "scripthash"
                 && HexDecode(scriptHex) == Some([0xa9, 0x14] + hash20 + [0x87])
  {
    hide Address;
    var raw := HexDecode(scriptHex).value;
    if scriptType == "pubkeyhash" {
      version, hash20 := VERSION_P2PKH, raw[3..23];
      assert raw == [0x76, 0xa9, 0x14] + hash20 + [0x88, 0xac];
    } else {
      version, hash20 := VERSION_P2SH, raw[2..22];
      assert raw == [0xa9, 0x14] + hash20 + [0x87];
    }
  }
}
