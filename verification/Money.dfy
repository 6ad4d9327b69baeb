// Turning the node's decimal amounts into base units. The amount as parsed and the product with the factor are
// float64 values, each within a relative error of 2^-53 of the exact one.
module Money {
  import opened Reals
  import opened Chain
  import opened Index

  // Half away from zero.
  function Round(x: real): int {
    if x >= 0.0 then (x + 0.5).Floor else -(0.5 - x).Floor
  }

  // The nearest integer; of two, the one farther from zero.
  lemma RoundIs(x: real)
    ensures Abs(Round(x) as real - x) <= 0.5
    ensures Abs(Round(x) as real - x) == 0.5 ==> Abs(Round(x) as real) > Abs(x)
  {
  }

  // round(v * factor), where `product` is the float64 product.
  function CoinToBaseUnits(product: real): int {
    Round(product)
  }

  const ULP := 1.0 / 9007199254740992.0  // 2^-53

  // The largest error two roundings in a row can leave on a number of this size.
  function TwiceRounded(size: real): real {
    size * (2.0 * ULP + ULP * ULP)
  }

  // `got` is the float64 nearest to `exact`, or at least as close as rounding guarantees.
  predicate Rounded(got: real, exact: real) {
    Abs(got - exact) <= Abs(exact) * ULP
  }

  // The two roundings between an amount of k base units and the product that is converted back.
  ghost predicate Computed(k: int, factor: int, parsed: real, product: real)
    requires factor > 0
  {
    Rounded(parsed, k as real / factor as real) && Rounded(product, parsed * factor as real)
  }

  // Every amount of k base units, either sign, below 2^51 converts to exactly k, whatever the two roundings did.
  lemma ConversionExact(k: int, factor: int, parsed: real, product: real)
    requires -2251799813685248 < k < 2251799813685248 && factor > 0
    requires Computed(k, factor, parsed, product)
    ensures CoinToBaseUnits(product) == k
  {
    ErrorBound(k as real, factor as real, parsed, product);
    NearK(k, product);
  }

  lemma ErrorBound(x: real, f: real, parsed: real, product: real)
    requires f > 0.0 && Rounded(parsed, x / f) && Rounded(product, parsed * f)
    ensures Abs(product - x) <= TwiceRounded(Abs(x))
  {
    hide Abs, TwiceRounded;
    Scaled(parsed, x, f);
    TwoRoundings(x, parsed * f, product);
  }

  lemma NearK(k: int, product: real)
    requires -2251799813685248 < k < 2251799813685248 && Abs(product - k as real) <= TwiceRounded(Abs(k as real))
    ensures Round(product) == k
  {
  }

  lemma Scaled(parsed: real, x: real, f: real)
    requires f > 0.0 && Rounded(parsed, x / f)
    ensures Rounded(parsed * f, x)
  {
    hide Abs;
    var y, d := x / f, parsed - x / f;
    assert y * f == x;
    AbsTimes(d, f);
    AbsTimes(y, f);
    assert d * f == parsed * f - x;
    ScaleLe(Abs(d), Abs(y), ULP, f);
  }

  lemma ScaleLe(d: real, y: real, u: real, f: real)
    requires d <= y * u && f > 0.0
    ensures d * f <= y * f * u
  {
  }

  lemma AbsTimes(a: real, f: real)
    requires f > 0.0
    ensures Abs(a * f) == Abs(a) * f
  {
  }

  lemma TwoRoundings(x: real, m: real, p: real)
    requires Rounded(m, x) && Rounded(p, m)
    ensures Abs(p - x) <= TwiceRounded(Abs(x))
  {
  }

  // The relative-error model allows no larger bound: at 2^51, errors within it can reach the next half. This is about
  // the error bound alone; the values are not float64 numbers.
  lemma ErrorModelTight() returns (parsed: real, product: real)
    ensures Rounded(parsed, 2251799813685248.0 / 100000000.0) && Rounded(product, parsed * 100000000.0)
    ensures CoinToBaseUnits(product) == 2251799813685248 + 1
  {
    var x := 2251799813685248.0;
    parsed := x * (1.0 + ULP) / 100000000.0;
    product := x * (1.0 + ULP) * (1.0 + ULP);
  }

  // `got` is the float64 number m / scale, with a full 53-bit significand, and no other is nearer to `exact`.
  // `scale` is the power of two that sets the spacing 1 / scale around it.
  ghost predicate NearestFloat64(got: real, exact: real, m: int, scale: int) {
    && 4503599627370496 <= m < 9007199254740992 && scale > 0
    && got * scale as real == m as real
    && exact * scale as real >= 4503599627370496.0
    && Abs(got - exact) * scale as real <= 0.5
  }

  // Rounding to the nearest float64 keeps within the error of one rounding.
  lemma NearestIsRounded(got: real, exact: real, m: int, scale: int)
    requires NearestFloat64(got, exact, m, scale)
    ensures Rounded(got, exact)
  {
    var f := scale as real;
    AbsTimes(exact, f);
    assert Abs(exact) * f >= 4503599627370496.0;
    assert Abs(exact) * ULP * f == Abs(exact) * f * ULP;
    Cancel(Abs(got - exact), Abs(exact) * ULP, f);
  }

  lemma Cancel(a: real, b: real, f: real)
    requires f > 0.0 && a * f <= b * f
    ensures a <= b
  {
    assert (a - b) * f <= 0.0;
  }

  // Beyond the bound real float64 arithmetic does fail: at this amount, between 2^51 and 2^52, with the usual factor,
  // the nearest float64 product falls on the next half and the conversion is one too many.
  lemma ConversionFails() returns (parsed: real, product: real)
    ensures NearestFloat64(parsed, 3355456378454933.0 / 100000000.0, 4503617315193293, 134217728)
    ensures NearestFloat64(product, parsed * 100000000.0, 6710912756909867, 2)
    ensures CoinToBaseUnits(product) == 3355456378454933 + 1
  {
    parsed := 4503617315193293.0 / 134217728.0;
    product := 6710912756909867.0 / 2.0;
  }

  /******* Totals *******/

  function SumTo(ks: seq<int>, n: nat): int
    requires n <= |ks|
  {
    if n == 0 then 0 else SumTo(ks, n - 1) + ks[n - 1]
  }

  // Outputs that were converted from these amounts, each below the bound.
  ghost predicate ConvertedFrom(outs: seq<TxOut>, ks: seq<int>, factor: int) {
    && factor > 0 && |outs| == |ks|
    && (forall j :: 0 <= j < |ks| ==> -2251799813685248 < ks[j] < 2251799813685248)
    && (forall j :: 0 <= j < |ks| ==>
          exists parsed, product :: Computed(ks[j], factor, parsed, product)
            && outs[j].value == CoinToBaseUnits(product))
  }

  lemma OutputExact(outs: seq<TxOut>, ks: seq<int>, factor: int, j: nat)
    requires ConvertedFrom(outs, ks, factor) && j < |ks|
    ensures outs[j].value == ks[j]
  {
    var parsed, product :| Computed(ks[j], factor, parsed, product) && outs[j].value == CoinToBaseUnits(product);
    ConversionExact(ks[j], factor, parsed, product);
  }

  // A transaction's total is the exact sum of its amounts.
  lemma {:induction false} TxTotalExact(outs: seq<TxOut>, ks: seq<int>, factor: int, n: nat)
    requires ConvertedFrom(outs, ks, factor) && n <= |outs|
    ensures TotalOut(outs, n) == SumTo(ks, n)
  {
    if n == 0 {
    } else {
      TxTotalExact(outs, ks, factor, n - 1);
      OutputExact(outs, ks, factor, n - 1);
    }
  }

  function SumAll(kss: seq<seq<int>>, n: nat): int
    requires n <= |kss|
  {
    if n == 0 then 0 else SumAll(kss, n - 1) + SumTo(kss[n - 1], |kss[n - 1]|)
  }

  // A block's total is the exact sum over its transactions.
  lemma {:induction false} BlockTotalExact(txs: seq<Tx>, kss: seq<seq<int>>, factor: int, n: nat)
    requires |txs| == |kss| && n <= |txs| && forall i :: 0 <= i < |txs| ==> ConvertedFrom(txs[i].vout, kss[i], factor)
    ensures BlockTotalOut(txs, n) == SumAll(kss, n)
  {
    if n == 0 {
    } else {
      BlockTotalExact(txs, kss, factor, n - 1);
      TxTotalExact(txs[n - 1].vout, kss[n - 1], factor, |kss[n - 1]|);
    }
  }
}
