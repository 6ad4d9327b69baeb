// The nominal epoch reward: inverting the reward formula and snapping to the epoch schedule.
// float64 is idealised as real.
module Reward {
  import opened Reals

  /******* The epoch schedule in closed form *******/

  function Half(k: nat): (r: real)
    ensures r > 0.0
  {
    if k == 0 then 1.0 else Half(k - 1) / 2.0
  }

  // 20, 15, 10, 7.5, 5, 3.75, ...
  function Entry(i: nat): (r: real)
    ensures r > 0.0
  {
    (if i % 2 == 0 then 20.0 else 15.0) * Half(i / 2)
  }

  // It starts with 20 and 15, and halves every second step.
  lemma ScheduleIs(i: nat)
    ensures Entry(0) == 20.0 && Entry(1) == 15.0 && Entry(i + 2) == Entry(i) / 2.0
  {
    assert Half(0) == 1.0;
  }

  // How many entries of the schedule are at least 1e-6.
  const EPOCHS: nat := 49

  lemma EntryStep(i: nat)
    ensures Entry(i + 1) == Entry(i) * (if i % 2 == 0 then 3.0 / 4.0 else 2.0 / 3.0)
    ensures Entry(i + 1) < Entry(i)
  {
  }

  lemma {:induction false} EntriesFall(i: nat, j: nat)
    requires i < j
    ensures Entry(j) < Entry(i)
  {
    EntryStep(j - 1);
    if i == j - 1 {
    } else {
      EntriesFall(i, j - 1);
    }
  }

  lemma {:induction false} HalfAdd(j: nat, k: nat)
    ensures Half(j + k) == Half(j) * Half(k)
  {
    if j == 0 {
    } else {
      HalfAdd(j - 1, k);
    }
  }

  // The schedule crosses 1e-6 between entries 48 and 49.
  lemma ScheduleEnds()
    ensures Entry(EPOCHS - 1) >= 0.000001 > Entry(EPOCHS)
  {
    assert Half(0) == 1.0 && Half(1) == 0.5 && Half(2) == 0.25 && Half(3) == 0.125;
    HalfAdd(3, 3);
    HalfAdd(6, 6);
    HalfAdd(12, 12);
  }

  /******* The formula *******/

  // Clamped to 1 from above; a negative hashrate is not clamped.
  function Esf(hashrate: real, peak: real): real {
    if peak > 0.0 then (if hashrate / peak > 1.0 then 1.0 else hashrate / peak) else 0.0
  }

  function RawNominal(blockReward: real, hashrate: real, peak: real): real {
    if 1.0 + Esf(hashrate, peak) > 0.0 then blockReward * 2.0 / (1.0 + Esf(hashrate, peak)) else 0.0
  }

  // The factor is the share of the peak up to the peak itself, 1 beyond it, and 0 without a peak.
  lemma EsfIs(hashrate: real, peak: real)
    ensures peak <= 0.0 ==> Esf(hashrate, peak) == 0.0
    ensures peak > 0.0 && hashrate <= peak ==> Esf(hashrate, peak) * peak == hashrate
    ensures peak > 0.0 && hashrate > peak ==> Esf(hashrate, peak) == 1.0
  {
    if peak > 0.0 {
      var q := hashrate / peak;
      assert q * peak == hashrate;
      SignOfProduct(q - 1.0, peak);
      assert (q - 1.0) * peak == hashrate - peak;
    }
  }

  // The inverted reward with nothing abbreviated.
  ghost predicate Inverted(raw: real, blockReward: real, hashrate: real, peak: real) {
    if peak <= 0.0 then raw == blockReward * 2.0
    else if hashrate <= -peak then raw == 0.0
    else if hashrate <= peak then raw * (peak + hashrate) == blockReward * 2.0 * peak
    else raw == blockReward
  }

  lemma RawIs(blockReward: real, hashrate: real, peak: real)
    ensures Inverted(RawNominal(blockReward, hashrate, peak), blockReward, hashrate, peak)
  {
    EsfIs(hashrate, peak);
    DivisorVanishes(blockReward, hashrate, peak);
    if peak > 0.0 && -peak < hashrate <= peak {
      hide Esf, Nearest;
      var d, raw := 1.0 + Esf(hashrate, peak), RawNominal(blockReward, hashrate, peak);
      assert raw * d == blockReward * 2.0;
      Scaled(raw, d, blockReward * 2.0, peak);
      assert d * peak == peak + hashrate;
    }
  }

  lemma Scaled(x: real, y: real, z: real, k: real)
    requires x * y == z
    ensures x * (y * k) == z * k
  {
  }

  // Entry b is nearest to raw among all of them, and no larger entry is as near.
  ghost predicate Nearest(raw: real, b: nat) {
    && b < EPOCHS
    && (forall j: nat :: j < EPOCHS ==> Abs(raw - Entry(b)) <= Abs(raw - Entry(j)))
    && (forall j: nat :: j < b ==> Abs(raw - Entry(b)) < Abs(raw - Entry(j)))
  }

  method BuildEpochs() returns (epochs: seq<real>)
    ensures |epochs| == EPOCHS && forall i :: 0 <= i < EPOCHS ==> epochs[i] == Entry(i)
  {
    ScheduleEnds();
    epochs := [];
    var v := 20.0;
    assert Entry(0) == 20.0;
    while v >= 0.000001
      invariant v == Entry(|epochs|) && |epochs| <= EPOCHS
      invariant forall i :: 0 <= i < |epochs| ==> epochs[i] == Entry(i)
      decreases EPOCHS - |epochs|
    {
      EntryStep(|epochs|);
      epochs := epochs + [v];
      if |epochs| % 2 == 1 {
        v := v * (3.0 / 4.0);
      } else {
        v := v * (2.0 / 3.0);
      }
    }
    if |epochs| < EPOCHS - 1 {
      EntriesFall(|epochs|, EPOCHS - 1);
    }
  }

  method NominalEpochReward(blockReward: real, hashrate: real, peakHashrate: real) returns (best: real)
    ensures exists b: nat :: best == Entry(b) && Nearest(RawNominal(blockReward, hashrate, peakHashrate), b)
    ensures exists raw: real, b: nat ::
              best == Entry(b) && Nearest(raw, b) && Inverted(raw, blockReward, hashrate, peakHashrate)
  {
    hide Inverted, Entry;
    RawIs(blockReward, hashrate, peakHashrate);
    var epochs := BuildEpochs();
    var esf := 0.0;
    if peakHashrate > 0.0 {
      esf := hashrate / peakHashrate;
      if esf > 1.0 {
        esf := 1.0;
      }
    }
    var raw := 0.0;
    var denom := 1.0 + esf;
    if denom > 0.0 {
      raw := blockReward * 2.0 / denom;
    }
    best := epochs[0];
    ghost var b: nat := 0;
    for i := 1 to |epochs|
      invariant b < i && best == Entry(b)
      invariant forall j: nat :: j < i ==> Abs(raw - Entry(b)) <= Abs(raw - Entry(j))
      invariant forall j: nat :: j < b ==> Abs(raw - Entry(b)) < Abs(raw - Entry(j))
    {
      var e := epochs[i];
      if Abs(raw - e) < Abs(raw - best) {
        best := e;
        b := i;
      }
    }
    assert Nearest(raw, b);
  }

  /******* What the result is *******/

  ghost predicate Between(raw: real, b: nat) {
    && b < EPOCHS
    && (b + 1 < EPOCHS ==> raw >= (Entry(b) + Entry(b + 1)) / 2.0)
    && (b > 0 ==> raw < (Entry(b - 1) + Entry(b)) / 2.0)
  }

  lemma OthersFarther(raw: real, b: nat, j: nat)
    requires Between(raw, b) && j < EPOCHS && j != b
    ensures Abs(raw - Entry(b)) <= Abs(raw - Entry(j)) && (j < b ==> Abs(raw - Entry(b)) < Abs(raw - Entry(j)))
  {
    hide Entry;
    if j < b {
      EntriesFall(b - 1, b);
      if j < b - 1 { EntriesFall(j, b - 1); }
    } else {
      EntriesFall(b, b + 1);
      if b + 1 < j { EntriesFall(b + 1, j); }
    }
  }

  // The scan picks entry b exactly when raw lies from the midpoint below, included, to the midpoint above, excluded.
  lemma NearestIsBetween(raw: real, b: nat)
    ensures Nearest(raw, b) <==> Between(raw, b)
  {
    hide Entry;
    if b < EPOCHS {
      if b > 0 {
        EntriesFall(b - 1, b);
      }
      if b + 1 < EPOCHS {
        EntriesFall(b, b + 1);
      }
      if Nearest(raw, b) {
        assert b > 0 ==> Abs(raw - Entry(b)) < Abs(raw - Entry(b - 1));
        assert b + 1 < EPOCHS ==> Abs(raw - Entry(b)) <= Abs(raw - Entry(b + 1));
      }
      if Between(raw, b) {
        forall j: nat | j < EPOCHS && j != b
          ensures Abs(raw - Entry(b)) <= Abs(raw - Entry(j)) && (j < b ==> Abs(raw - Entry(b)) < Abs(raw - Entry(j)))
        {
          OthersFarther(raw, b, j);
        }
      }
    }
  }

  // A larger raw value never gives a smaller entry; in particular the nearest entry is unique.
  lemma SnapMonotone(raw1: real, raw2: real, b1: nat, b2: nat)
    requires raw1 <= raw2 && Nearest(raw1, b1) && Nearest(raw2, b2)
    ensures b2 <= b1 && Entry(b1) <= Entry(b2)
  {
    assert b1 < b2 ==> Abs(raw2 - Entry(b2)) < Abs(raw2 - Entry(b1));
    assert Abs(raw1 - Entry(b1)) <= Abs(raw1 - Entry(b2));
    if b1 < b2 {
      EntriesFall(b1, b2);
    } else if b2 < b1 {
      EntriesFall(b2, b1);
    }
  }

  // For a fixed hashrate and peak, the snapped reward grows with the block reward.
  lemma RewardMonotone(r1: real, r2: real, hashrate: real, peak: real, b1: nat, b2: nat)
    requires r1 <= r2
    requires Nearest(RawNominal(r1, hashrate, peak), b1) && Nearest(RawNominal(r2, hashrate, peak), b2)
    ensures Entry(b1) <= Entry(b2)
  {
    var d := 1.0 + Esf(hashrate, peak);
    if d > 0.0 {
      DivMonotone(r1 * 2.0, r2 * 2.0, d);
    }
    SnapMonotone(RawNominal(r1, hashrate, peak), RawNominal(r2, hashrate, peak), b1, b2);
  }

  lemma DivMonotone(x: real, y: real, d: real)
    requires x <= y && d > 0.0
    ensures x / d <= y / d
  {
  }

  lemma SignOfProduct(x: real, d: real)
    requires d > 0.0
    ensures x * d <= 0.0 <==> x <= 0.0
  {
  }

  // The factor lies in [0, 1], as its comment says, exactly when there is no peak or the hashrate is not negative.
  lemma EsfClampedExactly(hashrate: real, peak: real)
    ensures 0.0 <= Esf(hashrate, peak) <= 1.0 <==> peak <= 0.0 || hashrate >= 0.0
  {
    if peak > 0.0 {
      SignOfProduct(-(hashrate / peak), peak);
      assert -(hashrate / peak) * peak == -hashrate;
    }
  }

  // An input for which it does not.
  lemma EsfNotClamped()
    ensures Esf(-1.0, 2.0) == -0.5
  {
  }

  // The divisor vanishes or turns negative exactly from a hashrate of minus the peak down, and then the smallest entry
  // is returned whatever the block reward was.
  lemma DivisorVanishes(blockReward: real, hashrate: real, peak: real)
    ensures 1.0 + Esf(hashrate, peak) <= 0.0 <==> peak > 0.0 && hashrate <= -peak
    ensures 1.0 + Esf(hashrate, peak) <= 0.0 ==> Nearest(RawNominal(blockReward, hashrate, peak), EPOCHS - 1)
  {
    if peak > 0.0 {
      SignOfProduct(hashrate / peak + 1.0, peak);
      assert (hashrate / peak + 1.0) * peak == hashrate + peak;
    }
    NearestIsBetween(0.0, EPOCHS - 1);
  }

  // The reward a block of nominal value e is paid: half of it without a peak; from half of it to all of it as the
  // hashrate goes from nothing to the peak, and all of it beyond; less than half for a negative hashrate.
  ghost predicate Pays(paid: real, e: real, hashrate: real, peak: real) {
    if peak <= 0.0 then paid == e / 2.0
    else if hashrate <= peak then paid * 2.0 * peak == e * (peak + hashrate)
    else paid == e
  }

  // The round trip: whatever the hashrate and peak, a block reward within one eighth of what epoch b pays snaps to b.
  lemma RewardInverts(blockReward: real, paid: real, hashrate: real, peak: real, b: nat)
    requires b < EPOCHS && Pays(paid, Entry(b), hashrate, peak) && Abs(blockReward - paid) < paid / 8.0
    ensures Nearest(RawNominal(blockReward, hashrate, peak), b)
  {
    hide Entry, Esf, Nearest;
    var e, d, raw := Entry(b), 1.0 + Esf(hashrate, peak), RawNominal(blockReward, hashrate, peak);
    PaysByFactor(paid, e, hashrate, peak);
    PaidPositive(e, d, blockReward);
    Recover(blockReward, e, d, raw);
    NearEntry(raw, b);
  }

  lemma PaysByFactor(paid: real, e: real, hashrate: real, peak: real)
    requires Pays(paid, e, hashrate, peak)
    ensures paid == e / 2.0 * (1.0 + Esf(hashrate, peak))
  {
    hide Esf;
    EsfIs(hashrate, peak);
    if peak > 0.0 && hashrate <= peak {
      var d := 1.0 + Esf(hashrate, peak);
      assert d * peak == peak + hashrate;
      Scaled(e, d, e * d, peak);
      assert (paid * 2.0 - e * d) * peak == 0.0;
      NoProduct(paid * 2.0 - e * d, peak);
    }
  }

  lemma NoProduct(x: real, k: real)
    requires x * k == 0.0 && k > 0.0
    ensures x == 0.0
  {
  }

  // Only a positive divisor pays a positive reward to be near to.
  lemma PaidPositive(e: real, d: real, r: real)
    requires e > 0.0 && Abs(r - e / 2.0 * d) < e / 2.0 * d / 8.0
    ensures d > 0.0
  {
  }

  // Within one eighth of an entry, that entry is the nearest.
  lemma NearEntry(raw: real, b: nat)
    requires b < EPOCHS && Abs(raw - Entry(b)) < Entry(b) / 8.0
    ensures Nearest(raw, b)
  {
    hide Entry;
    EntryStep(b);
    if b > 0 {
      EntryStep(b - 1);
    }
    NearestIsBetween(raw, b);
  }

  lemma Recover(r: real, e: real, d: real, raw: real)
    requires d > 0.0 && e > 0.0 && raw == r * 2.0 / d
    requires Abs(r - e / 2.0 * d) < e / 2.0 * d / 8.0
    ensures Abs(raw - e) < e / 8.0
  {
  }

  // One eighth is the most that can be promised: just beyond it, below an even entry, the next entry is chosen.
  lemma ToleranceTight(b: nat, raw: real)
    requires b + 1 < EPOCHS && b % 2 == 0
    ensures raw < Entry(b) * 7.0 / 8.0 ==> !Nearest(raw, b)
    ensures raw == Entry(b) * 7.0 / 8.0 ==> Nearest(raw, b)
  {
    EntryStep(b);
    if b > 0 {
      EntryStep(b - 1);
    }
    NearestIsBetween(raw, b);
  }
}
