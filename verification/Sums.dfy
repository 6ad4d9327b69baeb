// Finite sums over the values of a map: the meaning of an SQL SUM over selected rows.
module Sums {

  ghost function Total<K>(m: map<K, int>): int
    decreases m.Keys
  {
    if m == map[] then 0 else
      var k :| k in m;
      m[k] + Total(m - {k})
  }

  lemma {:induction false} TotalRemove<K>(m: map<K, int>, k: K)
    requires k in m
    ensures Total(m) == m[k] + Total(m - {k})
    decreases m.Keys
  {
    var c :| c in m && Total(m) == m[c] + Total(m - {c});
    if c != k {
      TotalRemove(m - {c}, k);
      TotalRemove(m - {k}, c);
      assert m - {c} - {k} == m - {k} - {c};
    }
  }

  lemma TotalInsert<K>(m: map<K, int>, k: K, v: int)
    requires k !in m
    ensures Total(m[k := v]) == Total(m) + v
  {
    TotalRemove(m[k := v], k);
    assert m[k := v] - {k} == m;
  }

  lemma {:induction false} TotalUnion<K>(a: map<K, int>, b: map<K, int>)
    requires a.Keys !! b.Keys
    ensures Total(a + b) == Total(a) + Total(b)
    decreases b.Keys
  {
    if b == map[] {
      assert a + b == a;
    } else {
      var k :| k in b;
      TotalUnion(a, b - {k});
      TotalRemove(b, k);
      assert (a + b)[k] == b[k];
      TotalRemove(a + b, k);
      assert (a + b) - {k} == a + (b - {k});
    }
  }

  lemma {:induction false} TotalNonNegative<K>(m: map<K, int>)
    requires forall k :: k in m ==> m[k] >= 0
    ensures Total(m) >= 0
    decreases m.Keys
  {
    if m == map[] {
    } else {
      var k :| k in m;
      TotalRemove(m, k);
      TotalNonNegative(m - {k});
    }
  }

  lemma {:induction false} TotalZero<K>(m: map<K, int>)
    requires forall k :: k in m ==> m[k] >= 0
    ensures Total(m) == 0 <==> forall k :: k in m ==> m[k] == 0
    decreases m.Keys
  {
    if m == map[] {
    } else {
      var k :| k in m;
      TotalRemove(m, k);
      TotalNonNegative(m - {k});
      TotalZero(m - {k});
      assert forall j :: j in m <==> j == k || j in m - {k};
    }
  }

  // Renaming the keys one for one does not change the sum.
  lemma {:induction false} TotalRename<K, L>(m: map<K, int>, n: map<L, int>, ren: map<K, L>)
    requires ren.Keys == m.Keys
    requires forall k :: k in m ==> ren[k] in n && n[ren[k]] == m[k]
    requires forall k, l :: k in m && l in m && ren[k] == ren[l] ==> k == l
    requires forall x :: x in n ==> exists k :: k in m && ren[k] == x
    ensures Total(m) == Total(n)
    decreases m.Keys
  {
    if m == map[] {
      assert n == map[];
    } else {
      var k :| k in m;
      TotalRemove(m, k);
      TotalRemove(n, ren[k]);
      forall x | x in n - {ren[k]} ensures exists j :: j in m - {k} && (ren - {k})[j] == x {
        var j :| j in m && ren[j] == x;
        assert j in m - {k};
      }
      TotalRename(m - {k}, n - {ren[k]}, ren - {k});
    }
  }
}
