/** Sums over finite maps. */
module Sums {

  ghost function Sum<K>(m: map<K, int>): int {
    if m == map[] then 0 else
      var k :| k in m;
      assert (m - {k}).Keys == m.Keys - {k};
      m[k] + Sum(m - {k})
  }

  lemma {:induction false} SumRemove<K>(m: map<K, int>, k: K)
    requires k in m
    ensures Sum(m) == m[k] + Sum(m - {k})
    decreases |m|
  {
    var c :| c in m && Sum(m) == m[c] + Sum(m - {c});
    if c != k {
      var mc, mk := m - {c}, m - {k};
      assert |mc.Keys| == |m.Keys - {c}| && |mk.Keys| == |m.Keys - {k}|;
      SumRemove(mc, k);
      SumRemove(mk, c);
      assert mc - {k} == mk - {c};
    }
  }

  lemma SumUpdate<K>(m: map<K, int>, k: K, v: int)
    ensures Sum(m[k := v]) == Sum(m) + v - (if k in m then m[k] else 0)
  {
    SumRemove(m[k := v], k);
    if k in m {
      SumRemove(m, k);
      assert m[k := v] - {k} == m - {k};
    } else {
      assert m[k := v] - {k} == m;
    }
  }

  function Restrict<K>(m: map<K, int>, ks: set<K>): map<K, int> {
    map k | k in m && k in ks :: m[k]
  }

  lemma SizeSplit<K>(m: map<K, int>, ks: set<K>)
    ensures |m| == |Restrict(m, ks)| + |m - ks|
  {
    var a, b := Restrict(m, ks).Keys, (m - ks).Keys;
    assert a + b == m.Keys && a !! b;
  }

  /** Removing a set of keys removes exactly what they contribute. */
  lemma {:induction false} SumSplit<K>(m: map<K, int>, ks: set<K>)
    ensures Sum(m) == Sum(Restrict(m, ks)) + Sum(m - ks)
    decreases |m|
  {
    if m == map[] {
      assert Restrict(m, ks) == map[] && m - ks == map[];
    } else {
      var k :| k in m;
      var m' := m - {k};
      assert |m'.Keys| == |m.Keys - {k}|;
      SumSplit(m', ks);
      SumRemove(m, k);
      SplitWithout(m, ks, k);
      if k in ks {
        SumRemove(Restrict(m, ks), k);
      } else {
        SumRemove(m - ks, k);
      }
    }
  }

  lemma SplitWithout<K>(m: map<K, int>, ks: set<K>, k: K)
    requires k in m
    ensures k in ks ==> Restrict(m, ks) - {k} == Restrict(m - {k}, ks) && m - ks == (m - {k}) - ks
    ensures k !in ks ==> (m - ks) - {k} == (m - {k}) - ks && Restrict(m, ks) == Restrict(m - {k}, ks)
  {
  }

  lemma {:induction false} SumNonNegative<K>(m: map<K, int>)
    requires forall k | k in m :: m[k] >= 0
    ensures Sum(m) >= 0
    ensures forall k | k in m :: m[k] <= Sum(m)
    decreases |m|
  {
    forall k | k in m ensures 0 <= m[k] <= Sum(m) {
      SumRemove(m, k);
      var m' := m - {k};
      assert |m'.Keys| == |m.Keys - {k}|;
      SumNonNegative(m');
    }
    if k :| k in m {
    }
  }
}
