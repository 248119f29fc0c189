/** Sums over the values of a finite map, in which a missing key counts as zero. */
module MapSum {
  ghost function Sum<K>(m: map<K, int>): (s: int) {
    if m == map[] then 0 else
      var k :| k in m;
      m[k] + Sum(m - {k})
  }

  lemma {:induction false} SumRemove<K>(m: map<K, int>, k: K)
    requires k in m
    ensures Sum(m) == m[k] + Sum(m - {k})
    decreases m
  {
    var c :| c in m && Sum(m) == m[c] + Sum(m - {c});
    if c != k {
      SumRemove(m - {c}, k);
      SumRemove(m - {k}, c);
      assert m - {c} - {k} == m - {k} - {c};
    }
  }

  lemma SumUpdate<K>(m: map<K, int>, k: K, v: int)
    ensures Sum(m[k := v]) == Sum(m) - (if k in m then m[k] else 0) + v
  {
    SumRemove(m[k := v], k);
    assert m[k := v] - {k} == m - {k};
    if k in m {
      SumRemove(m, k);
    } else {
      assert m - {k} == m;
    }
  }

  ghost predicate NonNegative<K>(m: map<K, int>) {
    forall k :: k in m ==> m[k] >= 0
  }

  lemma {:induction false} SumNonNegative<K>(m: map<K, int>)
    requires NonNegative(m)
    ensures Sum(m) >= 0
    decreases m
  {
    if m != map[] {
      var c :| c in m && Sum(m) == m[c] + Sum(m - {c});
      SumNonNegative(m - {c});
    }
  }

  lemma ValueAtMostSum<K>(m: map<K, int>, k: K)
    requires NonNegative(m)
    ensures (if k in m then m[k] else 0) <= Sum(m)
  {
    SumNonNegative(m);
    if k in m {
      SumRemove(m, k);
      SumNonNegative(m - {k});
    }
  }

  lemma TwoValuesAtMostSum<K>(m: map<K, int>, j: K, k: K)
    requires NonNegative(m) && j != k
    ensures (if j in m then m[j] else 0) + (if k in m then m[k] else 0) <= Sum(m)
  {
    if j in m {
      SumRemove(m, j);
      ValueAtMostSum(m - {j}, k);
    } else {
      ValueAtMostSum(m, k);
    }
  }
}
