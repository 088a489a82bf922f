/** The sum of a map's values, whatever order they are taken in. */
module MapSum {

  ghost function Sum<K(!new)>(m: map<K, int>): int {
    if m == map[] then 0
    else
      var k :| k in m;
      m[k] + Sum(m - {k})
  }

  lemma {:induction false} SumSplit<K(!new)>(m: map<K, int>, k: K)
    requires k in m
    ensures Sum(m) == m[k] + Sum(m - {k})
  {
    var first :| first in m && Sum(m) == m[first] + Sum(m - {first});
    if first != k {
      SumSplit(m - {first}, k);
      SumSplit(m - {k}, first);
      assert m - {first} - {k} == m - {k} - {first};
    }
  }

  /** Setting one value moves the sum by the difference; a missing value counts as zero. */
  lemma SumUpdate<K(!new)>(m: map<K, int>, k: K, v: int)
    ensures Sum(m[k := v]) == Sum(m) - (if k in m then m[k] else 0) + v
  {
    SumSplit(m[k := v], k);
    assert m[k := v] - {k} == m - {k};
    if k in m { SumSplit(m, k); } else { assert m - {k} == m; }
  }

  lemma {:induction false} SumNonNegative<K(!new)>(m: map<K, int>)
    requires forall k :: k in m ==> m[k] >= 0
    ensures Sum(m) >= 0
  {
    if m != map[] {
      var k :| k in m;
      SumSplit(m, k);
      SumNonNegative(m - {k});
    }
  }

  lemma TwoBelowSum<K(!new)>(m: map<K, int>, j: K, k: K)
    requires forall i :: i in m ==> m[i] >= 0
    requires j in m && k in m && j != k
    ensures m[j] + m[k] <= Sum(m)
  {
    SumSplit(m, j);
    SumSplit(m - {j}, k);
    SumNonNegative(m - {j} - {k});
  }
}
