/** Sums over the values of a map, which the source takes by ranging in any order. */
module Sums {

  ghost function Sum<K(!new)>(m: map<K, int>): int {
    if m == map[] then 0
    else
      var k := Pick(m);
      m[k] + Sum(m - {k})
  }

  ghost function Pick<K(!new)>(m: map<K, int>): (k: K)
    requires m != map[]
    ensures k in m
  {
    var k :| k in m;
    k
  }

  /** Any entry can be taken out first. */
  lemma {:induction false} SumTakesOut<K(!new)>(m: map<K, int>, k: K)
    requires k in m
    ensures Sum(m) == m[k] + Sum(m - {k})
    decreases |m|
  {
    var first := Pick(m);
    if first != k {
      var rest := m - {first};
      SumTakesOut(rest, k);
      SumTakesOut(m - {k}, first);
      assert rest - {k} == m - {k} - {first};
    }
  }

  lemma SumInsert<K(!new)>(m: map<K, int>, k: K, v: int)
    ensures Sum(m[k := v]) == Sum(m) + v - (if k in m then m[k] else 0)
  {
    SumTakesOut(m[k := v], k);
    if k in m {
      SumTakesOut(m, k);
      assert m[k := v] - {k} == m - {k};
    } else {
      assert m[k := v] - {k} == m;
    }
  }

  /** Pointwise bounds add up. */
  lemma {:induction false} SumMonotone<K(!new)>(a: map<K, int>, b: map<K, int>)
    requires a.Keys <= b.Keys
    requires forall k :: k in a ==> a[k] <= b[k]
    requires forall k :: k in b && k !in a ==> 0 <= b[k]
    ensures Sum(a) <= Sum(b)
    decreases |b|
  {
    if b != map[] {
      var k := Pick(b);
      SumTakesOut(b, k);
      if k in a {
        SumTakesOut(a, k);
        SumMonotone(a - {k}, b - {k});
      } else {
        SumMonotone(a, b - {k});
      }
    }
  }

  /** Sums of differences are differences of sums. */
  lemma {:induction false} SumOfDifferences<K(!new)>(a: map<K, int>, b: map<K, int>, d: map<K, int>)
    requires a.Keys == b.Keys == d.Keys && forall k :: k in a ==> d[k] == a[k] - b[k]
    ensures Sum(d) == Sum(a) - Sum(b)
    decreases |a|
  {
    if a != map[] {
      var k := Pick(a);
      SumTakesOut(a, k);
      SumTakesOut(b, k);
      SumTakesOut(d, k);
      SumOfDifferences(a - {k}, b - {k}, d - {k});
    } else {
      assert b == map[] && d == map[];
    }
  }
}
