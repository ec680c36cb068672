/** Sums over finite maps: the model of an SQL `sum(...)` over a table. */
module MapSums {

  ghost function Pick<K, V>(m: map<K, V>): (k: K)
    requires m != map[]
    ensures k in m
  {
    var k :| k in m; k
  }

  /** The sum of all values of m. */
  ghost function Sum<K>(m: map<K, nat>): (s: nat)
  {
    if m == map[] then 0 else var k := Pick(m); m[k] + Sum(m - {k})
  }

  /** Any key can be split off first: the sum does not depend on the order of summation. */
  lemma {:induction false} SumRemove<K>(m: map<K, nat>, k: K)
    requires k in m
    ensures Sum(m) == m[k] + Sum(m - {k})
    decreases |m|
  {
    var first := Pick(m);
    if first != k {
      assert |m - {first}| < |m| && |m - {k}| < |m|;
      SumRemove(m - {first}, k);
      SumRemove(m - {k}, first);
      assert m - {first} - {k} == m - {k} - {first};
    }
  }

  lemma SumInsert<K>(m: map<K, nat>, k: K, v: nat)
    requires k !in m
    ensures Sum(m[k := v]) == Sum(m) + v
  {
    SumRemove(m[k := v], k);
    assert m[k := v] - {k} == m;
  }

  /** A map with fewer keys and smaller values has a smaller sum. */
  lemma {:induction false} SumMonotone<K>(a: map<K, nat>, b: map<K, nat>)
    requires a.Keys <= b.Keys && forall k | k in a :: a[k] <= b[k]
    ensures Sum(a) <= Sum(b)
    decreases |a|
  {
    if a != map[] {
      var k := Pick(a);
      SumRemove(b, k);
      assert |a - {k}| < |a|;
      SumMonotone(a - {k}, b - {k});
    }
  }

  /** Evaluates a sum by visiting the rows in any order. */
  method Total<K(==)>(m: map<K, nat>) returns (total: nat)
    ensures total == Sum(m)
  {
    total := 0;
    var rest := m;
    while rest != map[]
      invariant total + Sum(rest) == Sum(m)
      decreases |rest|
    {
      var k :| k in rest;
      SumRemove(rest, k);
      assert |rest - {k}| < |rest|;
      total := total + rest[k];
      rest := rest - {k};
    }
  }
}
