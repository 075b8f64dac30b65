/** Totals of the values of a finite map, used wherever a document keeps counters by key. */
module MapSums {

  /** The value stored under a key, or the default the document model gives a missing key. */
  function Get<K>(m: map<K, int>, k: K): (v: int)
    ensures k !in m ==> v == 0
    ensures k in m ==> v == m[k]
  {
    if k in m then m[k] else 0
  }

  /** What `$inc` does to one entry: a missing key counts as 0. */
  function Inc<K>(m: map<K, int>, k: K, n: int): map<K, int> {
    m[k := Get(m, k) + n]
  }

  ghost function Pick<K(!new)>(m: map<K, int>): (k: K)
    requires m != map[]
    ensures k in m
  {
    var k :| k in m;
    k
  }

  ghost function Total<K(!new)>(m: map<K, int>): int
    decreases |m|
  {
    if m == map[] then 0 else
      var k := Pick(m);
      m[k] + Total(m - {k})
  }

  lemma TotalOfNone<K(!new)>()
    ensures Total<K>(map[]) == 0
  {
  }

  lemma SizeWithout<K>(m: map<K, int>, k: K)
    requires k in m
    ensures |m| == |m - {k}| + 1
  {
    assert (m - {k}).Keys == m.Keys - {k};
    assert |m.Keys| == |m.Keys - {k}| + 1;
  }

  lemma RemovalsCommute<K>(m: map<K, int>, a: K, b: K)
    ensures m - {a} - {b} == m - {b} - {a}
  {
  }

  /** The total does not depend on the order in which the entries are taken. */
  lemma {:induction false} TotalRemove<K(!new)>(m: map<K, int>, k: K)
    requires k in m
    ensures Total(m) == m[k] + Total(m - {k})
    decreases |m|
  {
    var p := Pick(m);
    if p != k {
      SizeWithout(m, p);
      SizeWithout(m, k);
      RemovalsCommute(m, p, k);
      TotalRemove(m - {p}, k);
      TotalRemove(m - {k}, p);
    }
  }

  lemma TotalUpdate<K(!new)>(m: map<K, int>, k: K, v: int)
    ensures Total(m[k := v]) == Total(m) - Get(m, k) + v
  {
    TotalRemove(m[k := v], k);
    assert m[k := v] - {k} == m - {k};
    if k in m {
      TotalRemove(m, k);
    } else {
      assert m - {k} == m;
    }
  }
}
