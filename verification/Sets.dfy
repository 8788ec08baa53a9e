/** Finite-set cardinality facts used by the counting arguments. */
module Sets {
  function Below(n: nat): (r: set<nat>)
    ensures |r| == n
    ensures forall x: nat :: x in r <==> x < n
  {
    if n == 0 then {} else Below(n - 1) + {n - 1}
  }

  lemma SubsetSize<T>(a: set<T>, b: set<T>)
    requires a <= b
    ensures |a| <= |b|
  {
    assert b == a + (b - a);
  }
}
