/** Counting the integers of a range. */
module Ranges {
  /** The `n` integers from `from` on. */
  ghost function Range(from: int, n: nat): (r: set<int>)
    ensures forall i :: i in r <==> from <= i < from + n
    ensures |r| == n
  {
    if n == 0 then {} else Range(from, n - 1) + {from + n - 1}
  }

  lemma SubsetSize(a: set<int>, b: set<int>)
    requires a <= b
    ensures |a| <= |b|
  {
    assert b == a + (b - a);
  }
}
