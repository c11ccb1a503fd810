/** Counting arguments over finite sets of numbers. */
module Counting {
  function Min(a: nat, b: nat): nat {
    if a < b then a else b
  }

  function Range(lo: nat, hi: nat): (s: set<nat>)
    requires lo <= hi
    ensures forall b :: b in s <==> lo <= b < hi
    ensures |s| == hi - lo
    decreases hi - lo
  {
    if lo == hi then {} else {lo} + Range(lo + 1, hi)
  }

  /** The pigeonhole principle: distinct members of a set are no more than its size. */
  lemma {:induction false} DistinctBound(c: seq<nat>, s: set<nat>)
    requires forall i, j | 0 <= i < j < |c| :: c[i] != c[j]
    requires forall i | 0 <= i < |c| :: c[i] in s
    ensures |c| <= |s|
  {
    if c != [] {
      var last := c[|c| - 1];
      DistinctBound(c[..|c| - 1], s - {last});
    }
  }
}
