/** The in-place ascending sort the source applies to the denominations. */
module Sorting {
  import opened Machine

  /** Ascending (non-decreasing) order. */
  predicate Sorted(s: seq<int64>) {
    forall p, q :: 0 <= p < q < |s| ==> s[p] <= s[q]
  }

  /**
   * Sorts `a` in place into ascending order, keeping its multiset of values.
   * Insertion sort: the result is the one any correct sort produces, since a
   * sorted permutation of a sequence is unique.
   */
  method SortAscending(a: array<int64>)
    modifies a
    ensures Sorted(a[..])
    ensures multiset(a[..]) == old(multiset(a[..]))
  {
    var i := 0;
    while i < a.Length
      invariant 0 <= i <= a.Length
      invariant Sorted(a[..i])
      invariant multiset(a[..]) == old(multiset(a[..]))
    {
      var j := i;
      while j > 0 && a[j - 1] > a[j]
        invariant 0 <= j <= i
        invariant forall p, q :: 0 <= p < q <= i && p != j && q != j ==> a[p] <= a[q]
        invariant forall q :: j < q <= i ==> a[j] < a[q]
        invariant multiset(a[..]) == old(multiset(a[..]))
      {
        a[j - 1], a[j] := a[j], a[j - 1];
        j := j - 1;
      }
      i := i + 1;
    }
    assert a[..a.Length] == a[..];
  }
}
