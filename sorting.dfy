/** Ascending order over float slices: the in-place sort that `sort.Float64s`
    performs for Histogram and KS2Samp, and the extremes a sorted slice exposes. */
module Sorting {

  predicate Sorted(s: seq<real>)
  {
    forall p, q :: 0 <= p < q < |s| ==> s[p] <= s[q]
  }

  /** The smallest element of a non-empty sequence. */
  function SeqMin(s: seq<real>): (m: real)
    requires |s| > 0
    ensures m in s
    ensures forall k :: 0 <= k < |s| ==> m <= s[k]
  {
    if |s| == 1 then s[0]
    else
      var rest := SeqMin(s[..|s| - 1]);
      if s[|s| - 1] < rest then s[|s| - 1] else rest
  }

  /** The largest element of a non-empty sequence. */
  function SeqMax(s: seq<real>): (m: real)
    requires |s| > 0
    ensures m in s
    ensures forall k :: 0 <= k < |s| ==> s[k] <= m
  {
    if |s| == 1 then s[0]
    else
      var rest := SeqMax(s[..|s| - 1]);
      if s[|s| - 1] > rest then s[|s| - 1] else rest
  }

  /** After sorting, the first element is the minimum and the last the maximum of
      the original slice: this is how Histogram reads off its range. */
  lemma {:induction false} SortedEnds(sorted: seq<real>, s: seq<real>)
    requires |s| > 0
    requires Sorted(sorted)
    requires multiset(sorted) == multiset(s)
    ensures |sorted| == |s|
    ensures sorted[0] == SeqMin(s)
    ensures sorted[|sorted| - 1] == SeqMax(s)
  {
    assert |sorted| == |multiset(sorted)| == |multiset(s)| == |s|;
    var lo, hi := SeqMin(s), SeqMax(s);
    assert lo in multiset(sorted) && hi in multiset(sorted);
    var i :| 0 <= i < |sorted| && sorted[i] == lo;
    var j :| 0 <= j < |sorted| && sorted[j] == hi;
    assert sorted[0] in multiset(s);
    assert sorted[|sorted| - 1] in multiset(s);
    var p :| 0 <= p < |s| && s[p] == sorted[0];
    var q :| 0 <= q < |s| && s[q] == sorted[|sorted| - 1];
    assert sorted[0] <= sorted[i];
    assert sorted[j] <= sorted[|sorted| - 1];
  }

  /** Index of a smallest element of a[i..]. */
  method MinIndex(a: array<real>, i: int) returns (m: int)
    requires 0 <= i < a.Length
    ensures i <= m < a.Length
    ensures forall q :: i <= q < a.Length ==> a[m] <= a[q]
  {
    m := i;
    var k := i + 1;
    while k < a.Length
      invariant i <= m < a.Length && i < k <= a.Length
      invariant forall q :: i <= q < k ==> a[m] <= a[q]
    {
      if a[k] < a[m] {
        m := k;
      }
      k := k + 1;
    }
  }

  /** sort.Float64s: sorts the slice in place, ascending (selection sort). */
  method SortInPlace(a: array<real>)
    modifies a
    ensures Sorted(a[..])
    ensures multiset(a[..]) == multiset(old(a[..]))
  {
    var i := 0;
    while i < a.Length
      invariant 0 <= i <= a.Length
      invariant forall p, q :: 0 <= p < q < i ==> a[p] <= a[q]
      invariant forall p, q :: 0 <= p < i <= q < a.Length ==> a[p] <= a[q]
      invariant multiset(a[..]) == multiset(old(a[..]))
    {
      var m := MinIndex(a, i);
      a[i], a[m] := a[m], a[i];
      i := i + 1;
    }
  }
}
