/** Counting the elements of a float slice that pass a comparison: the membership
    tests of Histogram's bins and the "how many are below the key" reading of
    searchsorted on which KS2Samp's empirical CDFs rest. */
module Counting {

  /** The comparisons the core applies to a value. */
  datatype Range =
    | Below(x: real)                 // v < x
    | AtMost(x: real)                // v <= x
    | HalfOpen(lo: real, hi: real)   // lo <= v < hi
    | Closed(lo: real, hi: real)     // lo <= v <= hi

  predicate Holds(r: Range, v: real)
  {
    match r
    case Below(x) => v < x
    case AtMost(x) => v <= x
    case HalfOpen(lo, hi) => lo <= v < hi
    case Closed(lo, hi) => lo <= v <= hi
  }

  /** How many elements of s satisfy r. */
  function CountIn(s: seq<real>, r: Range): (n: nat)
    ensures n <= |s|
  {
    if |s| == 0 then 0
    else CountIn(s[..|s| - 1], r) + (if Holds(r, s[|s| - 1]) then 1 else 0)
  }

  lemma {:induction false} CountInAppend(a: seq<real>, b: seq<real>, r: Range)
    ensures CountIn(a + b, r) == CountIn(a, r) + CountIn(b, r)
  {
    if |b| > 0 {
      assert (a + b)[..|a + b| - 1] == a + b[..|b| - 1];
      CountInAppend(a, b[..|b| - 1], r);
    } else {
      assert a + b == a;
    }
  }

  /** Taking out the element at index j takes its contribution out of the count. */
  lemma CountInRemove(b: seq<real>, j: int, r: Range)
    requires 0 <= j < |b|
    ensures CountIn(b, r) == CountIn(b[..j] + b[j + 1..], r) + (if Holds(r, b[j]) then 1 else 0)
  {
    var x := b[j];
    assert b == (b[..j] + [x]) + b[j + 1..];
    CountInAppend(b[..j] + [x], b[j + 1..], r);
    CountInAppend(b[..j], [x], r);
    CountInAppend(b[..j], b[j + 1..], r);
    assert [x][..0] == [];
  }

  /** The last element of a occurs in its permutation b, at some j; without
      them the two are still permutations of each other. */
  lemma MatchLast(a: seq<real>, b: seq<real>) returns (j: int)
    requires |a| > 0 && multiset(a) == multiset(b)
    ensures 0 <= j < |b| && b[j] == a[|a| - 1]
    ensures multiset(a[..|a| - 1]) == multiset(b[..j] + b[j + 1..])
  {
    var x := a[|a| - 1];
    assert x in multiset(b);
    j :| 0 <= j < |b| && b[j] == x;
    var ma, mb := multiset(a[..|a| - 1]), multiset(b[..j] + b[j + 1..]);
    assert multiset(a) == ma + multiset{x} by {
      assert a == a[..|a| - 1] + [x];
    }
    assert multiset(b) == mb + multiset{x} by {
      assert b == b[..j] + [x] + b[j + 1..];
    }
    assert ma == (ma + multiset{x}) - multiset{x};
    assert mb == (mb + multiset{x}) - multiset{x};
  }

  /** A count depends only on the multiset of elements, not on their order:
      sorting a slice in place does not change any count over it. */
  lemma {:induction false} CountInPermutation(a: seq<real>, b: seq<real>, r: Range)
    requires multiset(a) == multiset(b)
    ensures CountIn(a, r) == CountIn(b, r)
    decreases |a|
  {
    if |a| == 0 {
      assert |b| == |multiset(b)| == 0;
    } else {
      var j := MatchLast(a, b);
      CountInPermutation(a[..|a| - 1], b[..j] + b[j + 1..], r);
      CountInRemove(b, j, r);
    }
  }

  /** Counting the elements that satisfy one of two exclusive ranges is adding
      the two counts. */
  lemma {:induction false} CountInDisjointUnion(s: seq<real>, whole: Range, left: Range, right: Range)
    requires forall k :: 0 <= k < |s| ==> (Holds(whole, s[k]) <==> Holds(left, s[k]) || Holds(right, s[k]))
    requires forall k :: 0 <= k < |s| ==> !(Holds(left, s[k]) && Holds(right, s[k]))
    ensures CountIn(s, whole) == CountIn(s, left) + CountIn(s, right)
  {
    if |s| > 0 {
      CountInDisjointUnion(s[..|s| - 1], whole, left, right);
    }
  }

  /** All elements pass: the count is the length. */
  lemma {:induction false} CountInAll(s: seq<real>, r: Range)
    requires forall k :: 0 <= k < |s| ==> Holds(r, s[k])
    ensures CountIn(s, r) == |s|
  {
    if |s| > 0 {
      CountInAll(s[..|s| - 1], r);
    }
  }

  /** No element passes: the count is zero. */
  lemma {:induction false} CountInNone(s: seq<real>, r: Range)
    requires forall k :: 0 <= k < |s| ==> !Holds(r, s[k])
    ensures CountIn(s, r) == 0
  {
    if |s| > 0 {
      CountInNone(s[..|s| - 1], r);
    }
  }

  /** Exactly one element passes: the count is 1. */
  lemma CountInOne(s: seq<real>, r: Range, j: int)
    requires 0 <= j < |s| && Holds(r, s[j])
    requires forall k :: 0 <= k < |s| && k != j ==> !Holds(r, s[k])
    ensures CountIn(s, r) == 1
  {
    CountInRemove(s, j, r);
    var rest := s[..j] + s[j + 1..];
    forall k | 0 <= k < |rest| ensures !Holds(r, rest[k]) {
      if k < j { assert rest[k] == s[k]; } else { assert rest[k] == s[k + 1]; }
    }
    CountInNone(rest, r);
  }
}
