/** The two-sample Kolmogorov-Smirnov distance of statistic.go (KS2Samp, the D
    statistic only) and the lower-bound search (location, searchsorted) it
    builds its empirical distribution functions from. */
module KolmogorovSmirnov {
  import opened Sorting
  import opened Counting
  import opened Statistic

  // ------------------------------------------------------------ location

  /** location: binary search for the first index whose element is not below
      key. The result is always an index into or just past the array; on a
      sorted array it is the lower bound of key. */
  method Location(arr: seq<real>, key: real) returns (i: int)
    ensures 0 <= i <= |arr|
    ensures Sorted(arr) ==> forall k :: 0 <= k < i ==> arr[k] < key
    ensures Sorted(arr) ==> forall k :: i <= k < |arr| ==> key <= arr[k]
  {
    i := 0;
    var size := |arr|;
    while true
      invariant 0 <= i <= size <= |arr|
      invariant Sorted(arr) ==> forall k :: 0 <= k < i ==> arr[k] < key
      invariant Sorted(arr) ==> forall k :: size <= k < |arr| ==> key <= arr[k]
      decreases size - i
    {
      var mid := (i + size) / 2;
      if i == size {
        break;
      }
      if arr[mid] < key {
        i := mid + 1;
      } else {
        size := mid;
      }
    }
  }

  /** The lower bound of key in a sorted array is the number of elements below
      key. */
  lemma LowerBoundCount(arr: seq<real>, key: real, i: int)
    requires 0 <= i <= |arr|
    requires forall k :: 0 <= k < i ==> arr[k] < key
    requires forall k :: i <= k < |arr| ==> key <= arr[k]
    ensures i == CountIn(arr, Below(key))
  {
    var lo, hi := arr[..i], arr[i..];
    CountInAll(lo, Below(key));
    CountInNone(hi, Below(key));
    CountInAppend(lo, hi, Below(key));
    assert lo + hi == arr;
  }

  /** searchsorted: one lower bound per value, in order. On a sorted array each
      index is the number of elements below the value. */
  method SearchSorted(arr: seq<real>, values: seq<real>) returns (indexes: seq<int>)
    ensures |indexes| == |values|
    ensures forall k :: 0 <= k < |values| ==> 0 <= indexes[k] <= |arr|
    ensures Sorted(arr) ==>
      forall k :: 0 <= k < |values| ==> indexes[k] == CountIn(arr, Below(values[k]))
  {
    indexes := [];
    var j := 0;
    while j < |values|
      invariant 0 <= j <= |values|
      invariant |indexes| == j
      invariant forall k :: 0 <= k < j ==> 0 <= indexes[k] <= |arr|
      invariant Sorted(arr) ==>
        forall k :: 0 <= k < j ==> indexes[k] == CountIn(arr, Below(values[k]))
    {
      var loc := Location(arr, values[j]);
      if Sorted(arr) {
        LowerBoundCount(arr, values[j], loc);
      }
      indexes := indexes + [loc];
      j := j + 1;
    }
  }

  // ------------------------------------------------------------- KS2Samp

  /** math.Max over reals. */
  function Max(a: real, b: real): real
  {
    if a < b then b else a
  }

  /** Empirical distribution function of a sample at x: the fraction of the
      sample strictly below x (numpy's left-sided searchsorted). */
  function Cdf(sample: seq<real>, x: real): (r: real)
    requires |sample| > 0
    ensures 0.0 <= r <= 1.0
  {
    CountIn(sample, Below(x)) as real / |sample| as real
  }

  /** No element below x puts the distribution function at 0; every element
      below x puts it at 1. */
  lemma CdfExtremes(sample: seq<real>, x: real)
    requires |sample| > 0
    ensures CountIn(sample, Below(x)) == 0 ==> Cdf(sample, x) == 0.0
    ensures CountIn(sample, Below(x)) == |sample| ==> Cdf(sample, x) == 1.0
  {
    FractionExtremes(CountIn(sample, Below(x)), |sample|);
  }

  lemma FractionExtremes(c: nat, n: nat)
    requires n > 0
    ensures c == 0 ==> c as real / n as real == 0.0
    ensures c == n ==> c as real / n as real == 1.0
  {
  }

  /** Distance between the two empirical distribution functions at x. */
  function Gap(a: seq<real>, b: seq<real>, x: real): (r: real)
    requires |a| > 0 && |b| > 0
    ensures 0.0 <= r <= 1.0
  {
    Abs(Cdf(a, x) - Cdf(b, x))
  }

  /** The running maximum of the gaps over the points xs, starting from 0. */
  function MaxGap(a: seq<real>, b: seq<real>, xs: seq<real>): real
    requires |a| > 0 && |b| > 0
  {
    if |xs| == 0 then 0.0 else Max(MaxGap(a, b, xs[..|xs| - 1]), Gap(a, b, xs[|xs| - 1]))
  }

  /** The largest gap over xs: it lies in [0, 1], bounds every gap at a point of
      xs, and is attained at a point of xs when there is one. */
  lemma {:induction false} MaxGapIsMaximum(a: seq<real>, b: seq<real>, xs: seq<real>)
    requires |a| > 0 && |b| > 0
    ensures 0.0 <= MaxGap(a, b, xs) <= 1.0
    ensures forall k :: 0 <= k < |xs| ==> Gap(a, b, xs[k]) <= MaxGap(a, b, xs)
    ensures |xs| > 0 ==> exists k :: 0 <= k < |xs| && MaxGap(a, b, xs) == Gap(a, b, xs[k])
  {
    if |xs| > 0 {
      var front := xs[..|xs| - 1];
      MaxGapIsMaximum(a, b, front);
      assert forall k :: 0 <= k < |front| ==> front[k] == xs[k];
      if |front| > 0 && MaxGap(a, b, xs) == MaxGap(a, b, front) {
        var k :| 0 <= k < |front| && MaxGap(a, b, front) == Gap(a, b, front[k]);
        assert MaxGap(a, b, xs) == Gap(a, b, xs[k]);
      } else {
        assert MaxGap(a, b, xs) == Gap(a, b, xs[|xs| - 1]);
      }
    }
  }

  /** Gaps depend only on the multisets of the samples, so sorting them in
      place changes no gap. */
  lemma GapPermutation(a: seq<real>, b: seq<real>, a': seq<real>, b': seq<real>, x: real)
    requires |a| > 0 && |b| > 0
    requires multiset(a) == multiset(a') && multiset(b) == multiset(b')
    ensures |a'| == |a| && |b'| == |b|
    ensures Gap(a, b, x) == Gap(a', b', x)
  {
    assert |a| == |multiset(a)| == |multiset(a')| == |a'|;
    assert |b| == |multiset(b)| == |multiset(b')| == |b'|;
    CountInPermutation(a, a', Below(x));
    CountInPermutation(b, b', Below(x));
  }

  lemma {:induction false} MaxGapPermutation(a: seq<real>, b: seq<real>, a': seq<real>, b': seq<real>, xs: seq<real>)
    requires |a| > 0 && |b| > 0
    requires multiset(a) == multiset(a') && multiset(b) == multiset(b')
    ensures |a'| > 0 && |b'| > 0
    ensures MaxGap(a, b, xs) == MaxGap(a', b', xs)
  {
    GapPermutation(a, b, a', b', 0.0);
    if |xs| > 0 {
      MaxGapPermutation(a, b, a', b', xs[..|xs| - 1]);
      GapPermutation(a, b, a', b', xs[|xs| - 1]);
    }
  }

  /** One step of the running maximum. */
  lemma MaxGapStep(a: seq<real>, b: seq<real>, xs: seq<real>, i: int)
    requires |a| > 0 && |b| > 0 && 0 <= i < |xs|
    ensures MaxGap(a, b, xs[..i + 1]) == Max(MaxGap(a, b, xs[..i]), Gap(a, b, xs[i]))
  {
    assert xs[..i + 1][..i] == xs[..i];
  }

  /** The loop KS2Samp runs once per sample: each searchsorted index divided by
      the sample size. */
  method Fractions(index: seq<int>, n: int) returns (cdf: seq<real>)
    requires n > 0
    ensures |cdf| == |index|
    ensures forall k :: 0 <= k < |index| ==> cdf[k] == index[k] as real / n as real
  {
    cdf := [];
    var k := 0;
    while k < |index|
      invariant 0 <= k <= |index|
      invariant |cdf| == k
      invariant forall j :: 0 <= j < k ==> cdf[j] == index[j] as real / n as real
    {
      cdf := cdf + [index[k] as real / n as real];
      k := k + 1;
    }
  }

  /** The body of KS2Samp after the sorts: the largest distance between the
      empirical distribution functions of the two sorted samples, taken over the
      pooled data in order. */
  method SortedDistance(s1: seq<real>, s2: seq<real>) returns (d: real)
    requires |s1| > 0 && |s2| > 0 && Sorted(s1) && Sorted(s2)
    ensures d == MaxGap(s1, s2, s1 + s2)
  {
    var all := s1 + s2;
    var index1 := SearchSorted(s1, all);
    var index2 := SearchSorted(s2, all);
    var cdf1 := Fractions(index1, |s1|);
    var cdf2 := Fractions(index2, |s2|);
    d := 0.0;
    var i := 0;
    while i < |cdf1|
      invariant 0 <= i <= |all|
      invariant d == MaxGap(s1, s2, all[..i])
    {
      MaxGapStep(s1, s2, all, i);
      d := Max(d, Abs(cdf1[i] - cdf2[i]));
      i := i + 1;
    }
    assert all[..|all|] == all;
  }

  /** KS2Samp: sorts both samples in place, then returns the largest distance
      between their empirical distribution functions over the pooled data. The
      samples may be the same slice. */
  method KS2Samp(data1: array<real>, data2: array<real>) returns (d: real)
    requires data1.Length > 0 && data2.Length > 0
    modifies data1, data2
    ensures Sorted(data1[..]) && Sorted(data2[..])
    ensures multiset(data1[..]) == multiset(old(data1[..]))
    ensures multiset(data2[..]) == multiset(old(data2[..]))
    ensures d == MaxGap(old(data1[..]), old(data2[..]), data1[..] + data2[..])
  {
    ghost var orig1, orig2 := data1[..], data2[..];
    SortInPlace(data1);
    ghost var sorted1, mid2 := data1[..], data2[..];
    assert multiset(mid2) == multiset(orig2) by {
      if data1 != data2 {
        assert mid2 == orig2;
      }
    }
    SortInPlace(data2);
    assert Sorted(data1[..]) && multiset(data1[..]) == multiset(orig1) by {
      if data1 != data2 {
        assert data1[..] == sorted1;
      }
    }
    d := SortedDistance(data1[..], data2[..]);
    MaxGapPermutation(data1[..], data2[..], orig1, orig2, data1[..] + data2[..]);
  }

  /** Two samples with the same elements are at distance 0. */
  lemma {:induction false} SameSampleDistanceZero(a: seq<real>, b: seq<real>, xs: seq<real>)
    requires |a| > 0 && multiset(a) == multiset(b)
    ensures |b| > 0
    ensures MaxGap(a, b, xs) == 0.0
  {
    assert |a| == |multiset(a)| == |multiset(b)| == |b|;
    if |xs| > 0 {
      SameSampleDistanceZero(a, b, xs[..|xs| - 1]);
      CountInPermutation(a, b, Below(xs[|xs| - 1]));
    }
  }

  /** When every element of a lies below every element of b, the pooled data
      reach the largest possible distance 1. */
  lemma SeparatedSamplesDistanceOne(a: seq<real>, b: seq<real>)
    requires |a| > 0 && |b| > 0
    requires forall p, q :: 0 <= p < |a| && 0 <= q < |b| ==> a[p] < b[q]
    ensures MaxGap(a, b, a + b) == 1.0
  {
    var x := SeqMin(b);
    var q :| 0 <= q < |b| && b[q] == x;
    assert forall p :: 0 <= p < |a| ==> a[p] < b[q];
    CountInAll(a, Below(x));
    CountInNone(b, Below(x));
    CdfExtremes(a, x);
    CdfExtremes(b, x);
    assert (a + b)[|a| + q] == x;
    MaxGapIsMaximum(a, b, a + b);
  }
}
