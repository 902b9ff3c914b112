/** Mean and Median of statistic.go, over exact reals. The other primitives of
    that file live in LinearRegression, Binning and KolmogorovSmirnov. */
module Statistic {
  import opened Sorting

  /** math.Abs over reals. */
  function Abs(x: real): (r: real)
    ensures r >= 0.0 && (r == x || r == -x)
  {
    if x < 0.0 then -x else x
  }

  // ---------------------------------------------------------------- Mean

  /** Sum of a series, accumulated left to right as the source's loops do. */
  function Sum(s: seq<real>): real
  {
    if |s| == 0 then 0.0 else Sum(s[..|s| - 1]) + s[|s| - 1]
  }

  /** The arithmetic mean, 0 for the empty series. */
  function Average(s: seq<real>): real
  {
    if |s| == 0 then 0.0 else Sum(s) / |s| as real
  }

  /** Mean: 0 for an empty series, otherwise the sum divided by the length. */
  method Mean(series: seq<real>) returns (m: real)
    ensures |series| == 0 ==> m == 0.0
    ensures |series| > 0 ==> m * |series| as real == Sum(series)
    ensures m == Average(series)
  {
    if |series| == 0 {
      return 0.0;
    }
    var sum := 0.0;
    var i := 0;
    while i < |series|
      invariant 0 <= i <= |series|
      invariant sum == Sum(series[..i])
    {
      assert series[..i + 1][..i] == series[..i];
      sum := sum + series[i];
      i := i + 1;
    }
    assert series[..|series|] == series;
    m := sum / |series| as real;
  }

  /** Elements between lo and hi sum to between n*lo and n*hi. */
  lemma {:induction false} SumBounds(s: seq<real>, lo: real, hi: real)
    requires forall k :: 0 <= k < |s| ==> lo <= s[k] <= hi
    ensures |s| as real * lo <= Sum(s) <= |s| as real * hi
  {
    if |s| > 0 {
      SumBounds(s[..|s| - 1], lo, hi);
    }
  }

  /** The mean of a non-empty series lies within any bounds of its elements;
      in particular the mean of a constant series is that constant. */
  lemma MeanWithinBounds(s: seq<real>, lo: real, hi: real)
    requires |s| > 0
    requires forall k :: 0 <= k < |s| ==> lo <= s[k] <= hi
    ensures lo <= Average(s) <= hi
  {
    SumBounds(s, lo, hi);
    var n := |s| as real;
    assert Average(s) * n == Sum(s);
  }

  /** Subtracting c from every element subtracts n*c from the sum. */
  lemma {:induction false} SumShift(s: seq<real>, t: seq<real>, c: real)
    requires |t| == |s|
    requires forall k :: 0 <= k < |s| ==> t[k] == s[k] - c
    ensures Sum(t) == Sum(s) - |s| as real * c
  {
    if |s| > 0 {
      SumShift(s[..|s| - 1], t[..|t| - 1], c);
    }
  }

  /** A series minus its own mean has mean zero. */
  lemma DemeanedAverageIsZero(s: seq<real>, t: seq<real>)
    requires |t| == |s|
    requires forall k :: 0 <= k < |s| ==> t[k] == s[k] - Average(s)
    ensures Average(t) == 0.0
  {
    SumShift(s, t, Average(s));
    if |s| > 0 {
      assert Average(s) * |s| as real == Sum(s);
    }
  }

  // -------------------------------------------------------------- Median

  /** Median: the middle element, or the average of the two middle elements, of
      the series AS GIVEN (the source does not sort); 0 for the empty series. */
  function Median(series: seq<real>): (m: real)
    ensures |series| == 0 ==> m == 0.0
  {
    var n := |series|;
    if n == 0 then 0.0
    else if (n - 1) / 2 == n / 2 then series[(n - 1) / 2]
    else (series[(n - 1) / 2] + series[n / 2]) / 2.0
  }

  /** On a sorted series the median splits it in halves: the first ceil(n/2)
      elements are at most the median and the last ceil(n/2) at least it. */
  lemma MedianSplitsSorted(s: seq<real>)
    requires |s| > 0 && Sorted(s)
    ensures forall k :: 0 <= k <= (|s| - 1) / 2 ==> s[k] <= Median(s)
    ensures forall k :: |s| / 2 <= k < |s| ==> Median(s) <= s[k]
  {
    var n := |s|;
    assert s[(n - 1) / 2] <= s[n / 2];
  }

  /** The median of a non-empty series lies within any bounds of its elements. */
  lemma MedianWithinBounds(s: seq<real>, lo: real, hi: real)
    requires |s| > 0
    requires forall k :: 0 <= k < |s| ==> lo <= s[k] <= hi
    ensures lo <= Median(s) <= hi
  {
  }

  /** The series of the median unit test, where the expected median is 5.05. */
  lemma MedianOfTestSeries()
    ensures Median([0.1, 1.2, 2.3, 3.4, 4.5, 5.6, 6.7, 7.8, 8.9, 9.01]) == 5.05
  {
  }

}
