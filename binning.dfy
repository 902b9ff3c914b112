/** Histogram of statistic.go (numpy.histogram): equal-width bins between the
    smallest and the largest value, half-open except the last, which is closed. */
module Binning {
  import opened Sorting
  import opened Counting

  /** Edge k of bins equally wide bins starting at lo. */
  function Edge(lo: real, hi: real, bins: int, k: int): real
    requires bins != 0
  {
    ((hi - lo) / bins as real) * k as real + lo
  }

  /** The bin edges the source computes from the range [lo, hi] of a series:
      bins + 1 equally spaced edges from lo to hi; the two edges [lo, lo] when
      lo == hi; the single edge Edge(bins), which is hi, when bins is negative. */
  function Edges(lo: real, hi: real, bins: int): seq<real>
    requires bins != 0
  {
    if bins < 0 then [Edge(lo, hi, bins, bins)]
    else if lo == hi then [lo, lo]
    else seq(bins + 1, k requires 0 <= k <= bins => Edge(lo, hi, bins, k))
  }

  /** The edges Histogram computes for a non-empty series. */
  function HistEdges(s: seq<real>, bins: int): seq<real>
    requires |s| > 0 && bins != 0
  {
    Edges(SeqMin(s), SeqMax(s), bins)
  }

  /** Bin i: half-open [edges[i], edges[i+1]), except the last, which is closed. */
  function BinRange(edges: seq<real>, i: int): Range
    requires 0 <= i < |edges| - 1
  {
    if i == |edges| - 2 then Closed(edges[i], edges[i + 1]) else HalfOpen(edges[i], edges[i + 1])
  }

  /** The count of every bin. */
  function HistCounts(s: seq<real>, edges: seq<real>): (counts: seq<int>)
    requires |edges| >= 1
    ensures |counts| == |edges| - 1
  {
    seq(|edges| - 1, i requires 0 <= i < |edges| - 1 => CountIn(s, BinRange(edges, i)))
  }

  /** The increment the counting loop applies for value v and bin b: the
      half-open test first, then, for the last bin only, the closed one. */
  lemma BinTest(edges: seq<real>, b: int, v: real)
    requires 0 <= b < |edges| - 1
    ensures Holds(BinRange(edges, b), v)
        <==> (v >= edges[b] && v < edges[b + 1])
             || (b == |edges| - 2 && v >= edges[b] && v <= edges[b + 1])
  {
  }

  /** An edge before the last one stays below the maximum when the values are
      not all equal, so the edge loop never leaves early. */
  lemma EdgeBelowTop(lo: real, hi: real, bins: int, i: int)
    requires lo < hi && 0 <= i < bins
    ensures Edge(lo, hi, bins, i) < hi
  {
    var w := (hi - lo) / bins as real;
    assert w * bins as real == hi - lo;
    assert w > 0.0;
    assert w * i as real < w * bins as real;
  }

  /** The edge loop of Histogram over the range [lo, hi] of the sorted series:
      it stops as soon as an edge reaches hi, then appends the edge w*bins + lo. */
  method BinEdges(lo: real, hi: real, bins: int) returns (edges: seq<real>)
    requires lo <= hi && bins != 0
    ensures edges == Edges(lo, hi, bins)
  {
    var w := (hi - lo) / bins as real;
    edges := [];
    var i := 0;
    while i < bins
      invariant 0 <= i && (bins > 0 ==> i <= bins) && (bins < 0 ==> i == 0)
      invariant |edges| == i
      invariant forall k :: 0 <= k < i ==> edges[k] == Edge(lo, hi, bins, k)
      invariant lo == hi ==> i == 0
    {
      if lo < hi {
        EdgeBelowTop(lo, hi, bins, i);
      }
      edges := edges + [w * i as real + lo];
      if edges[|edges| - 1] >= hi {
        break;
      }
      i := i + 1;
    }
    edges := edges + [w * bins as real + lo];
    if bins > 0 && lo == hi {
      assert w == 0.0;
      assert edges == [lo, lo];
    } else if bins > 0 {
      assert i == bins;
      assert |edges| == bins + 1;
      assert forall k :: 0 <= k <= bins ==> edges[k] == Edge(lo, hi, bins, k);
      assert edges == Edges(lo, hi, bins);
    } else {
      assert i == 0;
      assert |edges| == 1;
      assert edges[0] == w * bins as real + lo;
      assert edges[0] == Edge(lo, hi, bins, bins);
      assert edges == [Edge(lo, hi, bins, bins)];
    }
  }

  /** The counting loops of Histogram: for each bin, one pass over the series
      adds one for every value inside the bin. */
  method CountBins(series: seq<real>, edges: seq<real>) returns (hist: seq<int>)
    requires |edges| >= 1
    ensures hist == HistCounts(series, edges)
  {
    var l, bl := |series|, |edges|;
    var h := new int[bl - 1](_ => 0);
    var b := 0;
    while b < bl - 1
      invariant 0 <= b <= bl - 1
      invariant forall k :: 0 <= k < b ==> h[k] == CountIn(series, BinRange(edges, k))
      invariant forall k :: b <= k < bl - 1 ==> h[k] == 0
    {
      var j := 0;
      while j < l
        invariant 0 <= j <= l
        invariant h[b] == CountIn(series[..j], BinRange(edges, b))
        invariant forall k :: 0 <= k < b ==> h[k] == CountIn(series, BinRange(edges, k))
        invariant forall k :: b < k < bl - 1 ==> h[k] == 0
      {
        var v := series[j];
        assert series[..j + 1][..j] == series[..j];
        BinTest(edges, b, v);
        if v >= edges[b] && v < edges[b + 1] {
          h[b] := h[b] + 1;
        } else if b == bl - 2 && v >= edges[b] && v <= edges[b + 1] {
          h[b] := h[b] + 1;
        }
        j := j + 1;
      }
      assert series[..l] == series;
      b := b + 1;
    }
    hist := h[..];
  }

  /** Histogram: an empty series yields no bins and no edges. Otherwise the
      series is sorted in place, its first and last elements give the range the
      edges span, and each bin counts the values that fall in it. */
  method Histogram(series: array<real>, bins: int) returns (hist: seq<int>, edges: seq<real>)
    requires bins != 0
    modifies series
    ensures Sorted(series[..])
    ensures multiset(series[..]) == multiset(old(series[..]))
    ensures series.Length == 0 ==> hist == [] && edges == []
    ensures series.Length > 0 ==> edges == HistEdges(old(series[..]), bins)
    ensures series.Length > 0 ==> hist == HistCounts(old(series[..]), edges)
  {
    var l := series.Length;
    if l == 0 {
      return [], [];
    }
    ghost var orig := series[..];
    SortInPlace(series);
    SortedEnds(series[..], orig);
    edges := BinEdges(series[0], series[l - 1], bins);
    hist := CountBins(series[..], edges);
    forall k | 0 <= k < |edges| - 1
      ensures hist[k] == CountIn(orig, BinRange(edges, k))
    {
      CountInPermutation(series[..], orig, BinRange(edges, k));
    }
  }

  // ------------------------------------------------ the counts add up

  function SumInts(s: seq<int>): int
  {
    if |s| == 0 then 0 else SumInts(s[..|s| - 1]) + s[|s| - 1]
  }

  lemma HalfOpenSplit(s: seq<real>, a: real, b: real)
    requires a <= b
    ensures CountIn(s, Below(b)) == CountIn(s, Below(a)) + CountIn(s, HalfOpen(a, b))
  {
    CountInDisjointUnion(s, Below(b), Below(a), HalfOpen(a, b));
  }

  lemma ClosedSplit(s: seq<real>, a: real, b: real)
    requires a <= b
    ensures CountIn(s, AtMost(b)) == CountIn(s, Below(a)) + CountIn(s, Closed(a, b))
  {
    CountInDisjointUnion(s, AtMost(b), Below(a), Closed(a, b));
  }

  /** The half-open bins before bin j together count the values in
      [edges[0], edges[j]). */
  lemma {:induction false} PrefixCounts(s: seq<real>, edges: seq<real>, j: int)
    requires Sorted(edges) && 0 <= j <= |edges| - 2
    ensures SumInts(HistCounts(s, edges)[..j]) == CountIn(s, Below(edges[j])) - CountIn(s, Below(edges[0]))
  {
    if j > 0 {
      var counts := HistCounts(s, edges);
      PrefixCounts(s, edges, j - 1);
      assert counts[..j][..j - 1] == counts[..j - 1];
      HalfOpenSplit(s, edges[j - 1], edges[j]);
    }
  }

  /** With ascending edges spanning every value, each value is counted in
      exactly one bin: the counts add up to the length of the series. */
  lemma HistogramTotal(s: seq<real>, edges: seq<real>)
    requires |edges| >= 2 && Sorted(edges)
    requires forall k :: 0 <= k < |s| ==> edges[0] <= s[k] <= edges[|edges| - 1]
    ensures SumInts(HistCounts(s, edges)) == |s|
  {
    var n := |edges|;
    var counts := HistCounts(s, edges);
    PrefixCounts(s, edges, n - 2);
    assert counts[..n - 1] == counts;
    assert counts[..n - 1][..n - 2] == counts[..n - 2];
    ClosedSplit(s, edges[n - 2], edges[n - 1]);
    CountInAll(s, AtMost(edges[n - 1]));
    CountInNone(s, Below(edges[0]));
  }

  /** Equally spaced edges ascend with their index. */
  lemma EdgeMonotone(lo: real, hi: real, bins: int, p: int, q: int)
    requires lo <= hi && bins > 0 && p <= q
    ensures Edge(lo, hi, bins, p) <= Edge(lo, hi, bins, q)
  {
    var w := (hi - lo) / bins as real;
    assert w >= 0.0;
    assert w * p as real <= w * q as real;
  }

  /** The last of the bins + 1 edges is hi. */
  lemma LastEdge(lo: real, hi: real, bins: int)
    requires bins > 0
    ensures Edge(lo, hi, bins, bins) == hi
  {
    var w := (hi - lo) / bins as real;
    assert w * bins as real == hi - lo;
  }

  /** For a positive bin count the edges ascend from lo to hi. */
  lemma EdgesSpan(lo: real, hi: real, bins: int)
    requires lo <= hi && bins > 0
    ensures |Edges(lo, hi, bins)| >= 2
    ensures Sorted(Edges(lo, hi, bins))
    ensures Edges(lo, hi, bins)[0] == lo
    ensures Edges(lo, hi, bins)[|Edges(lo, hi, bins)| - 1] == hi
  {
    var edges := Edges(lo, hi, bins);
    if lo != hi {
      forall p, q | 0 <= p < q < |edges|
        ensures edges[p] <= edges[q]
      {
        EdgeMonotone(lo, hi, bins, p, q);
      }
      LastEdge(lo, hi, bins);
    }
  }

  /** Every value of a non-empty series lands in one bin, so for any positive
      bin count the counts of Histogram add up to the length of the series. */
  lemma HistogramCountsAll(s: seq<real>, bins: int)
    requires |s| > 0 && bins > 0
    ensures SumInts(HistCounts(s, HistEdges(s, bins))) == |s|
  {
    EdgesSpan(SeqMin(s), SeqMax(s), bins);
    HistogramTotal(s, HistEdges(s, bins));
  }

  /** A negative bin count yields no bins. */
  lemma NegativeBinsEmpty(s: seq<real>, bins: int)
    requires |s| > 0 && bins < 0
    ensures HistCounts(s, HistEdges(s, bins)) == []
  {
  }

  /** When all values are equal there is a single closed bin holding them all. */
  lemma ConstantSeriesOneBin(s: seq<real>, bins: int)
    requires |s| > 0 && bins > 0
    requires forall k :: 0 <= k < |s| ==> s[k] == s[0]
    ensures HistCounts(s, HistEdges(s, bins)) == [|s|]
  {
    var lo := SeqMin(s);
    assert SeqMax(s) == lo;
    var edges := HistEdges(s, bins);
    assert edges == [lo, lo];
    CountInAll(s, Closed(lo, lo));
  }

  /** Exactly the last two elements pass: the count is 2. */
  lemma CountInLastTwo(s: seq<real>, r: Range)
    requires |s| >= 2 && Holds(r, s[|s| - 1]) && Holds(r, s[|s| - 2])
    requires forall k :: 0 <= k < |s| - 2 ==> !Holds(r, s[k])
    ensures CountIn(s, r) == 2
  {
    var front := s[..|s| - 1];
    assert front[..|front| - 1] == s[..|s| - 2];
    CountInNone(s[..|s| - 2], r);
  }

  // ------------------------------------------ the histogram unit test

  /** The series of the histogram unit test. */
  function TestSeries(): seq<real>
  {
    [0.1, 1.2, 2.3, 3.4, 4.5, 5.6, 6.7, 7.8, 8.9, 9.01]
  }

  /** Its 16 edges for 15 bins, in exact arithmetic: 0.1 + 0.594k. */
  function TestEdges(): seq<real>
  {
    [0.1, 0.694, 1.288, 1.882, 2.476, 3.07, 3.664, 4.258, 4.852, 5.446,
     6.04, 6.634, 7.228, 7.822, 8.416, 9.01]
  }

  /** The test series runs from 0.1 to 9.01. */
  lemma TestSeriesRange()
    ensures SeqMin(TestSeries()) == 0.1 && SeqMax(TestSeries()) == 9.01
  {
    var s := TestSeries();
    assert forall k :: 0 <= k < |s| ==> 0.1 <= s[k] <= 9.01;
    assert s[0] == 0.1 && s[9] == 9.01;
  }

  /** Equally spaced edges of width 8.91 / 15 = 0.594. */
  lemma TestEdgesExact()
    ensures Edges(0.1, 9.01, 15) == TestEdges()
  {
    var e := Edges(0.1, 9.01, 15);
    assert |e| == 16;
    forall k | 0 <= k < 16 ensures e[k] == TestEdges()[k] {
      assert e[k] == 0.594 * k as real + 0.1;
    }
  }

  lemma TestSeriesEdges()
    ensures HistEdges(TestSeries(), 15) == TestEdges()
  {
    TestSeriesRange();
    TestEdgesExact();
  }

  /** Bins 0 to 3 of the test series (split into four groups to keep each
      proof small). */
  lemma TestCounts0To3()
    ensures forall i :: 0 <= i < 4 ==> CountIn(TestSeries(), BinRange(TestEdges(), i)) == [1, 1, 0, 1][i]
  {
    var s, e := TestSeries(), TestEdges();
    CountInOne(s, BinRange(e, 0), 0);
    CountInOne(s, BinRange(e, 1), 1);
    CountInNone(s, BinRange(e, 2));
    CountInOne(s, BinRange(e, 3), 2);
  }

  lemma TestCounts4To7()
    ensures forall i :: 4 <= i < 8 ==> CountIn(TestSeries(), BinRange(TestEdges(), i)) == [0, 1, 0, 1][i - 4]
  {
    var s, e := TestSeries(), TestEdges();
    CountInNone(s, BinRange(e, 4));
    CountInOne(s, BinRange(e, 5), 3);
    CountInNone(s, BinRange(e, 6));
    CountInOne(s, BinRange(e, 7), 4);
  }

  lemma TestCounts8To11()
    ensures forall i :: 8 <= i < 12 ==> CountIn(TestSeries(), BinRange(TestEdges(), i)) == [0, 1, 0, 1][i - 8]
  {
    var s, e := TestSeries(), TestEdges();
    CountInNone(s, BinRange(e, 8));
    CountInOne(s, BinRange(e, 9), 5);
    CountInNone(s, BinRange(e, 10));
    CountInOne(s, BinRange(e, 11), 6);
  }

  lemma TestCounts12To14()
    ensures forall i :: 12 <= i < 15 ==> CountIn(TestSeries(), BinRange(TestEdges(), i)) == [1, 0, 2][i - 12]
  {
    var s, e := TestSeries(), TestEdges();
    CountInOne(s, BinRange(e, 12), 7);
    CountInNone(s, BinRange(e, 13));
    CountInLastTwo(s, BinRange(e, 14));
  }

  /** Histogram of the unit test's series with 15 bins: the edges are
      0.1 + 0.594k and the counts are the vector the test expects. */
  lemma HistogramOfTestSeries()
    ensures var edges := HistEdges(TestSeries(), 15);
      edges == TestEdges() && HistCounts(TestSeries(), edges) == [1, 1, 0, 1, 0, 1, 0, 1, 0, 1, 0, 1, 1, 0, 2]
  {
    TestSeriesEdges();
    TestCounts0To3();
    TestCounts4To7();
    TestCounts8To11();
    TestCounts12To14();
  }
}
