/** The detectors of algorithms.go, each deciding whether a timeseries is
    anomalous, and the trigger history kept by IsAnomalouslyAnomalous. The
    standard deviation the detectors compare against is supplied by the caller
    as the function `std`, and the clock as the integer `now`. */
module Algorithms {
  import opened Utils
  import opened Sorting
  import opened Counting
  import opened Statistic
  import opened Binning
  import opened LinearRegression
  import opened KolmogorovSmirnov

  // ------------------------------------------------------------- TailAvg

  /** TailAvg: 0 for an empty series, the last value when there are fewer than
      three, otherwise the average of the last three values. */
  function TailAvg(series: seq<real>): (t: real)
    ensures |series| == 0 ==> t == 0.0
    ensures 0 < |series| < 3 ==> t == series[|series| - 1]
  {
    var l := |series|;
    if l == 0 then 0.0
    else if l < 3 then series[l - 1]
    else (series[l - 1] + series[l - 2] + series[l - 3]) / 3.0
  }

  /** From three values on, TailAvg is the mean of the last three. */
  lemma TailAvgIsMeanOfTail(series: seq<real>)
    requires |series| >= 3
    ensures TailAvg(series) == Average(series[|series| - 3..])
  {
    var a, b, c := series[|series| - 3], series[|series| - 2], series[|series| - 1];
    assert series[|series| - 3..] == [a, b, c];
    assert [a, b, c][..2] == [a, b];
    assert [a, b][..1] == [a];
    assert [a][..0] == [];
    assert Sum([a]) == a;
    assert Sum([a, b]) == a + b;
  }

  /** TailAvg of a non-empty series lies within any bounds of its values. */
  lemma TailAvgWithinBounds(series: seq<real>, lo: real, hi: real)
    requires |series| > 0
    requires forall k :: 0 <= k < |series| ==> lo <= series[k] <= hi
    ensures lo <= TailAvg(series) <= hi
  {
  }

  // ------------------------------------------------- MedianAbsoluteDeviation

  /** The absolute deviation of every value from c, in order. */
  function Deviations(s: seq<real>, c: real): (d: seq<real>)
    ensures |d| == |s|
    ensures forall i :: 0 <= i < |s| ==> d[i] >= 0.0 && (d[i] == s[i] - c || d[i] == c - s[i])
  {
    seq(|s|, i requires 0 <= i < |s| => Abs(s[i] - c))
  }

  /** The verdict of MedianAbsoluteDeviation on the values s: false when the
      median deviation is 0, otherwise whether the last deviation is more than
      6 times the median deviation. */
  predicate MadAnomalous(s: seq<real>)
  {
    var d := Deviations(s, Median(s));
    var md := Median(d);
    if md == 0.0 then false else d[|d| - 1] / md > 6.0
  }

  /** The loop of MedianAbsoluteDeviation: the deviation of every value from
      the median, in order. */
  method Demedian(series: seq<real>, median: real) returns (demedianed: seq<real>)
    ensures demedianed == Deviations(series, median)
  {
    demedianed := [];
    var i := 0;
    while i < |series|
      invariant 0 <= i <= |series| && |demedianed| == i
      invariant forall k :: 0 <= k < i ==> demedianed[k] == Abs(series[k] - median)
    {
      demedianed := demedianed + [Abs(series[i] - median)];
      i := i + 1;
    }
  }

  /** MedianAbsoluteDeviation: builds the deviations from the median, then
      compares the last one to their median. */
  method MedianAbsoluteDeviation(ts: seq<Point>) returns (anomalous: bool)
    ensures anomalous == MadAnomalous(Values(ts))
  {
    var series := ValueArray(ts);
    var median := Median(series);
    var demedianed := Demedian(series, median);
    var medianDeviation := Median(demedianed);
    if medianDeviation == 0.0 {
      return false;
    }
    var testStatistic := demedianed[|demedianed| - 1] / medianDeviation;
    if testStatistic > 6.0 {
      return true;
    }
    return false;
  }

  /** The median of non-negative values is non-negative. */
  lemma MedianNonNegative(d: seq<real>)
    requires forall k :: 0 <= k < |d| ==> d[k] >= 0.0
    ensures Median(d) >= 0.0
  {
  }

  lemma ExceedsRatio(x: real, md: real)
    requires md > 0.0
    ensures x / md > 6.0 <==> x > 6.0 * md
  {
    assert x == (x / md) * md;
  }

  /** The verdict without the division: the median deviation is positive and
      the last deviation exceeds six times it. */
  lemma MadAnomalousMeans(s: seq<real>)
    ensures var d := Deviations(s, Median(s));
      MadAnomalous(s) <==> |s| > 0 && Median(d) > 0.0 && d[|s| - 1] > 6.0 * Median(d)
  {
    var d := Deviations(s, Median(s));
    MedianNonNegative(d);
    if Median(d) > 0.0 {
      ExceedsRatio(d[|d| - 1], Median(d));
    }
  }

  /** A constant series has median deviation 0 and is never anomalous. */
  lemma ConstantSeriesNotMadAnomalous(s: seq<real>, c: real)
    requires forall k :: 0 <= k < |s| ==> s[k] == c
    ensures !MadAnomalous(s)
  {
    if |s| > 0 {
      MedianWithinBounds(s, c, c);
      var d := Deviations(s, Median(s));
      MedianWithinBounds(d, 0.0, 0.0);
    }
  }

  // -------------------------------------------- SimpleStddevFromMovingAverage

  /** SimpleStddevFromMovingAverage: whether the tail average is more than three
      standard deviations away from the mean of the whole series. */
  method SimpleStddevFromMovingAverage(ts: seq<Point>, std: seq<real> -> real) returns (anomalous: bool)
    ensures anomalous == (Abs(TailAvg(Values(ts)) - Average(Values(ts))) > 3.0 * std(Values(ts)))
  {
    var series := ValueArray(ts);
    var mean := Mean(series);
    var stdDev := std(series);
    var t := TailAvg(series);
    anomalous := Abs(t - mean) > 3.0 * stdDev;
  }

  /** With a non-negative standard deviation a constant series is never
      flagged: its tail average equals its mean. */
  lemma ConstantSeriesNotFarFromMean(s: seq<real>, c: real, std: seq<real> -> real)
    requires std(s) >= 0.0
    requires forall k :: 0 <= k < |s| ==> s[k] == c
    ensures !(Abs(TailAvg(s) - Average(s)) > 3.0 * std(s))
  {
    if |s| > 0 {
      MeanWithinBounds(s, c, c);
      TailAvgWithinBounds(s, c, c);
    }
  }

  // ------------------------------------------------ timestamp windows

  /** The timestamp windows the detectors select points by. */
  datatype Window =
    | Before(cut: int)            // t < cut
    | Between(lo: int, hi: int)   // lo <= t < hi
    | Since(lo: int)              // t >= lo

  predicate InWindow(w: Window, t: int)
  {
    match w
    case Before(cut) => t < cut
    case Between(lo, hi) => lo <= t < hi
    case Since(lo) => t >= lo
  }

  /** The values of the points whose timestamp lies in w, in input order. */
  function Select(ts: seq<Point>, w: Window): (vs: seq<real>)
    ensures |vs| <= |ts|
  {
    if |ts| == 0 then []
    else
      var last := ts[|ts| - 1];
      Select(ts[..|ts| - 1], w) + (if InWindow(w, last.timestamp) then [last.value] else [])
  }

  /** Every selected value is the value of a point inside the window. */
  lemma {:induction false} SelectSound(ts: seq<Point>, w: Window)
    ensures forall v :: v in Select(ts, w) ==>
      exists k :: 0 <= k < |ts| && InWindow(w, ts[k].timestamp) && ts[k].value == v
  {
    if |ts| > 0 {
      var front := ts[..|ts| - 1];
      SelectSound(front, w);
      forall v | v in Select(ts, w)
        ensures exists k :: 0 <= k < |ts| && InWindow(w, ts[k].timestamp) && ts[k].value == v
      {
        if v in Select(front, w) {
          var k :| 0 <= k < |front| && InWindow(w, front[k].timestamp) && front[k].value == v;
          assert ts[k] == front[k];
        } else {
          assert ts[|ts| - 1].value == v;
        }
      }
    }
  }

  /** When every point lies in the window, all values are selected, in order. */
  lemma {:induction false} SelectAll(ts: seq<Point>, w: Window)
    requires forall k :: 0 <= k < |ts| ==> InWindow(w, ts[k].timestamp)
    ensures Select(ts, w) == Values(ts)
  {
    if |ts| > 0 {
      var front := ts[..|ts| - 1];
      SelectAll(front, w);
      assert Values(ts) == Values(front) + [ts[|ts| - 1].value];
    }
  }

  /** When no point lies in the window, nothing is selected. */
  lemma {:induction false} SelectNone(ts: seq<Point>, w: Window)
    requires forall k :: 0 <= k < |ts| ==> !InWindow(w, ts[k].timestamp)
    ensures Select(ts, w) == []
  {
    if |ts| > 0 {
      SelectNone(ts[..|ts| - 1], w);
    }
  }

  /** Two windows that share no timestamp select no point twice: together they
      select at most all points. */
  lemma {:induction false} SelectDisjoint(ts: seq<Point>, w1: Window, w2: Window)
    requires forall t :: !(InWindow(w1, t) && InWindow(w2, t))
    ensures |Select(ts, w1)| + |Select(ts, w2)| <= |ts|
  {
    if |ts| > 0 {
      SelectDisjoint(ts[..|ts| - 1], w1, w2);
      assert !(InWindow(w1, ts[|ts| - 1].timestamp) && InWindow(w2, ts[|ts| - 1].timestamp));
    }
  }

  // ---------------------------------------------------- FirstHourAverage

  /** FirstHourAverage: the baseline is the values of the points older than
      now - (fullDuration - 3600); the series is anomalous when the tail average
      of all values is more than three standard deviations of the baseline away
      from the baseline's mean. */
  method FirstHourAverage(ts: seq<Point>, fullDuration: int, now: int, std: seq<real> -> real)
    returns (anomalous: bool)
    ensures var baseline := Select(ts, Before(now - (fullDuration - 3600)));
      anomalous == (Abs(TailAvg(Values(ts)) - Average(baseline)) > 3.0 * std(baseline))
  {
    var series: seq<real> := [];
    var lastHourThreshold := now - (fullDuration - 3600);
    var i := 0;
    while i < |ts|
      invariant 0 <= i <= |ts|
      invariant series == Select(ts[..i], Before(lastHourThreshold))
    {
      assert ts[..i + 1][..i] == ts[..i];
      if ts[i].timestamp < lastHourThreshold {
        series := series + [ts[i].value];
      }
      i := i + 1;
    }
    assert ts[..i] == ts;
    var mean := Mean(series);
    var stdDev := std(series);
    var values := ValueArray(ts);
    var t := TailAvg(values);
    anomalous := Abs(t - mean) > 3.0 * stdDev;
  }

  // ------------------------------------------- MeanSubtractionCumulation

  /** Every value minus c, in order. */
  function Demeaned(s: seq<real>, c: real): (d: seq<real>)
    ensures |d| == |s|
  {
    seq(|s|, i requires 0 <= i < |s| => s[i] - c)
  }

  /** MeanSubtractionCumulation: subtracts the mean of all but the last value
      from every value, in place, then compares the last one with three
      standard deviations of the others. An empty series is outside the
      contract: the source slices it at length - 1. */
  method MeanSubtractionCumulation(ts: seq<Point>, std: seq<real> -> real) returns (anomalous: bool)
    requires |ts| >= 1
    ensures var v := Values(ts);
      var centred := Demeaned(v, Average(v[..|v| - 1]));
      anomalous == (Abs(centred[|v| - 1]) > 3.0 * std(centred[..|v| - 1]))
  {
    var values := ValueArray(ts);
    var n := |values|;
    var series := new real[n](k requires 0 <= k < n => values[k]);
    var mean := Mean(series[..n - 1]);
    assert series[..n - 1] == values[..n - 1];
    var i := 0;
    while i < n
      modifies series
      invariant 0 <= i <= n
      invariant forall k :: 0 <= k < i ==> series[k] == values[k] - mean
      invariant forall k :: i <= k < n ==> series[k] == values[k]
    {
      series[i] := series[i] - mean;
      i := i + 1;
    }
    assert series[..] == Demeaned(values, mean);
    var stdDev := std(series[..n - 1]);
    anomalous := Abs(series[n - 1]) > 3.0 * stdDev;
  }

  /** The values the last one is compared against are centred: after the
      subtraction, all but the last value have mean 0. */
  lemma CumulationBaselineCentred(v: seq<real>)
    requires |v| >= 1
    ensures Average(Demeaned(v, Average(v[..|v| - 1]))[..|v| - 1]) == 0.0
  {
    var front := v[..|v| - 1];
    DemeanedAverageIsZero(front, Demeaned(v, Average(front))[..|v| - 1]);
  }

  // --------------------------------------------------------- LeastSquares

  /** math.Trunc: the integer part, rounding toward zero. */
  function Trunc(x: real): (r: int)
    ensures x >= 0.0 ==> r as real <= x < r as real + 1.0
    ensures x < 0.0 ==> r as real - 1.0 < x <= r as real
    ensures r == 0 <==> -1.0 < x < 1.0
  {
    if x >= 0.0 then x.Floor else -((-x).Floor)
  }

  /** The value of a point minus its projection on the line v = m*t + c. */
  function Residual(pt: Point, m: real, c: real): real
  {
    pt.value - (m * pt.timestamp as real + c)
  }

  /** The residual of every point against the line v = m*t + c. */
  function Residuals(ts: seq<Point>, m: real, c: real): (errs: seq<real>)
    ensures |errs| == |ts|
  {
    seq(|ts|, i requires 0 <= i < |ts| => Residual(ts[i], m, c))
  }

  /** The verdict of LeastSquares on the residuals: fewer than three give
      false; otherwise they are anomalous when the average of the last three is
      more than three standard deviations and neither that average nor the
      deviation truncates to 0. */
  predicate ResidualsAnomalous(errs: seq<real>, std: seq<real> -> real)
  {
    var l := |errs|;
    if l < 3 then false
    else
      var stdDev := std(errs);
      var t := (errs[l - 1] + errs[l - 2] + errs[l - 3]) / 3.0;
      Abs(t) > stdDev * 3.0 && Trunc(stdDev) != 0 && Trunc(t) != 0
  }

  /** The verdict of LeastSquares. An undefined fit (all timestamps equal) is
      the NaN slope of the source: its residuals are NaN, so the first conjunct
      |t| > 3 std is false and the verdict is false. */
  predicate LeastSquaresAnomalous(ts: seq<Point>, std: seq<real> -> real)
  {
    match Fit(ts)
    case Undefined => false
    case Line(m, c) => ResidualsAnomalous(Residuals(ts, m, c), std)
  }

  /** The loop of LeastSquares: one residual per point against the fitted
      line, in input order. */
  method ResidualsOf(ts: seq<Point>, m: real, c: real) returns (errs: seq<real>)
    ensures errs == Residuals(ts, m, c)
  {
    errs := [];
    var i := 0;
    while i < |ts|
      invariant 0 <= i <= |ts| && |errs| == i
      invariant forall k :: 0 <= k < i ==> errs[k] == Residual(ts[k], m, c)
    {
      var projected := m * ts[i].timestamp as real + c;
      assert ts[i].value - projected == Residual(ts[i], m, c);
      errs := errs + [ts[i].value - projected];
      i := i + 1;
    }
  }

  /** LeastSquares: fits the line, builds one residual per point and applies
      the verdict. */
  method LeastSquares(ts: seq<Point>, std: seq<real> -> real) returns (anomalous: bool)
    ensures |ts| < 3 ==> !anomalous
    ensures anomalous == LeastSquaresAnomalous(ts, std)
  {
    var r := LinearRegressionLSE(ts);
    if r.Undefined? {
      return false;
    }
    var errs := ResidualsOf(ts, r.slope, r.intercept);
    var l := |errs|;
    if l < 3 {
      return false;
    }
    var stdDev := std(errs);
    var t := (errs[l - 1] + errs[l - 2] + errs[l - 3]) / 3.0;
    anomalous := Abs(t) > stdDev * 3.0 && Trunc(stdDev) != 0 && Trunc(t) != 0;
  }

  /** A series that lies exactly on a line, with two distinct timestamps, has
      zero residuals and is never flagged, whatever the deviation. */
  lemma PerfectLineNotLeastSquaresAnomalous(ts: seq<Point>, a: real, b: real, i: int, j: int, std: seq<real> -> real)
    requires 0 <= i < |ts| && 0 <= j < |ts| && ts[i].timestamp != ts[j].timestamp
    requires forall k :: 0 <= k < |ts| ==> ts[k].value == a * ts[k].timestamp as real + b
    ensures !LeastSquaresAnomalous(ts, std)
  {
    FitRecoversLine(ts, a, b, i, j);
    var errs := Residuals(ts, a, b);
    assert forall k :: 0 <= k < |ts| ==> errs[k] == Residual(ts[k], a, b) == 0.0;
  }

  /** A flagged series has at least three points, a defined fit, and a tail
      residual average of at least 1 in magnitude. */
  lemma LeastSquaresFlagMeans(ts: seq<Point>, std: seq<real> -> real)
    requires LeastSquaresAnomalous(ts, std)
    ensures |ts| >= 3 && Fit(ts).Line?
    ensures var errs := Residuals(ts, Fit(ts).slope, Fit(ts).intercept);
      var l := |errs|;
      Abs((errs[l - 1] + errs[l - 2] + errs[l - 3]) / 3.0) >= 1.0
  {
  }

  // -------------------------------------------------------- HistogramBins

  /** Bin i of HistogramBins' lookup holds t: the bin has at most 20 values,
      and t is at most its left edge for bin 0, strictly between its edges for
      any other bin. */
  predicate HitsBin(hist: seq<int>, edges: seq<real>, t: real, i: int)
    requires |edges| == |hist| + 1 && 0 <= i < |hist|
  {
    hist[i] <= 20 && (if i == 0 then t <= edges[0] else edges[i] < t < edges[i + 1])
  }

  /** The lookup of HistogramBins: some bin holds t. */
  predicate SparseHit(hist: seq<int>, edges: seq<real>, t: real)
    requires |edges| == |hist| + 1
  {
    exists i :: 0 <= i < |hist| && HitsBin(hist, edges, t, i)
  }

  /** HistogramBins: takes the tail average, builds the 15-bin histogram of
      the values (which sorts a copy of them) and scans the bins in order,
      answering true at the first sparse bin that holds the tail average. */
  method HistogramBins(ts: seq<Point>) returns (anomalous: bool)
    ensures |ts| == 0 ==> !anomalous
    ensures |ts| > 0 ==>
      var v := Values(ts);
      anomalous == SparseHit(HistCounts(v, HistEdges(v, 15)), HistEdges(v, 15), TailAvg(v))
  {
    var series := ValueArray(ts);
    var t := TailAvg(series);
    var arr := new real[|series|](k requires 0 <= k < |series| => series[k]);
    assert arr[..] == series;
    var hist, bins := Histogram(arr, 15);
    anomalous := FindSparseBin(hist, bins, t);
  }

  /** The scan of HistogramBins over the bins, in order, answering true at the
      first sparse bin that holds t. */
  method FindSparseBin(hist: seq<int>, bins: seq<real>, t: real) returns (found: bool)
    requires |hist| == 0 || |bins| == |hist| + 1
    ensures found <==> |hist| > 0 && SparseHit(hist, bins, t)
  {
    var i := 0;
    while i < |hist|
      invariant 0 <= i <= |hist|
      invariant forall k :: 0 <= k < i ==> !HitsBin(hist, bins, t, k)
    {
      if hist[i] <= 20 {
        if i == 0 {
          if t <= bins[0] {
            assert HitsBin(hist, bins, t, i);
            return true;
          }
        } else if t > bins[i] && t < bins[i + 1] {
          assert HitsBin(hist, bins, t, i);
          return true;
        }
      }
      i := i + 1;
    }
    return false;
  }

  /** Bin 0 can only hold the tail average at its left edge: the hit there
      means the tail average is the minimum of the series. */
  lemma FirstBinHitIsMinimum(s: seq<real>)
    requires |s| > 0 && TailAvg(s) <= HistEdges(s, 15)[0]
    ensures TailAvg(s) == SeqMin(s)
  {
    EdgesSpan(SeqMin(s), SeqMax(s), 15);
    TailAvgWithinBounds(s, SeqMin(s), SeqMax(s));
  }

  /** Every bin of a series of at most 20 values is sparse, so a tail average
      equal to the minimum is always flagged. */
  lemma ShortSeriesAtMinimumFlagged(s: seq<real>)
    requires 0 < |s| <= 20 && TailAvg(s) == SeqMin(s)
    ensures SparseHit(HistCounts(s, HistEdges(s, 15)), HistEdges(s, 15), TailAvg(s))
  {
    EdgesSpan(SeqMin(s), SeqMax(s), 15);
    var hist := HistCounts(s, HistEdges(s, 15));
    assert HitsBin(hist, HistEdges(s, 15), TailAvg(s), 0);
  }

  // -------------------------------------------------------------- KsTest

  /** The partition of KsTest: the reference window is the last hour up to ten
      minutes ago, the probe window the last ten minutes. */
  method SplitWindows(ts: seq<Point>, hourAgo: int, tenMinutesAgo: int)
    returns (reference: seq<real>, probe: seq<real>)
    ensures reference == Select(ts, Between(hourAgo, tenMinutesAgo))
    ensures probe == Select(ts, Since(tenMinutesAgo))
  {
    reference, probe := [], [];
    var i := 0;
    while i < |ts|
      invariant 0 <= i <= |ts|
      invariant reference == Select(ts[..i], Between(hourAgo, tenMinutesAgo))
      invariant probe == Select(ts[..i], Since(tenMinutesAgo))
    {
      assert ts[..i + 1][..i] == ts[..i];
      var t := ts[i].timestamp;
      if t >= hourAgo && t < tenMinutesAgo {
        reference := reference + [ts[i].value];
      }
      if t >= tenMinutesAgo {
        probe := probe + [ts[i].value];
      }
      i := i + 1;
    }
    assert ts[..i] == ts;
  }

  /** No point is in both windows of KsTest, so together they select at most
      every point. */
  lemma KsWindowsDisjoint(ts: seq<Point>, now: int)
    ensures forall k :: 0 <= k < |ts| ==>
      !(InWindow(Between(now - 3600, now - 600), ts[k].timestamp) && InWindow(Since(now - 600), ts[k].timestamp))
    ensures |Select(ts, Between(now - 3600, now - 600))| + |Select(ts, Since(now - 600))| <= |ts|
  {
    SelectDisjoint(ts, Between(now - 3600, now - 600), Since(now - 600));
  }

  /** KsTest: with fewer than 20 points in either window the answer is false;
      otherwise the two-sample distance is computed, but the branch that would
      use it is empty, so the answer is false as well. */
  method KsTest(ts: seq<Point>, now: int) returns (anomalous: bool)
    ensures !anomalous
  {
    var hourAgo := now - 3600;
    var tenMinutesAgo := now - 600;
    var reference, probe := SplitWindows(ts, hourAgo, tenMinutesAgo);
    if |reference| < 20 || |probe| < 20 {
      return false;
    }
    var data1 := new real[|reference|](k requires 0 <= k < |reference| => reference[k]);
    var data2 := new real[|probe|](k requires 0 <= k < |probe| => probe[k]);
    var ksD := KS2Samp(data1, data2);
    return false;
  }

  // ---------------------------------------------- IsAnomalouslyAnomalous

  /** A new trigger repeats the last one when it has the same value and comes
      at most 300 seconds after it. */
  predicate Repeats(history: seq<Point>, trigger: Point)
    requires |history| > 0
  {
    var last := history[|history| - 1];
    trigger.value == last.value && trigger.timestamp - last.timestamp <= 300
  }

  /** The history after a trigger: the trigger alone for an empty history,
      the history unchanged for a repeat, the trigger appended otherwise. */
  function Record(history: seq<Point>, trigger: Point): (h: seq<Point>)
    ensures |h| == |history| || |h| == |history| + 1
    ensures h[..|history|] == history
    ensures |h| == |history| + 1 ==> h[|history|] == trigger
  {
    if |history| == 0 then [trigger]
    else if Repeats(history, trigger) then history
    else history + [trigger]
  }

  /** The gaps between consecutive timestamps, as floating values. */
  function Intervals(times: seq<int>): (gaps: seq<real>)
    requires |times| > 0
    ensures |gaps| == |times| - 1
  {
    seq(|times| - 1, i requires 0 <= i < |times| - 1 => (times[i + 1] - times[i]) as real)
  }

  /** The loop of IsAnomalouslyAnomalous over the trigger times: the gap to
      the next time, for every time that has a next one. */
  method IntervalsOf(times: seq<int>) returns (intervals: seq<real>)
    requires |times| > 0
    ensures intervals == Intervals(times)
  {
    intervals := [];
    var i := 0;
    while i < |times|
      invariant 0 <= i <= |times|
      invariant |intervals| == if i < |times| then i else |times| - 1
      invariant forall k :: 0 <= k < |intervals| ==> intervals[k] == (times[k + 1] - times[k]) as real
    {
      if i + 1 < |times| {
        intervals := intervals + [(times[i + 1] - times[i]) as real];
      }
      i := i + 1;
    }
  }

  /** IsAnomalouslyAnomalous: records the trigger and, unless the history was
      empty or the trigger repeats the last one, compares the latest interval
      between triggers with the mean interval. */
  method IsAnomalouslyAnomalous(history: seq<Point>, trigger: Point, std: seq<real> -> real)
    returns (anomalous: bool, newHistory: seq<Point>)
    ensures newHistory == Record(history, trigger)
    ensures |history| == 0 ==> anomalous
    ensures |history| > 0 && Repeats(history, trigger) ==> !anomalous
    ensures |history| > 0 && !Repeats(history, trigger) ==>
      var gaps := Intervals(Timestamps(newHistory));
      anomalous == (Abs(gaps[|gaps| - 1] - Average(gaps)) > 3.0 * std(gaps))
  {
    if |history| == 0 {
      return true, [trigger];
    }
    var last := history[|history| - 1];
    if trigger.value == last.value && trigger.timestamp - last.timestamp <= 300 {
      return false, history;
    }
    newHistory := history + [trigger];
    var times := TimeArray(newHistory);
    var intervals := IntervalsOf(times);
    var mean := Mean(intervals);
    var stdDev := std(intervals);
    anomalous := Abs(intervals[|intervals| - 1] - mean) > 3.0 * stdDev;
  }

  /** Recording the same trigger twice is recording it once. */
  lemma RecordIdempotent(history: seq<Point>, trigger: Point)
    ensures Record(Record(history, trigger), trigger) == Record(history, trigger)
  {
  }

  /** The intervals telescope: they add up to the time from the first trigger
      to the last. */
  lemma {:induction false} IntervalsTelescope(times: seq<int>)
    requires |times| > 0
    ensures Sum(Intervals(times)) == (times[|times| - 1] - times[0]) as real
  {
    if |times| > 1 {
      var front := times[..|times| - 1];
      IntervalsTelescope(front);
      assert Intervals(times)[..|times| - 2] == Intervals(front);
    }
  }

  /** The mean interval is the span of the history divided by the number of
      intervals. */
  lemma MeanIntervalIsSpan(times: seq<int>)
    requires |times| > 1
    ensures Average(Intervals(times)) * (|times| - 1) as real == (times[|times| - 1] - times[0]) as real
  {
    IntervalsTelescope(times);
  }

  /** Triggers at a fixed spacing are never anomalous: every interval equals
      the mean interval. */
  lemma EvenlySpacedNotAnomalous(times: seq<int>, g: int, std: seq<real> -> real)
    requires |times| > 1
    requires forall k :: 0 <= k < |times| - 1 ==> times[k + 1] - times[k] == g
    requires std(Intervals(times)) >= 0.0
    ensures var gaps := Intervals(times);
      !(Abs(gaps[|gaps| - 1] - Average(gaps)) > 3.0 * std(gaps))
  {
    var gaps := Intervals(times);
    MeanWithinBounds(gaps, g as real, g as real);
  }
}
