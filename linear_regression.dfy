/** LinearRegressionLSE of statistic.go: the closed-form least-squares line
    through a series, over exact reals, and what the closed form guarantees. */
module LinearRegression {
  import opened Utils

  /** The four running sums of LinearRegressionLSE: of the timestamps, the
      values, the squared timestamps and the timestamp-value products. */
  datatype Sums = Sums(x: real, y: real, xx: real, xy: real)

  /** The running sums after one more point. */
  function Step(acc: Sums, pt: Point): Sums
  {
    var t := pt.timestamp as real;
    Sums(acc.x + t, acc.y + pt.value, acc.xx + t * t, acc.xy + t * pt.value)
  }

  /** The running sums over a whole series, accumulated left to right. */
  function Accumulate(ts: seq<Point>): Sums
  {
    if |ts| == 0 then Sums(0.0, 0.0, 0.0, 0.0)
    else Step(Accumulate(ts[..|ts| - 1]), ts[|ts| - 1])
  }

  lemma AccumulateStep(ts: seq<Point>, i: int)
    requires 0 <= i < |ts|
    ensures Accumulate(ts[..i + 1]) == Step(Accumulate(ts[..i]), ts[i])
  {
    assert ts[..i + 1][..i] == ts[..i];
  }

  /** A fitted line; Undefined stands for the NaN the source computes when the
      denominator of the slope is zero. */
  datatype Regression = Line(slope: real, intercept: real) | Undefined

  /** The slope's denominator n*Sxx - Sx^2 for n points with sums s. */
  function DenFrom(n: real, s: Sums): real
  {
    n * s.xx - s.x * s.x
  }

  /** The closed-form least-squares line from n points' sums. */
  function FitFrom(p: real, s: Sums): Regression
    requires p > 0.0
  {
    var den := DenFrom(p, s);
    if den == 0.0 then Undefined
    else
      var m := (p * s.xy - s.x * s.y) / den;
      Line(m, (s.y - m * s.x) / p)
  }

  function Fit(ts: seq<Point>): Regression
  {
    if |ts| == 0 then Line(0.0, 0.0) else FitFrom(|ts| as real, Accumulate(ts))
  }

  /** LinearRegressionLSE: (0, 0) for the empty series, otherwise the
      closed-form least-squares slope and intercept. */
  method LinearRegressionLSE(ts: seq<Point>) returns (r: Regression)
    ensures |ts| == 0 ==> r == Line(0.0, 0.0)
    ensures r == Fit(ts)
  {
    var q := |ts|;
    if q == 0 {
      return Line(0.0, 0.0);
    }
    var p := q as real;
    var sumX, sumY, sumXX, sumXY := 0.0, 0.0, 0.0, 0.0;
    var i := 0;
    while i < q
      invariant 0 <= i <= q
      invariant Accumulate(ts[..i]) == Sums(sumX, sumY, sumXX, sumXY)
    {
      AccumulateStep(ts, i);
      var t, v := ts[i].timestamp as real, ts[i].value;
      assert Step(Sums(sumX, sumY, sumXX, sumXY), ts[i]) == Sums(sumX + t, sumY + v, sumXX + t * t, sumXY + t * v);
      sumX := sumX + t;
      sumY := sumY + v;
      sumXX := sumXX + t * t;
      sumXY := sumXY + t * v;
      i := i + 1;
    }
    assert ts[..q] == ts;
    r := FitFrom(p, Sums(sumX, sumY, sumXX, sumXY));
  }

  // The rest of this module proves what the closed form guarantees: the
  // denominator n*Sxx - Sx^2 equals the sum of squared differences over all
  // pairs of timestamps (so it is zero exactly when they are all equal), and on
  // exactly linear data the fit recovers the line.

  /** Sum of squared distances of the timestamps from c. */
  function SquaredSpread(ts: seq<Point>, c: real): real
  {
    if |ts| == 0 then 0.0
    else
      var d := ts[|ts| - 1].timestamp as real - c;
      SquaredSpread(ts[..|ts| - 1], c) + d * d
  }

  /** s is the expansion Sxx - 2c*Sx + n*c^2 of a squared spread around c. */
  predicate SpreadMatches(s: real, acc: Sums, n: real, c: real)
  {
    s == acc.xx - 2.0 * c * acc.x + n * c * c
  }

  lemma SpreadStep(s: real, acc: Sums, n: real, c: real, pt: Point)
    requires SpreadMatches(s, acc, n, c)
    ensures var d := pt.timestamp as real - c; SpreadMatches(s + d * d, Step(acc, pt), n + 1.0, c)
  {
  }

  /** The spread around c expands into the running sums. */
  lemma {:induction false} SquaredSpreadExpands(ts: seq<Point>, c: real)
    ensures SpreadMatches(SquaredSpread(ts, c), Accumulate(ts), |ts| as real, c)
  {
    if |ts| > 0 {
      var front := ts[..|ts| - 1];
      SquaredSpreadExpands(front, c);
      SpreadStep(SquaredSpread(front, c), Accumulate(front), |front| as real, c, ts[|ts| - 1]);
    }
  }

  /** Adding a square never lowers a non-negative sum, and a square of a
      distance of at least one lifts it to at least one. */
  lemma SquareStep(s: real, s': real, d: real)
    requires s >= 0.0 && s' == s + d * d
    ensures s' >= 0.0
    ensures d >= 1.0 || d <= -1.0 ==> s' >= 1.0
  {
    if d <= -1.0 {
      assert d * d == (-d) * (-d);
    }
  }

  lemma {:induction false} SquaredSpreadNonNegative(ts: seq<Point>, c: real)
    ensures SquaredSpread(ts, c) >= 0.0
  {
    if |ts| > 0 {
      var front := ts[..|ts| - 1];
      SquaredSpreadNonNegative(front, c);
      SquareStep(SquaredSpread(front, c), SquaredSpread(ts, c), ts[|ts| - 1].timestamp as real - c);
    }
  }

  /** Timestamps are whole seconds: the spread around another timestamp is at
      least one as soon as one timestamp differs from it. */
  lemma {:induction false} SquaredSpreadPositive(ts: seq<Point>, c: int, i: int)
    requires 0 <= i < |ts| && ts[i].timestamp != c
    ensures SquaredSpread(ts, c as real) >= 1.0
  {
    var front := ts[..|ts| - 1];
    SquaredSpreadNonNegative(front, c as real);
    SquareStep(SquaredSpread(front, c as real), SquaredSpread(ts, c as real), ts[|ts| - 1].timestamp as real - c as real);
    if i < |ts| - 1 {
      assert front[i] == ts[i];
      SquaredSpreadPositive(front, c, i);
    }
  }

  lemma {:induction false} SquaredSpreadZero(ts: seq<Point>, c: real)
    requires forall i :: 0 <= i < |ts| ==> ts[i].timestamp as real == c
    ensures SquaredSpread(ts, c) == 0.0
  {
    if |ts| > 0 {
      var front := ts[..|ts| - 1];
      assert forall i :: 0 <= i < |front| ==> front[i] == ts[i];
      SquaredSpreadZero(front, c);
      var d := ts[|ts| - 1].timestamp as real - c;
      assert d == 0.0;
      assert d * d == 0.0;
    }
  }

  /** The slope's denominator for a whole series. */
  function Denominator(ts: seq<Point>): real
  {
    DenFrom(|ts| as real, Accumulate(ts))
  }

  lemma DenominatorStepSums(acc: Sums, n: real, pt: Point, spread: real)
    requires SpreadMatches(spread, acc, n, pt.timestamp as real)
    ensures DenFrom(n + 1.0, Step(acc, pt)) == DenFrom(n, acc) + spread
  {
  }

  /** Adding a timestamp t grows n*Sxx - Sx^2 by the squared spread of the
      earlier timestamps around t. */
  lemma DenominatorStep(ts: seq<Point>)
    requires |ts| > 0
    ensures Denominator(ts)
         == Denominator(ts[..|ts| - 1]) + SquaredSpread(ts[..|ts| - 1], ts[|ts| - 1].timestamp as real)
  {
    var front := ts[..|ts| - 1];
    var t := ts[|ts| - 1].timestamp as real;
    SquaredSpreadExpands(front, t);
    DenominatorStepSums(Accumulate(front), |front| as real, ts[|ts| - 1], SquaredSpread(front, t));
    assert |ts| as real == |front| as real + 1.0;
  }

  /** Sum of (t_k - t_j)^2 over all pairs j < k of timestamps. */
  function PairSpread(ts: seq<Point>): real
  {
    if |ts| == 0 then 0.0
    else PairSpread(ts[..|ts| - 1]) + SquaredSpread(ts[..|ts| - 1], ts[|ts| - 1].timestamp as real)
  }

  /** n*Sxx - Sx^2 is the sum of squared differences over all pairs of
      timestamps (Lagrange's identity). */
  lemma {:induction false} DenominatorIsPairSpread(ts: seq<Point>)
    ensures Denominator(ts) == PairSpread(ts)
  {
    if |ts| > 0 {
      DenominatorIsPairSpread(ts[..|ts| - 1]);
      DenominatorStep(ts);
    }
  }

  lemma {:induction false} PairSpreadPositive(ts: seq<Point>, i: int, j: int)
    requires 0 <= i < |ts| && 0 <= j < |ts|
    ensures PairSpread(ts) >= 0.0
    ensures ts[i].timestamp != ts[j].timestamp ==> PairSpread(ts) > 0.0
    decreases |ts|
  {
    var front := ts[..|ts| - 1];
    var last := |ts| - 1;
    var t := ts[last].timestamp as real;
    SquaredSpreadNonNegative(front, t);
    if |ts| > 1 {
      var i', j' := if i < last then i else 0, if j < last then j else 0;
      PairSpreadPositive(front, i', j');
      if ts[i].timestamp != ts[j].timestamp {
        if i < last && j < last {
          assert front[i] == ts[i] && front[j] == ts[j];
        } else if i < last {
          assert front[i] == ts[i];
          SquaredSpreadPositive(front, ts[last].timestamp, i);
        } else {
          assert front[j] == ts[j];
          SquaredSpreadPositive(front, ts[last].timestamp, j);
        }
      }
    }
  }

  /** The slope's denominator is never negative, and it is positive as soon as
      two timestamps differ. */
  lemma DenominatorPositive(ts: seq<Point>, i: int, j: int)
    requires 0 <= i < |ts| && 0 <= j < |ts|
    ensures Denominator(ts) >= 0.0
    ensures ts[i].timestamp != ts[j].timestamp ==> Denominator(ts) > 0.0
  {
    DenominatorIsPairSpread(ts);
    PairSpreadPositive(ts, i, j);
  }

  /** With all timestamps equal the slope's denominator is zero. */
  lemma {:induction false} DenominatorZero(ts: seq<Point>)
    requires forall i :: 0 <= i < |ts| ==> ts[i].timestamp == ts[0].timestamp
    ensures Denominator(ts) == 0.0
  {
    if |ts| > 0 {
      var front := ts[..|ts| - 1];
      DenominatorStep(ts);
      assert forall i :: 0 <= i < |front| ==> front[i] == ts[i];
      DenominatorZero(front);
      SquaredSpreadZero(front, ts[|ts| - 1].timestamp as real);
    }
  }

  /** The sums of n points on the line v = a*t + b satisfy the normal
      equations Sy = a*Sx + n*b and Sxy = a*Sxx + b*Sx. */
  predicate OnLine(acc: Sums, n: real, a: real, b: real)
  {
    acc.y == a * acc.x + n * b && acc.xy == a * acc.xx + b * acc.x
  }

  lemma LinearStep(acc: Sums, n: real, a: real, b: real, pt: Point)
    requires OnLine(acc, n, a, b)
    requires pt.value == a * pt.timestamp as real + b
    ensures OnLine(Step(acc, pt), n + 1.0, a, b)
  {
  }

  lemma {:induction false} LinearSums(ts: seq<Point>, a: real, b: real)
    requires forall i :: 0 <= i < |ts| ==> ts[i].value == a * ts[i].timestamp as real + b
    ensures OnLine(Accumulate(ts), |ts| as real, a, b)
  {
    if |ts| > 0 {
      var front := ts[..|ts| - 1];
      assert forall i :: 0 <= i < |front| ==> front[i] == ts[i];
      LinearSums(front, a, b);
      LinearStep(Accumulate(front), |front| as real, a, b, ts[|ts| - 1]);
    }
  }

  /** The closed form returns (a, b) whenever the sums satisfy the normal
      equations of the line v = a*t + b and the denominator is not zero. */
  lemma FitFromLine(p: real, s: Sums, a: real, b: real)
    requires p > 0.0 && OnLine(s, p, a, b) && DenFrom(p, s) != 0.0
    ensures FitFrom(p, s) == Line(a, b)
  {
    var den := DenFrom(p, s);
    assert p * s.xy - s.x * s.y == a * den;
    assert (a * den) / den == a;
    assert s.y - a * s.x == p * b;
    assert (p * b) / p == b;
  }

  /** The regression recovers the exact slope and intercept of a perfectly
      linear series whose timestamps are not all equal. */
  lemma FitRecoversLine(ts: seq<Point>, a: real, b: real, i: int, j: int)
    requires 0 <= i < |ts| && 0 <= j < |ts| && ts[i].timestamp != ts[j].timestamp
    requires forall k :: 0 <= k < |ts| ==> ts[k].value == a * ts[k].timestamp as real + b
    ensures Fit(ts) == Line(a, b)
  {
    DenominatorPositive(ts, i, j);
    LinearSums(ts, a, b);
    FitFromLine(|ts| as real, Accumulate(ts), a, b);
  }

  /** With all timestamps equal (a single point in particular) the slope is
      0/0: the fit is undefined. */
  lemma FitUndefinedForEqualTimestamps(ts: seq<Point>)
    requires |ts| > 0
    requires forall i :: 0 <= i < |ts| ==> ts[i].timestamp == ts[0].timestamp
    ensures Fit(ts) == Undefined
  {
    DenominatorZero(ts);
  }

  /** The ten points of the regression unit test, v = 3.1*t - 2.1 at
      t = 0..9: the fit is slope 3.1 and intercept -2.1. */
  lemma RegressionOfTestSeries()
    ensures Fit(seq(10, i requires 0 <= i < 10 => Point(i, i as real * 3.1 - 2.1))) == Line(3.1, -2.1)
  {
    var ts := seq(10, i requires 0 <= i < 10 => Point(i, i as real * 3.1 - 2.1));
    FitRecoversLine(ts, 3.1, -2.1, 0, 1);
  }
}
