# skyline in Dafny

This project models the core of skyline, a Go library of anomaly detectors for timeseries. A timeseries is a slice of `TimePoint`s, each an `int64` timestamp with a `float64` value. The detectors work in three steps:

- they project the series to its values (`ValueArray`) or timestamps (`TimeArray`, `TimeArray64`);
- they compute statistics over it: `Mean`, `Median`, a least-squares line, a histogram, and the two-sample Kolmogorov-Smirnov distance;
- they return a verdict: anomalous or not.

`IsAnomalouslyAnomalous` also keeps a history of past triggers and asks whether the newest one is unusual.

The model uses:

- `int` for timestamps;
- `real` for values, so arithmetic is exact;
- a caller-supplied function `std` for the standard deviation;
- an integer `now` for the clock.

Loops and in-place sorts stay imperative: methods over `seq` and `array`. Most methods are proved equal to a specification function, and the properties of those functions are proved as lemmas. The rest state their properties directly in their contracts: `Location`, `SearchSorted`, `Fractions`, `MinIndex`, `SortInPlace`, `TimeArray64` and `KsTest`, which always answers false.

Modules, one per file:

- `Utils` (utils.dfy): `Point`, the projections and the functions `Values` and `Timestamps` that specify them.
- `Sorting` (sorting.dfy): `Sorted`, `SeqMin`/`SeqMax`, and the in-place sort standing for `sort.Float64s`.
- `Counting` (counting.dfy): `CountIn(s, r)` counts the elements of `s` that pass a comparison `r`. Both the histogram bins and the empirical distribution functions are counts of this kind. The module proves that a count depends only on the multiset of elements.
- `Statistic` (statistic.dfy): `Sum`, `Average`, `Mean` and `Median`.
- `LinearRegression` (linear_regression.dfy): the closed-form fit.
  - The running sums are `Accumulate`; the closed form is `FitFrom`/`Fit`.
  - `Undefined` stands for the 0/0 slope the source computes when every timestamp is equal.
  - The module proves that the slope's denominator n*Sxx - Sx^2 equals the sum of squared differences over all pairs of timestamps. So it is zero exactly when all timestamps are equal.
  - On exactly linear data the fit recovers the line.
- `Binning` (binning.dfy): `Histogram`.
  - `HistEdges`/`Edges` give the edges; `HistCounts` and `BinRange` the counts.
  - Bins are half-open, and the last bin is closed.
  - For a positive bin count, the counts add up to the length of the series.
- `KolmogorovSmirnov` (kolmogorov_smirnov.dfy): `location`, `searchsorted` and the D statistic of `KS2Samp`.
  - `Cdf` is the empirical distribution function, `Gap` the distance between two of them at one point.
  - `MaxGap` is the running maximum of `Gap` over the pooled data.
- `Algorithms` (algorithms.dfy): `TailAvg`, the detectors, and the trigger history.
  - The detectors' verdicts are the predicates `MadAnomalous`, `LeastSquaresAnomalous`/`ResidualsAnomalous` and `SparseHit`/`HitsBin`.
  - Timestamp filters are `Select` over a `Window`.
  - The trigger history is `Repeats`, `Record` and `Intervals`.

One test note: the regression unit test builds the points `3.1*t - 2.1` at `t = 0..9`, but its expected intercept has the wrong sign. `RegressionOfTestSeries` proves that the fit is slope 3.1, intercept -2.1.

## Model

| member | source | states |
|---|---|---|
| Utils.TimeArray | utils.go:10-16 | one timestamp per point, same length and order as the input; equals `Timestamps(ts)` |
| Utils.TimeArray64 | utils.go:19-25 | one timestamp per point converted to a floating value, same length and order |
| Utils.ValueArray | utils.go:28-34 | one value per point, same length and order; equals `Values(ts)` |
| Sorting.SeqMin | statistic.go:149 | the minimum is an element of the slice and at most every element |
| Sorting.SeqMax | statistic.go:149 | the maximum is an element of the slice and at least every element |
| Sorting.SortedEnds | statistic.go:148-149 | after sorting, the first element is the minimum and the last the maximum of the original slice |
| Sorting.MinIndex | statistic.go:148 | the index of a smallest element of the unsorted suffix |
| Sorting.SortInPlace | statistic.go:148 | `sort.Float64s`: the array ends ascending and is a permutation of what it held |
| Counting.CountIn | statistic.go:159-169 | a count is at most the length of the slice |
| Counting.CountInAppend | statistic.go:159-169 | the count over a concatenation is the sum of the counts |
| Counting.CountInRemove | statistic.go:159-169 | removing one element removes exactly its contribution to the count |
| Counting.MatchLast | statistic.go:148 | the last element of a slice occurs in any permutation of it; without it, the two are still permutations |
| Counting.CountInPermutation | statistic.go:148 | sorting in place does not change any count: counts depend only on the multiset |
| Counting.CountInDisjointUnion | statistic.go:159-169 | two exclusive comparisons count together what their union counts |
| Counting.CountInAll | statistic.go:159-169 | when every element passes, the count is the length |
| Counting.CountInNone | statistic.go:159-169 | when no element passes, the count is 0 |
| Statistic.Abs | algorithms.go:38 | `math.Abs`: non-negative and equal to x or -x |
| Statistic.Mean | statistic.go:12-21 | 0 for an empty series; otherwise the mean times the length is the sum; equals `Average` |
| Statistic.SumBounds | statistic.go:16-19 | n values within [lo, hi] sum to within [n*lo, n*hi] |
| Statistic.MeanWithinBounds | statistic.go:12-21 | the mean of a non-empty series lies within any bounds of its values |
| Statistic.SumShift | algorithms.go:121-123 | subtracting c from every value subtracts n*c from the sum |
| Statistic.DemeanedAverageIsZero | algorithms.go:120-123 | a series minus its own mean has mean 0 |
| Statistic.Median | statistic.go:29-31 | 0 for an empty series |
| Statistic.MedianSplitsSorted | statistic.go:24-38 | on a sorted series the first ceil(n/2) values are at most the median and the last ceil(n/2) at least it |
| Statistic.MedianWithinBounds | statistic.go:24-38 | the median of a non-empty series lies within any bounds of its values (no sorting is needed for this) |
| Statistic.MedianOfTestSeries | statistic_test.go:8-13 | the median of the unit test's series is 5.05 |
| LinearRegression.AccumulateStep | statistic.go:60-65 | each loop iteration adds one point's terms to the four running sums |
| LinearRegression.LinearRegressionLSE | statistic.go:53-69 | (0, 0) for an empty series; otherwise the closed-form fit of the accumulated sums (`Fit`) |
| LinearRegression.FitFrom | statistic.go:66-67 | the closed form from n and the four sums: slope (n*Sxy - Sx*Sy) / (n*Sxx - Sx^2), intercept (Sy - slope*Sx) / n; `Undefined` when the slope's denominator is 0 |
| LinearRegression.Fit | statistic.go:53-69 | the closed form applied to the sums accumulated over the whole series |
| LinearRegression.SquaredSpreadExpands | statistic.go:66 | the sum of squared distances of the timestamps from c expands into the running sums |
| LinearRegression.SquaredSpreadNonNegative | statistic.go:66 | that spread is never negative |
| LinearRegression.SquaredSpreadPositive | statistic.go:66 | it is at least 1 when some integer timestamp differs from the integer c |
| LinearRegression.SquaredSpreadZero | statistic.go:66 | it is 0 when every timestamp equals c |
| LinearRegression.DenominatorStep | statistic.go:66 | adding a point adds the sum of its squared distances from the earlier timestamps to the denominator of the slope |
| LinearRegression.DenominatorIsPairSpread | statistic.go:66 | the denominator n*Sxx - Sx^2 is the sum over pairs of squared timestamp differences |
| LinearRegression.PairSpreadPositive | statistic.go:66 | that pairwise spread is non-negative, and positive when two timestamps differ |
| LinearRegression.DenominatorPositive | statistic.go:66 | the denominator is non-negative, and positive when two timestamps differ |
| LinearRegression.DenominatorZero | statistic.go:66 | the denominator is 0 when all timestamps are equal |
| LinearRegression.LinearSums | statistic.go:60-65 | the sums of points on the line v = a*t + b satisfy the normal equations |
| LinearRegression.FitFromLine | statistic.go:66-67 | the closed form returns (a, b) from sums that satisfy the normal equations |
| LinearRegression.FitRecoversLine | statistic.go:53-69 | on exactly linear data with two distinct timestamps, the fit is that line |
| LinearRegression.FitUndefinedForEqualTimestamps | statistic.go:66 | with all timestamps equal the slope is 0/0: undefined |
| LinearRegression.RegressionOfTestSeries | statistic_test.go:26-39 | the unit test's points give slope 3.1 and intercept -2.1 |
| Binning.HistCounts | statistic.go:158-169 | there is one count per bin: one fewer than the edges |
| Binning.Edges | statistic.go:149-156 | the edges for the range [lo, hi]: bins + 1 edges lo + k*(hi - lo)/bins; [lo, lo] when lo == hi (the loop breaks after the first edge); the single edge hi when bins is negative (the loop does not run) |
| Binning.HistEdges | statistic.go:148-156 | the edges of a non-empty series: `Edges` over its minimum and maximum, which the sorted slice exposes at its ends |
| Binning.BinRange | statistic.go:161-167 | bin i is [edges[i], edges[i+1]), and the last bin is [edges[i], edges[i+1]] |
| Binning.BinTest | statistic.go:161-167 | the two tests of the counting loop, half-open first, then closed for the last bin only, are exactly bin membership |
| Binning.EdgeBelowTop | statistic.go:150-155 | when min < max, every edge before the last is below max, so the edge loop never breaks early |
| Binning.BinEdges | statistic.go:149-156 | the edge loop with its early break, then the final edge: the result is `Edges(lo, hi, bins)` |
| Binning.CountBins | statistic.go:157-169 | the counting loops: count i is the number of values in bin i |
| Binning.Histogram | statistic.go:141-171 | empty input gives no counts and no edges; otherwise the slice is sorted in place (a permutation), the edges are `HistEdges` of the input, and the counts are `HistCounts` of the input |
| Binning.HalfOpenSplit | statistic.go:161 | the values below b are those below a plus those in [a, b) |
| Binning.ClosedSplit | statistic.go:165 | the values at most b are those below a plus those in [a, b] |
| Binning.PrefixCounts | statistic.go:159-169 | the half-open bins before edge j together count the values in [edges[0], edges[j]) |
| Binning.HistogramTotal | statistic.go:159-169 | with ascending edges that span the values, the counts add up to the length of the series |
| Binning.EdgeMonotone | statistic.go:151 | equally spaced edges ascend with their index |
| Binning.LastEdge | statistic.go:156 | the final edge w*bins + min is the maximum |
| Binning.EdgesSpan | statistic.go:149-156 | for a positive bin count the edges ascend from min to max, and there are at least two |
| Binning.HistogramCountsAll | statistic.go:141-171 | every value lands in a bin: for any positive bin count, the counts sum to the series length |
| Binning.NegativeBinsEmpty | statistic.go:150-158 | a negative bin count yields no bins |
| Binning.ConstantSeriesOneBin | statistic.go:149-169 | when all values are equal there is a single bin, and it holds every value |
| Counting.CountInOne | statistic.go:159-169 | when exactly one element passes, the count is 1 |
| Binning.CountInLastTwo | statistic.go:159-169 | when exactly the last two elements pass, the count is 2 |
| Binning.TestSeriesRange | statistic.go:148-149 | the unit test's series runs from 0.1 to 9.01 |
| Binning.TestEdgesExact | statistic.go:149-156 | 15 bins over [0.1, 9.01] have the edges 0.1 + 0.594k |
| Binning.TestSeriesEdges | statistic_test.go:65 | the unit test's series gets the edges 0.1 + 0.594k, the test's expected edges in exact arithmetic |
| Binning.TestCounts0To3 | statistic_test.go:64 | bins 0 to 3 of the unit test's series count 1, 1, 0, 1 |
| Binning.TestCounts4To7 | statistic_test.go:64 | bins 4 to 7 count 0, 1, 0, 1 |
| Binning.TestCounts8To11 | statistic_test.go:64 | bins 8 to 11 count 0, 1, 0, 1 |
| Binning.TestCounts12To14 | statistic_test.go:64 | bins 12 to 14 count 1, 0, 2 |
| Binning.HistogramOfTestSeries | statistic_test.go:62-77 | the unit test's series gets exactly the edges and the count vector 1,1,0,1,0,1,0,1,0,1,0,1,1,0,2 the test expects |
| KolmogorovSmirnov.Location | statistic.go:241-256 | the result lies in [0, n]; on a sorted array every element before it is below the key and every element from it on is not |
| KolmogorovSmirnov.LowerBoundCount | statistic.go:241-256 | that index is the number of elements below the key |
| KolmogorovSmirnov.SearchSorted | statistic.go:233-239 | one index per queried value, in order, each in [0, n]; on a sorted array, the count of elements below that value |
| KolmogorovSmirnov.Fractions | statistic.go:185-192 | each CDF entry is the searchsorted index divided by the sample size |
| KolmogorovSmirnov.Cdf | statistic.go:185-192 | an empirical distribution value lies in [0, 1] |
| KolmogorovSmirnov.CdfExtremes | statistic.go:185-192 | it is 0 when no element is below x and 1 when all are |
| KolmogorovSmirnov.Gap | statistic.go:193-196 | the distance between the two CDFs at a point lies in [0, 1] |
| KolmogorovSmirnov.MaxGap | statistic.go:193-196 | the running `math.Max`, from 0, of the CDF distances at the pooled points, in order |
| KolmogorovSmirnov.MaxGapIsMaximum | statistic.go:193-196 | D lies in [0, 1], bounds the distance at every pooled point, and is attained at one of them |
| KolmogorovSmirnov.MaxGapStep | statistic.go:194-195 | each loop iteration takes the max with the next distance |
| KolmogorovSmirnov.GapPermutation | statistic.go:176-177 | sorting the samples does not change the distance at any point |
| KolmogorovSmirnov.MaxGapPermutation | statistic.go:176-177 | sorting the samples does not change D |
| KolmogorovSmirnov.SortedDistance | statistic.go:178-196 | after the sorts, D is the maximum CDF distance over the pooled data |
| KolmogorovSmirnov.KS2Samp | statistic.go:175-196 | both samples are sorted in place (permutations); D is the maximum CDF distance of the original samples over the pooled data |
| KolmogorovSmirnov.SameSampleDistanceZero | statistic.go:175-196 | two samples with the same elements are at distance 0 |
| KolmogorovSmirnov.SeparatedSamplesDistanceOne | statistic.go:175-196 | when every element of one sample is below every element of the other, D is 1 |
| Algorithms.TailAvg | algorithms.go:19-28 | 0 for an empty series; the last value for fewer than three values |
| Algorithms.TailAvgIsMeanOfTail | algorithms.go:27 | from three values on, it is the mean of the last three |
| Algorithms.TailAvgWithinBounds | algorithms.go:19-28 | it lies within any bounds of the values of a non-empty series |
| Algorithms.Deviations | algorithms.go:36-39 | one deviation per value, each non-negative and equal to v - c or c - v |
| Algorithms.Demedian | algorithms.go:36-39 | the loop builds exactly those deviations from the median |
| Algorithms.MadAnomalous | algorithms.go:40-48 | the verdict on the deviations from the median: false when their median is 0, otherwise the last deviation divided by their median exceeds 6 |
| Algorithms.MedianAbsoluteDeviation | algorithms.go:33-49 | the verdict is `MadAnomalous` of the values: false on a zero median deviation, otherwise last deviation / median deviation > 6 |
| Algorithms.MedianNonNegative | algorithms.go:40 | the median of non-negative deviations is non-negative |
| Algorithms.MadAnomalousMeans | algorithms.go:40-48 | anomalous exactly when the median deviation is positive and the last deviation exceeds 6 times it |
| Algorithms.ConstantSeriesNotMadAnomalous | algorithms.go:33-49 | a constant series is never anomalous |
| Algorithms.SimpleStddevFromMovingAverage | algorithms.go:94-100 | anomalous exactly when the tail average is more than 3 std away from the mean |
| Algorithms.ConstantSeriesNotFarFromMean | algorithms.go:94-100 | with a non-negative std, a constant series is never flagged |
| Algorithms.Select | algorithms.go:78-82 | a filter selects at most as many values as there are points |
| Algorithms.SelectSound | algorithms.go:78-82 | every selected value is the value of a point inside the window |
| Algorithms.SelectAll | algorithms.go:78-82 | when every point is in the window, all values are selected, in order |
| Algorithms.SelectNone | algorithms.go:78-82 | when no point is in the window, nothing is selected |
| Algorithms.SelectDisjoint | algorithms.go:183-190 | two windows that share no timestamp together select at most all points |
| Algorithms.FirstHourAverage | algorithms.go:75-87 | the baseline is exactly the values with timestamp < now - (fullDuration - 3600), in order; anomalous when the tail average is more than 3 std of the baseline from the baseline's mean |
| Algorithms.Demeaned | algorithms.go:121-123 | one entry per value |
| Algorithms.MeanSubtractionCumulation | algorithms.go:118-127 | every value minus the mean of all but the last; anomalous when the last exceeds 3 std of the others |
| Algorithms.CumulationBaselineCentred | algorithms.go:120-124 | after the subtraction, all values but the last have mean 0 |
| Algorithms.Trunc | algorithms.go:145 | `math.Trunc` rounds toward zero, and is 0 exactly on (-1, 1) |
| Algorithms.Residuals | algorithms.go:135-138 | one residual per point |
| Algorithms.ResidualsOf | algorithms.go:134-138 | the loop builds exactly the residuals against the fitted line, in order |
| Algorithms.ResidualsAnomalous | algorithms.go:139-145 | the verdict on the residuals: at least 3 of them, and the mean t of the last three satisfies |t| > 3 std, Trunc(std) != 0 and Trunc(t) != 0 |
| Algorithms.LeastSquaresAnomalous | algorithms.go:132-146 | false when the fit is undefined; otherwise `ResidualsAnomalous` on the residuals of the fitted line |
| Algorithms.LeastSquares | algorithms.go:132-146 | false for fewer than 3 points; otherwise the verdict `LeastSquaresAnomalous` on the residuals of the fit |
| Algorithms.PerfectLineNotLeastSquaresAnomalous | algorithms.go:132-146 | a series exactly on a line, with two distinct timestamps, is never flagged |
| Algorithms.LeastSquaresFlagMeans | algorithms.go:139-145 | a flagged series has at least 3 points, a defined fit, and a tail residual average of magnitude at least 1 |
| Algorithms.FindSparseBin | algorithms.go:158-169 | the scan answers true exactly when some bin of at most 20 values holds t (bin 0 up to its left edge, the others strictly between their edges) |
| Algorithms.HitsBin | algorithms.go:159-166 | bin i holds at most 20 values, and t is at most edge 0 when i == 0, strictly between edges i and i+1 otherwise |
| Algorithms.SparseHit | algorithms.go:158-169 | some bin passes `HitsBin` |
| Algorithms.HistogramBins | algorithms.go:154-170 | false for an empty series; otherwise the sparse-bin lookup of the tail average in the 15-bin histogram of the values |
| Algorithms.FirstBinHitIsMinimum | algorithms.go:160-163 | a hit in bin 0 means the tail average is the minimum of the series |
| Algorithms.ShortSeriesAtMinimumFlagged | algorithms.go:154-170 | with at most 20 values, every bin is sparse: a tail average equal to the minimum is flagged |
| Algorithms.SplitWindows | algorithms.go:178-190 | reference is the values with hourAgo <= t < tenMinutesAgo, probe those with t >= tenMinutesAgo, both in input order |
| Algorithms.KsWindowsDisjoint | algorithms.go:183-190 | no point is in both windows [now - 3600, now - 600) and [now - 600, ...), so together they select at most every point |
| Algorithms.KsTest | algorithms.go:177-204 | always false |
| Algorithms.Repeats | algorithms.go:214 | the trigger repeats the last recorded value no more than 300 s after it |
| Algorithms.Record | algorithms.go:209-217 | the history grows by at most one entry; earlier entries are untouched; a new entry is the trigger |
| Algorithms.Intervals | algorithms.go:219-224 | one interval fewer than there are times |
| Algorithms.IntervalsOf | algorithms.go:219-224 | the loop builds exactly t[i+1] - t[i] for every i, in order |
| Algorithms.IsAnomalouslyAnomalous | algorithms.go:209-228 | empty history: true, history [trigger]; same value within 300 s: false, history unchanged; otherwise the trigger is appended and the last interval is compared with the mean interval |
| Algorithms.RecordIdempotent | algorithms.go:210-217 | recording the same trigger twice is recording it once |
| Algorithms.IntervalsTelescope | algorithms.go:219-225 | the intervals add up to the time from the first trigger to the last |
| Algorithms.MeanIntervalIsSpan | algorithms.go:225 | the mean interval is that span divided by the number of intervals |
| Algorithms.EvenlySpacedNotAnomalous | algorithms.go:225-227 | with a non-negative std, evenly spaced triggers are never flagged |

## Left out

- `Std` (statistic.go:43-50) is not modelled: it is `math.Sqrt` of a float sum divided by n - 1. Every detector takes the standard deviation as a caller-supplied real function `std`, and no lemma relies on more than `std(x) >= 0` for the series at hand.
  - For an empty series the source computes `math.Sqrt(0.0 / -1)`, which is -0, not NaN.
  - For a single value it computes 0/0, which is NaN. Then `x > 3*stdDev` is false, so the verdict is false for every input. A real-valued `std` cannot reproduce that.
  - Four detectors are affected: `FirstHourAverage` with a one-point baseline (algorithms.go:84-86), `MeanSubtractionCumulation` on two points (algorithms.go:124-126), `SimpleStddevFromMovingAverage` on one point (algorithms.go:96-99), and `IsAnomalouslyAnomalous` with one interval (algorithms.go:225-227).
- `Ewma`, `ewma` and `EwmStd` (statistic.go:71-138) and the detector `StddevFromMovingAverage` (algorithms.go:107-112) are not modelled: they are floating-point recurrences with a NaN carry-forward.
- `kolmogorov` (statistic.go:208-230) and the p-value of `KS2Samp` (statistic.go:197-199) are not modelled: they are an `exp` series. `KS2Samp` returns D only, and `KsTest` does not model its empty `if` on the p-value.
- `StudentT_ISF_For` (statistic.go:258-262) and the detector `Grubbs` (algorithms.go:53-69) are not modelled: they call the Student-t quantile through cgo and an external package.
- The commented-out `ADFuller` (statistic.go:264-283, algorithms.go:196-201) is not part of this model, nor is any detector registry or consensus layer, which these files do not contain.
- `time.Now()` (algorithms.go:77, 178) becomes the parameter `now`.
- IEEE-754 behaviour is not modelled: rounding, NaN and infinities. Values are exact reals.
  - The 0/0 slope of `LinearRegressionLSE` is the constructor `Undefined`. `LeastSquares` answers false on it. In the source the residuals are then NaN, and the verdict is false because its first conjunct `math.Abs(t) > stdDev*3` (algorithms.go:145) is false for NaN. The second conjunct `math.Trunc(t) != 0` would be true.
  - Results that hold in floating point only up to rounding hold exactly here: the median 5.05 of the test series, the histogram edges.
- LinearRegression.LinearRegressionLSE: does not model the `int64` overflow of `p.Timestamp * p.Timestamp` (statistic.go:63) for timestamps above about 3.03e9 in magnitude.
- Utils.TimeArray64: does not model the rounding of timestamps above 2^53 when converted to `float64`.
- `int64` wrap-around in the other timestamp arithmetic (algorithms.go:77, 179-180, 214, 222) is not modelled.
- KolmogorovSmirnov.KS2Samp: requires two non-empty samples. On an empty sample the source does not return.
  - With one sample empty, every CDF entry of that sample is 0/0, which is NaN (statistic.go:188, 191). `math.Max` carries the NaN into D (statistic.go:195).
  - With both samples empty, D stays 0, but `en` is the square root of 0/0, which is NaN (statistic.go:197).
  - Either way `kolmogorov` receives NaN. Its early return `y < 1.1e-16` is false. In its loop `math.Exp` yields NaN, so neither `t == 0.0` nor `t/p <= 1.1e-16` ever holds, and the loop at statistic.go:217-228 never exits.
  - The precondition therefore excludes exactly the inputs on which the source does not terminate.
- `KS2Samp`'s two samples are arrays in the model, so they are either the same array or disjoint. In Go they may be overlapping but different slices of one array, such as `x[0:5]` and `x[3:8]`. Then each `sort.Float64s` also reorders part of the other sample, which the model does not capture. `KsTest` passes two freshly built slices, so the detectors never meet that case.
- Binning.Histogram: requires `bins != 0`. For 0 bins the width `w` is infinite, or NaN when all values are equal. The edge loop at statistic.go:150 does not run, and the result is a single NaN edge `w*0 + series[0]` (statistic.go:156) and no counts.
- Algorithms.MeanSubtractionCumulation: requires a non-empty series. On an empty series the source panics slicing at length - 1.
- `sort.Float64s` is modelled by a selection sort. Only its result matters, and that is fixed by sortedness plus the multiset. The ordering of NaN values is not modelled.
- `TimePoint` is an interface with getters (utils.go:4-7). It is the datatype `Point`. `LinearRegressionLSE` reads the fields directly, which the interface does not have (statistic.go:61-64); the model reads the same two components.
- Several of the source's loops are separate methods here, so that each is proved against its own specification function:
  - the edge and counting loops of `Histogram`;
  - the CDF loops of `KS2Samp`;
  - the deviation, residual, window and interval loops of the detectors;
  - the bin scan of `HistogramBins`.

  Their order of effects is unchanged.
- `HistogramBins` passes the slice that `ValueArray` returned to `Histogram`, which sorts it. The model sorts a fresh array holding the same values. The tail average is taken before the sort in both.
