# Growth-curve percentile engine

A Dafny model of the numerical core of the lfmri demo server (`index.js`).
For a subject's post-menstrual age and one measured regional brain volume,
the server places that volume against a population reference. It works in
three steps:

1. It interpolates each reference percentile series (p5, p25, p50, p75 and
   p95) at the subject's age. This is clamped piecewise-linear
   interpolation over the sampled ages (`interpolate`).
2. It does this once per label. The loop inlined in the upload handler
   (index.js:92-100) yields `null` for a label when no reference age is at
   or above the subject's age. The helper `interpolatePercentiles` always
   fills all five labels, but nothing in index.js calls it: it is defined
   at line 193 and is not on the request path.
3. It fits a normal distribution to the five interpolated values
   (`estimatePercentile`). The mean is taken to be p50. The spread `sigma`
   is the least-squares slope through the origin against the fixed
   quantiles ±1.6449, ±0.6745 and 0. The input is then turned into
   `z = (input - mu) / sigma` and mapped through a normal CDF.

JavaScript numbers are modelled as `real`, reference series as `seq<real>`,
and a region's parsed reference data as `Curves.ReferenceCurve`: the ages,
plus a map from label to series. The modules are:

- `Interpolation`: `Interpolate`, the forward bracket scan (`ScanBracket`
  is the source's `while` loop; `Bracket` and `FirstAtOrAbove` are its
  functional counterparts), and `FindIndex`, the handler's `findIndex`.
  The lemmas cover clamping, betweenness, agreement with the segment line,
  exact hits and monotonicity.
- `Curves`: the reference curve, the helper `InterpolatePercentiles`, and
  the handler's per-label `LabelValue` with its loop `HandlerPercentiles`.
- `Estimator`: the quantiles, the sums, `Sigma`, `ZScore` and
  `EstimatePercentile`. The CDF is a function parameter.
- `Scenario`: a worked three-sample curve at age 31 weeks.
- `Wrappers`: `Option`, used for the handler's `null`.

Behaviour of the code worth knowing:

- **Duplicate ages need no guard.** The code has no special case for two
  equal bracketing ages, and it needs none. `Bracket` and `ScanBracket`
  prove that the scan always stops with `xs[i-1] < x <= xs[i]`, so the
  divisor at index.js:190 is positive. This holds even when the ages are
  unsorted.
- **Zero spread is unguarded.** The code divides by `sigma` unchecked at
  index.js:250. `ZScore` and `EstimatePercentile` therefore require
  `sigma != 0`. `SigmaZeroIff` shows when that fails; a flat reference
  curve is one such case.
- **The fit need not reproduce the inner quantiles.** For the reference
  point (104, 117, 130, 143, 156), an input equal to the interpolated p75
  sits at z ≈ 0.797, not at 0.6745 (`Scenario.FittedAtAge31`). The fit
  does reproduce every quantile when the five points lie at
  mu + s * z for the five quantiles z, that is, symmetric about p50 with
  (p75 - p25) : (p95 - p5) equal to 0.6745 : 1.6449
  (`Estimator.SigmaRecoversSpread`). This reference point has the ratio
  1 : 2 instead.
- **All ages equal.** If every age is the same and the query equals that
  age, the first guard wins and the first value is returned. This is why
  the upper clamp in `Interpolate` is stated for `x > xs[0]`.
- **Ties at the last age go to the last value.** When the last age is
  repeated, a query at that age hits the upper clamp (index.js:177) and
  gets the series' last value: ages [28, 30, 30] queried at 30 give the
  third value. A tie anywhere else goes to the first of the tied samples,
  because the scan stops there (`Interpolation.InterpolateOnOpenSegment`,
  `Scenario.TiesAtAge30`).

## Model

| member | source | states |
|---|---|---|
| Interpolation.Interpolate | index.js:175-191 | at or below the first age the result is exactly the first value; above the first age and at or beyond the last age it is exactly the value series' last value (no extrapolation, and a value series longer than the ages is accepted); for an interior age it lies between the two values of the bracketing samples |
| Interpolation.ScanBracket | index.js:179-185 | for an interior age the source's scan stops at an index i with 1 <= i <= n-1 and xs[i-1] < x <= xs[i], so every index read is in bounds and the divisor x1 - x0 is strictly positive |
| Interpolation.Bracket | index.js:179-185 | the bracket is the first sample at or above the query, every earlier sample lies strictly below it, and it has an in-range lower neighbour strictly below the query |
| Interpolation.FirstAtOrAbove | index.js:180-182 | the forward scan from a start index returns the first index whose age is at or above the query, or the length when there is none; every skipped age is strictly below the query |
| Interpolation.FindIndex | index.js:93 | `findIndex(age => age >= x)` is -1 exactly when every age is below x, and otherwise the first index whose age is at or above x |
| Interpolation.Lerp | index.js:190 | the blend formula passes through both bracketing samples: at x0 it gives y0 and at x1 it gives y1 |
| Interpolation.LerpBetween | index.js:184-190 | for a query inside a segment the blend lies between the segment's two values inclusive |
| Interpolation.LerpMonotone | index.js:190 | on a segment whose values rise, the blend is non-decreasing in the query |
| Interpolation.InterpolateWithinRange | index.js:175-191 | with non-decreasing values every interpolated result lies between the first and the last value |
| Interpolation.InterpolateMonotone | index.js:175-191 | with ascending ages and non-decreasing values, a1 <= a2 implies interpolate(a1) <= interpolate(a2) |
| Interpolation.InterpolateOnSegment | index.js:175-191 | with strictly increasing ages, the result equals the straight line of any segment whose closed age interval contains the query, so the clamped scan agrees with the textbook piecewise-linear curve |
| Interpolation.InterpolateOnOpenSegment | index.js:175-191 | with ascending ages that may repeat, the result equals the line of any segment whose interval (xs[k-1], xs[k]] contains the query, when the query is below the last age or the segment is the last one and the value series is as long as the ages |
| Interpolation.InterpolateAtSample | index.js:175-191 | with strictly increasing ages, querying exactly at a sample age returns that sample's value |
| Curves.LabelValue | index.js:93-99 | the handler stores null for a label exactly when every reference age is below the subject's age (always, when there are no ages), and otherwise the interpolated value |
| Curves.HandlerPercentiles | index.js:92-100 | the handler's loop yields an entry for every label the curve carries and no other, each null exactly when the subject is older than every reference age and otherwise the interpolated value |
| Curves.InterpolatePercentiles | index.js:193-202 | the helper always yields exactly the five labels p5, p25, p50, p75 and p95, each equal to the interpolation of that label's series |
| Curves.LabelValueClamping | index.js:93-99 | on ascending ages the handler clamps below the range (first value at or below the first age) but not above it (null past the last age), and inside the range yields the interpolated value |
| Curves.HandlerNullWhereHelperClamps | index.js:92-100 | on ascending ages, past the last age the handler stores null for a label while the helper's interpolation clamps to the last value of that label's series |
| Estimator.SumOfFive | index.js:244-245 | the `reduce` sum of the five terms is their term-by-term sum |
| Estimator.SumZ2 | index.js:242-247 | the divisor of the fit is the fixed constant 6.32129252, which is strictly positive, so the division for sigma never divides by zero |
| Estimator.Sigma | index.js:233-247 | the map/reduce least-squares fit with mu = p50 equals the closed form (1.6449*(p95-p5) + 0.6745*(p75-p25)) / 6.32129252, because the p50 delta is zero and the quantiles are symmetric |
| Estimator.SigmaRecoversSpread | index.js:233-250 | reference points at exactly mu + s*z for the five quantiles z (s != 0) are fitted back to sigma == s, and each point's z-score is its own quantile |
| Estimator.SigmaIndependentOfMedian | index.js:233-247 | changing only p50 never changes sigma |
| Estimator.SigmaPositive | index.js:233-247 | if p5 <= p25 <= p75 <= p95 and p95 > p5 then sigma > 0 |
| Estimator.SigmaZeroIff | index.js:240-247 | sigma is zero exactly when the weighted outer and inner spreads cancel; a flat reference gives sigma == 0 |
| Estimator.ZScore | index.js:250 | for sigma != 0 the z-score inverts the fit (mu + z*sigma is the input) and is zero exactly when the input equals p50 |
| Estimator.ZScoreMonotone | index.js:250 | when sigma > 0, z is non-decreasing in the input volume |
| Estimator.EstimatePercentile | index.js:250-253 | an input equal to p50 is reported at 100 times the CDF at 0, for any non-zero spread |
| Estimator.EstimateMonotone | index.js:250-253 | with sigma > 0 and a non-decreasing CDF, a larger input volume never gets a smaller estimated percentile |
| Scenario.InterpolatedAtAge31 | index.js:175-191 | for ages 28, 30 and 32 weeks, the five example series interpolate at 31 weeks to 104, 117, 130, 143 and 156 |
| Scenario.TiesAtAge30 | index.js:176-190 | for ages [28, 30, 30] a query at 30 returns the third value (upper clamp), and for ages [28, 30, 30, 32] it returns the second value (first tied sample) |
| Scenario.FittedAtAge31 | index.js:230-250 | for that reference point sigma lies between 16.30 and 16.31, the median input has z == 0, and the p75 value has z between 0.797 and 0.798 |

## Left out

- Express routes, `multer` upload handling, CSV streaming, temporary-file removal, CORS, the region lookup route and the two `app.listen` calls (index.js:1-27, 37-91, 101-172). These are I/O and framework plumbing.
- `loadPercentiles` (index.js:29-33). It reads a file and calls `JSON.parse`. A region's reference data enters the model already parsed, as a `ReferenceCurve`.
- `parseFloat` of the CSV fields (index.js:59, 87). Ages and volumes enter the model as numbers.
- `erf` and `normCDF` (index.js:208-227). They rely on `Math.exp`, `Math.sqrt` and floating-point coefficients. `EstimatePercentile` takes the CDF as a function parameter instead.
- Estimator.EstimatePercentile: the result is stated only in terms of the CDF parameter, because the erf approximation is not modelled. With these coefficients, `erf(0)` is not exactly 0, so the median input is not guaranteed to get exactly 50.
- The handler passes `null` labels on to `estimatePercentile` (index.js:102). JavaScript then coerces `null` to 0. This is dynamic-typing behaviour and is not modelled, so the estimator takes numbers only.
- Zero spread, which the `sigma != 0` requirement of `ZScore` and `EstimatePercentile` excludes. The source divides by zero at index.js:250. An input equal to p50 gives 0/0 = `NaN`, and `normCDF(NaN)` is `NaN`, so the reported percentile is `NaN`. Any other input gives z = ±Infinity, where `erf` returns ±1 (index.js:222-226), so the reported percentile is 0 or 100.
- Floating-point rounding. All arithmetic is exact over `real`, so the results are those of the formulas, not of IEEE doubles.
- `interpolate` on an empty age series reads `xValues[-1]` and returns `NaN`. `Interpolate` requires at least one age. The handler never reaches this case: `findIndex` gives -1, so it stores `null` for every label, and `LabelValue` and `HandlerPercentiles` model that.
- `interpolate` with a non-empty value series shorter than the ages still returns numbers from both clamps, but an interior query can read past the end of the values and return `NaN`; with an empty value series both clamps return `undefined`. `Interpolate` requires at least as many values as ages, so it leaves out the cases that do return a number. A longer value series is modelled: the upper clamp returns its own last element.
- `interpolatePercentiles` on a curve that lacks one of the five standard labels passes `undefined` to `interpolate`, which throws a TypeError on indexing it (index.js:176-177, 186). `InterpolatePercentiles` requires all five labels (`HasStandardLabels`).
- index_runable_backup.js. It is server plumbing whose results are `Math.random()` placeholders, so it has no logic to model.
