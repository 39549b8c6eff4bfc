/**
  The fitting part of `estimatePercentile` in index.js: the median is taken
  as the mean, a spread `sigma` is fitted by least squares through the
  origin against the fixed standard-normal quantiles of the five labels,
  and the input is turned into a z-score. The normal CDF that maps the
  z-score to a percentile is a parameter of the model.
 */
module Estimator {

  /** Standard-normal quantiles paired with p5, p25, p50, p75 and p95. */
  const ZValues: seq<real> := [-1.6449, -0.6745, 0.0, 0.6745, 1.6449]

  /** Sum of the squared quantiles: 2 * (1.6449^2 + 0.6745^2). */
  const SumZ2Value: real := 6.32129252

  /** Left-to-right sum with start 0, as `reduce((a, b) => a + b, 0)` computes it. */
  function Sum(s: seq<real>): real
    decreases |s|
  {
    if |s| == 0 then 0.0 else Sum(s[..|s| - 1]) + s[|s| - 1]
  }

  /** The sum of a five-element sequence, term by term. */
  lemma {:induction false} SumOfFive(s: seq<real>)
    requires |s| == 5
    ensures Sum(s) == s[0] + s[1] + s[2] + s[3] + s[4]
  {
    assert s[..1][..0] == [];
    assert Sum(s[..1]) == s[0];
    assert s[..2][..1] == s[..1];
    assert Sum(s[..2]) == s[0] + s[1];
    assert s[..3][..2] == s[..2];
    assert Sum(s[..3]) == s[0] + s[1] + s[2];
    assert s[..4][..3] == s[..3];
    assert Sum(s[..4]) == s[0] + s[1] + s[2] + s[3];
    assert s[..5] == s;
  }

  /** Elementwise product of two equally long sequences. */
  function Products(a: seq<real>, b: seq<real>): seq<real>
    requires |a| == |b|
  {
    seq(|a|, i requires 0 <= i < |a| => a[i] * b[i])
  }

  /** The differences `v - mu`. */
  function Deltas(vols: seq<real>, mu: real): seq<real>
  {
    seq(|vols|, i requires 0 <= i < |vols| => vols[i] - mu)
  }

  /** The denominator of the fit: the sum of the squared quantiles. */
  function SumZ2(): (r: real)
    ensures r == SumZ2Value
    ensures 0.0 < r
  {
    SumOfFive(Products(ZValues, ZValues));
    Sum(Products(ZValues, ZValues))
  }

  /** The numerator of the fit once the zero p50 term and the symmetric quantiles are collected. */
  function SpreadNumerator(p5: real, p25: real, p75: real, p95: real): real {
    1.6449 * (p95 - p5) + 0.6745 * (p75 - p25)
  }

  /**
    Least-squares slope through the origin of the points
    (ZValues[i], vols[i] - p50), with `mu = p50`. Because the p50 delta is
    zero and the quantiles are symmetric, the fit depends only on the
    outer and inner distances p95 - p5 and p75 - p25, never on p50.
   */
  function Sigma(p5: real, p25: real, p50: real, p75: real, p95: real): (sigma: real)
    ensures sigma == SpreadNumerator(p5, p25, p75, p95) / SumZ2Value
  {
    var prods := Products(ZValues, Deltas([p5, p25, p50, p75, p95], p50));
    SumOfFive(prods);
    assert prods[2] == 0.0;
    Sum(prods) / SumZ2()
  }

  /** Changing only p50 leaves the fitted spread unchanged. */
  lemma SigmaIndependentOfMedian(p5: real, p25: real, a: real, b: real, p75: real, p95: real)
    ensures Sigma(p5, p25, a, p75, p95) == Sigma(p5, p25, b, p75, p95)
  {
  }

  /**
    Ordered reference points with a non-zero outer spread give a strictly
    positive sigma, so the division of the z-score step is defined.
   */
  lemma SigmaPositive(p5: real, p25: real, p50: real, p75: real, p95: real)
    requires p5 <= p25 <= p75 <= p95
    requires p5 < p95
    ensures 0.0 < Sigma(p5, p25, p50, p75, p95)
  {
  }

  /**
    The fitted spread is zero exactly when the weighted outer and inner
    distances cancel; in particular a flat reference (all five values
    equal) gives sigma == 0, the case the source divides by unguarded.
   */
  lemma SigmaZeroIff(p5: real, p25: real, p50: real, p75: real, p95: real)
    ensures Sigma(p5, p25, p50, p75, p95) == 0.0 <==> SpreadNumerator(p5, p25, p75, p95) == 0.0
    ensures p5 == p25 == p75 == p95 ==> Sigma(p5, p25, p50, p75, p95) == 0.0
  {
  }

  /**
    z-score of the input against the fitted normal: the distance from the
    median in units of sigma. The source divides unguarded, so callers
    must supply reference points with a non-zero spread.
   */
  function ZScore(input: real, p5: real, p25: real, p50: real, p75: real, p95: real): (z: real)
    requires Sigma(p5, p25, p50, p75, p95) != 0.0
    ensures p50 + z * Sigma(p5, p25, p50, p75, p95) == input
    ensures z == 0.0 <==> input == p50
  {
    (input - p50) / Sigma(p5, p25, p50, p75, p95)
  }

  /**
    Round trip of the fit: reference points placed exactly at mu + s * z
    for the five quantiles z give back sigma == s, and each reference
    point's z-score is its own quantile.
   */
  lemma SigmaRecoversSpread(mu: real, s: real)
    requires s != 0.0
    ensures Sigma(mu - 1.6449 * s, mu - 0.6745 * s, mu, mu + 0.6745 * s, mu + 1.6449 * s) == s
    ensures ZScore(mu - 1.6449 * s, mu - 1.6449 * s, mu - 0.6745 * s, mu, mu + 0.6745 * s, mu + 1.6449 * s) == -1.6449
    ensures ZScore(mu - 0.6745 * s, mu - 1.6449 * s, mu - 0.6745 * s, mu, mu + 0.6745 * s, mu + 1.6449 * s) == -0.6745
    ensures ZScore(mu + 0.6745 * s, mu - 1.6449 * s, mu - 0.6745 * s, mu, mu + 0.6745 * s, mu + 1.6449 * s) == 0.6745
    ensures ZScore(mu + 1.6449 * s, mu - 1.6449 * s, mu - 0.6745 * s, mu, mu + 0.6745 * s, mu + 1.6449 * s) == 1.6449
  {
    var p5, p25, p75, p95 := mu - 1.6449 * s, mu - 0.6745 * s, mu + 0.6745 * s, mu + 1.6449 * s;
    assert SpreadNumerator(p5, p25, p75, p95) == SumZ2Value * s;
    assert Sigma(p5, p25, mu, p75, p95) == s;
    // Each z-score times s is the point's offset from mu, and s is non-zero.
    var z5 := ZScore(p5, p5, p25, mu, p75, p95);
    ZeroProduct(z5 + 1.6449, s);
    var z25 := ZScore(p25, p5, p25, mu, p75, p95);
    ZeroProduct(z25 + 0.6745, s);
    var z75 := ZScore(p75, p5, p25, mu, p75, p95);
    ZeroProduct(z75 - 0.6745, s);
    var z95 := ZScore(p95, p5, p25, mu, p75, p95);
    ZeroProduct(z95 - 1.6449, s);
  }

  /** A product with a non-zero factor is zero only when the other factor is. */
  lemma ZeroProduct(a: real, s: real)
    requires s != 0.0 && a * s == 0.0
    ensures a == 0.0
  {
  }

  /** With a positive spread the z-score is non-decreasing in the input. */
  lemma ZScoreMonotone(a: real, b: real, p5: real, p25: real, p50: real, p75: real, p95: real)
    requires 0.0 < Sigma(p5, p25, p50, p75, p95)
    requires a <= b
    ensures ZScore(a, p5, p25, p50, p75, p95) <= ZScore(b, p5, p25, p50, p75, p95)
  {
    var s := Sigma(p5, p25, p50, p75, p95);
    var za := ZScore(a, p5, p25, p50, p75, p95);
    var zb := ZScore(b, p5, p25, p50, p75, p95);
    assert (zb - za) * s == b - a;
  }

  /**
    `estimatePercentile`: 100 times the normal CDF of the z-score. The CDF
    (`normCDF` of the source, built on an erf approximation) is a parameter.
   */
  function EstimatePercentile(input: real, p5: real, p25: real, p50: real, p75: real, p95: real,
                              cdf: real -> real): (r: real)
    requires Sigma(p5, p25, p50, p75, p95) != 0.0
    ensures input == p50 ==> r == 100.0 * cdf(0.0)
  {
    cdf(ZScore(input, p5, p25, p50, p75, p95)) * 100.0
  }

  /** A cumulative distribution function never decreases. */
  ghost predicate NonDecreasing(f: real -> real) {
    forall a: real, b: real | a <= b :: f(a) <= f(b)
  }

  /**
    With a positive spread and a non-decreasing CDF, a larger input never
    gets a smaller estimated percentile.
   */
  lemma EstimateMonotone(a: real, b: real, p5: real, p25: real, p50: real, p75: real, p95: real,
                         cdf: real -> real)
    requires 0.0 < Sigma(p5, p25, p50, p75, p95)
    requires NonDecreasing(cdf)
    requires a <= b
    ensures EstimatePercentile(a, p5, p25, p50, p75, p95, cdf)
            <= EstimatePercentile(b, p5, p25, p50, p75, p95, cdf)
  {
    ZScoreMonotone(a, b, p5, p25, p50, p75, p95);
  }
}
