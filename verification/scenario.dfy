/**
  A worked example of the whole engine on a three-sample reference curve:
  ages 28, 30 and 32 weeks, interpolated at 31 weeks, then fitted and used
  to place two input volumes.
 */
module Scenario {
  import opened Interpolation
  import opened Estimator

  const Ages: seq<real> := [28.0, 30.0, 32.0]

  /** Interpolated at age 31 every series lands halfway between its 30 and 32 week samples. */
  lemma InterpolatedAtAge31()
    ensures Interpolate(31.0, Ages, [80.0, 96.0, 112.0]) == 104.0
    ensures Interpolate(31.0, Ages, [90.0, 108.0, 126.0]) == 117.0
    ensures Interpolate(31.0, Ages, [100.0, 120.0, 140.0]) == 130.0
    ensures Interpolate(31.0, Ages, [110.0, 132.0, 154.0]) == 143.0
    ensures Interpolate(31.0, Ages, [120.0, 144.0, 168.0]) == 156.0
  {
    assert StrictlyIncreasing(Ages);
    InterpolateOnSegment(31.0, 2, Ages, [80.0, 96.0, 112.0]);
    InterpolateOnSegment(31.0, 2, Ages, [90.0, 108.0, 126.0]);
    InterpolateOnSegment(31.0, 2, Ages, [100.0, 120.0, 140.0]);
    InterpolateOnSegment(31.0, 2, Ages, [110.0, 132.0, 154.0]);
    InterpolateOnSegment(31.0, 2, Ages, [120.0, 144.0, 168.0]);
  }

  /**
    For the reference point (104, 117, 130, 143, 156) the fitted spread is
    about 16.31, so an input at the median has z == 0 while the p75 value
    143 sits at z of about 0.797 rather than at the p75 quantile 0.6745:
    the least-squares fit does not reproduce the inner quantiles when the
    curve's outer and inner spreads are not in the normal ratio.
   */
  lemma FittedAtAge31()
    ensures 16.30 < Sigma(104.0, 117.0, 130.0, 143.0, 156.0) < 16.31
    ensures ZScore(130.0, 104.0, 117.0, 130.0, 143.0, 156.0) == 0.0
    ensures 0.797 < ZScore(143.0, 104.0, 117.0, 130.0, 143.0, 156.0) < 0.798
  {
    var s := Sigma(104.0, 117.0, 130.0, 143.0, 156.0);
    assert s == 103.0718 / 6.32129252;
    var z := ZScore(143.0, 104.0, 117.0, 130.0, 143.0, 156.0);
    assert z * s == 13.0;
  }

  /**
    Repeated ages: at the repeated last age the upper clamp returns the
    last value, while at a repeated interior age the scan stops at the
    first of the tied samples.
   */
  lemma TiesAtAge30(a: real, b: real, c: real, d: real)
    ensures Interpolate(30.0, [28.0, 30.0, 30.0], [a, b, c]) == c
    ensures Interpolate(30.0, [28.0, 30.0, 30.0, 32.0], [a, b, c, d]) == b
  {
    InterpolateOnOpenSegment(30.0, 1, [28.0, 30.0, 30.0, 32.0], [a, b, c, d]);
  }
}
