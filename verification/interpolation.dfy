/**
  Clamped piecewise-linear interpolation of one reference series
  (`interpolate` in index.js), together with the forward scan that finds the
  bracketing age sample and the facts the rest of the engine relies on:
  exact clamping at both ends, in-bounds brackets with a positive width,
  betweenness, agreement with the segment formula and monotonicity.
 */
module Interpolation {

  /** Ages sorted ascending; equal neighbours are allowed. */
  ghost predicate Ascending(xs: seq<real>) {
    forall i, j | 0 <= i < j < |xs| :: xs[i] <= xs[j]
  }

  /** Ages sorted ascending without repetitions. */
  ghost predicate StrictlyIncreasing(xs: seq<real>) {
    forall i, j | 0 <= i < j < |xs| :: xs[i] < xs[j]
  }

  function Min(a: real, b: real): real { if a <= b then a else b }

  function Max(a: real, b: real): real { if a <= b then b else a }

  /** The straight line through (x0, y0) and (x1, y1), evaluated at x. */
  function Lerp(x: real, x0: real, x1: real, y0: real, y1: real): (r: real)
    requires x0 < x1
    ensures x == x0 ==> r == y0
    ensures x == x1 ==> r == y1
  {
    assert x == x0 ==> (x - x0) / (x1 - x0) == 0.0;
    assert x == x1 ==> (x - x0) / (x1 - x0) == 1.0;
    y0 + ((x - x0) / (x1 - x0)) * (y1 - y0)
  }

  /**
    The first index at or after `from` whose age is at or above `x`, or |xs|
    when there is none: the forward scan shared by `interpolate` and the
    upload handler's `findIndex(age => age >= subjectAge)`.
   */
  function FirstAtOrAbove(xs: seq<real>, x: real, from: nat): (r: nat)
    requires from <= |xs|
    ensures from <= r <= |xs|
    ensures r < |xs| ==> x <= xs[r]
    ensures forall j | from <= j < r :: xs[j] < x
    decreases |xs| - from
  {
    if from == |xs| || x <= xs[from] then from
    else FirstAtOrAbove(xs, x, from + 1)
  }

  /** JavaScript's `findIndex(age => age >= x)`: the first such index, or -1. */
  function FindIndex(xs: seq<real>, x: real): (r: int)
    ensures -1 <= r < |xs|
    ensures r == -1 <==> forall j | 0 <= j < |xs| :: xs[j] < x
    ensures 0 <= r ==> x <= xs[r] && forall j | 0 <= j < r :: xs[j] < x
  {
    var k := FirstAtOrAbove(xs, x, 0);
    if k == |xs| then -1 else k
  }

  /**
    The bracket of an interior query: the first sample at or above `x`.
    No ordering of the ages is needed for it to be in bounds, only that
    `x` lies strictly between the first and the last age.
   */
  function Bracket(x: real, xs: seq<real>): (i: nat)
    requires 0 < |xs|
    requires xs[0] < x < xs[|xs| - 1]
    ensures 1 <= i < |xs|
    ensures xs[i - 1] < x <= xs[i]
    ensures forall j | 0 <= j < i :: xs[j] < x
  {
    FirstAtOrAbove(xs, x, 0)
  }

  /**
    The scan as the source writes it: `i` starts at 0 and steps while
    `xs[i] < x`. Every index read stays in bounds and the divisor
    `xs[i] - xs[i-1]` of the interpolation step is strictly positive.
   */
  method ScanBracket(x: real, xs: seq<real>) returns (i: nat)
    requires 0 < |xs|
    requires xs[0] < x < xs[|xs| - 1]
    ensures 1 <= i <= |xs| - 1
    ensures xs[i - 1] < x <= xs[i]
    ensures 0.0 < xs[i] - xs[i - 1]
    ensures i == Bracket(x, xs)
  {
    i := 0;
    while xs[i] < x
      invariant 0 <= i < |xs|
      invariant forall j | 0 <= j < i :: xs[j] < x
      decreases |xs| - i
    {
      i := i + 1;
    }
  }

  /**
    Clamped linear interpolation. Below the first age it returns the first
    value, above the last age the last value, and in between the blend of
    the two samples around the first age at or above `x`. The upper clamp
    reads the value series' own last element, so a value series longer
    than the ages is accepted, as in the source.
   */
  function Interpolate(x: real, xs: seq<real>, ys: seq<real>): (r: real)
    requires 0 < |xs| <= |ys|
    ensures x <= xs[0] ==> r == ys[0]
    ensures xs[0] < x && xs[|xs| - 1] <= x ==> r == ys[|ys| - 1]
    ensures xs[0] < x < xs[|xs| - 1] ==>
              var i := Bracket(x, xs);
              Min(ys[i - 1], ys[i]) <= r <= Max(ys[i - 1], ys[i])
  {
    if x <= xs[0] then ys[0]
    else if x >= xs[|xs| - 1] then ys[|ys| - 1]
    else
      var i := Bracket(x, xs);
      LerpBetween(x, xs[i - 1], xs[i], ys[i - 1], ys[i]);
      Lerp(x, xs[i - 1], xs[i], ys[i - 1], ys[i])
  }

  /** The blend on a segment never leaves the range of its two end values. */
  lemma LerpBetween(x: real, x0: real, x1: real, y0: real, y1: real)
    requires x0 < x1 && x0 <= x <= x1
    ensures Min(y0, y1) <= Lerp(x, x0, x1, y0, y1) <= Max(y0, y1)
  {
    var d := x1 - x0;
    var t := (x - x0) / d;
    assert t * d == x - x0;
    assert (1.0 - t) * d == x1 - x;
    assert 0.0 <= t <= 1.0;
    ProductBetween(t, y1 - y0);
  }

  /** For 0 <= t <= 1, t * d lies between 0 and d. */
  lemma ProductBetween(t: real, d: real)
    requires 0.0 <= t <= 1.0
    ensures Min(0.0, d) <= t * d <= Max(0.0, d)
  {
    if 0.0 <= d {
      assert (1.0 - t) * d >= 0.0;
    } else {
      assert (1.0 - t) * (-d) >= 0.0;
    }
  }

  /** On a rising segment the blend is non-decreasing in the query. */
  lemma LerpMonotone(a: real, b: real, x0: real, x1: real, y0: real, y1: real)
    requires x0 < x1 && a <= b && y0 <= y1
    ensures Lerp(a, x0, x1, y0, y1) <= Lerp(b, x0, x1, y0, y1)
  {
    var ta := (a - x0) / (x1 - x0);
    var tb := (b - x0) / (x1 - x0);
    assert ta <= tb;
    assert (tb - ta) * (y1 - y0) >= 0.0;
  }

  /**
    With non-decreasing values, every interpolated value lies between the
    first and the last value of the series.
   */
  lemma InterpolateWithinRange(x: real, xs: seq<real>, ys: seq<real>)
    requires 0 < |xs| == |ys|
    requires Ascending(ys)
    ensures ys[0] <= Interpolate(x, xs, ys) <= ys[|ys| - 1]
  {
    if xs[0] < x < xs[|xs| - 1] {
      var i := Bracket(x, xs);
      assert ys[0] <= ys[i - 1] <= ys[i] <= ys[|ys| - 1];
    }
  }

  /**
    With ascending ages and non-decreasing values, interpolation is
    monotone in the query age.
   */
  lemma InterpolateMonotone(a1: real, a2: real, xs: seq<real>, ys: seq<real>)
    requires 0 < |xs| == |ys|
    requires Ascending(xs) && Ascending(ys)
    requires a1 <= a2
    ensures Interpolate(a1, xs, ys) <= Interpolate(a2, xs, ys)
  {
    var n := |xs|;
    if a1 <= xs[0] {
      InterpolateWithinRange(a2, xs, ys);
    } else if xs[n - 1] <= a2 {
      InterpolateWithinRange(a1, xs, ys);
    } else {
      var i1 := Bracket(a1, xs);
      var i2 := Bracket(a2, xs);
      // The first sample at or above a2 is also at or above a1.
      assert a1 <= xs[i2];
      assert i1 <= i2;
      if i1 == i2 {
        LerpMonotone(a1, a2, xs[i1 - 1], xs[i1], ys[i1 - 1], ys[i1]);
      } else {
        assert ys[i1] <= ys[i2 - 1];
      }
    }
  }

  /**
    With strictly increasing ages, interpolation agrees with the straight
    line of every segment that contains the query, end points included:
    the model's clamped scan and the textbook piecewise-linear curve are
    the same function on the age range.
   */
  lemma InterpolateOnSegment(x: real, k: nat, xs: seq<real>, ys: seq<real>)
    requires 0 < |xs| == |ys|
    requires StrictlyIncreasing(xs)
    requires 1 <= k < |xs| && xs[k - 1] <= x <= xs[k]
    ensures Interpolate(x, xs, ys) == Lerp(x, xs[k - 1], xs[k], ys[k - 1], ys[k])
  {
    var n := |xs|;
    if x <= xs[0] {
      // Only the first segment reaches down to the first age.
      assert xs[k - 1] <= xs[0];
      assert k - 1 == 0;
    } else if xs[n - 1] <= x {
      // Only the last segment reaches up to the last age.
      assert xs[n - 1] <= xs[k];
      assert k == n - 1;
    } else {
      var i := Bracket(x, xs);
      if x == xs[k - 1] {
        // The bracket ends at the segment's lower sample.
        assert xs[i - 1] < xs[k - 1] <= xs[i];
        assert i == k - 1;
      } else {
        assert xs[i - 1] < x <= xs[k];
        assert xs[k - 1] < x <= xs[i];
        assert i == k;
      }
    }
  }

  /**
    With ascending ages that may repeat, interpolation agrees with the line
    of every segment whose open-closed interval (xs[k-1], xs[k]] contains
    the query, provided the query is below the last age, or the segment
    is the last one and the value series is exactly as long as the ages.
    At the last age itself the upper clamp answers instead, so a tie there
    goes to the last value, while a tie anywhere else goes to the first.
   */
  lemma InterpolateOnOpenSegment(x: real, k: nat, xs: seq<real>, ys: seq<real>)
    requires 0 < |xs| <= |ys|
    requires Ascending(xs)
    requires 1 <= k < |xs| && xs[k - 1] < x <= xs[k]
    requires x < xs[|xs| - 1] || (k == |xs| - 1 && |ys| == |xs|)
    ensures Interpolate(x, xs, ys) == Lerp(x, xs[k - 1], xs[k], ys[k - 1], ys[k])
  {
    var n := |xs|;
    assert xs[0] <= xs[k - 1];
    if xs[n - 1] <= x {
      // At the last age: the segment is the last one and x is its upper end.
      assert k == n - 1;
      assert x == xs[k];
    } else {
      var i := Bracket(x, xs);
      // Every age before k is at most xs[k-1], hence below x.
      assert forall j | 0 <= j < k :: xs[j] <= xs[k - 1];
      assert i == k;
    }
  }

  /**
    With strictly increasing ages, querying exactly at a sample age
    returns that sample's value.
   */
  lemma InterpolateAtSample(k: nat, xs: seq<real>, ys: seq<real>)
    requires 0 < |xs| == |ys|
    requires StrictlyIncreasing(xs)
    requires k < |xs|
    ensures Interpolate(xs[k], xs, ys) == ys[k]
  {
    if k == 0 {
    } else {
      InterpolateOnSegment(xs[k], k, xs, ys);
    }
  }
}
