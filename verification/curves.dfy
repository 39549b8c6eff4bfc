/**
  Reference curves and the two ways index.js interpolates every percentile
  label of one region at the subject's age: the helper
  `interpolatePercentiles`, which always fills the five standard labels, and
  the loop inlined in the upload handler, which yields `null` for a label
  when no reference age is at or above the subject's age.
 */
module Curves {
  import opened Wrappers
  import opened Interpolation

  /** The five standard percentile labels, in the order the helper visits them. */
  const Labels: seq<string> := ["p5", "p25", "p50", "p75", "p95"]

  /**
    One region's reference data, already parsed: the sampled ages and, per
    percentile label, the values index-aligned with those ages.
   */
  datatype ReferenceCurve = ReferenceCurve(ages: seq<real>, percentiles: map<string, seq<real>>)

  /**
    At least one value per age for every label present; the reference data
    keeps them equally long, and a longer series is read only up to the
    ages plus its own last element.
   */
  ghost predicate WellFormed(c: ReferenceCurve) {
    forall p | p in c.percentiles :: |c.ages| <= |c.percentiles[p]|
  }

  /** Every one of the five standard labels has a series. */
  ghost predicate HasStandardLabels(c: ReferenceCurve) {
    forall k | 0 <= k < |Labels| :: Labels[k] in c.percentiles
  }

  /**
    The value the upload handler stores for one label: `null` (None)
    exactly when every reference age lies below the subject's age, and
    otherwise the interpolated value. With no ages at all `findIndex` finds
    nothing, so every label is `null`.
   */
  function LabelValue(age: real, ages: seq<real>, ys: seq<real>): (r: Option<real>)
    requires |ages| <= |ys|
    ensures r.None? <==> forall j | 0 <= j < |ages| :: ages[j] < age
    ensures r.Some? ==> r.value == Interpolate(age, ages, ys)
  {
    if FindIndex(ages, age) != -1 then Some(Interpolate(age, ages, ys)) else None
  }

  /**
    `interpolatePercentiles`: visits the five standard labels in order and
    records the interpolated value of each. Nothing in index.js calls it;
    the upload handler inlines its own loop (`HandlerPercentiles`).
   */
  method InterpolatePercentiles(age: real, c: ReferenceCurve) returns (m: map<string, real>)
    requires 0 < |c.ages| && WellFormed(c) && HasStandardLabels(c)
    ensures m.Keys == set k | 0 <= k < |Labels| :: Labels[k]
    ensures forall p | p in m :: m[p] == Interpolate(age, c.ages, c.percentiles[p])
  {
    m := map[];
    var k := 0;
    while k < |Labels|
      invariant 0 <= k <= |Labels|
      invariant m.Keys == set q | 0 <= q < k :: Labels[q]
      invariant forall p | p in m :: p in c.percentiles && m[p] == Interpolate(age, c.ages, c.percentiles[p])
    {
      var p := Labels[k];
      m := m[p := Interpolate(age, c.ages, c.percentiles[p])];
      k := k + 1;
    }
  }

  /**
    The per-label loop of the upload handler: visits every label the curve
    carries (in no particular order) and records `LabelValue` for it.
   */
  method HandlerPercentiles(age: real, c: ReferenceCurve) returns (m: map<string, Option<real>>)
    requires WellFormed(c)
    ensures m.Keys == c.percentiles.Keys
    ensures forall p | p in m :: m[p].None? <==> forall j | 0 <= j < |c.ages| :: c.ages[j] < age
    ensures forall p | p in m :: m[p].Some? ==> m[p].value == Interpolate(age, c.ages, c.percentiles[p])
  {
    m := map[];
    var todo := c.percentiles.Keys;
    while todo != {}
      invariant todo <= c.percentiles.Keys
      invariant m.Keys == c.percentiles.Keys - todo
      invariant forall p | p in m :: m[p] == LabelValue(age, c.ages, c.percentiles[p])
      decreases todo
    {
      var p :| p in todo;
      m := m[p := LabelValue(age, c.ages, c.percentiles[p])];
      todo := todo - {p};
    }
  }

  /**
    On ascending ages the handler clamps below the age range but not
    above it: at or below the first age it yields the first value, inside
    the range the interpolated value, and past the last age `null`.
   */
  lemma LabelValueClamping(age: real, ages: seq<real>, ys: seq<real>)
    requires 0 < |ages| <= |ys|
    requires Ascending(ages)
    ensures age <= ages[0] ==> LabelValue(age, ages, ys) == Some(ys[0])
    ensures age <= ages[|ages| - 1] ==> LabelValue(age, ages, ys) == Some(Interpolate(age, ages, ys))
    ensures ages[|ages| - 1] < age ==> LabelValue(age, ages, ys) == None
  {
    var n := |ages|;
    if age <= ages[n - 1] {
      assert !(ages[n - 1] < age);
    } else {
      forall j | 0 <= j < n
        ensures ages[j] < age
      {
        assert ages[j] <= ages[n - 1];
      }
    }
  }

  /**
    Past the last age the handler and the helper part ways: the handler
    stores `null`, while the helper clamps to the last value of the series.
   */
  lemma HandlerNullWhereHelperClamps(age: real, c: ReferenceCurve, p: string)
    requires 0 < |c.ages| && WellFormed(c) && p in c.percentiles
    requires Ascending(c.ages)
    requires c.ages[|c.ages| - 1] < age
    ensures LabelValue(age, c.ages, c.percentiles[p]).None?
    ensures Interpolate(age, c.ages, c.percentiles[p]) == c.percentiles[p][|c.percentiles[p]| - 1]
  {
    LabelValueClamping(age, c.ages, c.percentiles[p]);
    assert c.ages[0] <= c.ages[|c.ages| - 1];
  }
}
