/** Piecewise-linear interpolation of a sampled column (wind speed or wind
    direction) against the sounding heights, with flat boundaries: the
    bracket search and the slope/intercept evaluation of `predict_wind_speed`
    and `predicted_wind_direction`. */
module Interpolation {

  import opened Common

  /** Same number of heights and values, and at least one sample. */
  predicate Sampled(heights: seq<real>, values: seq<real>)
  {
    |heights| >= 1 && |values| == |heights|
  }

  predicate StrictlyIncreasing(s: seq<real>)
  {
    forall i, j :: 0 <= i < j < |s| ==> s[i] < s[j]
  }

  /** The index the search loop stops at when it starts at `i`: the first
      `k >= i` with `h <= heights[k]`, or 0 (the loop variable's initial value)
      when no such index exists. */
  function FirstAtOrAbove(heights: seq<real>, h: real, i: nat): (k: nat)
    requires i >= 1
    decreases |heights| - i
    ensures k == 0 || (i <= k < |heights| && h <= heights[k])
    ensures k != 0 ==> forall j :: i <= j < k ==> heights[j] < h
    ensures k == 0 ==> forall j :: i <= j < |heights| ==> heights[j] < h
    ensures i < |heights| && h <= heights[|heights| - 1] ==> k != 0
  {
    if i >= |heights| then 0
    else if h <= heights[i] then i
    else FirstAtOrAbove(heights, h, i + 1)
  }

  /** The bracket of a height strictly inside the sampled range is found:
      the search returns an index `k >= 1` with `heights[k-1] < h <= heights[k]`. */
  lemma {:induction false} BracketFound(heights: seq<real>, h: real)
    requires |heights| >= 1
    requires heights[0] < h < heights[|heights| - 1]
    ensures var k := FirstAtOrAbove(heights, h, 1);
            1 <= k < |heights| && heights[k - 1] < h <= heights[k]
  {
    var k := FirstAtOrAbove(heights, h, 1);
    if k > 1 {
      assert heights[k - 1] < h;
    }
  }

  /** The value the predictor returns at height `h`. The boundaries are
      flat: at or below the lowest sample the lowest value, at or above the
      highest sample the highest value; never a linear extrapolation. */
  function Interpolant(heights: seq<real>, values: seq<real>, h: real): (r: real)
    requires Sampled(heights, values)
    ensures h <= heights[0] ==> r == values[0]
    ensures heights[0] < h && h >= heights[|heights| - 1] ==> r == values[|values| - 1]
  {
    if h <= heights[0] then values[0]
    else if h >= heights[|heights| - 1] then values[|values| - 1]
    else
      BracketFound(heights, h);
      var k := FirstAtOrAbove(heights, h, 1);
      var slope := (values[k] - values[k - 1]) / (heights[k] - heights[k - 1]);
      var b := values[k - 1] - slope * heights[k - 1];
      slope * h + b
  }

  /** The search loop and the evaluation, as the scripts run them. */
  method Interpolate(heights: seq<real>, values: seq<real>, h: real) returns (r: real)
    requires Sampled(heights, values)
    ensures r == Interpolant(heights, values, h)
  {
    if h <= heights[0] {
      return values[0];
    }
    if h >= heights[|heights| - 1] {
      return values[|values| - 1];
    }
    var index := 0;
    for i := 1 to |heights|
      invariant FirstAtOrAbove(heights, h, 1) == FirstAtOrAbove(heights, h, i)
    {
      if h <= heights[i] {
        index := i;
        break;
      }
    }
    BracketFound(heights, h);
    assert index == FirstAtOrAbove(heights, h, 1);
    var slope := (values[index] - values[index - 1]) / (heights[index] - heights[index - 1]);
    var b := values[index - 1] - slope * heights[index - 1];
    r := slope * h + b;
  }

  /** Inside the range the search finds the bracketing pair of samples, the
      result is the line through them written in point-slope form, and it lies
      between their two values. */
  lemma {:induction false} BetweenBracket(heights: seq<real>, values: seq<real>, h: real)
    requires Sampled(heights, values)
    requires heights[0] < h < heights[|heights| - 1]
    ensures var k := FirstAtOrAbove(heights, h, 1);
            && 1 <= k < |heights| && heights[k - 1] < h <= heights[k]
            && (forall j :: 1 <= j < k ==> heights[j] < h)
            && Interpolant(heights, values, h) ==
                 values[k - 1] + (h - heights[k - 1]) / (heights[k] - heights[k - 1]) * (values[k] - values[k - 1])
            && Min(values[k - 1], values[k]) <= Interpolant(heights, values, h) <= Max(values[k - 1], values[k])
  {
    BracketFound(heights, h);
    var k := FirstAtOrAbove(heights, h, 1);
    var r := Interpolant(heights, values, h);
    var dh := heights[k] - heights[k - 1];
    var t := (h - heights[k - 1]) / dh;
    LineThroughTwoPoints(heights[k - 1], heights[k], values[k - 1], values[k], h);
    assert 0.0 < t <= 1.0 by {
      assert 0.0 < h - heights[k - 1] <= dh;
      DivideBounds(h - heights[k - 1], dh);
    }
    ConvexBetween(values[k - 1], values[k], t);
  }

  /** The slope/intercept evaluation equals the point-slope form. */
  lemma LineThroughTwoPoints(h0: real, h1: real, v0: real, v1: real, h: real)
    requires h0 < h1
    ensures var slope := (v1 - v0) / (h1 - h0);
            slope * h + (v0 - slope * h0) == v0 + (h - h0) / (h1 - h0) * (v1 - v0)
            == (1.0 - (h - h0) / (h1 - h0)) * v0 + (h - h0) / (h1 - h0) * v1
  {
    var slope := (v1 - v0) / (h1 - h0);
    var t := (h - h0) / (h1 - h0);
    assert slope * h + (v0 - slope * h0) == v0 + slope * (h - h0);
    assert slope * (h - h0) == t * (v1 - v0);
  }

  lemma DivideBounds(x: real, d: real)
    requires 0.0 < x <= d
    ensures 0.0 < x / d <= 1.0
  {
  }

  lemma ConvexBetween(a: real, b: real, t: real)
    requires 0.0 <= t <= 1.0
    ensures Min(a, b) <= (1.0 - t) * a + t * b <= Max(a, b)
  {
    if a <= b {
      assert (1.0 - t) * a + t * b == a + t * (b - a);
      MulNonneg(t, b - a);
      MulNonneg(1.0 - t, b - a);
    } else {
      assert (1.0 - t) * a + t * b == b + (1.0 - t) * (a - b);
      MulNonneg(t, a - b);
      MulNonneg(1.0 - t, a - b);
    }
  }

  lemma MulNonneg(x: real, y: real)
    requires x >= 0.0 && y >= 0.0
    ensures x * y >= 0.0
  {
  }

  /** With strictly increasing heights the search stops exactly at a sample height. */
  lemma {:induction false} SearchStopsAtSample(heights: seq<real>, j: nat, i: nat)
    requires StrictlyIncreasing(heights)
    requires 1 <= i <= j < |heights|
    ensures FirstAtOrAbove(heights, heights[j], i) == j
    decreases j - i
  {
    if i < j {
      assert heights[i] < heights[j];
      SearchStopsAtSample(heights, j, i + 1);
    }
  }

  /** With strictly increasing heights the predictor returns each sample's own
      value at that sample's height. */
  lemma {:induction false} ExactAtSamples(heights: seq<real>, values: seq<real>, j: nat)
    requires Sampled(heights, values) && StrictlyIncreasing(heights)
    requires j < |heights|
    ensures Interpolant(heights, values, heights[j]) == values[j]
  {
    var n := |heights|;
    if j == 0 || j == n - 1 {
      if j == n - 1 && j > 0 {
        assert heights[0] < heights[j];
      }
    } else {
      assert heights[0] < heights[j] < heights[n - 1];
      SearchStopsAtSample(heights, j, 1);
      var dh := heights[j] - heights[j - 1];
      var slope := (values[j] - values[j - 1]) / dh;
      assert slope * dh == values[j] - values[j - 1];
      assert slope * heights[j] + (values[j - 1] - slope * heights[j - 1]) == values[j - 1] + slope * dh;
    }
  }
}
