/** The flow-size distribution of custom_rand.py, over exact reals. */
module CustomRand {
  import opened Wrappers
  import opened PiecewiseLinear

  /** What `testCdf` accepts: percentages from 0 to 100, sizes and percentages strictly rising. */
  ghost predicate ValidCdf(cdf: Curve) {
    Rising(cdf) && cdf[0].y == 0.0 && cdf[|cdf| - 1].y == 100.0
  }

  /** The size at percentile `y` of a valid CDF, for any `y` up to 100. */
  ghost function Value(cdf: Curve, y: real): real
    requires ValidCdf(cdf) && y <= 100.0
  {
    FlipRises(cdf);
    Eval(Flip(cdf), y)
  }

  /** The percentile of size `x`; -1 outside the sizes of the distribution. */
  ghost function Percentile(cdf: Curve, x: real): real
    requires ValidCdf(cdf)
  {
    if x < 0.0 || x > cdf[|cdf| - 1].x then -1.0 else Eval(cdf, x)
  }

  /** `testCdf`: `None` is the IndexError of an empty list. */
  method TestCdf(cdf: Curve) returns (ok: Option<bool>)
    ensures ok.None? <==> cdf == []
    ensures ok.Some? ==> (ok.value <==> ValidCdf(cdf))
  {
    if cdf == [] {
      return None;
    }
    if cdf[0].y != 0.0 {
      return Some(false);
    }
    if cdf[|cdf| - 1].y != 100.0 {
      return Some(false);
    }
    for i := 1 to |cdf|
      invariant forall j, k :: 0 <= j < k < i ==> cdf[j].x < cdf[k].x && cdf[j].y < cdf[k].y
    {
      if cdf[i].y <= cdf[i - 1].y || cdf[i].x <= cdf[i - 1].x {
        assert !(cdf[i - 1].x < cdf[i].x && cdf[i - 1].y < cdf[i].y);
        return Some(false);
      }
    }
    return Some(true);
  }

  /** A loop that met `y` at knot `i` and not before has found its segment. */
  lemma FoundSegment(c: Curve, x: real, i: nat)
    requires Rising(c) && 1 <= i < |c| && x <= c[i].x && forall j :: 1 <= j < i ==> c[j].x < x
    ensures InReach(c, x) && Segment(c, x) == i && Eval(c, x) == Line(c[i - 1], c[i], x)
  {
  }

  lemma AcrossIs(p: Knot, q: Knot, y: real)
    requires p.y < q.y
    ensures Across(p, q, y) == p.x + (q.x - p.x) / (q.y - p.y) * (y - p.y)
  {
  }

  /** The term that `getIntegralY` adds on the segment of `y`. */
  function PartialTerm(p: Knot, q: Knot, y: real): real
    requires p.y < q.y
  {
    0.5 * (p.x + p.x + (q.x - p.x) / (q.y - p.y) * (y - p.y)) * (y - p.y) / 100.0
  }

  lemma PartialTermIs(p: Knot, q: Knot, y: real)
    requires p.y < q.y
    ensures PartialTerm(p, q, y) == Trapezoid(p, Knot(Across(p, q, y), y))
  {
    AcrossIs(p, q, y);
    hide Across;
  }

  lemma FoundHeight(c: Curve, y: real, i: nat)
    requires Rising(c) && 1 <= i < |c| && y <= c[i].y && forall j :: 1 <= j < i ==> c[j].y < y
    ensures InReach(Flip(c), y) && c[i - 1].y < c[i].y && Eval(Flip(c), y) == Across(c[i - 1], c[i], y)
    ensures AreaTo(c, y) == Area(c, i - 1) + Trapezoid(c[i - 1], Knot(Across(c[i - 1], c[i], y), y))
  {
    hide *;
    FlipRises(c);
    FoundSegment(Flip(c), y, i);
    AtHeight(c, y);
  }

  lemma IntegralStops(c: Curve, y: real, i: nat)
    requires Rising(c) && 1 <= i < |c| && y <= c[i].y && forall j :: 1 <= j < i ==> c[j].y < y
    ensures InReach(Flip(c), y) && Area(c, i - 1) + PartialTerm(c[i - 1], c[i], y) == AreaTo(c, y)
  {
    FoundHeight(c, y, i);
    hide Across, Trapezoid, PartialTerm, AreaTo, Area;
    PartialTermIs(c[i - 1], c[i], y);
  }

  class Distribution {
    var cdf: Curve

    constructor ()
      ensures cdf == []
    {
      cdf := [];
    }

    /** `setCdf` keeps the old list unless the new one passes the test. */
    method SetCdf(newCdf: Curve) returns (ok: Option<bool>)
      modifies this
      ensures ok.None? <==> newCdf == []
      ensures ok == Some(true) <==> ValidCdf(newCdf)
      ensures cdf == if ok == Some(true) then newCdf else old(cdf)
    {
      ok := TestCdf(newCdf);
      if ok == Some(true) {
        cdf := newCdf;
      }
    }

    method GetAvg() returns (avg: real)
      requires ValidCdf(cdf)
      ensures avg == Area(cdf, |cdf| - 1)
    {
      var s := 0.0;
      var last := cdf[0];
      for i := 1 to |cdf|
        invariant last == cdf[i - 1] && s / 100.0 == Area(cdf, i - 1)
      {
        var c := cdf[i];
        s := s + (c.x + last.x) / 2.0 * (c.y - last.y);
        assert (c.x + last.x) / 2.0 * (c.y - last.y) / 100.0 == Trapezoid(last, c);
        last := c;
      }
      return s / 100.0;
    }

    method GetPercentileFromValue(x: real) returns (y: real)
      requires ValidCdf(cdf)
      ensures y == Percentile(cdf, x)
    {
      if x < 0.0 || x > cdf[|cdf| - 1].x {
        return -1.0;
      }
      for i := 1 to |cdf|
        invariant forall j :: 1 <= j < i ==> cdf[j].x < x
      {
        if x <= cdf[i].x {
          FoundSegment(cdf, x, i);
          var p, q := cdf[i - 1], cdf[i];
          return p.y + (q.y - p.y) / (q.x - p.x) * (x - p.x);
        }
      }
    }

    /** `None` is Python's implicit result when `y` is above 100. */
    method GetValueFromPercentile(y: real) returns (x: Option<real>)
      requires ValidCdf(cdf)
      ensures x == if y <= 100.0 then Some(Value(cdf, y)) else None
    {
      assert Rising(cdf) && cdf[|cdf| - 1].y == 100.0 && |cdf| >= 2;
      hide ValidCdf, Rising, Eval, Flip, Across, Area, AreaTo, Trapezoid;
      for i := 1 to |cdf|
        invariant forall j :: 1 <= j < i ==> cdf[j].y < y
      {
        if y <= cdf[i].y {
          FoundHeight(cdf, y, i);
          KnotsBelow(cdf, i);
          return Some(Across(cdf[i - 1], cdf[i], y));
        }
      }
      return None;
    }

    method GetIntegralY(y: real) returns (s: real)
      requires ValidCdf(cdf)
      ensures y <= 100.0 ==> InReach(Flip(cdf), y) && s == AreaTo(cdf, y)
      ensures y > 100.0 ==> s == Area(cdf, |cdf| - 1)
    {
      SummedStart(cdf, y);
      hide *;
      var c := cdf;
      s := 0.0;
      for i := 1 to |c|
        invariant Summed(c, y, i, s)
      {
        var done;
        s, done := AddSegment(c, y, i, s);
        if done {
          return;
        }
      }
      SummedEnd(c, y, s);
    }
  }

  /** The body of `getIntegralY`'s loop. */
  method AddSegment(c: Curve, y: real, i: nat, s: real) returns (s': real, done: bool)
    requires Summed(c, y, i, s) && i < |c|
    ensures done ==> y <= 100.0 && InReach(Flip(c), y) && s' == AreaTo(c, y)
    ensures !done ==> Summed(c, y, i + 1, s')
  {
    SummedRises(c, y, i, s);
    hide *;
    var p, q := c[i - 1], c[i];
    if y <= q.y {
      SummedStops(c, y, i, s);
      return s + PartialTerm(p, q, y), true;
    }
    SummedNext(c, y, i, s);
    return s + Trapezoid(p, q), false;
  }

  lemma SummedRises(c: Curve, y: real, i: nat, s: real)
    requires Summed(c, y, i, s) && i < |c|
    ensures i >= 1 && c[i - 1].y < c[i].y <= c[|c| - 1].y
  {
    KnotsBelow(c, i);
    hide Area;
  }

  /** Before segment `i` of `getIntegralY`: the whole area so far, and all knots passed lie below `y`. */
  ghost predicate Summed(c: Curve, y: real, i: nat, s: real) {
    ValidCdf(c) && 1 <= i <= |c| && s == Area(c, i - 1) && forall j :: 1 <= j < i ==> c[j].y < y
  }

  lemma SummedStart(c: Curve, y: real)
    requires ValidCdf(c)
    ensures Rising(c) && |c| >= 2 && Summed(c, y, 1, 0.0)
  {
    AreaStep(c, 0);
  }

  lemma SummedNext(c: Curve, y: real, i: nat, s: real)
    requires Summed(c, y, i, s) && i < |c| && c[i - 1].y < c[i].y < y
    ensures Summed(c, y, i + 1, s + Trapezoid(c[i - 1], c[i]))
  {
    hide Trapezoid, Area, ValidCdf;
    AreaStep(c, i);
  }

  lemma SummedStops(c: Curve, y: real, i: nat, s: real)
    requires Summed(c, y, i, s) && i < |c| && c[i - 1].y < c[i].y && y <= c[i].y <= c[|c| - 1].y
    ensures InReach(Flip(c), y) && s + PartialTerm(c[i - 1], c[i], y) == AreaTo(c, y) && y <= 100.0
  {
    assert Rising(c) && c[|c| - 1].y == 100.0;
    hide *;
    assert s == Area(c, i - 1) && forall j :: 1 <= j < i ==> c[j].y < y by {
      SummedIs(c, y, i, s);
    }
    IntegralStops(c, y, i);
  }

  lemma SummedIs(c: Curve, y: real, i: nat, s: real)
    requires Summed(c, y, i, s)
    ensures 1 <= i <= |c| && s == Area(c, i - 1) && forall j :: 1 <= j < i ==> c[j].y < y
  {
    hide Area, ValidCdf;
  }

  lemma SummedEnd(c: Curve, y: real, s: real)
    requires Summed(c, y, |c|, s)
    ensures y > 100.0 && |c| > 0 && s == Area(c, |c| - 1)
  {
    hide Area;
  }

  lemma KnotsBelow(cdf: Curve, i: nat)
    requires Rising(cdf) && 1 <= i < |cdf|
    ensures cdf[i - 1].y < cdf[i].y <= cdf[|cdf| - 1].y
  {
  }

  // ----- the two functions are strictly increasing inverses

  lemma ValueRange(cdf: Curve, y: real)
    requires ValidCdf(cdf) && 0.0 <= y <= 100.0
    ensures cdf[0].x <= Value(cdf, y) <= cdf[|cdf| - 1].x
  {
    FlipRises(cdf);
    EvalAtKnot(Flip(cdf), 0);
    EvalAtKnot(Flip(cdf), |cdf| - 1);
    if 0.0 < y {
      EvalRises(Flip(cdf), 0.0, y);
    }
    if y < 100.0 {
      EvalRises(Flip(cdf), y, 100.0);
    }
  }

  lemma ValueRises(cdf: Curve, y: real, y': real)
    requires ValidCdf(cdf) && y < y' <= 100.0
    ensures Value(cdf, y) < Value(cdf, y')
  {
    FlipRises(cdf);
    EvalRises(Flip(cdf), y, y');
  }

  lemma PercentileRises(cdf: Curve, x: real, x': real)
    requires ValidCdf(cdf) && 0.0 <= x < x' <= cdf[|cdf| - 1].x
    ensures Percentile(cdf, x) < Percentile(cdf, x')
  {
    EvalRises(cdf, x, x');
  }

  lemma PercentileRange(cdf: Curve, x: real)
    requires ValidCdf(cdf) && cdf[0].x <= x <= cdf[|cdf| - 1].x
    ensures 0.0 <= Eval(cdf, x) <= 100.0
  {
    EvalAtKnot(cdf, 0);
    EvalAtKnot(cdf, |cdf| - 1);
    hide Eval;
    if cdf[0].x < x {
      EvalRises(cdf, cdf[0].x, x);
    }
    if x < cdf[|cdf| - 1].x {
      EvalRises(cdf, x, cdf[|cdf| - 1].x);
    }
  }

  /** The size at the percentile of a size is that size, for every size in range. */
  lemma ValueOfPercentile(cdf: Curve, x: real)
    requires ValidCdf(cdf) && 0.0 <= x && cdf[0].x <= x <= cdf[|cdf| - 1].x
    ensures 0.0 <= Percentile(cdf, x) <= 100.0 && Value(cdf, Percentile(cdf, x)) == x
  {
    hide Eval, Flip;
    PercentileRange(cdf, x);
    EvalInverts(cdf, x);
  }

  lemma PercentileOfValue(cdf: Curve, y: real)
    requires ValidCdf(cdf) && 0.0 <= y <= 100.0
    ensures Value(cdf, y) >= 0.0 ==> Percentile(cdf, Value(cdf, y)) == y
    ensures Value(cdf, y) < 0.0 ==> Percentile(cdf, Value(cdf, y)) == -1.0
  {
    FlipRises(cdf);
    FlipTwice(cdf);
    hide Eval, Flip;
    ValueRange(cdf, y);
    EvalInverts(Flip(cdf), y);
  }

  /** The percentile of the size at a percentile is that percentile for all of [0, 100], exactly when no size is
      negative. */
  lemma InverseIffNonNegative(cdf: Curve)
    requires ValidCdf(cdf)
    ensures (forall y :: 0.0 <= y <= 100.0 ==> Percentile(cdf, Value(cdf, y)) == y) <==> cdf[0].x >= 0.0
  {
    assert |cdf| >= 2;
    hide Value, Percentile, ValidCdf;
    forall y | 0.0 <= y <= 100.0
      ensures cdf[0].x >= 0.0 ==> Percentile(cdf, Value(cdf, y)) == y
    {
      ValueRange(cdf, y);
      PercentileOfValue(cdf, y);
    }
    ValueAtZero(cdf);
    PercentileOfValue(cdf, 0.0);
  }

  lemma ValueAtZero(cdf: Curve)
    requires ValidCdf(cdf)
    ensures |cdf| > 0 && Value(cdf, 0.0) == cdf[0].x
  {
    FlipRises(cdf);
    EvalAtKnot(Flip(cdf), 0);
  }

  // ----- the curve

  /** Between two neighbours of the list the percentile is interpolated linearly in the size. */
  lemma PercentileOnTheChord(cdf: Curve, x: real, k: nat)
    requires ValidCdf(cdf) && 1 <= k < |cdf| && cdf[k - 1].x < x <= cdf[k].x && x >= 0.0
    ensures OnLine(cdf[k - 1], cdf[k], x, Percentile(cdf, x))
  {
    assert k < |cdf| - 1 ==> cdf[k].x < cdf[|cdf| - 1].x;
    hide Eval, OnLine;
    OnTheChord(cdf, x, k);
  }

  /** And the size linearly in the percentile. */
  lemma ValueOnTheChord(cdf: Curve, y: real, k: nat)
    requires ValidCdf(cdf) && 1 <= k < |cdf| && cdf[k - 1].y < y <= cdf[k].y
    ensures y <= 100.0
    ensures OnLine(Knot(cdf[k - 1].y, cdf[k - 1].x), Knot(cdf[k].y, cdf[k].x), y, Value(cdf, y))
  {
    FlippedHeights(cdf, y, k);
    hide *;
    OnTheChord(Flip(cdf), y, k);
  }

  lemma FlippedHeights(cdf: Curve, y: real, k: nat)
    requires ValidCdf(cdf) && 1 <= k < |cdf| && y <= cdf[k].y
    ensures y <= 100.0 && Rising(Flip(cdf)) && InReach(Flip(cdf), y) && Value(cdf, y) == Eval(Flip(cdf), y)
    ensures Flip(cdf)[k - 1] == Knot(cdf[k - 1].y, cdf[k - 1].x) && Flip(cdf)[k] == Knot(cdf[k].y, cdf[k].x)
  {
    assert k < |cdf| - 1 ==> cdf[k].y < cdf[|cdf| - 1].y;
    FlipRises(cdf);
    hide Eval;
  }

  // ----- the integral

  /** The integral between two percentiles lies between the sizes there times the percentage difference. */
  lemma IntegralBounds(cdf: Curve, y1: real, y2: real)
    requires ValidCdf(cdf) && 0.0 <= y1 <= y2 <= 100.0
    ensures InReach(Flip(cdf), y1) && InReach(Flip(cdf), y2)
    ensures Band(Value(cdf, y1), y2 - y1) <= AreaTo(cdf, y2) - AreaTo(cdf, y1) <= Band(Value(cdf, y2), y2 - y1)
  {
    FlipRises(cdf);
    hide Eval, AreaTo, Flip, Band, Rising;
    AreaGrowth(cdf, y1, y2);
  }

  /** The integral over everything is the average that `getAvg` accumulates. */
  lemma WholeIntegralIsAverage(cdf: Curve)
    requires ValidCdf(cdf)
    ensures InReach(Flip(cdf), 100.0) && AreaTo(cdf, 100.0) == Area(cdf, |cdf| - 1)
  {
    AreaAtKnot(cdf, |cdf| - 1);
  }
}
