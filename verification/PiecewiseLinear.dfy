/** Strictly rising piecewise-linear curves: evaluation, inversion and the area beside the curve. */
module PiecewiseLinear {
  datatype Knot = Knot(x: real, y: real)

  type Curve = seq<Knot>

  ghost predicate Rising(c: Curve) {
    |c| >= 2 && forall i, j :: 0 <= i < j < |c| ==> c[i].x < c[j].x && c[i].y < c[j].y
  }

  /** The height at `x` of the line through `p` and `q`. */
  function Line(p: Knot, q: Knot, x: real): real
    requires p.x < q.x
  {
    p.y + (q.y - p.y) / (q.x - p.x) * (x - p.x)
  }

  /** The first knot from `i` on that is not left of `x`. */
  function First(c: Curve, x: real, i: nat): (k: nat)
    requires i <= |c|
    ensures i <= k <= |c|
    ensures forall j :: i <= j < k ==> c[j].x < x
    ensures k < |c| ==> x <= c[k].x
    decreases |c| - i
  {
    if i == |c| || x <= c[i].x then i else First(c, x, i + 1)
  }

  /** The number of the segment that evaluation at `x` uses; left of the curve it is the first one. */
  function Segment(c: Curve, x: real): (k: nat)
    requires |c| >= 2
    ensures 1 <= k <= |c|
  {
    First(c, x, 1)
  }

  ghost predicate InReach(c: Curve, x: real) {
    Rising(c) && x <= c[|c| - 1].x
  }

  lemma SegmentInReach(c: Curve, x: real)
    requires InReach(c, x)
    ensures var k := Segment(c, x); 1 <= k < |c| && x <= c[k].x && (k > 1 ==> c[k - 1].x < x)
  {
  }

  ghost function Eval(c: Curve, x: real): real
    requires InReach(c, x)
  {
    SegmentInReach(c, x);
    var k := Segment(c, x);
    Line(c[k - 1], c[k], x)
  }

  // ----- one line

  lemma ProductSign(a: real, b: real)
    requires a > 0.0
    ensures b > 0.0 ==> a * b > 0.0
    ensures b < 0.0 ==> a * b < 0.0
    ensures b == 0.0 ==> a * b == 0.0
  {
  }

  lemma SlopePositive(p: Knot, q: Knot)
    requires p.x < q.x && p.y < q.y
    ensures (q.y - p.y) / (q.x - p.x) > 0.0
  {
  }

  lemma LineRises(p: Knot, q: Knot, x: real, x': real)
    requires p.x < q.x && p.y < q.y && x < x'
    ensures Line(p, q, x) < Line(p, q, x')
  {
    var k := (q.y - p.y) / (q.x - p.x);
    SlopePositive(p, q);
    ProductSign(k, x' - x);
    assert k * (x' - p.x) - k * (x - p.x) == k * (x' - x);
  }

  lemma LineEnds(p: Knot, q: Knot)
    requires p.x < q.x
    ensures Line(p, q, p.x) == p.y && Line(p, q, q.x) == q.y
  {
    var d := q.x - p.x;
    assert (q.y - p.y) / d * d == q.y - p.y;
  }

  function FlipKnot(p: Knot): Knot {
    Knot(p.y, p.x)
  }

  lemma ReciprocalSlopes(a: real, b: real)
    requires a > 0.0 && b > 0.0
    ensures (a / b) * (b / a) == 1.0
  {
    var u, v := a / b, b / a;
    var w := v * a;
    assert w == b;
    assert u * w == a;
    assert (u * v) * a == u * w;
    assert (u * v - 1.0) * a == 0.0;
    ProductSign(a, u * v - 1.0);
  }

  lemma LineInverts(p: Knot, q: Knot, x: real)
    requires p.x < q.x && p.y < q.y
    ensures Line(FlipKnot(p), FlipKnot(q), Line(p, q, x)) == x
  {
    var k, m := (q.y - p.y) / (q.x - p.x), (q.x - p.x) / (q.y - p.y);
    ReciprocalSlopes(q.x - p.x, q.y - p.y);
    assert m * k == 1.0;
    assert m * (k * (x - p.x)) == (m * k) * (x - p.x);
  }

  // ----- the whole curve

  function Flip(c: Curve): (d: Curve)
    ensures |d| == |c| && forall i :: 0 <= i < |c| ==> d[i] == FlipKnot(c[i]) && d[i].x == c[i].y && d[i].y == c[i].x
  {
    seq(|c|, i requires 0 <= i < |c| => FlipKnot(c[i]))
  }

  lemma FlipTwice(c: Curve)
    ensures Flip(Flip(c)) == c
  {
  }

  lemma FlipRises(c: Curve)
    requires Rising(c)
    ensures Rising(Flip(c))
  {
  }

  /** On its segment the curve stays between the heights of the two knots. */
  lemma EvalWithin(c: Curve, x: real)
    requires InReach(c, x)
    ensures var k := Segment(c, x);
      && 1 <= k < |c| && Eval(c, x) <= c[k].y
      && (c[k - 1].x < x ==> c[k - 1].y < Eval(c, x)) && (c[k - 1].x == x ==> Eval(c, x) == c[k - 1].y)
  {
    SegmentInReach(c, x);
    var k := Segment(c, x);
    var p, q := c[k - 1], c[k];
    LineEnds(p, q);
    if x < q.x {
      LineRises(p, q, x, q.x);
    }
    if p.x < x {
      LineRises(p, q, p.x, x);
    }
  }

  /** Evaluation is strictly increasing everywhere in reach, extrapolation on the left included. */
  lemma EvalRises(c: Curve, x: real, x': real)
    requires InReach(c, x') && x < x'
    ensures InReach(c, x) && Eval(c, x) < Eval(c, x')
  {
    SegmentInReach(c, x);
    SegmentInReach(c, x');
    EvalWithin(c, x);
    EvalWithin(c, x');
    var k, k' := Segment(c, x), Segment(c, x');
    hide Segment;
    if k == k' {
      LineRises(c[k - 1], c[k], x, x');
    } else {
      assert k < k' && c[k' - 1].x < x';
    }
  }

  lemma EvalAtKnot(c: Curve, i: nat)
    requires Rising(c) && i < |c|
    ensures InReach(c, c[i].x) && Eval(c, c[i].x) == c[i].y
  {
    SegmentInReach(c, c[i].x);
    LineEnds(c[0], c[1]);
    if i > 0 {
      assert Segment(c, c[i].x) == i;
      LineEnds(c[i - 1], c[i]);
    }
  }

  /** The flipped curve undoes the curve. */
  lemma EvalInverts(c: Curve, x: real)
    requires InReach(c, x)
    ensures InReach(Flip(c), Eval(c, x)) && Eval(Flip(c), Eval(c, x)) == x
  {
    FlipRises(c);
    EvalWithin(c, x);
    SegmentInReach(c, x);
    var k, y := Segment(c, x), Eval(c, x);
    assert y <= c[|c| - 1].y;
    assert Segment(Flip(c), y) == k;
    LineInverts(c[k - 1], c[k], x);
  }

  // ----- the area beside the curve, as a sum of trapezoids over heights in percent

  /** The area between two knots. */
  function Trapezoid(p: Knot, q: Knot): real {
    0.5 * (q.x + p.x) * (q.y - p.y) / 100.0
  }

  function Area(c: Curve, n: nat): real
    requires n < |c|
  {
    if n == 0 then 0.0 else Area(c, n - 1) + Trapezoid(c[n - 1], c[n])
  }

  /** The area up to height `y`. */
  ghost function AreaTo(c: Curve, y: real): real
    requires InReach(Flip(c), y)
  {
    SegmentInReach(Flip(c), y);
    var k := Segment(Flip(c), y);
    Area(c, k - 1) + Trapezoid(c[k - 1], Knot(Eval(Flip(c), y), y))
  }

  /** The area of a band of width `v` and height `d`. */
  function Band(v: real, d: real): real {
    v * d / 100.0
  }

  lemma Scale(lo: real, v: real, hi: real, d: real)
    requires lo <= v <= hi && d >= 0.0
    ensures lo * d <= v * d <= hi * d
  {
  }

  lemma AreaDifference(x: real, m: real, a: real, b: real)
    ensures 0.5 * ((x + m * b) + x) * b - 0.5 * ((x + m * a) + x) * a == 0.5 * ((x + m * a) + (x + m * b)) * (b - a)
  {
    assert (m * b) * b - (m * a) * a == (m * a + m * b) * (b - a) by {
      assert (m * a + m * b) * (b - a) == (m * a) * b - (m * a) * a + (m * b) * b - (m * b) * a;
      assert (m * a) * b == (m * b) * a;
    }
  }

  /** Along a line through the lower knot `p` the area grows by a mean of the two ends. */
  lemma SlopedArea(p: Knot, m: real, a: real, b: real)
    requires m > 0.0 && 0.0 <= a <= b
    ensures var va, vb := p.x + m * a, p.x + m * b;
      Band(va, b - a) <= Trapezoid(p, Knot(vb, p.y + b)) - Trapezoid(p, Knot(va, p.y + a)) <= Band(vb, b - a)
  {
    var va, vb := p.x + m * a, p.x + m * b;
    var d := b - a;
    ProductSign(m, d);
    assert m * d == m * b - m * a;
    assert va <= vb;
    var mean := 0.5 * (va + vb);
    Scale(va, mean, vb, d);
    AreaDifference(p.x, m, a, b);
  }

  /** The size at height `y` of the line between two knots. */
  function Across(p: Knot, q: Knot, y: real): real
    requires p.y < q.y
  {
    Line(FlipKnot(p), FlipKnot(q), y)
  }

  lemma LineArea(p: Knot, q: Knot, y1: real, y2: real)
    requires p.x < q.x && p.y < q.y && p.y <= y1 <= y2
    ensures var v1, v2 := Across(p, q, y1), Across(p, q, y2);
      Band(v1, y2 - y1) <= Trapezoid(p, Knot(v2, y2)) - Trapezoid(p, Knot(v1, y1)) <= Band(v2, y2 - y1)
  {
    var m := (q.x - p.x) / (q.y - p.y);
    SlopePositive(FlipKnot(p), FlipKnot(q));
    hide Band, Trapezoid;
    SlopedArea(p, m, y1 - p.y, y2 - p.y);
    assert p.y + (y1 - p.y) == y1 && p.y + (y2 - p.y) == y2 && (y2 - p.y) - (y1 - p.y) == y2 - y1;
  }

  /** Everything the segment of height `y` says, in one place. */
  lemma AtHeight(c: Curve, y: real)
    requires Rising(c) && InReach(Flip(c), y)
    ensures var k := Segment(Flip(c), y);
      && 1 <= k < |c| && y <= c[k].y && (k > 1 ==> c[k - 1].y < y) && c[k - 1].y < c[k].y && c[k - 1].x < c[k].x
      && Eval(Flip(c), y) == Across(c[k - 1], c[k], y)
      && AreaTo(c, y) == Area(c, k - 1) + Trapezoid(c[k - 1], Knot(Eval(Flip(c), y), y))
  {
    SegmentInReach(Flip(c), y);
    hide Segment, Line, Trapezoid, Area;
  }

  lemma TrapezoidToSelf(p: Knot)
    ensures Trapezoid(p, p) == 0.0
  {
  }

  lemma AreaAtKnot(c: Curve, i: nat)
    requires Rising(c) && i < |c|
    ensures InReach(Flip(c), c[i].y) && AreaTo(c, c[i].y) == Area(c, i) && Eval(Flip(c), c[i].y) == c[i].x
  {
    hide *;
    FlipRises(c);
    EvalAtKnot(Flip(c), i);
    AtHeight(c, c[i].y);
    SegmentAtKnot(c, i);
    TrapezoidToSelf(c[0]);
    AreaStep(c, i);
    assert Knot(c[i].x, c[i].y) == c[i];
  }

  lemma AreaStep(c: Curve, n: nat)
    requires n < |c|
    ensures Area(c, n) == if n == 0 then 0.0 else Area(c, n - 1) + Trapezoid(c[n - 1], c[n])
    ensures Area(c, 0) == 0.0
  {
  }

  lemma SegmentAtKnot(c: Curve, i: nat)
    requires Rising(c) && i < |c|
    ensures Segment(Flip(c), c[i].y) == if i == 0 then 1 else i
  {
    FlipRises(c);
    EvalAtKnot(Flip(c), i);
    SegmentInReach(Flip(c), c[i].y);
  }

  /** The claim of AreaGrowth for one pair of heights. */
  ghost predicate GrowsWithin(c: Curve, y1: real, y2: real)
    requires InReach(Flip(c), y1) && InReach(Flip(c), y2)
  {
    Band(Eval(Flip(c), y1), y2 - y1) <= AreaTo(c, y2) - AreaTo(c, y1) <= Band(Eval(Flip(c), y2), y2 - y1)
  }

  lemma SegmentArea(c: Curve, y1: real, y2: real)
    requires InReach(Flip(c), y1) && InReach(Flip(c), y2) && Rising(c) && c[0].y <= y1 <= y2
    requires Segment(Flip(c), y1) == Segment(Flip(c), y2)
    ensures GrowsWithin(c, y1, y2)
  {
    AtHeight(c, y1);
    AtHeight(c, y2);
    hide Segment, Eval, AreaTo, Rising, Flip, Trapezoid, Across, Band, Area;
    var k := Segment(Flip(c), y1);
    LineArea(c[k - 1], c[k], y1, y2);
  }

  lemma SegmentBelow(c: Curve, y1: real, y2: real)
    requires Rising(c) && InReach(Flip(c), y2) && c[0].y <= y1 <= y2
    requires Segment(Flip(c), y1) != Segment(Flip(c), y2)
    ensures var k := Segment(Flip(c), y2);
      && 1 < k < |c| && y1 <= c[k - 1].y < y2 && InReach(Flip(c), c[k - 1].y) && Segment(Flip(c), c[k - 1].y) == k - 1
  {
    FlipRises(c);
    SegmentInReach(Flip(c), y1);
    SegmentInReach(Flip(c), y2);
  }

  lemma EvalMonotone(c: Curve, x: real, x': real)
    requires InReach(c, x') && x <= x'
    ensures InReach(c, x) && Eval(c, x) <= Eval(c, x')
  {
    if x < x' {
      EvalRises(c, x, x');
    }
  }

  lemma AcrossOwnHeight(p: Knot, q: Knot)
    requires p.x < q.x && p.y < q.y
    ensures Across(p, q, p.y) == p.x && Knot(p.x, p.y) == p
  {
    LineEnds(FlipKnot(p), FlipKnot(q));
  }

  /** The area from the last knot below `y` up to `y`. */
  lemma LastPart(c: Curve, y: real, k: nat)
    requires Rising(c) && InReach(Flip(c), y) && k == Segment(Flip(c), y) && 1 < k < |c| && InReach(Flip(c), c[k - 1].y)
    ensures GrowsWithin(c, c[k - 1].y, y)
  {
    AtHeight(c, y);
    AreaAtKnot(c, k - 1);
    var p, q := c[k - 1], c[k];
    hide Rising, Flip, Eval, AreaTo, Area, Segment, InReach, Across, Band, Trapezoid;
    AcrossOwnHeight(p, q);
    LineArea(p, q, p.y, y);
    TrapezoidToSelf(p);
  }

  lemma Chain(v1: real, vz: real, v2: real, d1: real, d2: real)
    requires v1 <= vz <= v2 && d1 >= 0.0 && d2 >= 0.0
    ensures Band(v1, d1 + d2) <= Band(v1, d1) + Band(vz, d2)
    ensures Band(vz, d1) + Band(v2, d2) <= Band(v2, d1 + d2)
  {
    Scale(v1, vz, v2, d1);
    Scale(v1, vz, v2, d2);
    assert v1 * (d1 + d2) == v1 * d1 + v1 * d2;
    assert v2 * (d1 + d2) == v2 * d1 + v2 * d2;
  }

  lemma Compose(c: Curve, y1: real, z: real, y2: real)
    requires InReach(Flip(c), y2) && y1 <= z <= y2 && InReach(Flip(c), y1) && InReach(Flip(c), z)
    requires GrowsWithin(c, y1, z) && GrowsWithin(c, z, y2)
    ensures GrowsWithin(c, y1, y2)
  {
    EvalMonotone(Flip(c), y1, z);
    EvalMonotone(Flip(c), z, y2);
    hide Flip, Eval, AreaTo, InReach, Band;
    Chain(Eval(Flip(c), y1), Eval(Flip(c), z), Eval(Flip(c), y2), z - y1, y2 - z);
    assert (z - y1) + (y2 - z) == y2 - y1;
  }

  /** The area between two heights lies between their widths times the height difference, across any number of knots. */
  lemma {:induction false} AreaGrowth(c: Curve, y1: real, y2: real)
    requires InReach(Flip(c), y2) && Rising(c) && c[0].y <= y1 <= y2
    ensures InReach(Flip(c), y1) && GrowsWithin(c, y1, y2)
    decreases Segment(Flip(c), y2)
  {
    EvalMonotone(Flip(c), y1, y2);
    assert |Flip(c)| >= 2 && |c| >= 2;
    hide *;
    if Segment(Flip(c), y1) == Segment(Flip(c), y2) {
      SegmentArea(c, y1, y2);
    } else {
      SegmentBelow(c, y1, y2);
      var k := Segment(Flip(c), y2);
      var z := c[k - 1].y;
      AreaGrowth(c, y1, z);
      LastPart(c, y2, k);
      Compose(c, y1, z, y2);
    }
  }

  // ----- the curve itself

  /** The point `(x, y)` lies on the line through `p` and `q`: its rise has the line's slope. */
  ghost predicate OnLine(p: Knot, q: Knot, x: real, y: real) {
    (y - p.y) * (q.x - p.x) == (q.y - p.y) * (x - p.x)
  }

  /** Between neighbouring knots the curve is their chord. */
  lemma OnTheChord(c: Curve, x: real, k: nat)
    requires Rising(c) && 1 <= k < |c| && c[k - 1].x < x <= c[k].x
    ensures InReach(c, x)
    ensures OnLine(c[k - 1], c[k], x, Eval(c, x))
  {
    EvalIsLine(c, x, k);
    hide *;
    LineOnChord(c[k - 1], c[k], x);
  }

  lemma EvalIsLine(c: Curve, x: real, k: nat)
    requires Rising(c) && 1 <= k < |c| && (k > 1 ==> c[k - 1].x < x) && x <= c[k].x
    ensures c[k - 1].x < c[k].x && InReach(c, x) && Eval(c, x) == Line(c[k - 1], c[k], x)
  {
    hide Line;
    assert k < |c| - 1 ==> c[k].x < c[|c| - 1].x;
    SegmentInReach(c, x);
    assert Segment(c, x) == k;
  }

  /** Left of the first knot the first chord goes on. */
  lemma LeftOfTheCurve(c: Curve, x: real)
    requires Rising(c) && x <= c[0].x
    ensures InReach(c, x) && OnLine(c[0], c[1], x, Eval(c, x))
  {
    EvalIsLine(c, x, 1);
    hide *;
    LineOnChord(c[0], c[1], x);
  }

  lemma LineOnChord(p: Knot, q: Knot, x: real)
    requires p.x < q.x
    ensures OnLine(p, q, x, Line(p, q, x))
  {
    var dx, dy := q.x - p.x, q.y - p.y;
    var m := dy / dx;
    assert m * dx == dy;
    assert Line(p, q, x) - p.y == m * (x - p.x);
    Commute(m, x - p.x, dx);
  }

  lemma Commute(a: real, b: real, c: real)
    ensures a * b * c == a * c * b
  {
  }
}
