/** The bin-building loop of flow_bins.py. */
module FlowBins {
  import opened Lists
  import opened Wrappers
  import opened PiecewiseLinear
  import opened CustomRand

  /** Python's `int` of a size, which is not negative here. */
  function Int(v: real): int {
    v.Floor
  }

  function Ceil(p: real): int {
    -((-p).Floor)
  }

  /** The loop's state: `x` is the size at percentile `p`, cut to an integer. */
  ghost predicate Binning(cdf: Curve, x: int, p: real) {
    ValidCdf(cdf) && cdf[0].x >= 0.0 && 0.0 <= p <= 100.0 && x == Int(Value(cdf, p)) && x >= 0
  }

  /** Each bin is smaller than the one before, and not below its integer half when that one is above 1000. */
  ghost predicate Falling(bins: seq<int>) {
    && (forall i :: 0 <= i < |bins| ==> bins[i] > 0)
    && (forall i, j :: 0 <= i < j < |bins| ==> bins[j] < bins[i])
    && (forall i, j :: 0 <= i && j == i + 1 && j < |bins| && bins[i] > 1000 ==> bins[j] >= bins[i] / 2)
  }

  /** The bins so far and the next size `x`: its predecessor `last` is the last bin or `x` itself. */
  ghost predicate Feeds(bins: seq<int>, x: int) {
    bins == [] || (x <= bins[|bins| - 1] && (bins[|bins| - 1] > 1000 ==> x >= bins[|bins| - 1] / 2))
  }

  lemma AppendFalls(bins: seq<int>, x: int)
    requires Falling(bins) && Feeds(bins, x) && x > 0 && (bins == [] || x != bins[|bins| - 1])
    ensures Falling(bins + [x])
  {
    var more := bins + [x];
    forall i, j | 0 <= i < j < |more|
      ensures more[j] < more[i]
    {
      if j == |bins| {
        assert bins[|bins| - 1] <= bins[i];
      }
    }
  }

  lemma Fed(bins: seq<int>, x: int)
    requires bins != [] && x <= bins[|bins| - 1] && (bins[|bins| - 1] > 1000 ==> x >= bins[|bins| - 1] / 2)
    ensures Feeds(bins, x)
  {
  }

  lemma Start(cdf: Curve)
    requires ValidCdf(cdf) && cdf[0].x >= 0.0
    ensures Binning(cdf, Int(Value(cdf, 100.0)), 100.0)
  {
    ValueRange(cdf, 100.0);
  }

  /** Stepping down one percentile cannot raise the size. */
  lemma StepDown(cdf: Curve, x: int, p: real, p1: real)
    requires Binning(cdf, x, p) && 0.0 <= p1 <= p
    ensures Binning(cdf, Int(Value(cdf, p1)), p1) && 0 <= Int(Value(cdf, p1)) <= x && ValidCdf(cdf)
  {
    ValueRange(cdf, p1);
    if p1 < p {
      ValueRises(cdf, p1, p);
    }
    hide ValidCdf, Value;
  }

  /** Jumping to the integer half of a large size lands on its percentile: never the error exit. */
  lemma JumpToHalf(cdf: Curve, x: int, p: real, p1: real)
    requires Binning(cdf, x, p) && 0.0 <= p1 <= p && x > 1000 && Int(Value(cdf, p1)) < x / 2
    ensures var q := Percentile(cdf, (x / 2) as real);
      q >= 0.0 && q > p1 && Binning(cdf, x / 2, q) && Value(cdf, q) == (x / 2) as real
  {
    ValueRange(cdf, p1);
    ValueRange(cdf, p);
    var v := (x / 2) as real;
    assert Value(cdf, p1) < v <= Value(cdf, p);
    ValueOfPercentile(cdf, v);
    var q := Percentile(cdf, v);
    if q < p1 {
      ValueRises(cdf, q, p1);
    }
  }

  lemma CeilDrops(p: real)
    ensures p > 2.0 ==> Ceil(p - 1.0) < Ceil(p) && Ceil(p - 1.0) >= 0
    ensures 1.0 < p <= 2.0 ==> Ceil(1.0) < Ceil(p)
    ensures p >= 0.0 ==> Ceil(p) >= 0
  {
    assert (-(p - 1.0)) == -p + 1.0;
    assert (1.0).Floor == 1 && (-1.0).Floor == -1;
  }

  /** Sorting a falling list reverses it. */
  lemma SortedIsReversed(bins: seq<int>)
    requires Falling(bins)
    ensures forall i, j :: 0 <= i < j < |bins| ==> Reversed(bins)[i] < Reversed(bins)[j]
    ensures forall x :: x in bins <==> x in Reversed(bins)
  {
    var r := Reversed(bins);
    forall x
      ensures x in bins <==> x in r
    {
      if x in bins {
        var i :| 0 <= i < |bins| && bins[i] == x;
        assert r[|bins| - 1 - i] == x;
      }
    }
  }

  /** From size `x` the loop aims at percentile `p1`; it lands there, or on the percentile whose size is half of `x`
      when `x` is above 1000 and the size at `p1` below that half. */
  ghost predicate LandsOn(cdf: Curve, x: int, p1: real, q: real) {
    && ValidCdf(cdf) && p1 <= 100.0 && q <= 100.0
    && if x > 1000 && Value(cdf, p1).Floor < x / 2 then Value(cdf, q) == (x / 2) as real else q == p1
  }

  /** The size at the next percentile `p1`, but not below half of `x` when `x` is above 1000. */
  method NextSize(dist: Distribution, x: int, p: real, p1: real) returns (x1: int, q: real)
    requires Binning(dist.cdf, x, p) && 0.0 <= p1 <= p
    ensures Binning(dist.cdf, x1, q) && q >= p1 && x1 <= x && (x1 == x ==> q == p1) && (x > 1000 ==> x1 >= x / 2)
    ensures LandsOn(dist.cdf, x, p1, q)
  {
    StepDown(dist.cdf, x, p, p1);
    var v := dist.GetValueFromPercentile(p1);
    hide Binning, ValidCdf, Value, Percentile;
    x1, q := Int(v.value), p1;
    if x1 < x / 2 && x > 1000 {
      JumpToHalf(dist.cdf, x, p, p1);
      x1 := x / 2;
      q := dist.GetPercentileFromValue(x1 as real);
    }
  }

  ghost predicate IsBin(cdf: Curve, b: int) {
    exists p :: Binning(cdf, b, p)
  }

  /** Some percentile at most 1 above `y` has a size that is a bin or `x`. */
  ghost predicate Covered(cdf: Curve, bins: seq<int>, x: int, y: real)
    requires ValidCdf(cdf)
  {
    exists q :: y <= q <= y + 1.0 && q <= 100.0 && (Int(Value(cdf, q)) in bins || Int(Value(cdf, q)) == x)
  }

  ghost predicate CoveredFrom(cdf: Curve, bins: seq<int>, x: int, p: real)
    requires ValidCdf(cdf)
  {
    forall y :: p <= y <= 100.0 ==> Covered(cdf, bins, x, y)
  }

  /** The bins of a distribution: from the largest size down, falling by at most one percentile or to half at a time,
      each the integer size at some percentile, and none left out: within one percentile above any percentile from 1 on,
      some size is a bin (or 0). */
  ghost predicate AreBins(cdf: Curve, bins: seq<int>) {
    && ValidCdf(cdf) && |cdf| >= 2 && Falling(bins) && (forall b :: b in bins ==> IsBin(cdf, b))
    && CoveredFrom(cdf, bins, 0, 1.0)
    && var top := Int(cdf[|cdf| - 1].x); if top > 0 then bins != [] && bins[0] == top else bins == []
  }

  /** The loop's invariant; `top` is the largest size. */
  ghost predicate Building(cdf: Curve, built: seq<int>, x: int, p: real, top: int) {
    && Binning(cdf, x, p) && ValidCdf(cdf) && Falling(built) && Feeds(built, x)
    && (if built == [] then x == top else built[0] == top)
    && (forall b :: b in built ==> IsBin(cdf, b))
    && CoveredFrom(cdf, built, x, p)
  }

  lemma BuildingAppends(cdf: Curve, built: seq<int>, x: int, p: real, top: int)
    requires Building(cdf, built, x, p, top) && x > 0 && (built == [] || x != built[|built| - 1])
    ensures Building(cdf, built + [x], x, p, top)
  {
    AppendFalls(built, x);
    assert IsBin(cdf, x);
    hide Binning, Falling, IsBin, ValidCdf, Value;
    forall y | p <= y <= 100.0
      ensures Covered(cdf, built + [x], x, y)
    {
      assert Covered(cdf, built, x, y);
    }
  }

  lemma CoverMoves(cdf: Curve, built: seq<int>, x: int, p: real, x1: int, q: real)
    requires ValidCdf(cdf) && Binning(cdf, x, p) && x in built && CoveredFrom(cdf, built, x, p) && q >= p - 1.0
    ensures CoveredFrom(cdf, built, x1, q)
  {
    assert x == Int(Value(cdf, p)) && p <= 100.0;
    hide Binning, ValidCdf, Value;
    forall y | q <= y <= 100.0
      ensures Covered(cdf, built, x1, y)
    {
      if y >= p {
        assert Covered(cdf, built, x, y);
      }
    }
  }

  lemma BuildingMoves(cdf: Curve, built: seq<int>, x: int, p: real, top: int, x1: int, q: real)
    requires Building(cdf, built, x, p, top) && built != [] && built[|built| - 1] == x
    requires Binning(cdf, x1, q) && x1 <= x && (x > 1000 ==> x1 >= x / 2) && q >= p - 1.0
    ensures Building(cdf, built, x1, q, top)
  {
    hide Binning, Falling, IsBin, CoveredFrom, ValidCdf;
    Fed(built, x1);
    CoverMoves(cdf, built, x, p, x1, q);
  }

  lemma BuildingStarts(cdf: Curve)
    requires ValidCdf(cdf) && cdf[0].x >= 0.0
    ensures |cdf| >= 2 && Building(cdf, [], Int(Value(cdf, 100.0)), 100.0, Int(cdf[|cdf| - 1].x))
  {
    WholeRange(cdf);
    Start(cdf);
    hide Value;
    var x := Int(Value(cdf, 100.0));
    forall y | 100.0 <= y <= 100.0
      ensures Covered(cdf, [], x, y)
    {
      assert y == 100.0;
    }
  }

  /** At the end the sizes at all percentiles below are 0, or percentile 1 is reached. */
  lemma CoverEnds(cdf: Curve, built: seq<int>, x: int, p: real)
    requires ValidCdf(cdf) && Binning(cdf, x, p) && CoveredFrom(cdf, built, x, p)
    requires x <= 0 || (p <= 1.0 && x in built)
    ensures CoveredFrom(cdf, built, 0, 1.0)
  {
    forall y | 1.0 <= y <= 100.0
      ensures Covered(cdf, built, 0, y)
    {
      if y >= p {
        assert Covered(cdf, built, x, y);
      } else {
        StepDown(cdf, x, p, y);
        assert Int(Value(cdf, y)) == 0;
      }
    }
  }

  lemma BuildingEnds(cdf: Curve, built: seq<int>, x: int, p: real, top: int)
    requires Building(cdf, built, x, p, top) && top == Int(cdf[|cdf| - 1].x)
    requires x <= 0 || (p <= 1.0 && built != [] && built[|built| - 1] == x)
    ensures AreBins(cdf, built)
  {
    CoverEnds(cdf, built, x, p);
    hide Binning, IsBin, CoveredFrom, ValidCdf;
    assert |cdf| >= 2;
    assert built != [] ==> built[0] > 0;
  }

  // ----- which percentiles the loop visits

  /** One turn at percentile `p`: one percentile down, but not below 1, or to the half of the size. */
  ghost predicate StepsTo(cdf: Curve, p: real, q: real) {
    && ValidCdf(cdf) && 1.0 < p <= 100.0 && Value(cdf, p).Floor > 0
    && LandsOn(cdf, Value(cdf, p).Floor, if p > 2.0 then p - 1.0 else 1.0, q)
  }

  /** The percentiles from 100 down. */
  ghost predicate Descends(cdf: Curve, ps: seq<real>) {
    && ValidCdf(cdf) && ps != [] && ps[0] == 100.0 && (forall i :: 0 <= i < |ps| ==> 1.0 <= ps[i] <= 100.0)
    && forall i, j :: 0 <= i && j == i + 1 && j < |ps| ==> StepsTo(cdf, ps[i], ps[j])
  }

  /** They end at percentile 1 or at the first size that is not positive. */
  ghost predicate DescendsToEnd(cdf: Curve, ps: seq<real>) {
    Descends(cdf, ps) && (ps[|ps| - 1] == 1.0 || Value(cdf, ps[|ps| - 1]).Floor <= 0)
  }

  ghost predicate IsSizeAt(cdf: Curve, p: real, b: int) {
    ValidCdf(cdf) && p <= 100.0 && Value(cdf, p).Floor == b
  }

  /** `bins` are the positive sizes at the first `n` percentiles of `ps`. */
  ghost predicate HoldsSizes(cdf: Curve, ps: seq<real>, n: nat, bins: seq<int>) {
    n <= |ps| && forall b :: b in bins <==> b > 0 && IsSizeAmong(cdf, ps, n, b)
  }

  ghost predicate IsSizeAmong(cdf: Curve, ps: seq<real>, n: nat, b: int) {
    exists i :: 0 <= i < n && i < |ps| && IsSizeAt(cdf, ps[i], b)
  }

  lemma SizeIsOne(cdf: Curve, p: real, b: int, b': int)
    requires IsSizeAt(cdf, p, b) && IsSizeAt(cdf, p, b')
    ensures b == b'
  {
  }

  /** The size `x` at the next percentile joins the bins, unless it is 0 or the last bin already. */
  lemma HoldsNext(cdf: Curve, ps: seq<real>, n: nat, bins: seq<int>, x: int, bins': seq<int>)
    requires HoldsSizes(cdf, ps, n, bins) && n < |ps| && IsSizeAt(cdf, ps[n], x)
    requires bins' == if x <= 0 || x in bins then bins else bins + [x]
    ensures HoldsSizes(cdf, ps, n + 1, bins')
  {
    forall b
      ensures IsSizeAmong(cdf, ps, n + 1, b) <==> IsSizeAmong(cdf, ps, n, b) || b == x
    {
      if IsSizeAt(cdf, ps[n], b) {
        SizeIsOne(cdf, ps[n], b, x);
      }
    }
  }

  lemma DescendsNext(cdf: Curve, ps: seq<real>, q: real)
    requires Descends(cdf, ps) && StepsTo(cdf, ps[|ps| - 1], q) && 1.0 <= q <= 100.0
    ensures Descends(cdf, ps + [q])
  {
    hide StepsTo;
  }

  /** The loop's second invariant: it is at the last percentile visited, and has taken the sizes of `held` ones. */
  ghost predicate Visiting(cdf: Curve, ps: seq<real>, held: nat, built: seq<int>, x: int, p: real) {
    && Descends(cdf, ps) && ps[|ps| - 1] == p && IsSizeAt(cdf, p, x)
    && HoldsSizes(cdf, ps, held, built)
  }

  lemma VisitingStarts(cdf: Curve, x: int)
    requires ValidCdf(cdf) && x == Int(Value(cdf, 100.0))
    ensures Visiting(cdf, [100.0], 0, [], x, 100.0)
  {
  }

  lemma LastIsLeast(built: seq<int>, x: int)
    requires Falling(built) && Feeds(built, x)
    ensures x in built <==> built != [] && built[|built| - 1] == x
  {
    if x in built {
      var i :| 0 <= i < |built| && built[i] == x;
      assert i < |built| - 1 ==> built[|built| - 1] < built[i];
    }
  }

  lemma VisitingTakes(cdf: Curve, ps: seq<real>, held: nat, built: seq<int>, x: int, p: real, built': seq<int>)
    requires Visiting(cdf, ps, held, built, x, p) && held + 1 == |ps| && Falling(built) && Feeds(built, x)
    requires built' == if x <= 0 || (built != [] && x == built[|built| - 1]) then built else built + [x]
    ensures Visiting(cdf, ps, held + 1, built', x, p)
  {
    LastIsLeast(built, x);
    hide Descends, HoldsSizes, IsSizeAt, Falling, Feeds;
    if x <= 0 {
      HoldsNext(cdf, ps, held, built, x, built);
    } else {
      HoldsNext(cdf, ps, held, built, x, built');
    }
  }

  lemma VisitingMoves(cdf: Curve, ps: seq<real>, built: seq<int>, x: int, p: real, p1: real, x1: int, q: real)
    requires Visiting(cdf, ps, |ps|, built, x, p) && x > 0 && p > 1.0
    requires p1 == if p > 2.0 then p - 1.0 else 1.0
    requires LandsOn(cdf, x, p1, q) && q >= p1 && IsSizeAt(cdf, q, x1)
    ensures Visiting(cdf, ps + [q], |ps|, built, x1, q)
  {
    assert StepsTo(cdf, p, q);
    hide StepsTo, LandsOn;
    DescendsNext(cdf, ps, q);
    hide Descends;
    HoldsLonger(cdf, ps, built, q);
  }

  lemma HoldsLonger(cdf: Curve, ps: seq<real>, built: seq<int>, q: real)
    requires HoldsSizes(cdf, ps, |ps|, built)
    ensures HoldsSizes(cdf, ps + [q], |ps|, built)
  {
    hide IsSizeAt;
    var longer := ps + [q];
    assert forall i :: 0 <= i < |ps| ==> longer[i] == ps[i];
    forall b
      ensures IsSizeAmong(cdf, ps, |ps|, b) <==> IsSizeAmong(cdf, longer, |ps|, b)
    {
    }
  }

  lemma VisitingEnds(cdf: Curve, ps: seq<real>, built: seq<int>, x: int, p: real)
    requires Visiting(cdf, ps, |ps|, built, x, p) && (x <= 0 || p <= 1.0)
    ensures DescendsToEnd(cdf, ps) && HoldsSizes(cdf, ps, |ps|, built)
  {
    hide StepsTo, HoldsSizes;
  }

  lemma BuildingFacts(cdf: Curve, built: seq<int>, x: int, p: real, top: int)
    requires Building(cdf, built, x, p, top)
    ensures Falling(built) && Feeds(built, x) && Binning(cdf, x, p) && IsSizeAt(cdf, p, x)
  {
    hide Falling, Feeds, CoveredFrom, IsBin;
  }

  /** Both invariants after a move to the size `x1` at percentile `q`, aimed at `p1`. */
  lemma TurnMoves(cdf: Curve, ps: seq<real>, built: seq<int>, x: int, p: real, top: int, p1: real, x1: int, q: real)
    requires Building(cdf, built, x, p, top) && built != [] && built[|built| - 1] == x && x > 0
    requires Visiting(cdf, ps, |ps|, built, x, p) && p > 1.0 && p1 == if p > 2.0 then p - 1.0 else 1.0
    requires Binning(cdf, x1, q) && q >= p1 && x1 <= x && (x > 1000 ==> x1 >= x / 2) && LandsOn(cdf, x, p1, q)
    ensures Building(cdf, built, x1, q, top) && Visiting(cdf, ps + [q], |ps|, built, x1, q)
  {
    hide *;
    BuildingMoves(cdf, built, x, p, top, x1, q);
    BuildingFacts(cdf, built, x1, q, top);
    VisitingMoves(cdf, ps, built, x, p, p1, x1, q);
  }

  /** The loop: `None` is the "error" exit, which is never taken. The bins are returned as built, largest first,
      together with the percentiles visited; they are exactly the positive sizes at these. */
  method BuildBins(dist: Distribution) returns (bins: Option<seq<int>>, ghost ps: seq<real>)
    requires ValidCdf(dist.cdf) && dist.cdf[0].x >= 0.0
    ensures bins.Some? && AreBins(dist.cdf, bins.value)
    ensures DescendsToEnd(dist.cdf, ps) && HoldsSizes(dist.cdf, ps, |ps|, bins.value)
  {
    var cdf := dist.cdf;
    BuildingStarts(cdf);
    var v := dist.GetValueFromPercentile(100.0);
    VisitingStarts(cdf, Int(v.value));
    hide *;
    var x, p := Int(v.value), 100.0;
    ghost var top := Int(cdf[|cdf| - 1].x);
    var built: seq<int> := [];
    ghost var held := 0;
    ps := [100.0];
    while x > 0
      invariant Building(cdf, built, x, p, top)
      invariant held + 1 == |ps| && Visiting(cdf, ps, held, built, x, p)
      decreases x, Ceil(p)
    {
      BuildingFacts(cdf, built, x, p, top);
      ghost var before := built;
      if built == [] || x != built[|built| - 1] {
        BuildingAppends(cdf, built, x, p, top);
        built := built + [x];
      }
      VisitingTakes(cdf, ps, held, before, x, p, built);
      held := held + 1;
      CeilDrops(p);
      var p1: real;
      if p > 2.0 {
        p1 := p - 1.0;
      } else if p > 1.0 {
        p1 := 1.0;
      } else {
        break;
      }
      ghost var aim := p1;
      var x1;
      x1, p1 := NextSize(dist, x, p, p1);
      if p1 < 0.0 {
        return None, ps;
      }
      TurnMoves(cdf, ps, built, x, p, top, aim, x1, p1);
      x, p, ps := x1, p1, ps + [p1];
    }
    BuildingFacts(cdf, built, x, p, top);
    if x <= 0 {
      VisitingTakes(cdf, ps, held, built, x, p, built);
    }
    VisitingEnds(cdf, ps, built, x, p);
    BuildingEnds(cdf, built, x, p, top);
    return Some(built), ps;
  }

  lemma LandsOnOne(cdf: Curve, x: int, p1: real, q: real, q': real)
    requires LandsOn(cdf, x, p1, q) && LandsOn(cdf, x, p1, q')
    ensures q == q'
  {
    if q < q' {
      ValueRises(cdf, q, q');
    } else if q' < q {
      ValueRises(cdf, q', q);
    }
  }

  lemma {:induction false} SamePercentile(cdf: Curve, ps: seq<real>, qs: seq<real>, k: nat)
    requires Descends(cdf, ps) && Descends(cdf, qs) && k < |ps| && k < |qs|
    ensures ps[k] == qs[k]
  {
    if k > 0 {
      var before := k - 1;
      SamePercentile(cdf, ps, qs, before);
      assert StepsTo(cdf, ps[before], ps[k]) && StepsTo(cdf, qs[before], qs[k]);
      hide LandsOn, Value, ValidCdf, Descends;
      var p := ps[before];
      LandsOnOne(cdf, Value(cdf, p).Floor, if p > 2.0 then p - 1.0 else 1.0, ps[k], qs[k]);
    }
  }

  lemma EndedIsLonger(cdf: Curve, ps: seq<real>, qs: seq<real>)
    requires DescendsToEnd(cdf, ps) && Descends(cdf, qs)
    ensures |qs| <= |ps|
  {
    var last, next := |ps| - 1, |ps|;
    hide LandsOn, ValidCdf, Value;
    if next < |qs| {
      assert StepsTo(cdf, qs[last], qs[next]);
      SamePercentile(cdf, ps, qs, last);
    }
  }

  /** A distribution has one list of bins only: the percentiles are determined, and so are the sizes at them. */
  lemma BinsAreDetermined(cdf: Curve, ps: seq<real>, bins: seq<int>, ps': seq<real>, bins': seq<int>)
    requires DescendsToEnd(cdf, ps) && HoldsSizes(cdf, ps, |ps|, bins)
    requires DescendsToEnd(cdf, ps') && HoldsSizes(cdf, ps', |ps'|, bins')
    ensures ps == ps' && forall b :: b in bins <==> b in bins'
  {
    EndedIsLonger(cdf, ps, ps');
    EndedIsLonger(cdf, ps', ps);
    forall k | 0 <= k < |ps|
      ensures ps[k] == ps'[k]
    {
      SamePercentile(cdf, ps, ps', k);
    }
    hide Descends, IsSizeAmong;
  }

  /** No bin is below the size at percentile 1. */
  lemma BinsAboveFirstPercentile(cdf: Curve, ps: seq<real>, bins: seq<int>, b: int)
    requires Descends(cdf, ps) && HoldsSizes(cdf, ps, |ps|, bins) && b in bins
    ensures ValidCdf(cdf) && b >= Value(cdf, 1.0).Floor
  {
    assert IsSizeAmong(cdf, ps, |ps|, b);
    var i :| 0 <= i < |ps| && IsSizeAt(cdf, ps[i], b);
    if ps[i] > 1.0 {
      ValueRises(cdf, 1.0, ps[i]);
    }
  }

  lemma WholeRange(cdf: Curve)
    requires ValidCdf(cdf)
    ensures |cdf| >= 2 && Value(cdf, 100.0) == cdf[|cdf| - 1].x
  {
    FlipRises(cdf);
    EvalAtKnot(Flip(cdf), |cdf| - 1);
  }

  /** A bin's percentile is a percentile, and has exactly this size, if and only if the bin is not below the first
      size. */
  lemma PercentileOfBin(cdf: Curve, b: int)
    requires IsBin(cdf, b)
    ensures ValidCdf(cdf) && |cdf| > 0
    ensures cdf[0].x <= b as real ==>
      0.0 <= Percentile(cdf, b as real) <= 100.0 && Value(cdf, Percentile(cdf, b as real)) == b as real
    ensures b as real < cdf[0].x ==> Percentile(cdf, b as real) < 0.0
  {
    BinInRange(cdf, b);
    var x := b as real;
    if cdf[0].x <= x {
      ValueOfPercentile(cdf, x);
    } else {
      EvalAtKnot(cdf, 0);
      EvalRises(cdf, x, cdf[0].x);
    }
  }

  /** The program: the bins sorted, each with its percentile. */
  method PrintedBins(dist: Distribution)
    returns (rows: Option<seq<(int, real)>>, ghost bins: seq<int>, ghost ps: seq<real>)
    requires ValidCdf(dist.cdf) && dist.cdf[0].x >= 0.0
    ensures rows.Some? && AreBins(dist.cdf, bins) && |rows.value| == |bins|
    ensures DescendsToEnd(dist.cdf, ps) && HoldsSizes(dist.cdf, ps, |ps|, bins)
    ensures forall i :: 0 <= i < |bins| ==>
      rows.value[i].0 == Reversed(bins)[i] && rows.value[i].1 == Percentile(dist.cdf, rows.value[i].0 as real)
    ensures forall i, j :: 0 <= i < j < |bins| ==> rows.value[i].0 < rows.value[j].0
    ensures forall i :: 0 <= i < |bins| ==> (rows.value[i].1 >= 0.0 <==> rows.value[i].0 as real >= dist.cdf[0].x)
  {
    var built;
    built, ps := BuildBins(dist);
    bins := built.value;
    var sorted := Reversed(built.value);
    SortedIsReversed(bins);
    forall b | b in bins
      ensures IsBin(dist.cdf, b)
    {
    }
    hide *;
    var out: seq<(int, real)> := [];
    for i := 0 to |sorted|
      invariant |out| == i
      invariant forall k :: 0 <= k < i ==> out[k].0 == sorted[k] && out[k].1 == Percentile(dist.cdf, sorted[k] as real)
    {
      var p := dist.GetPercentileFromValue(sorted[i] as real);
      out := out + [(sorted[i], p)];
    }
    forall i | 0 <= i < |out|
      ensures out[i].1 >= 0.0 <==> out[i].0 as real >= dist.cdf[0].x
    {
      assert sorted[i] in bins;
      PercentileOfBin(dist.cdf, sorted[i]);
    }
    return Some(out), bins, ps;
  }

  lemma BinInRange(cdf: Curve, b: int)
    requires IsBin(cdf, b)
    ensures ValidCdf(cdf) && 0.0 <= b as real <= cdf[|cdf| - 1].x
  {
    var p :| Binning(cdf, b, p);
    ValueRange(cdf, p);
  }
}
