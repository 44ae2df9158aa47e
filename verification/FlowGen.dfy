/** The arrival loop of traffic_gen.py: one heap merges the arrival processes of all hosts into a file ordered by
    time. */
module FlowGen {
  import opened Wrappers

  const BASE_T := 2000000000

  /** An element of `host_list`: the tuple of a host's next arrival time and the host. */
  datatype Entry = Entry(t: int, src: nat)

  datatype Flow = Flow(src: nat, dst: nat, size: int, t: int)

  /** The random draws of one turn of a host: the time to its next arrival, the attempts at a destination, the size. */
  datatype Turn = Turn(gap: nat, tries: seq<nat>, size: int)

  /** All random draws: the first arrival of each host and the `k`-th turn of each host. */
  datatype Draws = Draws(first: nat -> nat, turns: (nat, nat) -> Turn)

  /** `random.randint(0, nhost-1)` draws a host every time. */
  ghost predicate HostsDrawn(nhost: nat, d: Draws) {
    forall h: nat, k: nat, x :: x in d.turns(h, k).tries ==> x < nhost
  }

  /** The order of tuples. */
  predicate Before(a: Entry, b: Entry) {
    a.t < b.t || (a.t == b.t && a.src <= b.src)
  }

  ghost predicate IsFront(heap: set<Entry>, e: Entry) {
    e in heap && forall b :: b in heap ==> Before(e, b)
  }

  /** The front of the heap. */
  function Least(heap: set<Entry>): (e: Entry)
    requires heap != {}
    ensures e in heap && IsFront(heap, e)
  {
    LeastExists(heap);
    var e :| e in heap && forall b :: b in heap ==> Before(e, b);
    e
  }

  lemma {:induction false} LeastExists(heap: set<Entry>)
    requires heap != {}
    ensures exists e :: e in heap && forall b :: b in heap ==> Before(e, b)
  {
    var x :| x in heap;
    if heap == {x} {
      assert forall b :: b in heap ==> Before(x, b);
    } else {
      LeastExists(heap - {x});
      var e :| e in heap - {x} && forall b :: b in heap - {x} ==> Before(e, b);
      var least := if Before(e, x) then e else x;
      assert forall b :: b in heap ==> b in heap - {x} || b == x;
      assert least in heap && forall b :: b in heap ==> Before(least, b);
    }
  }

  // ----- what the loop computes

  /** The `k`-th arrival of host `h`, whatever the other hosts do. */
  ghost function Arrival(d: Draws, h: nat, k: nat): int {
    if k == 0 then BASE_T + d.first(h) else Arrival(d, h, k - 1) + d.turns(h, k - 1).gap
  }

  /** The arrival that follows the `k`-th one of `h` is not after the end of the run. */
  ghost predicate Within(d: Draws, end: real, h: nat, k: nat) {
    Arrival(d, h, k + 1) as real <= end
  }

  /** The first draw that is another host; the redraw loop takes it. */
  function FirstOther(tries: seq<nat>, src: nat): Option<nat> {
    if tries == [] then None else if tries[0] != src then Some(tries[0]) else FirstOther(tries[1..], src)
  }

  /** The destination and size of a flow are those its turn drew; sizes below 1 are raised to 1. */
  predicate Drawn(f: Flow, turn: Turn) {
    FirstOther(turn.tries, f.src) == Some(f.dst) && f.size == if turn.size <= 0 then 1 else turn.size
  }

  /** The flows of one host in file order. */
  function FlowsOf(flows: seq<Flow>, h: nat): seq<Flow> {
    if flows == [] then []
    else
      var last := flows[|flows| - 1];
      FlowsOf(flows[..|flows| - 1], h) + if last.src == h then [last] else []
  }

  function KeyOf(f: Flow): Entry {
    Entry(f.t, f.src)
  }

  ghost predicate Sorted(flows: seq<Flow>) {
    forall i, j :: 0 <= i < j < |flows| ==> Before(KeyOf(flows[i]), KeyOf(flows[j]))
  }

  ghost predicate Proper(f: Flow, nhost: nat) {
    f.src < nhost && f.dst < nhost && f.dst != f.src && f.size >= 1 && f.t >= BASE_T
  }

  /** At most one entry per host: its next arrival after the flows written for it. */
  ghost predicate HeapOk(nhost: nat, d: Draws, heap: set<Entry>, flows: seq<Flow>) {
    && (forall e :: e in heap ==> e.src < nhost && e.t == Arrival(d, e.src, |FlowsOf(flows, e.src)|))
    && (forall e, f :: e in heap && f in heap && e.src == f.src ==> e == f)
  }

  /** The flows of host `h` are its first arrivals; `live` says whether it is still in the heap. */
  ghost predicate HostOk(d: Draws, end: real, h: nat, live: bool, mine: seq<Flow>) {
    && (forall k :: 0 <= k < |mine| ==>
         mine[k].t == Arrival(d, h, k) && Within(d, end, h, k) && Drawn(mine[k], d.turns(h, k)))
    && (!live ==> !Within(d, end, h, |mine|))
  }

  predicate Live(heap: set<Entry>, h: nat) {
    exists e :: e in heap && e.src == h
  }

  ghost predicate Ahead(flows: seq<Flow>, heap: set<Entry>) {
    forall f, e :: f in flows && e in heap ==> Before(KeyOf(f), e)
  }

  ghost predicate AllProper(nhost: nat, flows: seq<Flow>) {
    forall f :: f in flows ==> Proper(f, nhost)
  }

  ghost predicate HostsOk(nhost: nat, d: Draws, end: real, heap: set<Entry>, flows: seq<Flow>) {
    forall h: nat :: h < nhost ==> HostOk(d, end, h, Live(heap, h), FlowsOf(flows, h))
  }

  ghost predicate Merging(nhost: nat, d: Draws, end: real, heap: set<Entry>, flows: seq<Flow>) {
    && HeapOk(nhost, d, heap, flows) && Sorted(flows) && Ahead(flows, heap)
    && AllProper(nhost, flows) && HostsOk(nhost, d, end, heap, flows)
  }

  // ----- the loop

  /** `heapify`: one entry for each host. */
  function FirstArrivals(nhost: nat, d: Draws): (heap: set<Entry>)
    ensures forall e :: e in heap <==> e.src < nhost && e == Entry(BASE_T + d.first(e.src), e.src)
  {
    set i: nat | 0 <= i < nhost :: Entry(BASE_T + d.first(i), i)
  }

  /** Draws until the destination is another host; `None` when the draws run out. */
  method DrawDestination(src: nat, tries: seq<nat>) returns (dst: Option<nat>)
    ensures dst == FirstOther(tries, src)
    ensures dst.Some? ==> dst.value in tries && dst.value != src
    ensures dst.None? <==> forall x :: x in tries ==> x == src
  {
    for i := 0 to |tries|
      invariant forall j :: 0 <= j < i ==> tries[j] == src
    {
      if tries[i] != src {
        FirstOtherAt(tries, src, i);
        return Some(tries[i]);
      }
    }
    FirstOtherAt(tries, src, |tries|);
    return None;
  }

  lemma {:induction false} FirstOtherAt(tries: seq<nat>, src: nat, i: nat)
    requires i <= |tries| && (forall j :: 0 <= j < i ==> tries[j] == src) && (i < |tries| ==> tries[i] != src)
    ensures FirstOther(tries, src) == if i < |tries| then Some(tries[i]) else None
  {
    if i > 0 {
      FirstOtherAt(tries[1..], src, i - 1);
    }
  }

  /** The random draws of the turn of host `h`. */
  function TurnOf(d: Draws, flows: seq<Flow>, h: nat): Turn {
    d.turns(h, |FlowsOf(flows, h)|)
  }

  /** The turns taken: each either writes a flow or retires a host. */
  function Turns(nhost: nat, flows: seq<Flow>, heap: set<Entry>): int {
    |flows| + nhost - |heap|
  }

  /** The next turn finds no destination in its draws. */
  ghost predicate Stuck(d: Draws, heap: set<Entry>, flows: seq<Flow>) {
    heap != {} && FirstOther(TurnOf(d, flows, Least(heap).src).tries, Least(heap).src).None?
  }

  /** One turn of the loop. */
  method TakeTurn(nhost: nat, d: Draws, end: real, heap: set<Entry>, flows: seq<Flow>)
    returns (taken: bool, heap': set<Entry>, flows': seq<Flow>)
    requires Merging(nhost, d, end, heap, flows) && heap != {} && HostsDrawn(nhost, d)
    ensures Merging(nhost, d, end, heap', flows')
    ensures taken ==> Turns(nhost, flows', heap') == Turns(nhost, flows, heap) + 1
    ensures !taken ==> heap' == heap && flows' == flows && Stuck(d, heap, flows)
  {
    hide Merging, Least, TurnOf, Drawn, FirstOther, Stuck, IsFront, HostsDrawn;
    var e := Least(heap);
    var turn := TurnOf(d, flows, e.src);
    var dst := DrawDestination(e.src, turn.tries);
    if dst.None? {
      NoDestination(d, heap, flows);
      return false, heap, flows;
    }
    if (e.t + turn.gap) as real > end {
      HostRetires(nhost, d, end, heap, flows, e);
      return true, heap - {e}, flows;
    }
    var size := if turn.size <= 0 then 1 else turn.size;
    var f, next := Flow(e.src, dst.value, size, e.t), Entry(e.t + turn.gap, e.src);
    TurnIsDrawn(f, turn);
    DrawnIsHost(nhost, d, flows, e.src, dst.value);
    FlowIsWritten(nhost, d, end, heap, flows, e, f, next);
    return true, heap - {e} + {next}, flows + [f];
  }

  /** The loop, for at most `rounds` turns. It stops before that only when no host is left or the draws of a destination
      run out. */
  method Generate(nhost: nat, d: Draws, end: real, rounds: nat) returns (flows: seq<Flow>, heap: set<Entry>)
    requires HostsDrawn(nhost, d)
    ensures Merging(nhost, d, end, heap, flows)
    ensures heap == {} || Turns(nhost, flows, heap) == rounds || Stuck(d, heap, flows)
  {
    hide *;
    flows, heap := [], FirstArrivals(nhost, d);
    NoTurnTaken(nhost, d, end);
    var taken, round := true, 0;
    while taken && heap != {} && round < rounds
      invariant Merging(nhost, d, end, heap, flows) && round <= rounds
      invariant if taken then Turns(nhost, flows, heap) == round else Stuck(d, heap, flows)
      decreases rounds - round
    {
      taken, heap, flows := TakeTurn(nhost, d, end, heap, flows);
      round := round + 1;
    }
  }

  lemma NoDestination(d: Draws, heap: set<Entry>, flows: seq<Flow>)
    requires heap != {} && FirstOther(TurnOf(d, flows, Least(heap).src).tries, Least(heap).src).None?
    ensures Stuck(d, heap, flows)
  {
  }

  lemma DrawnIsHost(nhost: nat, d: Draws, flows: seq<Flow>, h: nat, dst: nat)
    requires HostsDrawn(nhost, d) && dst in TurnOf(d, flows, h).tries
    ensures dst < nhost
  {
    hide FlowsOf;
  }

  lemma TurnIsDrawn(f: Flow, turn: Turn)
    requires FirstOther(turn.tries, f.src) == Some(f.dst) && f.size == if turn.size <= 0 then 1 else turn.size
    ensures Drawn(f, turn)
  {
  }

  lemma {:induction false} AllHostsWait(nhost: nat, d: Draws)
    ensures |FirstArrivals(nhost, d)| == nhost
  {
    hide FirstArrivals;
    if nhost > 0 {
      AllHostsWait(nhost - 1, d);
      OneMoreWaits(nhost - 1, d);
    } else {
      assert FirstArrivals(0, d) == {};
    }
  }

  lemma OneMoreWaits(i: nat, d: Draws)
    ensures |FirstArrivals(i + 1, d)| == |FirstArrivals(i, d)| + 1
  {
    hide FirstArrivals;
    var last := Entry(BASE_T + d.first(i), i);
    assert last !in FirstArrivals(i, d);
    assert FirstArrivals(i + 1, d) == FirstArrivals(i, d) + {last};
  }

  lemma NothingWritten(nhost: nat, d: Draws, end: real)
    ensures Merging(nhost, d, end, FirstArrivals(nhost, d), [])
  {
    forall h: nat | h < nhost
      ensures Live(FirstArrivals(nhost, d), h)
    {
      assert Entry(BASE_T + d.first(h), h) in FirstArrivals(nhost, d);
    }
  }

  lemma NoTurnTaken(nhost: nat, d: Draws, end: real)
    ensures Merging(nhost, d, end, FirstArrivals(nhost, d), []) && Turns(nhost, [], FirstArrivals(nhost, d)) == 0
  {
    hide Merging, FirstArrivals;
    NothingWritten(nhost, d, end);
    AllHostsWait(nhost, d);
  }

  lemma OthersStayLive(heap: set<Entry>, e: Entry, e': Entry, h: nat)
    requires h != e.src
    ensures Live(heap - {e}, h) <==> Live(heap, h)
    ensures e'.src == e.src ==> (Live(heap - {e} + {e'}, h) <==> Live(heap, h))
  {
    if x :| x in heap && x.src == h {
      assert x in heap - {e} && x in heap - {e} + {e'};
    }
  }

  lemma NoLongerLive(nhost: nat, d: Draws, heap: set<Entry>, flows: seq<Flow>, e: Entry)
    requires HeapOk(nhost, d, heap, flows) && e in heap
    ensures !Live(heap - {e}, e.src) && HeapOk(nhost, d, heap - {e}, flows)
  {
    hide FlowsOf, Arrival;
  }

  lemma HostsRetire(nhost: nat, d: Draws, end: real, heap: set<Entry>, flows: seq<Flow>, e: Entry)
    requires HostsOk(nhost, d, end, heap, flows) && !Live(heap - {e}, e.src)
    requires !Within(d, end, e.src, |FlowsOf(flows, e.src)|)
    ensures HostsOk(nhost, d, end, heap - {e}, flows)
  {
    hide Drawn, FlowsOf, Arrival, Within, Live;
    forall h: nat | h < nhost
      ensures HostOk(d, end, h, Live(heap - {e}, h), FlowsOf(flows, h))
    {
      if h != e.src {
        OthersStayLive(heap, e, e, h);
      }
    }
  }

  lemma HostRetires(nhost: nat, d: Draws, end: real, heap: set<Entry>, flows: seq<Flow>, e: Entry)
    requires Merging(nhost, d, end, heap, flows) && e in heap && (e.t + TurnOf(d, flows, e.src).gap) as real > end
    ensures Merging(nhost, d, end, heap - {e}, flows)
    ensures |heap - {e}| == |heap| - 1
  {
    EntryIsArrival(nhost, d, heap, flows, e);
    assert !Within(d, end, e.src, |FlowsOf(flows, e.src)|);
    hide HeapOk, HostsOk, FlowsOf, Sorted, AllProper, Arrival, Within;
    NoLongerLive(nhost, d, heap, flows, e);
    HostsRetire(nhost, d, end, heap, flows, e);
  }

  lemma {:induction false} ArrivalsRise(d: Draws, h: nat, k: nat)
    ensures Arrival(d, h, k) >= BASE_T && Arrival(d, h, k + 1) >= Arrival(d, h, k)
  {
    if k > 0 {
      ArrivalsRise(d, h, k - 1);
    }
  }

  lemma FlowsOfNext(flows: seq<Flow>, f: Flow, h: nat)
    ensures FlowsOf(flows + [f], h) == FlowsOf(flows, h) + if f.src == h then [f] else []
  {
    assert (flows + [f])[..|flows|] == flows;
  }

  lemma HostsGoOn(nhost: nat, d: Draws, end: real, heap: set<Entry>, flows: seq<Flow>, e: Entry, f: Flow, e': Entry)
    requires HostsOk(nhost, d, end, heap, flows) && e in heap && e'.src == e.src == f.src
    requires f.t == Arrival(d, e.src, |FlowsOf(flows, e.src)|) && Within(d, end, e.src, |FlowsOf(flows, e.src)|)
    requires Drawn(f, TurnOf(d, flows, e.src))
    ensures HostsOk(nhost, d, end, heap - {e} + {e'}, flows + [f])
  {
    hide FlowsOf, Arrival, Within;
    assert e' in heap - {e} + {e'};
    forall h: nat | h < nhost
      ensures HostOk(d, end, h, Live(heap - {e} + {e'}, h), FlowsOf(flows + [f], h))
    {
      FlowsOfNext(flows, f, h);
      if h != e.src {
        OthersStayLive(heap, e, e', h);
      }
    }
  }

  lemma HeapGoesOn(nhost: nat, d: Draws, heap: set<Entry>, flows: seq<Flow>, e: Entry, f: Flow, e': Entry)
    requires HeapOk(nhost, d, heap, flows) && e in heap && e'.src == e.src == f.src
    requires e'.t == Arrival(d, e.src, |FlowsOf(flows, e.src)| + 1)
    ensures HeapOk(nhost, d, heap - {e} + {e'}, flows + [f])
  {
    hide FlowsOf, Arrival;
    forall h: nat
      ensures FlowsOf(flows + [f], h) == FlowsOf(flows, h) + if f.src == h then [f] else []
    {
      FlowsOfNext(flows, f, h);
    }
  }

  /** The front of the heap is not before anything written and not after anything left. */
  lemma OrderGoesOn(heap: set<Entry>, flows: seq<Flow>, e: Entry, f: Flow, e': Entry)
    requires Sorted(flows) && Ahead(flows, heap) && IsFront(heap, e)
    requires KeyOf(f) == e && Before(e, e')
    ensures Sorted(flows + [f]) && Ahead(flows + [f], heap - {e} + {e'})
  {
  }

  lemma EntryIsArrival(nhost: nat, d: Draws, heap: set<Entry>, flows: seq<Flow>, e: Entry)
    requires HeapOk(nhost, d, heap, flows) && e in heap
    ensures e.src < nhost && e.t >= BASE_T
    ensures e.t == Arrival(d, e.src, |FlowsOf(flows, e.src)|)
    ensures e.t + TurnOf(d, flows, e.src).gap == Arrival(d, e.src, |FlowsOf(flows, e.src)| + 1)
  {
    hide FlowsOf;
    ArrivalsRise(d, e.src, |FlowsOf(flows, e.src)|);
  }

  lemma OneEntryPerHost(nhost: nat, d: Draws, heap: set<Entry>, flows: seq<Flow>, e: Entry, e': Entry)
    requires HeapOk(nhost, d, heap, flows) && e in heap && e'.src == e.src
    ensures e' !in heap - {e} && |heap - {e} + {e'}| == |heap|
  {
    hide FlowsOf, Arrival;
  }

  lemma FlowIsWritten(nhost: nat, d: Draws, end: real, heap: set<Entry>, flows: seq<Flow>, e: Entry, f: Flow, e': Entry)
    requires Merging(nhost, d, end, heap, flows) && IsFront(heap, e)
    requires f == Flow(e.src, f.dst, f.size, e.t) && f.dst < nhost && f.dst != e.src && f.size >= 1
    requires Drawn(f, TurnOf(d, flows, e.src))
    requires e' == Entry(e.t + TurnOf(d, flows, e.src).gap, e.src) && e'.t as real <= end
    ensures Merging(nhost, d, end, heap - {e} + {e'}, flows + [f])
    ensures |heap - {e} + {e'}| == |heap|
  {
    hide FlowsOf, Arrival, Sorted, Ahead, HostsOk, HeapOk, TurnOf, Drawn;
    OneEntryPerHost(nhost, d, heap, flows, e, e');
    EntryIsArrival(nhost, d, heap, flows, e);
    OrderGoesOn(heap, flows, e, f, e');
    HeapGoesOn(nhost, d, heap, flows, e, f, e');
    HostsGoOn(nhost, d, end, heap, flows, e, f, e');
  }

  // ----- the finished file

  lemma {:induction false} WithinIsPrefix(d: Draws, end: real, h: nat, j: nat, k: nat)
    requires j <= k && Within(d, end, h, k)
    ensures Within(d, end, h, j)
    decreases k - j
  {
    if j < k {
      WithinIsPrefix(d, end, h, j + 1, k);
      ArrivalsRise(d, h, j + 1);
    }
  }

  /** Once the heap is empty, the flows of each host are exactly those of its arrivals whose next arrival is still in
      time: its last arrival is never written, even when it is in time itself. */
  lemma FinishedFile(nhost: nat, d: Draws, end: real, flows: seq<Flow>, h: nat, k: nat)
    requires Merging(nhost, d, end, {}, flows) && h < nhost
    ensures k < |FlowsOf(flows, h)| <==> Within(d, end, h, k)
    ensures k < |FlowsOf(flows, h)| ==> FlowsOf(flows, h)[k].t == Arrival(d, h, k)
  {
    var n := |FlowsOf(flows, h)|;
    assert HostOk(d, end, h, Live({}, h), FlowsOf(flows, h));
    hide FlowsOf, Within;
    if k >= n && Within(d, end, h, k) {
      WithinIsPrefix(d, end, h, n, k);
    }
  }

  // ----- the flows of one host, number by number

  ghost predicate IsFirstOther(tries: seq<nat>, src: nat, dst: nat) {
    exists i :: 0 <= i < |tries| && tries[i] == dst && dst != src && forall j :: 0 <= j < i ==> tries[j] == src
  }

  lemma {:induction false} FirstOtherIs(tries: seq<nat>, src: nat, dst: nat)
    requires FirstOther(tries, src) == Some(dst)
    ensures IsFirstOther(tries, src, dst)
  {
    if tries[0] == src {
      FirstOtherIs(tries[1..], src, dst);
      var i :| 0 <= i < |tries[1..]| && tries[1..][i] == dst && forall j :: 0 <= j < i ==> tries[1..][j] == src;
      assert tries[i + 1] == dst;
      forall j | 0 <= j < i + 1
        ensures tries[j] == src
      {
        assert j > 0 ==> tries[j] == tries[1..][j - 1];
      }
    } else {
      assert tries[0] == dst;
    }
  }

  /** Two seconds into the simulation plus the host's first draw, and from each of its flows to the next the gap that
      was drawn; sizes as drawn but at least one byte; destinations the first other host drawn. */
  lemma FlowOfHost(nhost: nat, d: Draws, end: real, heap: set<Entry>, flows: seq<Flow>, h: nat, k: nat)
    requires Merging(nhost, d, end, heap, flows) && h < nhost && k < |FlowsOf(flows, h)|
    ensures var mine := FlowsOf(flows, h);
      && mine[0].t == 2000000000 + d.first(h)
      && (k + 1 < |mine| ==> mine[k + 1].t == mine[k].t + d.turns(h, k).gap)
      && mine[k].size >= 1 && (mine[k].size == d.turns(h, k).size || (mine[k].size == 1 && d.turns(h, k).size <= 0))
      && mine[k].src == h && mine[k].dst < nhost && IsFirstOther(d.turns(h, k).tries, h, mine[k].dst)
      && (mine[k].t + d.turns(h, k).gap) as real <= end
  {
    var mine := FlowsOf(flows, h);
    assert HostOk(d, end, h, Live(heap, h), mine);
    OfHost(flows, h, k);
    assert Proper(mine[k], nhost);
    hide FlowsOf, FirstOther;
    assert Drawn(mine[k], d.turns(h, k));
    FirstOtherIs(d.turns(h, k).tries, h, mine[k].dst);
  }

  lemma {:induction false} OfHost(flows: seq<Flow>, h: nat, k: nat)
    requires k < |FlowsOf(flows, h)|
    ensures FlowsOf(flows, h)[k] in flows && FlowsOf(flows, h)[k].src == h
  {
    var n := |flows| - 1;
    var front := FlowsOf(flows[..n], h);
    if k < |front| {
      OfHost(flows[..n], h, k);
    }
  }
}
