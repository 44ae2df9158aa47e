/** `CalculateRoute` and `CalculateRoutes` of rdma-simulator.cc: equal-cost next hops by breadth-first search from a
    host. */
module Routing {
  import opened Lists
  import opened Topology

  function HopsOf(nextHop: map<Node, seq<Node>>, x: Node): seq<Node> {
    if x in nextHop then nextHop[x] else []
  }

  /** The nodes of `s` from which `x` is one up link further. */
  ghost function Nearer(t: Network, s: seq<Node>, dis: map<Node, nat>, x: Node): seq<Node> {
    if s == [] then []
    else
      var u := s[|s| - 1];
      Nearer(t, s[..|s| - 1], dis, x) +
        if UpEdge(t, u, x) && u in dis && x in dis && dis[u] + 1 == dis[x] then [u] else []
  }

  lemma {:induction false} NearerMembers(t: Network, s: seq<Node>, dis: map<Node, nat>, x: Node)
    ensures forall u :: u in Nearer(t, s, dis, x) <==>
      u in s && UpEdge(t, u, x) && u in dis && x in dis && dis[u] + 1 == dis[x]
    ensures Distinct(s) ==> Distinct(Nearer(t, s, dis, x))
  {
    if s != [] {
      NearerMembers(t, s[..|s| - 1], dis, x);
    }
  }

  /** Distances given to other nodes do not disturb the list. */
  lemma {:induction false} NearerStable(t: Network, s: seq<Node>, dis: map<Node, nat>, dis': map<Node, nat>, x: Node)
    requires forall u :: u in dis ==> u in dis' && dis'[u] == dis[u]
    requires forall u :: u in s ==> u in dis
    requires x in dis
    ensures Nearer(t, s, dis', x) == Nearer(t, s, dis, x)
  {
    if s != [] {
      assert s[|s| - 1] in s;
      NearerStable(t, s[..|s| - 1], dis, dis', x);
    }
  }

  lemma {:induction false} NearerNone(t: Network, s: seq<Node>, dis: map<Node, nat>, x: Node)
    requires forall u :: u in s ==> !UpEdge(t, u, x)
    ensures Nearer(t, s, dis, x) == []
  {
    if s != [] {
      assert s[|s| - 1] in s;
      NearerNone(t, s[..|s| - 1], dis, x);
    }
  }

  lemma NearerSnoc(t: Network, s: seq<Node>, dis: map<Node, nat>, x: Node, i: nat)
    requires i < |s|
    ensures Nearer(t, s[..i + 1], dis, x)
         == Nearer(t, s[..i], dis, x) +
           if UpEdge(t, s[i], x) && s[i] in dis && x in dis && dis[s[i]] + 1 == dis[x] then [s[i]] else []
  {
    assert s[..i + 1][..i] == s[..i];
  }

  // ----- the invariant of the search

  /** The queue holds the visited transit nodes once each, by non-decreasing distance. */
  ghost predicate QueueOk(t: Network, host: Node, q: seq<Node>, dis: map<Node, nat>) {
    && q != [] && q[0] == host && host in dis && dis[host] == 0
    && Distinct(q)
    && (forall x :: x in q <==> x in dis && Transit(t, host, x))
    && (forall a, b :: 0 <= a < b < |q| ==> dis[q[a]] <= dis[q[b]])
  }

  /** `q[..i]` is processed, and of `q[i]` the neighbours in `seen`. */
  ghost predicate Processed(t: Network, q: seq<Node>, i: nat, seen: set<Node>, dis: map<Node, nat>) {
    && i <= |q| && (forall u :: u in q ==> u in dis)
    && (forall a, v :: 0 <= a < i && UpEdge(t, q[a], v) ==> v in dis && dis[v] <= dis[q[a]] + 1)
    && (i < |q| ==>
          && (forall x :: x in dis ==> dis[x] <= dis[q[i]] + 1)
          && (forall v :: v in seen && UpEdge(t, q[i], v) ==> v in dis && dis[v] <= dis[q[i]] + 1))
  }

  ghost predicate HopsOk(t: Network, q: seq<Node>, i: nat, seen: set<Node>, dis: map<Node, nat>,
                         nextHop: map<Node, seq<Node>>)
  {
    && i <= |q| && nextHop.Keys <= dis.Keys
    && forall x :: x in dis ==> HopsOf(nextHop, x) == Nearer(t, q[..if x in seen && i < |q| then i + 1 else i], dis, x)
  }

  lemma QueuePush(t: Network, host: Node, q: seq<Node>, i: nat, dis: map<Node, nat>, next: Node)
    requires QueueOk(t, host, q, dis) && i < |q| && next !in dis
    requires forall x :: x in dis ==> dis[x] <= dis[q[i]] + 1
    ensures QueueOk(t, host, if IsSwitch(t, next) then q + [next] else q, dis[next := dis[q[i]] + 1])
  {
    var q' := if IsSwitch(t, next) then q + [next] else q;
    var dis' := dis[next := dis[q[i]] + 1];
    assert next != host && next !in q;
    assert forall x :: x in q' <==> x in q || (x == next && IsSwitch(t, next));
    forall a, b | 0 <= a < b < |q'|
      ensures dis'[q'[a]] <= dis'[q'[b]]
    {
      assert q'[a] == q[a] && q[a] in q;
      if b < |q| {
        assert q[b] in q;
      }
    }
  }

  lemma ProcessedNew(t: Network, q: seq<Node>, q': seq<Node>, i: nat, seen: set<Node>, dis: map<Node, nat>, next: Node)
    requires Processed(t, q, i, seen, dis) && i < |q| && next !in dis
    requires q' == q || q' == q + [next]
    ensures Processed(t, q', i, seen + {next}, dis[next := dis[q[i]] + 1])
  {
    var dis' := dis[next := dis[q[i]] + 1];
    assert q[i] in q;
    forall u | u in q'
      ensures u in dis'
    {
    }
    forall a, v | 0 <= a < i && UpEdge(t, q'[a], v)
      ensures v in dis' && dis'[v] <= dis'[q'[a]] + 1
    {
      assert q'[a] == q[a] && q[a] in q;
    }
  }

  lemma ProcessedOld(t: Network, host: Node, q: seq<Node>, i: nat, seen: set<Node>, dis: map<Node, nat>, next: Node)
    requires Processed(t, q, i, seen, dis) && QueueOk(t, host, q, dis)
    requires i < |q| && (UpEdge(t, q[i], next) ==> next in dis)
    ensures Processed(t, q, i, seen + {next}, dis)
  {
    hide UpEdge;
  }

  lemma UnvisitedHasNoProcessedNeighbour(t: Network, q: seq<Node>, i: nat, seen: set<Node>, dis: map<Node, nat>,
                                         next: Node)
    requires Processed(t, q, i, seen, dis) && next !in dis
    ensures forall u :: u in q[..i] ==> !UpEdge(t, u, next)
  {
  }

  lemma HopsOfNew(t: Network, q: seq<Node>, q': seq<Node>, i: nat, seen: set<Node>, dis: map<Node, nat>, next: Node)
    requires Processed(t, q, i, seen, dis) && i < |q| && next !in dis && UpEdge(t, q[i], next) && q <= q'
    ensures Nearer(t, q'[..i + 1], dis[next := dis[q[i]] + 1], next) == [q[i]]
  {
    assert q[i] in q;
    UnvisitedHasNoProcessedNeighbour(t, q, i, seen, dis, next);
    var dis' := dis[next := dis[q[i]] + 1];
    hide UpEdge, Nearer;
    NearerNone(t, q[..i], dis', next);
    NearerSnoc(t, q', dis', next, i);
    assert q'[..i] == q[..i] && q'[i] == q[i];
  }

  lemma HopsOfOther(t: Network, q: seq<Node>, q': seq<Node>, n: nat, dis: map<Node, nat>, dis': map<Node, nat>, x: Node)
    requires n <= |q| && q <= q' && x in dis && forall u :: u in q ==> u in dis
    requires forall u :: u in dis ==> u in dis' && dis'[u] == dis[u]
    ensures Nearer(t, q'[..n], dis', x) == Nearer(t, q[..n], dis, x)
  {
    assert q'[..n] == q[..n];
    assert forall u :: u in q[..n] ==> u in q;
    NearerStable(t, q[..n], dis, dis', x);
  }

  lemma QueuedAreVisited(t: Network, q: seq<Node>, i: nat, seen: set<Node>, dis: map<Node, nat>)
    requires Processed(t, q, i, seen, dis)
    ensures forall u :: u in q ==> u in dis
    ensures i < |q| ==> q[i] in q && q[i] in dis
  {
    hide UpEdge;
    assert i < |q| ==> q[i] in q;
  }

  lemma HopsUpdate(dis: map<Node, nat>, nextHop: map<Node, seq<Node>>, next: Node, u: Node)
    requires nextHop.Keys <= dis.Keys && next !in dis
    ensures var nextHop' := nextHop[next := HopsOf(nextHop, next) + [u]];
      HopsOf(nextHop', next) == [u] && forall x :: x != next ==> HopsOf(nextHop', x) == HopsOf(nextHop, x)
  {
  }

  lemma HopsNewOther(t: Network, q: seq<Node>, q': seq<Node>, i: nat, seen: set<Node>, dis: map<Node, nat>,
                     dis': map<Node, nat>,
                     nextHop: map<Node, seq<Node>>, next: Node, x: Node)
    requires HopsOk(t, q, i, seen, dis, nextHop) && i < |q| && q <= q' && x in dis && x != next
    requires forall u :: u in q ==> u in dis
    requires forall u :: u in dis ==> u in dis' && dis'[u] == dis[u]
    ensures HopsOf(nextHop, x) == Nearer(t, q'[..if x in seen + {next} then i + 1 else i], dis', x)
  {
    hide Nearer, HopsOf;
    HopsOfOther(t, q, q', if x in seen then i + 1 else i, dis, dis', x);
  }

  lemma HopsNew(t: Network, q: seq<Node>, q': seq<Node>, i: nat, seen: set<Node>, dis: map<Node, nat>,
                nextHop: map<Node, seq<Node>>, next: Node)
    requires Processed(t, q, i, seen, dis) && HopsOk(t, q, i, seen, dis, nextHop)
    requires i < |q| && next !in dis && next !in seen && UpEdge(t, q[i], next)
    requires q' == q || q' == q + [next]
    ensures HopsOk(t, q', i, seen + {next}, dis[next := dis[q[i]] + 1], nextHop[next := HopsOf(nextHop, next) + [q[i]]])
  {
    hide Processed, UpEdge, Nearer, HopsOf;
    QueuedAreVisited(t, q, i, seen, dis);
    HopsUpdate(dis, nextHop, next, q[i]);
    var dis' := dis[next := dis[q[i]] + 1];
    var nextHop' := nextHop[next := HopsOf(nextHop, next) + [q[i]]];
    HopsOfNew(t, q, q', i, seen, dis, next);
    forall x | x in dis'
      ensures HopsOf(nextHop', x) == Nearer(t, q'[..if x in seen + {next} then i + 1 else i], dis', x)
    {
      if x != next {
        HopsNewOther(t, q, q', i, seen, dis, dis', nextHop, next, x);
      }
    }
  }

  lemma HopsOld(t: Network, q: seq<Node>, i: nat, seen: set<Node>, dis: map<Node, nat>, nextHop: map<Node, seq<Node>>,
                next: Node)
    requires HopsOk(t, q, i, seen, dis, nextHop) && i < |q| && next !in seen && q[i] in dis
    ensures HopsOk(t, q, i, seen + {next}, dis,
                   if UpEdge(t, q[i], next) && next in dis && dis[q[i]] + 1 == dis[next]
                   then nextHop[next := HopsOf(nextHop, next) + [q[i]]] else nextHop)
  {
    NearerSnoc(t, q, dis, next, i);
  }

  lemma HopsDone(t: Network, q: seq<Node>, i: nat, seen: set<Node>, dis: map<Node, nat>, nextHop: map<Node, seq<Node>>)
    requires HopsOk(t, q, i, seen, dis, nextHop) && i < |q| && seen == Links(t, q[i]).Keys
    ensures HopsOk(t, q, i + 1, {}, dis, nextHop)
  {
    forall x | x in dis
      ensures HopsOf(nextHop, x) == Nearer(t, q[..i + 1], dis, x)
    {
      NearerSnoc(t, q, dis, x, i);
    }
  }

  lemma ProcessedDone(t: Network, host: Node, q: seq<Node>, i: nat, seen: set<Node>, dis: map<Node, nat>)
    requires QueueOk(t, host, q, dis) && Processed(t, q, i, seen, dis) && i < |q| && seen == Links(t, q[i]).Keys
    ensures Processed(t, q, i + 1, {}, dis)
  {
    forall a, v | 0 <= a < i + 1 && UpEdge(t, q[a], v)
      ensures v in dis && dis[v] <= dis[q[a]] + 1
    {
      if a == i {
        assert v in seen;
      }
    }
  }

  // ----- delays and bandwidth follow one least-hop walk

  /** The three metrics CalculateRoute keeps per node. */
  datatype Metric = Metric(delay: nat, txDelay: nat, bw: nat)

  function Extend(payload: nat, m: Metric, l: Interface): Metric
    requires l.bw > 0
  {
    Metric((m.delay + l.delay) % WORD, (m.txDelay + LinkTxDelay(payload, l)) % WORD, if l.bw < m.bw then l.bw else m.bw)
  }

  /** `m` is the delay sum, the transmit-time sum (both modulo 2^64) and the least bandwidth along `w`. */
  ghost predicate MetricOf(t: Network, payload: nat, w: seq<Node>, m: Metric) {
    && m.delay == WalkDelay(t, w) % WORD
    && m.txDelay == WalkTxDelay(t, payload, w) % WORD
    && m.bw == WalkBandwidth(t, w)
  }

  /** `w` is a walk of `k` links to `x`, and `m` holds its metrics. */
  ghost predicate MetricOk(t: Network, host: Node, payload: nat, x: Node, k: nat, m: Metric, w: seq<Node>) {
    WalkTo(t, host, w, x) && |w| == k + 1 && MetricOf(t, payload, w, m)
  }

  ghost predicate MetricsOk(t: Network, host: Node, payload: nat, dis: map<Node, nat>, metric: map<Node, Metric>,
                            paths: map<Node, seq<Node>>)
  {
    && metric.Keys == dis.Keys && paths.Keys == dis.Keys
    && forall x :: x in dis ==> MetricOk(t, host, payload, x, dis[x], metric[x], paths[x])
  }

  lemma ModSum(a: nat, b: nat)
    ensures (a % WORD + b) % WORD == (a + b) % WORD
  {
    var q := a / WORD;
    assert a == WORD * q + a % WORD;
    assert a + b == WORD * q + (a % WORD + b);
    ModShift(a % WORD + b, q);
  }

  lemma {:induction false} ModShift(a: nat, q: nat)
    ensures (WORD * q + a) % WORD == a % WORD
  {
    if q > 0 {
      ModShift(a, q - 1);
      assert WORD * q + a == (WORD * (q - 1) + a) + WORD;
    }
  }

  lemma ExtendMetric(t: Network, payload: nat, w: seq<Node>, m: Metric, x: Node)
    requires w != [] && MetricOf(t, payload, w, m) && Link(t, w[|w| - 1], x).bw > 0
    ensures MetricOf(t, payload, w + [x], Extend(payload, m, Link(t, w[|w| - 1], x)))
  {
    var v, l := w + [x], Link(t, w[|w| - 1], x);
    assert v[..|v| - 1] == w && v[|v| - 2] == w[|w| - 1];
    ModSum(WalkDelay(t, w), l.delay);
    ModSum(WalkTxDelay(t, payload, w), LinkTxDelay(payload, l));
  }

  lemma LinkHasBandwidth(t: Network, u: Node, v: Node)
    requires ValidNetwork(t) && UpEdge(t, u, v)
    ensures Link(t, u, v).bw > 0
  {
    assert ValidLink(t, u, v);
  }

  /** The path of a queued node prolonged by one link: what the new node's metrics are of. */
  lemma PathProlonged(t: Network, host: Node, payload: nat, u: Node, k: nat, m: Metric, w: seq<Node>, next: Node)
    requires ValidNetwork(t) && MetricOk(t, host, payload, u, k, m, w) && UpEdge(t, u, next)
    requires Transit(t, host, u) && (u == host ==> k == 0)
    ensures Link(t, u, next).bw > 0
    ensures MetricOk(t, host, payload, next, k + 1, Extend(payload, m, Link(t, u, next)), w + [next])
  {
    LinkHasBandwidth(t, u, next);
    hide ValidNetwork;
    WalkSnoc(t, host, w, next);
    assert w[|w| - 1] == u;
    hide Walk, UpEdge, Links, Link;
    ExtendMetric(t, payload, w, m, next);
  }

  lemma QueuedIsTransit(t: Network, host: Node, q: seq<Node>, i: nat, dis: map<Node, nat>)
    requires QueueOk(t, host, q, dis) && i < |q|
    ensures q[i] in dis && Transit(t, host, q[i]) && (q[i] == host ==> dis[q[i]] == 0)
  {
    assert q[i] in q;
  }

  lemma MetricsNew(t: Network, host: Node, payload: nat, q: seq<Node>, i: nat, dis: map<Node, nat>,
                   metric: map<Node, Metric>, paths: map<Node, seq<Node>>, next: Node)
    requires ValidNetwork(t) && QueueOk(t, host, q, dis) && MetricsOk(t, host, payload, dis, metric, paths)
    requires i < |q| && next !in dis && UpEdge(t, q[i], next)
    ensures q[i] in dis && Link(t, q[i], next).bw > 0
    ensures MetricsOk(t, host, payload, dis[next := dis[q[i]] + 1],
                      metric[next := Extend(payload, metric[q[i]], Link(t, q[i], next))],
                      paths[next := paths[q[i]] + [next]])
  {
    QueuedIsTransit(t, host, q, i, dis);
    hide QueueOk, ValidNetwork, MetricOk, UpEdge, Link, Links, Transit, Extend;
    PathProlonged(t, host, payload, q[i], dis[q[i]], metric[q[i]], paths[q[i]], next);
  }

  lemma MetricsStart(t: Network, host: Node, payload: nat)
    ensures MetricsOk(t, host, payload, map[host := 0], map[host := Metric(0, 0, WORD - 1)], map[host := [host]])
  {
    assert Walk(t, host, [host]);
  }

  // ----- the whole invariant

  ghost predicate Searching(t: Network, host: Node, payload: nat, q: seq<Node>, i: nat, seen: set<Node>,
                            dis: map<Node, nat>,
                            nextHop: map<Node, seq<Node>>, metric: map<Node, Metric>, paths: map<Node, seq<Node>>)
  {
    && ValidNetwork(t)
    && QueueOk(t, host, q, dis) && Processed(t, q, i, seen, dis) && HopsOk(t, q, i, seen, dis, nextHop)
    && MetricsOk(t, host, payload, dis, metric, paths)
  }

  lemma SearchingStart(t: Network, host: Node, payload: nat)
    requires ValidNetwork(t)
    ensures Searching(t, host, payload, [host], 0, {}, map[host := 0], map[],
                      map[host := Metric(0, 0, WORD - 1)], map[host := [host]])
  {
    MetricsStart(t, host, payload);
    hide MetricsOk;
  }

  lemma SearchingNew(t: Network, host: Node, payload: nat, q: seq<Node>, i: nat, seen: set<Node>, dis: map<Node, nat>,
                     nextHop: map<Node, seq<Node>>, metric: map<Node, Metric>, paths: map<Node, seq<Node>>, next: Node)
    requires Searching(t, host, payload, q, i, seen, dis, nextHop, metric, paths)
    requires i < |q| && next !in dis && next !in seen && UpEdge(t, q[i], next)
    ensures q[i] in dis && q[i] in metric && q[i] in paths && Link(t, q[i], next).bw > 0
    ensures Searching(t, host, payload, if IsSwitch(t, next) then q + [next] else q, i, seen + {next},
                      dis[next := dis[q[i]] + 1], nextHop[next := HopsOf(nextHop, next) + [q[i]]],
                      metric[next := Extend(payload, metric[q[i]], Link(t, q[i], next))],
                      paths[next := paths[q[i]] + [next]])
  {
    hide UpEdge, ValidNetwork;
    assert q[i] in q;
    MetricsNew(t, host, payload, q, i, dis, metric, paths, next);
    hide MetricsOk;
    QueuePush(t, host, q, i, dis, next);
    hide QueueOk;
    var q' := if IsSwitch(t, next) then q + [next] else q;
    ProcessedNew(t, q, q', i, seen, dis, next);
    HopsNew(t, q, q', i, seen, dis, nextHop, next);
  }

  lemma SearchingOld(t: Network, host: Node, payload: nat, q: seq<Node>, i: nat, seen: set<Node>, dis: map<Node, nat>,
                     nextHop: map<Node, seq<Node>>, metric: map<Node, Metric>, paths: map<Node, seq<Node>>, next: Node)
    requires Searching(t, host, payload, q, i, seen, dis, nextHop, metric, paths)
    requires i < |q| && next !in seen && (UpEdge(t, q[i], next) ==> next in dis)
    ensures q[i] in dis
    ensures Searching(t, host, payload, q, i, seen + {next}, dis,
                      if UpEdge(t, q[i], next) && dis[q[i]] + 1 == dis[next]
                      then nextHop[next := HopsOf(nextHop, next) + [q[i]]] else nextHop,
                      metric, paths)
  {
    hide MetricsOk, UpEdge, ValidNetwork, HopsOk;
    assert q[i] in q;
    HopsOld(t, q, i, seen, dis, nextHop, next);
    hide QueueOk, Processed;
    ProcessedOld(t, host, q, i, seen, dis, next);
  }

  lemma SearchingNext(t: Network, host: Node, payload: nat, q: seq<Node>, i: nat, seen: set<Node>, dis: map<Node, nat>,
                      nextHop: map<Node, seq<Node>>, metric: map<Node, Metric>, paths: map<Node, seq<Node>>)
    requires Searching(t, host, payload, q, i, seen, dis, nextHop, metric, paths)
    requires i < |q| && seen == Links(t, q[i]).Keys
    ensures Searching(t, host, payload, q, i + 1, {}, dis, nextHop, metric, paths)
  {
    hide MetricsOk, UpEdge, ValidNetwork;
    ProcessedDone(t, host, q, i, seen, dis);
    HopsDone(t, q, i, seen, dis, nextHop);
  }

  // ----- what the finished search means

  /** Everything CalculateRoute records for one host. */
  datatype Route = Route(dis: map<Node, nat>, nextHop: map<Node, seq<Node>>, metric: map<Node, Metric>)

  /** Exactly the nodes reachable over up links through switches have a distance, and it is the least hop count. */
  ghost predicate LeastDistances(t: Network, host: Node, dis: map<Node, nat>) {
    forall x, k: nat :: x in dis && dis[x] == k <==> LeastHops(t, host, x, k)
  }

  /** `nextHop[x]` lists once each exactly the transit neighbours of `x` that are one hop nearer. */
  ghost predicate ExactNextHops(t: Network, host: Node, dis: map<Node, nat>, nextHop: map<Node, seq<Node>>) {
    forall x :: x in dis ==>
      && Distinct(HopsOf(nextHop, x))
      && forall u :: u in HopsOf(nextHop, x) <==>
           Transit(t, host, u) && UpEdge(t, u, x) && u in dis && dis[u] + 1 == dis[x]
  }

  /** The metrics of `x` belong to one and the same least-hop walk. */
  ghost predicate MetricsOfLeastWalks(t: Network, host: Node, payload: nat, dis: map<Node, nat>,
                                      metric: map<Node, Metric>)
  {
    && metric.Keys == dis.Keys
    && forall x :: x in dis ==> MetricsOfAWalk(t, host, payload, x, dis[x], metric[x])
  }

  ghost predicate MetricsOfAWalk(t: Network, host: Node, payload: nat, x: Node, k: nat, m: Metric) {
    exists w :: WalkTo(t, host, w, x) && |w| == k + 1 && MetricOf(t, payload, w, m)
  }

  /** No walk is shorter than the recorded distance of its end. */
  lemma {:induction false} WalkIsNoShorter(t: Network, host: Node, q: seq<Node>, dis: map<Node, nat>, w: seq<Node>)
    requires QueueOk(t, host, q, dis) && Processed(t, q, |q|, {}, dis) && Walk(t, host, w)
    ensures w[|w| - 1] in dis && dis[w[|w| - 1]] <= |w| - 1
  {
    if |w| > 1 {
      var v := w[..|w| - 1];
      var u := w[|w| - 2];
      assert Walk(t, host, v);
      WalkIsNoShorter(t, host, q, dis, v);
      assert Transit(t, host, u) && u in q;
      var a :| 0 <= a < |q| && q[a] == u;
      assert UpEdge(t, q[a], w[|w| - 1]);
    }
  }

  lemma FinishedDistances(t: Network, host: Node, payload: nat, q: seq<Node>, dis: map<Node, nat>,
                          metric: map<Node, Metric>, paths: map<Node, seq<Node>>)
    requires QueueOk(t, host, q, dis) && Processed(t, q, |q|, {}, dis)
    requires MetricsOk(t, host, payload, dis, metric, paths)
    ensures LeastDistances(t, host, dis)
    ensures MetricsOfLeastWalks(t, host, payload, dis, metric)
  {
    hide QueueOk, Processed, Walk, MetricOf;
    forall x, w | WalkTo(t, host, w, x)
      ensures x in dis && dis[x] <= |w| - 1
    {
      WalkIsNoShorter(t, host, q, dis, w);
    }
    forall x | x in dis
      ensures LeastHops(t, host, x, dis[x])
    {
      assert WalkTo(t, host, paths[x], x);
    }
    forall x, k: nat | LeastHops(t, host, x, k)
      ensures x in dis && dis[x] == k
    {
      assert Hops(t, host, x, k);
    }
  }

  lemma FinishedNextHops(t: Network, host: Node, q: seq<Node>, dis: map<Node, nat>, nextHop: map<Node, seq<Node>>)
    requires QueueOk(t, host, q, dis) && HopsOk(t, q, |q|, {}, dis, nextHop)
    ensures ExactNextHops(t, host, dis, nextHop)
  {
    assert q[..|q|] == q;
    hide UpEdge;
    forall x | x in dis
      ensures Distinct(HopsOf(nextHop, x))
      ensures forall u :: u in HopsOf(nextHop, x) <==>
        Transit(t, host, u) && UpEdge(t, u, x) && u in dis && dis[u] + 1 == dis[x]
    {
      NearerMembers(t, q, dis, x);
    }
  }

  ghost predicate RouteOk(t: Network, host: Node, payload: nat, r: Route) {
    && LeastDistances(t, host, r.dis)
    && ExactNextHops(t, host, r.dis, r.nextHop) && r.nextHop.Keys <= r.dis.Keys
    && MetricsOfLeastWalks(t, host, payload, r.dis, r.metric)
  }

  // ----- the metrics, link by link

  /** What one link adds: its delay and the whole nanoseconds that `payload` bytes take at `l.bw` bits per second, both
      in 64-bit arithmetic, and its bandwidth where that is smaller. */
  ghost predicate LinkAdds(payload: nat, l: Interface, m: Metric, m': Metric) {
    && m'.delay == (m.delay + l.delay) % 0x1_0000_0000_0000_0000
    && (exists tx: nat :: Nanoseconds(payload, l.bw, tx) && m'.txDelay == (m.txDelay + tx) % 0x1_0000_0000_0000_0000)
    && m'.bw <= m.bw && m'.bw <= l.bw && (m'.bw == m.bw || m'.bw == l.bw)
  }

  ghost predicate Nanoseconds(payload: nat, bw: nat, tx: nat) {
    tx * bw <= 8 * payload * 1000000000 % 0x1_0000_0000_0000_0000 < (tx + 1) * bw
  }

  /** `ms` are the metrics of the nodes of `w`, from nothing at the host on. */
  ghost predicate MetricsAlong(t: Network, payload: nat, w: seq<Node>, ms: seq<Metric>) {
    && w != [] && |ms| == |w| && ms[0] == Metric(0, 0, 0xffff_ffff_ffff_ffff)
    && forall i, j :: 0 <= i && j == i + 1 && j < |w| ==>
         w[j] in Links(t, w[i]) && LinkAdds(payload, Links(t, w[i])[w[j]], ms[i], ms[j])
  }

  /** The metrics of `x` accrue along a walk of `k` links to it. */
  ghost predicate AccruesOnAWalk(t: Network, host: Node, payload: nat, x: Node, k: nat, m: Metric) {
    exists w, ms :: WalkTo(t, host, w, x) && |w| == k + 1 && MetricsAlong(t, payload, w, ms) && ms[k] == m
  }

  lemma Quotient(a: nat, b: nat)
    requires b > 0
    ensures a / b * b <= a < (a / b + 1) * b
  {
    var q, r := a / b, a % b;
    assert a == q * b + r;
    assert (q + 1) * b == q * b + b;
  }

  lemma ExtendAdds(payload: nat, m: Metric, l: Interface)
    requires l.bw > 0
    ensures LinkAdds(payload, l, m, Extend(payload, m, l))
  {
    var tx := LinkTxDelay(payload, l);
    Quotient(payload * 1000000000 * 8 % WORD, l.bw);
    assert Nanoseconds(payload, l.bw, tx);
  }

  lemma MetricIsUnique(t: Network, payload: nat, w: seq<Node>, m: Metric, m': Metric)
    requires MetricOf(t, payload, w, m) && MetricOf(t, payload, w, m')
    ensures m == m'
  {
    hide WalkDelay, WalkTxDelay, WalkBandwidth;
  }

  lemma {:induction false} MetricAccrues(t: Network, payload: nat, host: Node, w: seq<Node>, m: Metric)
    returns (ms: seq<Metric>)
    requires ValidNetwork(t) && Walk(t, host, w) && MetricOf(t, payload, w, m)
    ensures MetricsAlong(t, payload, w, ms) && ms[|w| - 1] == m
  {
    if |w| == 1 {
      ms := [m];
    } else {
      var last := |w| - 1;
      var v, u, x := w[..last], w[last - 1], w[last];
      var before := Metric(WalkDelay(t, v) % WORD, WalkTxDelay(t, payload, v) % WORD, WalkBandwidth(t, v));
      assert Walk(t, host, v) && UpEdge(t, u, x) && v[last - 1] == u && w == v + [x];
      LinkHasBandwidth(t, u, x);
      ExtendMetric(t, payload, v, before, x);
      MetricIsUnique(t, payload, w, m, Extend(payload, before, Link(t, u, x)));
      ExtendAdds(payload, before, Link(t, u, x));
      var rest := MetricAccrues(t, payload, host, v, before);
      hide ValidNetwork, MetricOf, Extend, LinkAdds, WalkDelay, WalkTxDelay, WalkBandwidth, Walk;
      ms := rest + [m];
    }
  }

  lemma RouteAccrues(t: Network, host: Node, payload: nat, r: Route)
    requires ValidNetwork(t) && RouteOk(t, host, payload, r)
    ensures forall x :: x in r.dis ==> x in r.metric && AccruesOnAWalk(t, host, payload, x, r.dis[x], r.metric[x])
  {
    hide ValidNetwork, LeastDistances, ExactNextHops, MetricOf, Walk;
    forall x | x in r.dis
      ensures AccruesOnAWalk(t, host, payload, x, r.dis[x], r.metric[x])
    {
      assert MetricsOfAWalk(t, host, payload, x, r.dis[x], r.metric[x]);
      var w :| WalkTo(t, host, w, x) && |w| == r.dis[x] + 1 && MetricOf(t, payload, w, r.metric[x]);
      hide MetricsOfLeastWalks, MetricsAlong;
      var ms := MetricAccrues(t, payload, host, w, r.metric[x]);
    }
  }

  lemma FactorAtMost(a: nat, b: nat, c: nat)
    requires b > 0 && a * b <= c
    ensures a <= c
  {
    assert a * b >= a * 1;
  }

  lemma FitsAWord(payload: nat, bw: nat, tx: nat)
    requires Nanoseconds(payload, bw, tx) && bw > 0 && 8 * payload * 1000000000 < 0x1_0000_0000_0000_0000
    ensures tx * bw <= 8 * payload * 1000000000 < (tx + 1) * bw && tx < 0x1_0000_0000_0000_0000
  {
    var bits := 8 * payload * 1000000000;
    assert bits % 0x1_0000_0000_0000_0000 == bits;
    FactorAtMost(tx, bw, bits);
  }

  lemma FirstLinkAdds(payload: nat, l: Interface, m: Metric)
    requires LinkAdds(payload, l, Metric(0, 0, 0xffff_ffff_ffff_ffff), m) && l.bw > 0
    requires 8 * payload * 1000000000 < 0x1_0000_0000_0000_0000
    ensures m.txDelay * l.bw <= 8 * payload * 1000000000 < (m.txDelay + 1) * l.bw
    ensures m.delay == l.delay % 0x1_0000_0000_0000_0000
    ensures m.bw == if l.bw < 0xffff_ffff_ffff_ffff then l.bw else 0xffff_ffff_ffff_ffff
  {
    hide Nanoseconds;
    var tx: nat :| Nanoseconds(payload, l.bw, tx) && m.txDelay == (0 + tx) % 0x1_0000_0000_0000_0000;
    FitsAWord(payload, l.bw, tx);
  }

  /** A neighbour's metrics: the link's own delay and bandwidth, and the floor of the payload's bits over its rate. */
  lemma NeighbourMetrics(t: Network, host: Node, payload: nat, r: Route, x: Node)
    requires ValidNetwork(t) && RouteOk(t, host, payload, r) && x in r.dis && r.dis[x] == 1
    requires 8 * payload * 1000000000 < 0x1_0000_0000_0000_0000
    ensures x in Links(t, host) && x in r.metric
    ensures var l, m := Links(t, host)[x], r.metric[x];
      && m.txDelay * l.bw <= 8 * payload * 1000000000 < (m.txDelay + 1) * l.bw
      && m.delay == l.delay % 0x1_0000_0000_0000_0000
      && m.bw == if l.bw < 0xffff_ffff_ffff_ffff then l.bw else 0xffff_ffff_ffff_ffff
  {
    hide LinkAdds, RouteOk;
    RouteAccrues(t, host, payload, r);
    var w: seq<Node>, ms: seq<Metric> :|
      WalkTo(t, host, w, x) && |w| == 2 && MetricsAlong(t, payload, w, ms) && ms[1] == r.metric[x];
    assert w[0] == host && w[1] == x && ms[0] == Metric(0, 0, 0xffff_ffff_ffff_ffff);
    assert LinkAdds(payload, Links(t, w[0])[w[1]], ms[0], ms[1]);
    assert ValidLink(t, host, x);
    hide ValidNetwork, Walk, MetricsAlong;
    FirstLinkAdds(payload, Links(t, host)[x], ms[1]);
  }

  lemma SearchingEnd(t: Network, host: Node, payload: nat, q: seq<Node>, dis: map<Node, nat>,
                     nextHop: map<Node, seq<Node>>, metric: map<Node, Metric>, paths: map<Node, seq<Node>>)
    requires Searching(t, host, payload, q, |q|, {}, dis, nextHop, metric, paths)
    ensures RouteOk(t, host, payload, Route(dis, nextHop, metric))
  {
    FinishedDistances(t, host, payload, q, dis, metric, paths);
    FinishedNextHops(t, host, q, dis, nextHop);
    hide *;
    HopKeys(t, q, dis, nextHop);
  }

  lemma HopKeys(t: Network, q: seq<Node>, dis: map<Node, nat>, nextHop: map<Node, seq<Node>>)
    requires HopsOk(t, q, |q|, {}, dis, nextHop)
    ensures nextHop.Keys <= dis.Keys
  {
  }

  lemma VisitedWithin(t: Network, host: Node, payload: nat, q: seq<Node>, i: nat, seen: set<Node>, dis: map<Node, nat>,
                      nextHop: map<Node, seq<Node>>, metric: map<Node, Metric>, paths: map<Node, seq<Node>>)
    requires Searching(t, host, payload, q, i, seen, dis, nextHop, metric, paths) && host in t.nodeType
    ensures |q| <= |t.nodeType.Keys|
  {
    forall x | x in q
      ensures x in t.nodeType.Keys
    {
      assert x == host || IsSwitch(t, x);
    }
    DistinctFits(q, t.nodeType.Keys);
  }

  /** The body of the loop over the neighbours of `q[i]`. */
  method VisitNeighbour(t: Network, host: Node, payload: nat, q: seq<Node>, i: nat, ghost seen: set<Node>, next: Node,
                        dis: map<Node, nat>,
                        nextHop: map<Node, seq<Node>>, metric: map<Node, Metric>, ghost paths: map<Node, seq<Node>>)
    returns (q': seq<Node>, dis': map<Node, nat>, nextHop': map<Node, seq<Node>>, metric': map<Node, Metric>,
             ghost paths': map<Node, seq<Node>>)
    requires Searching(t, host, payload, q, i, seen, dis, nextHop, metric, paths)
    requires i < |q| && next !in seen && next in Links(t, q[i])
    ensures Searching(t, host, payload, q', i, seen + {next}, dis', nextHop', metric', paths')
    ensures q <= q'
  {
    hide *;
    q', dis', nextHop', metric', paths' := q, dis, nextHop, metric, paths;
    var now, link := q[i], Links(t, q[i])[next];
    QueuedIsVisited(t, host, payload, q, i, seen, dis, nextHop, metric, paths);
    LinkOf(t, now, next);
    var d := dis[now];
    if !link.up {
      SearchingOld(t, host, payload, q, i, seen, dis, nextHop, metric, paths, next);
      return;
    }
    if next in dis {
      SearchingOld(t, host, payload, q, i, seen, dis, nextHop, metric, paths, next);
    } else {
      SearchingNew(t, host, payload, q, i, seen, dis, nextHop, metric, paths, next);
    }
    if next !in dis {
      dis' := dis[next := d + 1];
      metric' := metric[next := Extend(payload, metric[now], link)];
      paths' := paths[next := paths[now] + [next]];
      if IsSwitch(t, next) {
        q' := q + [next];
      }
    }
    if d + 1 == dis'[next] {
      nextHop' := nextHop[next := HopsOf(nextHop, next) + [now]];
    }
  }

  /** The loop over the neighbours of `q[i]`, in the map's own order, which is left open. */
  method VisitNeighbours(t: Network, host: Node, payload: nat, q: seq<Node>, i: nat, dis: map<Node, nat>,
                         nextHop: map<Node, seq<Node>>, metric: map<Node, Metric>, ghost paths: map<Node, seq<Node>>)
    returns (q': seq<Node>, dis': map<Node, nat>, nextHop': map<Node, seq<Node>>, metric': map<Node, Metric>,
             ghost paths': map<Node, seq<Node>>)
    requires Searching(t, host, payload, q, i, {}, dis, nextHop, metric, paths) && i < |q| && host in t.nodeType
    ensures Searching(t, host, payload, q', i + 1, {}, dis', nextHop', metric', paths') && i < |q'|
    ensures i < |t.nodeType.Keys|
  {
    hide *;
    q', dis', nextHop', metric', paths' := q, dis, nextHop, metric, paths;
    var now := q[i];
    var rest := Links(t, now).Keys;
    ghost var seen: set<Node> := {};
    while rest != {}
      invariant rest + seen == Links(t, now).Keys && rest !! seen
      invariant i < |q'| && q'[i] == now
      invariant Searching(t, host, payload, q', i, seen, dis', nextHop', metric', paths')
    {
      var next :| next in rest;
      q', dis', nextHop', metric', paths' :=
        VisitNeighbour(t, host, payload, q', i, seen, next, dis', nextHop', metric', paths');
      rest, seen := rest - {next}, seen + {next};
    }
    VisitedWithin(t, host, payload, q', i, seen, dis', nextHop', metric', paths');
    SearchingNext(t, host, payload, q', i, seen, dis', nextHop', metric', paths');
  }

  /** The first lines of `CalculateRoute`: the host is the only one queued, at distance 0, with an unbounded
      bandwidth. */
  method StartSearch(t: Network, host: Node, ghost payload: nat)
    returns (q: seq<Node>, dis: map<Node, nat>, nextHop: map<Node, seq<Node>>, metric: map<Node, Metric>,
             ghost paths: map<Node, seq<Node>>)
    requires ValidNetwork(t)
    ensures q != [] && Searching(t, host, payload, q, 0, {}, dis, nextHop, metric, paths)
  {
    SearchingStart(t, host, payload);
    q, dis, nextHop := [host], map[host := 0], map[];
    metric, paths := map[host := Metric(0, 0, WORD - 1)], map[host := [host]];
    hide *;
  }

  /** `CalculateRoute`. */
  method CalculateRoute(t: Network, host: Node, payload: nat) returns (r: Route)
    requires ValidNetwork(t) && host in t.nodeType
    ensures RouteOk(t, host, payload, r)
    ensures forall x :: x in r.dis ==> x in r.metric && AccruesOnAWalk(t, host, payload, x, r.dis[x], r.metric[x])
  {
    hide *;
    var q, dis, nextHop, metric;
    ghost var paths;
    q, dis, nextHop, metric, paths := StartSearch(t, host, payload);
    var i := 0;
    while i < |q|
      invariant i <= |q| && Searching(t, host, payload, q, i, {}, dis, nextHop, metric, paths)
      decreases |t.nodeType.Keys| - i
    {
      q, dis, nextHop, metric, paths := VisitNeighbours(t, host, payload, q, i, dis, nextHop, metric, paths);
      i := i + 1;
    }
    SearchingEnd(t, host, payload, q, dis, nextHop, metric, paths);
    r := Route(dis, nextHop, metric);
    RouteAccrues(t, host, payload, r);
  }

  lemma QueuedIsVisited(t: Network, host: Node, payload: nat, q: seq<Node>, i: nat, seen: set<Node>,
                        dis: map<Node, nat>,
                        nextHop: map<Node, seq<Node>>, metric: map<Node, Metric>, paths: map<Node, seq<Node>>)
    requires Searching(t, host, payload, q, i, seen, dis, nextHop, metric, paths) && i < |q|
    ensures q[i] in dis
  {
    assert q[i] in q;
  }

  lemma LinkOf(t: Network, u: Node, v: Node)
    requires v in Links(t, u)
    ensures Link(t, u, v) == Links(t, u)[v]
    ensures UpEdge(t, u, v) <==> Links(t, u)[v].up
  {
  }
}
