/** Shortest switch-to-switch paths and the 4-byte path ids of the load balancer's routing table. */
module PathCodes {
  import opened Lists
  import opened Topology
  import opened Routing
  import opened Forwarding

  /** A path over up links from `src` to `tor` that stays on switches. */
  ghost predicate SwitchPath(t: Network, src: Node, tor: Node, f: seq<Node>) {
    && f != [] && f[0] == src && f[|f| - 1] == tor
    && (forall i, j :: 0 <= i && j == i + 1 && j < |f| ==> UpEdge(t, f[j], f[i]))
    && (forall i :: 0 <= i < |f| ==> IsSwitch(t, f[i]))
  }

  /** An equal-cost path: no path between the two switches is shorter. */
  ghost predicate Shortest(t: Network, src: Node, tor: Node, f: seq<Node>) {
    SwitchPath(t, src, tor, f) && forall g :: SwitchPath(t, src, tor, g) ==> |f| <= |g|
  }

  /** `dst` is a host whose only up link leads to the switch `tor`. */
  ghost predicate SingleHomed(t: Network, dst: Node, tor: Node) {
    && !IsSwitch(t, dst) && IsSwitch(t, tor) && UpEdge(t, dst, tor)
    && forall v :: UpEdge(t, dst, v) ==> v == tor
  }

  /** Interface numbers fit a byte, are never 0, and tell the links of a node apart. */
  ghost predicate PortsFit(t: Network) {
    && (forall u, v :: v in Links(t, u) ==> 1 <= Link(t, u, v).idx <= 255)
    && PortsDiffer(t)
  }

  // ----- the next-hop tables towards a single-homed host list exactly the shortest paths to its switch

  /** Forwarding from `src` that has arrived at `tor`. */
  ghost predicate Arrives(r: Route, src: Node, tor: Node, f: seq<Node>) {
    Forwarded(r.nextHop, f) && f[0] == src && f[|f| - 1] == tor
  }

  lemma ZeroHops(t: Network, dst: Node, x: Node)
    ensures Hops(t, dst, x, 0) ==> x == dst
  {
  }

  lemma TorIsAtOne(t: Network, payload: nat, r: Route, dst: Node, tor: Node)
    requires RouteOk(t, dst, payload, r) && SingleHomed(t, dst, tor)
    ensures tor in r.dis && r.dis[tor] == 1
    ensures forall x :: x in r.dis && r.dis[x] == 1 ==> x == tor
    ensures dst != tor
  {
    assert WalkTo(t, dst, [dst, tor], tor) && |[dst, tor]| == 1 + 1;
    assert Hops(t, dst, tor, 1);
    HostIsAtZero(t, dst, payload, r);
    ZeroHops(t, dst, tor);
    assert LeastHops(t, dst, tor, 1);
    forall x | x in r.dis && r.dis[x] == 1
      ensures x == tor
    {
      assert LeastHops(t, dst, x, 1);
      var w :| WalkTo(t, dst, w, x) && |w| == 2;
      assert UpEdge(t, w[0], w[1]);
    }
  }

  /** A path to `tor`, read backwards and continued to the host, is a walk. */
  lemma PathToWalk(t: Network, dst: Node, tor: Node, src: Node, f: seq<Node>)
    requires SingleHomed(t, dst, tor) && SwitchPath(t, src, tor, f)
    ensures WalkTo(t, dst, [dst] + Reversed(f), src) && |[dst] + Reversed(f)| == |f| + 1
  {
    var w := [dst] + Reversed(f);
    forall i, j | 0 <= i && j == i + 1 && j < |w|
      ensures UpEdge(t, w[i], w[j])
    {
      if i > 0 {
        assert w[i] == f[|f| - i] && w[j] == f[|f| - j];
      }
    }
    forall i | 0 < i < |w| - 1
      ensures IsSwitch(t, w[i])
    {
      assert w[i] == f[|f| - i];
    }
  }

  /** A walk from the host to another switch passes `tor` first and is a path read backwards. */
  lemma WalkToPath(t: Network, dst: Node, tor: Node, src: Node, w: seq<Node>)
    requires SingleHomed(t, dst, tor) && WalkTo(t, dst, w, src) && |w| >= 2 && IsSwitch(t, src)
    ensures SwitchPath(t, src, tor, Reversed(w[1..])) && |Reversed(w[1..])| == |w| - 1
  {
    var f := Reversed(w[1..]);
    assert UpEdge(t, w[0], w[1]);
    forall i, j | 0 <= i && j == i + 1 && j < |f|
      ensures UpEdge(t, f[j], f[i])
    {
      var b := |w| - 1 - j;
      var c := b + 1;
      assert f[i] == w[c] && f[j] == w[b];
    }
    forall i | 0 <= i < |f|
      ensures IsSwitch(t, f[i])
    {
      assert f[i] == w[|w| - 1 - i];
    }
  }

  lemma FoundAtLeast(t: Network, payload: nat, r: Route, dst: Node, x: Node)
    requires RouteOk(t, dst, payload, r) && x in r.dis
    ensures LeastHops(t, dst, x, r.dis[x])
  {
    hide ExactNextHops, MetricsOfLeastWalks, LeastHops;
  }

  /** No path to the ToR is shorter than the distance from the host says. */
  lemma PathIsNoShorter(t: Network, payload: nat, r: Route, dst: Node, tor: Node, src: Node, g: seq<Node>)
    requires RouteOk(t, dst, payload, r) && SingleHomed(t, dst, tor) && src in r.dis && SwitchPath(t, src, tor, g)
    ensures r.dis[src] <= |g|
  {
    FoundAtLeast(t, payload, r, dst, src);
    hide RouteOk;
    PathToWalk(t, dst, tor, src, g);
    hide SingleHomed, SwitchPath, WalkTo;
    assert Hops(t, dst, src, |g|);
  }

  lemma NextHopIsEdge(t: Network, payload: nat, r: Route, dst: Node, x: Node, u: Node)
    requires RouteOk(t, dst, payload, r) && x in r.dis && u in HopsOf(r.nextHop, x)
    ensures UpEdge(t, u, x) && Transit(t, dst, u)
  {
    hide LeastDistances, MetricsOfLeastWalks;
  }

  lemma ArrivesIsPath(t: Network, payload: nat, r: Route, dst: Node, tor: Node, src: Node, f: seq<Node>)
    requires RouteOk(t, dst, payload, r) && SingleHomed(t, dst, tor) && IsSwitch(t, src) && src in r.dis
    requires Arrives(r, src, tor, f)
    ensures SwitchPath(t, src, tor, f) && |f| == r.dis[src]
  {
    ForwardingDescends(t, dst, payload, r, f);
    TorIsAtOne(t, payload, r, dst, tor);
    HostIsAtZero(t, dst, payload, r);
    hide RouteOk, SingleHomed;
    forall i, j | 0 <= i && j == i + 1 && j < |f|
      ensures UpEdge(t, f[j], f[i]) && IsSwitch(t, f[j])
    {
      NextHopIsEdge(t, payload, r, dst, f[i], f[j]);
    }
    forall i | 0 <= i < |f|
      ensures IsSwitch(t, f[i])
    {
      var before := i - 1;
      if i > 0 {
        NextHopIsEdge(t, payload, r, dst, f[before], f[i]);
      }
    }
  }

  lemma ArrivesIsShortest(t: Network, payload: nat, r: Route, dst: Node, tor: Node, src: Node, f: seq<Node>)
    requires RouteOk(t, dst, payload, r) && SingleHomed(t, dst, tor) && IsSwitch(t, src) && src in r.dis
    requires Arrives(r, src, tor, f)
    ensures Shortest(t, src, tor, f) && |f| == r.dis[src]
  {
    ArrivesIsPath(t, payload, r, dst, tor, src, f);
    hide RouteOk, SingleHomed, SwitchPath, Arrives;
    forall g | SwitchPath(t, src, tor, g)
      ensures |f| <= |g|
    {
      PathIsNoShorter(t, payload, r, dst, tor, src, g);
    }
  }

  /** Every node of a least walk is at its own position's distance. */
  lemma {:induction false} LeastAlongWalk(t: Network, payload: nat, r: Route, dst: Node, w: seq<Node>, k: nat)
    requires RouteOk(t, dst, payload, r) && k < |w| && WalkTo(t, dst, w, w[|w| - 1])
    requires LeastHops(t, dst, w[|w| - 1], |w| - 1)
    ensures w[k] in r.dis && r.dis[w[k]] == k
    decreases |w|
  {
    hide RouteOk, LeastHops, Walk;
    if k == |w| - 1 {
      LeastIsRecorded(t, payload, r, dst, w[k], k);
    } else {
      var v := w[..|w| - 1];
      WalkPrefix(t, dst, w);
      LeastPredecessor(t, dst, w, w[|w| - 1]);
      LeastAlongWalk(t, payload, r, dst, v, k);
    }
  }

  lemma WalkPrefix(t: Network, host: Node, w: seq<Node>)
    requires Walk(t, host, w) && |w| >= 2
    ensures Walk(t, host, w[..|w| - 1])
  {
  }

  lemma LeastIsRecorded(t: Network, payload: nat, r: Route, dst: Node, x: Node, k: nat)
    requires RouteOk(t, dst, payload, r) && LeastHops(t, dst, x, k)
    ensures x in r.dis && r.dis[x] == k
  {
    hide LeastHops;
  }

  lemma LeastHopsOf(t: Network, payload: nat, r: Route, dst: Node, tor: Node, src: Node, f: seq<Node>)
    requires RouteOk(t, dst, payload, r) && SingleHomed(t, dst, tor) && IsSwitch(t, src) && src in r.dis
    requires Shortest(t, src, tor, f)
    ensures |f| == r.dis[src]
  {
    HostIsAtZero(t, dst, payload, r);
    FoundAtLeast(t, payload, r, dst, src);
    PathIsNoShorter(t, payload, r, dst, tor, src, f);
    hide RouteOk, WalkTo, SwitchPath;
    var w :| WalkTo(t, dst, w, src) && |w| == r.dis[src] + 1;
    assert src != dst;
    WalkToPath(t, dst, tor, src, w);
  }

  /** On a least walk each inner node is a next hop of the one after it. */
  lemma LeastStepIsHop(t: Network, payload: nat, r: Route, dst: Node, w: seq<Node>, x: Node, k: nat)
    requires RouteOk(t, dst, payload, r) && 0 < k < |w| - 1 && WalkTo(t, dst, w, x) && LeastHops(t, dst, x, |w| - 1)
    ensures w[k] in HopsOf(r.nextHop, w[k + 1])
  {
    var next := k + 1;
    hide LeastHops, LeastDistances, MetricsOfLeastWalks;
    LeastAlongWalk(t, payload, r, dst, w, k);
    LeastAlongWalk(t, payload, r, dst, w, next);
    assert UpEdge(t, w[k], w[next]) && IsSwitch(t, w[k]);
  }

  lemma ReversedAt(dst: Node, f: seq<Node>, i: nat)
    requires i < |f|
    ensures ([dst] + Reversed(f))[|f| - i] == f[i]
  {
  }

  lemma PathStepIsHop(t: Network, payload: nat, r: Route, dst: Node, src: Node, f: seq<Node>, i: nat)
    requires RouteOk(t, dst, payload, r) && WalkTo(t, dst, [dst] + Reversed(f), src) && LeastHops(t, dst, src, |f|)
    requires i + 1 < |f|
    ensures f[i + 1] in HopsOf(r.nextHop, f[i])
  {
    hide RouteOk, LeastHops, WalkTo, HopsOf;
    ReversedAt(dst, f, i);
    ReversedAt(dst, f, i + 1);
    LeastStepIsHop(t, payload, r, dst, [dst] + Reversed(f), src, |f| - i - 1);
  }

  lemma PathIsForwarded(t: Network, payload: nat, r: Route, dst: Node, src: Node, f: seq<Node>)
    requires RouteOk(t, dst, payload, r) && f != [] && WalkTo(t, dst, [dst] + Reversed(f), src)
    requires LeastHops(t, dst, src, |f|)
    ensures forall i, j :: 0 <= i && j == i + 1 && j < |f| ==> f[j] in HopsOf(r.nextHop, f[i])
  {
    hide *;
    forall i, j | 0 <= i && j == i + 1 && j < |f|
      ensures f[j] in HopsOf(r.nextHop, f[i])
    {
      PathStepIsHop(t, payload, r, dst, src, f, i);
    }
  }

  lemma ShortestArrives(t: Network, payload: nat, r: Route, dst: Node, tor: Node, src: Node, f: seq<Node>)
    requires RouteOk(t, dst, payload, r) && SingleHomed(t, dst, tor) && IsSwitch(t, src) && src in r.dis
    requires Shortest(t, src, tor, f)
    ensures Arrives(r, src, tor, f) && |f| == r.dis[src]
  {
    LeastHopsOf(t, payload, r, dst, tor, src, f);
    PathToWalk(t, dst, tor, src, f);
    assert LeastHops(t, dst, src, |f|);
    hide RouteOk, SingleHomed, IsSwitch, LeastHops, WalkTo, HopsOf;
    PathIsForwarded(t, payload, r, dst, src, f);
    assert f[0] == src && f[|f| - 1] == tor;
    hide Shortest;
  }

  // ----- path ids

  /** The interface that leads from the `i`-th node of a path to the next. */
  function PortAt(t: Network, f: seq<Node>, i: nat): nat
    requires i + 1 < |f|
  {
    Link(t, f[i], f[i + 1]).idx
  }

  /** The interface numbers along a path. */
  function PortsAlong(t: Network, f: seq<Node>): seq<nat>
    requires f != []
  {
    seq(|f| - 1, i requires 0 <= i < |f| - 1 => PortAt(t, f, i))
  }

  /** The bytes of a path read as a little-endian number. */
  function Encode(ports: seq<nat>): nat {
    if ports == [] then 0 else ports[0] + 256 * Encode(ports[1..])
  }

  /** The bytes of a path id up to the first 0. */
  function Decode(id: nat): seq<nat> {
    if id == 0 then [] else [id % 256] + Decode(id / 256)
  }

  lemma LowByte(p: nat, rest: nat)
    requires 1 <= p <= 255
    ensures (p + 256 * rest) % 256 == p && (p + 256 * rest) / 256 == rest && p + 256 * rest != 0
  {
  }

  lemma {:induction false} DecodeEncode(ports: seq<nat>)
    requires forall p :: p in ports ==> 1 <= p <= 255
    ensures Decode(Encode(ports)) == ports
  {
    if ports != [] {
      assert forall p :: p in ports[1..] ==> p in ports;
      DecodeEncode(ports[1..]);
      assert ports[0] in ports;
      LowByte(ports[0], Encode(ports[1..]));
      assert ports == [ports[0]] + ports[1..];
    }
  }

  /** Trailing zero bytes do not change the number. */
  lemma FourBytes(a: nat, b: nat, c: nat, d: nat)
    ensures Encode([a, b]) == a + 256 * b
    ensures Encode([a, b, c]) == a + 256 * b + 65536 * c
    ensures Encode([a, b, c, d]) == a + 256 * b + 65536 * c + 16777216 * d
  {
    assert [a, b, c, d][1..] == [b, c, d] && [b, c, d][1..] == [c, d] && [c, d][1..] == [d] && [d][1..] == [];
    assert [a, b, c][1..] == [b, c] && [b, c][1..] == [c] && [c][1..] == [];
    assert [a, b][1..] == [b] && [b][1..] == [];
    assert Encode([]) == 0;
    assert Encode([d]) == d && Encode([c]) == c && Encode([b]) == b;
    assert Encode([c, d]) == c + 256 * d && Encode([b, c]) == b + 256 * c;
    assert Encode([b, c, d]) == b + 256 * Encode([c, d]);
  }

  ghost predicate LinkedPath(t: Network, f: seq<Node>) {
    f != [] && forall i, j :: 0 <= i && j == i + 1 && j < |f| ==> f[j] in Links(t, f[i])
  }

  lemma PortsInRange(t: Network, f: seq<Node>)
    requires PortsFit(t) && LinkedPath(t, f)
    ensures forall p :: p in PortsAlong(t, f) ==> 1 <= p <= 255
  {
    hide Links, Link;
    forall i | 0 <= i < |f| - 1
      ensures 1 <= PortsAlong(t, f)[i] <= 255
    {
      var j := i + 1;
      assert f[j] in Links(t, f[i]);
    }
  }

  lemma PortLeadsOneWay(t: Network, u: Node, v: Node, v': Node)
    requires PortsFit(t) && v in Links(t, u) && v' in Links(t, u) && Link(t, u, v).idx == Link(t, u, v').idx
    ensures v == v'
  {
    hide Links, Link;
  }

  lemma {:induction false} SameNodes(t: Network, f: seq<Node>, g: seq<Node>, i: nat)
    requires PortsFit(t) && LinkedPath(t, f) && LinkedPath(t, g) && f[0] == g[0] && PortsAlong(t, f) == PortsAlong(t, g)
    requires |f| == |g| && i < |f|
    ensures f[i] == g[i]
  {
    hide Links, Link, PortsFit;
    if i > 0 {
      var b := i - 1;
      SameNodes(t, f, g, b);
      assert PortsAlong(t, f)[b] == PortsAlong(t, g)[b];
      PortLeadsOneWay(t, f[b], f[i], g[i]);
    }
  }

  /** The interface numbers lead along one path only. */
  lemma PortsLeadOneWay(t: Network, f: seq<Node>, g: seq<Node>)
    requires PortsFit(t) && LinkedPath(t, f) && LinkedPath(t, g) && f[0] == g[0] && PortsAlong(t, f) == PortsAlong(t, g)
    ensures f == g
  {
    assert |f| == |g|;
    hide LinkedPath, PortsFit, PortsAlong;
    forall i | 0 <= i < |f|
      ensures f[i] == g[i]
    {
      SameNodes(t, f, g, i);
    }
  }

  lemma SwitchPathIsLinked(t: Network, src: Node, tor: Node, f: seq<Node>)
    requires ValidNetwork(t) && SwitchPath(t, src, tor, f)
    ensures LinkedPath(t, f)
  {
    forall i, j | 0 <= i && j == i + 1 && j < |f|
      ensures f[j] in Links(t, f[i])
    {
      assert UpEdge(t, f[j], f[i]);
      assert ValidLink(t, f[j], f[i]);
    }
  }

  function PathId(t: Network, f: seq<Node>): nat
    requires f != []
  {
    Encode(PortsAlong(t, f))
  }

  /** A path id decodes to the interface numbers of its path and to no other path from the same switch. */
  lemma PathIdDecodes(t: Network, src: Node, tor: Node, tor': Node, f: seq<Node>, g: seq<Node>)
    requires ValidNetwork(t) && PortsFit(t) && SwitchPath(t, src, tor, f)
    ensures Decode(PathId(t, f)) == PortsAlong(t, f)
    ensures SwitchPath(t, src, tor', g) && PathId(t, g) == PathId(t, f) ==> g == f && tor' == tor
  {
    SwitchPathIsLinked(t, src, tor, f);
    PortsInRange(t, f);
    DecodeEncode(PortsAlong(t, f));
    if SwitchPath(t, src, tor', g) && PathId(t, g) == PathId(t, f) {
      SwitchPathIsLinked(t, src, tor', g);
      PortsInRange(t, g);
      DecodeEncode(PortsAlong(t, g));
      PortsLeadOneWay(t, f, g);
    }
  }

  /** The id of a path of up to four links: its interface numbers as bytes, the first one least significant. */
  lemma PathIdBytes(t: Network, f: seq<Node>)
    requires 2 <= |f| <= 5 && forall i, j :: 0 <= i && j == i + 1 && j < |f| ==> f[j] in Links(t, f[i])
    ensures forall i :: 0 <= i < |f| - 1 ==> f[i + 1] in Links(t, f[i])
    ensures PathId(t, f) == Links(t, f[0])[f[1]].idx
      + (if |f| > 2 then 256 * Links(t, f[1])[f[2]].idx else 0)
      + (if |f| > 3 then 65536 * Links(t, f[2])[f[3]].idx else 0)
      + (if |f| > 4 then 16777216 * Links(t, f[3])[f[4]].idx else 0)
  {
    var p := PortsAlong(t, f);
    assert forall i, j :: 0 <= i && j == i + 1 && j < |f| ==> p[i] == Links(t, f[i])[f[j]].idx;
    EncodeFour(p);
  }

  lemma EncodeFour(p: seq<nat>)
    requires 1 <= |p| <= 4
    ensures Encode(p) == p[0] + (if |p| > 1 then 256 * p[1] else 0) + (if |p| > 2 then 65536 * p[2] else 0)
      + (if |p| > 3 then 16777216 * p[3] else 0)
  {
    var a := p[1..];
    if |p| > 1 {
      var b := a[1..];
      if |p| > 2 {
        var c := b[1..];
        assert c == p[3..];
      }
    }
  }
}
