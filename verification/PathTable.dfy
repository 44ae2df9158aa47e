/** The loop of rdma-simulator.cc's `main` that fills each ToR's table of path ids and base round-trip times. */
module PathTable {
  import opened Lists
  import opened Wrappers
  import opened Topology
  import opened Routing
  import opened Forwarding
  import opened PathCodes

  /** The enumeration for one source ToR and one destination host: `h` links lie between the two ToRs. */
  ghost predicate Setting(t: Network, payload: nat, r: Route, dst: Node, tor: Node, src: Node, h: nat) {
    && ValidNetwork(t) && PortsFit(t) && RouteOk(t, dst, payload, r) && SingleHomed(t, dst, tor)
    && IsSwitch(t, src) && src != tor && src in r.dis && r.dis[src] == h + 1 && h >= 1
  }

  /** A forwarding that continues the nodes chosen so far and arrives at the destination ToR. */
  ghost predicate Continues(r: Route, tor: Node, p: seq<Node>, f: seq<Node>) {
    p != [] && p <= f && Arrives(r, p[0], tor, f)
  }

  /** The chosen nodes are a forwarding that starts at `src`. */
  ghost predicate Chosen(r: Route, src: Node, p: seq<Node>) {
    p != [] && p[0] == src && Forwarded(r.nextHop, p)
  }

  /** `ids` is `before` together with the ids of all paths that continue `p` by one of `cands`. */
  ghost predicate Gathered(t: Network, r: Route, tor: Node, p: seq<Node>, cands: seq<Node>, before: set<nat>,
                           ids: set<nat>)
  {
    forall id :: id in ids <==> id in before || FromSome(t, r, tor, p, cands, id)
  }

  ghost predicate FromSome(t: Network, r: Route, tor: Node, p: seq<Node>, cands: seq<Node>, id: nat) {
    exists c, f :: c in cands && Continues(r, tor, p + [c], f) && f != [] && id == PathId(t, f)
  }

  lemma ChosenDistance(t: Network, payload: nat, r: Route, dst: Node, tor: Node, src: Node, h: nat, p: seq<Node>)
    requires Setting(t, payload, r, dst, tor, src, h) && Chosen(r, src, p)
    ensures p[|p| - 1] in r.dis && r.dis[p[|p| - 1]] == h + 2 - |p|
  {
    ForwardingDescends(t, dst, payload, r, p);
  }

  lemma ChosenNext(r: Route, src: Node, p: seq<Node>, c: Node)
    requires Chosen(r, src, p) && c in HopsOf(r.nextHop, p[|p| - 1])
    ensures Chosen(r, src, p + [c])
  {
  }

  /** The test of the loops: the only next hop is the destination ToR exactly when the node is two links from the
      host. */
  lemma OnlyTorIsNext(t: Network, payload: nat, r: Route, dst: Node, tor: Node, src: Node, h: nat, x: Node)
    requires Setting(t, payload, r, dst, tor, src, h) && x in r.dis
    ensures HopsOf(r.nextHop, x) == [tor] <==> r.dis[x] == 2
    ensures x == tor <==> r.dis[x] == 1
    ensures r.dis[x] == 0 ==> HopsOf(r.nextHop, x) == []
    ensures x == tor ==> HopsOf(r.nextHop, x) == [dst]
  {
    TorIsAtOne(t, payload, r, dst, tor);
    HostIsAtZero(t, dst, payload, r);
    var hops := HopsOf(r.nextHop, x);
    if x != dst {
      NextHopExists(t, dst, payload, r, x);
      assert hops[0] in hops;
    }
    if r.dis[x] == 2 {
      SingleMember(hops, tor);
    }
    if x == tor {
      SingleMember(hops, dst);
    }
  }

  lemma SingleMember(s: seq<Node>, x: Node)
    requires Distinct(s) && s != [] && forall y :: y in s ==> y == x
    ensures s == [x]
  {
    assert s[0] in s;
    DistinctFits(s, {x});
  }

  /** Two links from the host the only continuation is the one over the destination ToR. */
  lemma ContinuationLength(t: Network, payload: nat, r: Route, dst: Node, tor: Node, src: Node, h: nat, f: seq<Node>)
    requires Setting(t, payload, r, dst, tor, src, h) && Arrives(r, src, tor, f)
    ensures |f| == h + 1
  {
    ForwardingDescends(t, dst, payload, r, f);
    TorIsAtOne(t, payload, r, dst, tor);
  }

  lemma LastNext(t: Network, payload: nat, r: Route, dst: Node, tor: Node, src: Node, h: nat, p: seq<Node>)
    requires Setting(t, payload, r, dst, tor, src, h) && Chosen(r, src, p) && |p| == h
    ensures tor in HopsOf(r.nextHop, p[|p| - 1])
  {
    ChosenDistance(t, payload, r, dst, tor, src, h, p);
    hide RouteOk, SingleHomed, ValidNetwork, PortsFit, Chosen, HopsOf;
    OnlyTorIsNext(t, payload, r, dst, tor, src, h, p[|p| - 1]);
  }

  lemma OneMoreArrives(r: Route, src: Node, tor: Node, p: seq<Node>)
    requires p != [] && p[0] == src && Chosen(r, src, p + [tor])
    ensures Continues(r, tor, p, p + [tor])
  {
    hide HopsOf;
  }

  lemma OneMoreIsTor(r: Route, tor: Node, p: seq<Node>, f: seq<Node>)
    requires Continues(r, tor, p, f) && |f| == |p| + 1
    ensures f == p + [tor]
  {
    hide HopsOf, Forwarded;
    assert f == p + [f[|p|]];
  }

  lemma LastStep(t: Network, payload: nat, r: Route, dst: Node, tor: Node, src: Node, h: nat, p: seq<Node>,
                 f: seq<Node>)
    requires Setting(t, payload, r, dst, tor, src, h) && Chosen(r, src, p) && |p| == h
    ensures Continues(r, tor, p, f) <==> f == p + [tor]
  {
    LastNext(t, payload, r, dst, tor, src, h, p);
    ChosenNext(r, src, p, tor);
    assert p != [] && p[0] == src;
    hide Setting, Chosen, HopsOf, Arrives;
    OneMoreArrives(r, src, tor, p);
    if Continues(r, tor, p, f) {
      ContinuationLength(t, payload, r, dst, tor, src, h, f);
      OneMoreIsTor(r, tor, p, f);
    }
  }

  lemma NextOf(r: Route, tor: Node, p: seq<Node>, f: seq<Node>)
    requires Continues(r, tor, p, f) && |p| < |f|
    ensures f[|p|] in HopsOf(r.nextHop, p[|p| - 1]) && Continues(r, tor, p + [f[|p|]], f)
  {
    var last, next := |p| - 1, |p|;
    assert f[next] in HopsOf(r.nextHop, f[last]);
    assert f[..|p| + 1] == p + [f[next]];
  }

  /** Further away every continuation goes on over exactly one of the next hops. */
  lemma MiddleStep(t: Network, payload: nat, r: Route, dst: Node, tor: Node, src: Node, h: nat, p: seq<Node>,
                   f: seq<Node>)
    requires Setting(t, payload, r, dst, tor, src, h) && Chosen(r, src, p) && |p| < h
    ensures Continues(r, tor, p, f) <==> exists c :: c in HopsOf(r.nextHop, p[|p| - 1]) && Continues(r, tor, p + [c], f)
  {
    hide Setting, Forwarded;
    if Continues(r, tor, p, f) {
      ContinuationLength(t, payload, r, dst, tor, src, h, f);
      NextOf(r, tor, p, f);
    }
    if c :| c in HopsOf(r.nextHop, p[|p| - 1]) && Continues(r, tor, p + [c], f) {
      assert p <= p + [c];
    }
  }

  /** Adding the one path through `c` when `c` is next to the destination ToR. */
  lemma GatherLast(t: Network, payload: nat, r: Route, dst: Node, tor: Node, src: Node, h: nat,
                   p: seq<Node>, cands: seq<Node>, c: Node, before: set<nat>, ids: set<nat>)
    requires Setting(t, payload, r, dst, tor, src, h) && Chosen(r, src, p + [c]) && |p| + 1 == h
    requires Gathered(t, r, tor, p, cands, before, ids)
    ensures Gathered(t, r, tor, p, cands + [c], before, ids + {PathId(t, p + [c, tor])})
  {
    hide PathId, Setting, Chosen, Continues;
    assert p + [c] + [tor] == p + [c, tor];
    LastStep(t, payload, r, dst, tor, src, h, p + [c], p + [c, tor]);
    forall id
      ensures FromSome(t, r, tor, p, cands + [c], id) <==>
        FromSome(t, r, tor, p, cands, id) || id == PathId(t, p + [c, tor])
    {
      if c', f :| c' in cands + [c] && Continues(r, tor, p + [c'], f) && f != [] && id == PathId(t, f) {
        if c' !in cands {
          LastStep(t, payload, r, dst, tor, src, h, p + [c], f);
        }
      }
      if id == PathId(t, p + [c, tor]) {
        assert c in cands + [c];
      }
    }
  }

  /** Adding everything that was gathered behind `c`. */
  lemma GatherMiddle(t: Network, payload: nat, r: Route, dst: Node, tor: Node, src: Node, h: nat,
                     p: seq<Node>, cands: seq<Node>, c: Node, before: set<nat>, ids: set<nat>, ids': set<nat>)
    requires Setting(t, payload, r, dst, tor, src, h) && Chosen(r, src, p + [c]) && |p| + 1 < h
    requires Gathered(t, r, tor, p, cands, before, ids)
    requires Gathered(t, r, tor, p + [c], HopsOf(r.nextHop, c), ids, ids')
    ensures Gathered(t, r, tor, p, cands + [c], before, ids')
  {
    hide PathId, Setting, Chosen, Continues;
    assert (p + [c])[|p|] == c;
    forall id
      ensures FromSome(t, r, tor, p, cands + [c], id) <==>
        FromSome(t, r, tor, p, cands, id) || FromSome(t, r, tor, p + [c], HopsOf(r.nextHop, c), id)
    {
      if c', f :| c' in cands + [c] && Continues(r, tor, p + [c'], f) && f != [] && id == PathId(t, f) {
        if c' !in cands {
          assert c' == c;
          MiddleStep(t, payload, r, dst, tor, src, h, p + [c], f);
        }
      }
      if d, f :| d in HopsOf(r.nextHop, c) && Continues(r, tor, p + [c] + [d], f) && f != [] && id == PathId(t, f) {
        MiddleStep(t, payload, r, dst, tor, src, h, p + [c], f);
        assert c in cands + [c];
      }
    }
  }

  /** `path_ports` as bytes: `*((uint32_t *)path_ports)` on a little-endian machine. */
  function ReadPathId(pathPorts: seq<nat>): nat
    requires |pathPorts| == 4
  {
    pathPorts[0] + 256 * pathPorts[1] + 65536 * pathPorts[2] + 16777216 * pathPorts[3]
  }

  lemma ReadsEncoded(bytes: seq<nat>, h: nat)
    requires |bytes| == 4 && 2 <= h <= 4 && forall i :: h <= i < 4 ==> bytes[i] == 0
    ensures ReadPathId(bytes) == Encode(bytes[..h])
  {
    FourBytes(bytes[0], bytes[1], bytes[2], bytes[3]);
    hide Encode;
    if h == 2 {
      assert bytes[..h] == [bytes[0], bytes[1]];
    } else if h == 3 {
      assert bytes[..h] == [bytes[0], bytes[1], bytes[2]];
    } else {
      assert bytes[..h] == [bytes[0], bytes[1], bytes[2], bytes[3]];
    }
  }

  /** A next hop's interface number is a byte that is not 0. */
  lemma HopPortFits(t: Network, payload: nat, r: Route, dst: Node, tor: Node, src: Node, h: nat, x: Node, y: Node)
    requires Setting(t, payload, r, dst, tor, src, h) && x in r.dis && y in HopsOf(r.nextHop, x)
    ensures 1 <= Link(t, x, y).idx <= 255
  {
    assert UpEdge(t, y, x);
    assert ValidLink(t, y, x);
    assert y in Links(t, x);
  }

  // ----- the loops

  /** What the loops have collected for one destination ToR; `rttLinks` times `one_hop_delay` is the base round-trip
      time. */
  datatype Found = Found(ids: set<nat>, rttLinks: Option<nat>)

  /** Whether the only next hop is the destination ToR: the test of all three loops. */
  predicate OnlyHop(hops: seq<Node>, swDst: Node) {
    |hops| == 1 && hops[0] == swDst
  }

  function Byte(port: nat): nat {
    port % 256
  }

  /** No byte from `h` on has been written. */
  ghost predicate ZeroFrom(h: nat, pathPorts: seq<nat>) {
    |pathPorts| == 4 && forall i :: h <= i < 4 ==> pathPorts[i] == 0
  }

  /** Writing all interface numbers of a path of `h` links makes the four bytes its id: no byte is stale. */
  lemma WrittenBytes(t: Network, f: seq<Node>, h: nat, pathPorts: seq<nat>, bytes: seq<nat>)
    requires 2 <= h <= 4 && |f| == h + 1 && ZeroFrom(h, pathPorts) && |bytes| == 4
    requires forall i :: 0 <= i < h ==>
      Link(t, f[i], f[i + 1]).idx <= 255 && bytes[i] == Byte(Link(t, f[i], f[i + 1]).idx)
    requires forall i :: h <= i < 4 ==> bytes[i] == pathPorts[i]
    ensures ReadPathId(bytes) == PathId(t, f) && ZeroFrom(h, bytes)
  {
    hide Encode, Link;
    assert bytes[..h] == PortsAlong(t, f);
    hide PortsAlong, ReadPathId;
    ReadsEncoded(bytes, h);
  }

  /** The three places that write `path_ports`. */
  lemma BytesOfTwo(t: Network, a: Node, b: Node, c: Node, pathPorts: seq<nat>)
    requires ZeroFrom(2, pathPorts) && Link(t, a, b).idx <= 255 && Link(t, b, c).idx <= 255
    ensures var bytes := pathPorts[0 := Byte(Link(t, a, b).idx)][1 := Byte(Link(t, b, c).idx)];
      ReadPathId(bytes) == PathId(t, [a] + [b, c]) && ZeroFrom(2, bytes)
  {
    var bytes := pathPorts[0 := Byte(Link(t, a, b).idx)][1 := Byte(Link(t, b, c).idx)];
    hide Link, Byte, PathId, ReadPathId;
    WrittenBytes(t, [a] + [b, c], 2, pathPorts, bytes);
  }

  lemma BytesOfThree(t: Network, a: Node, b: Node, c: Node, d: Node, pathPorts: seq<nat>)
    requires ZeroFrom(3, pathPorts) && Link(t, a, b).idx <= 255 && Link(t, b, c).idx <= 255 && Link(t, c, d).idx <= 255
    ensures var bytes :=
      pathPorts[0 := Byte(Link(t, a, b).idx)][1 := Byte(Link(t, b, c).idx)][2 := Byte(Link(t, c, d).idx)];
      ReadPathId(bytes) == PathId(t, [a, b] + [c, d]) && ZeroFrom(3, bytes)
  {
    var bytes := pathPorts[0 := Byte(Link(t, a, b).idx)][1 := Byte(Link(t, b, c).idx)][2 := Byte(Link(t, c, d).idx)];
    hide Link, Byte, PathId, ReadPathId;
    WrittenBytes(t, [a, b] + [c, d], 3, pathPorts, bytes);
  }

  lemma BytesOfFour(t: Network, a: Node, b: Node, c: Node, d: Node, e: Node, pathPorts: seq<nat>)
    requires ZeroFrom(4, pathPorts)
    requires Link(t, a, b).idx <= 255 && Link(t, b, c).idx <= 255 && Link(t, c, d).idx <= 255
    requires Link(t, d, e).idx <= 255
    ensures var bytes :=
      pathPorts[0 := Byte(Link(t, a, b).idx)][1 := Byte(Link(t, b, c).idx)]
        [2 := Byte(Link(t, c, d).idx)][3 := Byte(Link(t, d, e).idx)];
      ReadPathId(bytes) == PathId(t, [a, b, c] + [d, e]) && ZeroFrom(4, bytes)
  {
    var bytes := pathPorts[0 := Byte(Link(t, a, b).idx)][1 := Byte(Link(t, b, c).idx)]
      [2 := Byte(Link(t, c, d).idx)][3 := Byte(Link(t, d, e).idx)];
    hide Link, Byte, PathId, ReadPathId;
    WrittenBytes(t, [a, b, c] + [d, e], 4, pathPorts, bytes);
  }

  /** What holds of each candidate `c` of a loop: the loop's test succeeds exactly at the last but one link. */
  lemma Candidate(t: Network, payload: nat, r: Route, dst: Node, tor: Node, src: Node, h: nat, p: seq<Node>, c: Node)
    requires Setting(t, payload, r, dst, tor, src, h) && Chosen(r, src, p) && c in HopsOf(r.nextHop, p[|p| - 1])
    ensures Chosen(r, src, p + [c])
    ensures HopsOf(r.nextHop, c) == [tor] <==> |p| + 1 == h
    ensures HopsOf(r.nextHop, c) == [] <==> |p| + 1 == h + 2
    ensures Link(t, p[|p| - 1], c).idx <= 255
    ensures |p| + 1 == h ==> Link(t, c, tor).idx <= 255
  {
    ChosenNext(r, src, p, c);
    ChosenDistance(t, payload, r, dst, tor, src, h, p);
    ChosenDistance(t, payload, r, dst, tor, src, h, p + [c]);
    OnlyTorIsNext(t, payload, r, dst, tor, src, h, c);
    HostIsAtZero(t, dst, payload, r);
    hide PortsFit, ExactNextHops, LeastDistances, MetricsOfLeastWalks, ValidNetwork, SingleHomed;
    if r.dis[c] != 0 {
      NextHopExists(t, dst, payload, r, c);
    }
    HopPortFits(t, payload, r, dst, tor, src, h, p[|p| - 1], c);
    if |p| + 1 == h {
      HopPortFits(t, payload, r, dst, tor, src, h, c, tor);
    }
  }

  lemma OnlyHopIs(hops: seq<Node>, swDst: Node)
    ensures OnlyHop(hops, swDst) <==> hops == [swDst]
  {
  }

  /** What one loop over the next hops of the last chosen node leaves. */
  ghost predicate LoopDone(t: Network, r: Route, tor: Node, h: nat, p: seq<Node>, cands: seq<Node>, before: Found,
                           found: Option<Found>)
  {
    && (h == 1 ==> found == Some(before))
    && (2 <= h <= 4 ==> found.Some? && Gathered(t, r, tor, p, cands, before.ids, found.value.ids)
                        && found.value.rttLinks == if cands == [] then before.rttLinks else Some(2 * h))
    && (h >= 5 && cands != [] ==> found.None?)
  }

  lemma LoopStarts(t: Network, r: Route, tor: Node, h: nat, p: seq<Node>, before: Found)
    ensures LoopDone(t, r, tor, h, p, [], before, Some(before))
  {
  }

  lemma LoopAddsPath(t: Network, payload: nat, r: Route, dst: Node, tor: Node, src: Node, h: nat,
                     p: seq<Node>, cands: seq<Node>, c: Node, before: Found, found: Found)
    requires Setting(t, payload, r, dst, tor, src, h) && Chosen(r, src, p + [c]) && 2 <= h <= 4 && |p| + 1 == h
    requires LoopDone(t, r, tor, h, p, cands, before, Some(found))
    ensures LoopDone(t, r, tor, h, p, cands + [c], before,
                     Some(Found(found.ids + {PathId(t, p + [c, tor])}, Some(2 * h))))
  {
    hide Setting, Chosen, Gathered, PathId, HopsOf;
    GatherLast(t, payload, r, dst, tor, src, h, p, cands, c, before.ids, found.ids);
  }

  lemma LoopAddsBehind(t: Network, payload: nat, r: Route, dst: Node, tor: Node, src: Node, h: nat,
                       p: seq<Node>, cands: seq<Node>, c: Node, before: Found, found: Found, found': Option<Found>)
    requires Setting(t, payload, r, dst, tor, src, h) && Chosen(r, src, p + [c]) && (h == 1 || |p| + 1 < h)
    requires LoopDone(t, r, tor, h, p, cands, before, Some(found)) && (h == 1 || HopsOf(r.nextHop, c) != [])
    requires LoopDone(t, r, tor, h, p + [c], HopsOf(r.nextHop, c), found, found')
    ensures LoopDone(t, r, tor, h, p, cands + [c], before, found')
  {
    hide Setting, Chosen, Gathered, PathId, HopsOf;
    if 2 <= h <= 4 {
      GatherMiddle(t, payload, r, dst, tor, src, h, p, cands, c, before.ids, found.ids, found'.value.ids);
    }
  }

  lemma TooLarge(t: Network, r: Route, tor: Node, h: nat, p: seq<Node>, cands: seq<Node>, before: Found)
    requires h >= 5
    ensures LoopDone(t, r, tor, h, p, cands, before, None)
  {
  }

  // ----- the three nested loops; `None` is the failed assertion "Too large topology?"

  /** The innermost loop, over the next hops of `next2`. */
  method ThirdHops(t: Network, nextHop: map<Node, seq<Node>>, pathPorts: seq<nat>, nodeSrc: Node, next1: Node,
                   next2: Node, swDst: Node, before: Found,
                   ghost payload: nat, ghost r: Route, ghost dst: Node, ghost h: nat)
    returns (found: Option<Found>, bytes: seq<nat>)
    requires Setting(t, payload, r, dst, swDst, nodeSrc, h) && r.nextHop == nextHop && (h == 1 || h >= 4)
    requires Chosen(r, nodeSrc, [nodeSrc, next1, next2]) && (h == 1 ==> HopsOf(nextHop, next2) == [])
    requires Link(t, nodeSrc, next1).idx <= 255 && Link(t, next1, next2).idx <= 255
    requires |pathPorts| == 4 && ZeroFrom(h, pathPorts)
    ensures LoopDone(t, r, swDst, h, [nodeSrc, next1, next2], HopsOf(nextHop, next2), before, found) && |bytes| == 4
    ensures ZeroFrom(h, bytes)
  {
    hide *;
    ghost var p := [nodeSrc, next1, next2];
    var nexts3 := HopsOf(nextHop, next2);
    var outPort1, outPort2 := Link(t, nodeSrc, next1).idx, Link(t, next1, next2).idx;
    var result := before;
    bytes := pathPorts;
    LoopStarts(t, r, swDst, h, p, before);
    assert nexts3[..0] == [];
    for k := 0 to |nexts3|
      invariant LoopDone(t, r, swDst, h, p, nexts3[..k], before, Some(result))
      invariant |bytes| == 4 && ZeroFrom(h, bytes)
    {
      var next3 := nexts3[k];
      assert nexts3[..k + 1] == nexts3[..k] + [next3];
      Candidate(t, payload, r, dst, swDst, nodeSrc, h, p, next3);
      var outPort3 := Link(t, next2, next3).idx;
      var nexts4 := HopsOf(nextHop, next3);
      OnlyHopIs(nexts4, swDst);
      if OnlyHop(nexts4, swDst) {
        var outPort4 := Link(t, next3, nexts4[0]).idx;
        BytesOfFour(t, nodeSrc, next1, next2, next3, swDst, bytes);
        LoopAddsPath(t, payload, r, dst, swDst, nodeSrc, h, p, nexts3[..k], next3, before, result);
        bytes := bytes[0 := Byte(outPort1)][1 := Byte(outPort2)][2 := Byte(outPort3)][3 := Byte(outPort4)];
        result := Found(result.ids + {ReadPathId(bytes)}, Some(8));
      } else {
        TooLarge(t, r, swDst, h, p, nexts3, before);
        return None, bytes;
      }
    }
    assert nexts3[..|nexts3|] == nexts3;
    return Some(result), bytes;
  }

  /** The middle loop, over the next hops of `next1`. */
  method SecondHops(t: Network, nextHop: map<Node, seq<Node>>, pathPorts: seq<nat>, nodeSrc: Node, next1: Node,
                    swDst: Node, before: Found,
                    ghost payload: nat, ghost r: Route, ghost dst: Node, ghost h: nat)
    returns (found: Option<Found>, bytes: seq<nat>)
    requires Setting(t, payload, r, dst, swDst, nodeSrc, h) && r.nextHop == nextHop && (h == 1 || h >= 3)
    requires Chosen(r, nodeSrc, [nodeSrc, next1]) && Link(t, nodeSrc, next1).idx <= 255
    requires |pathPorts| == 4 && ZeroFrom(h, pathPorts)
    ensures LoopDone(t, r, swDst, h, [nodeSrc, next1], HopsOf(nextHop, next1), before, found) && |bytes| == 4
    ensures ZeroFrom(h, bytes)
  {
    hide *;
    ghost var p := [nodeSrc, next1];
    var nexts2 := HopsOf(nextHop, next1);
    var outPort1 := Link(t, nodeSrc, next1).idx;
    var result := before;
    bytes := pathPorts;
    LoopStarts(t, r, swDst, h, p, before);
    assert nexts2[..0] == [];
    for k := 0 to |nexts2|
      invariant LoopDone(t, r, swDst, h, p, nexts2[..k], before, Some(result))
      invariant |bytes| == 4 && ZeroFrom(h, bytes)
    {
      var next2 := nexts2[k];
      assert nexts2[..k + 1] == nexts2[..k] + [next2];
      Candidate(t, payload, r, dst, swDst, nodeSrc, h, p, next2);
      assert p + [next2] == [nodeSrc, next1, next2];
      var outPort2 := Link(t, next1, next2).idx;
      var nexts3 := HopsOf(nextHop, next2);
      OnlyHopIs(nexts3, swDst);
      if OnlyHop(nexts3, swDst) {
        var outPort3 := Link(t, next2, nexts3[0]).idx;
        BytesOfThree(t, nodeSrc, next1, next2, swDst, bytes);
        LoopAddsPath(t, payload, r, dst, swDst, nodeSrc, h, p, nexts2[..k], next2, before, result);
        bytes := bytes[0 := Byte(outPort1)][1 := Byte(outPort2)][2 := Byte(outPort3)];
        result := Found(result.ids + {ReadPathId(bytes)}, Some(6));
        continue;
      }
      ghost var soFar := result;
      var inner;
      inner, bytes := ThirdHops(t, nextHop, bytes, nodeSrc, next1, next2, swDst, result, payload, r, dst, h);
      LoopAddsBehind(t, payload, r, dst, swDst, nodeSrc, h, p, nexts2[..k], next2, before, soFar, inner);
      if inner.None? {
        LoopAborted(t, r, swDst, h, p, nexts2, nexts2[..k + 1], before);
        return None, bytes;
      }
      result := inner.value;
    }
    assert nexts2[..|nexts2|] == nexts2;
    return Some(result), bytes;
  }

  lemma LoopAborted(t: Network, r: Route, tor: Node, h: nat, p: seq<Node>, cands: seq<Node>, some: seq<Node>,
                    before: Found)
    requires LoopDone(t, r, tor, h, p, some, before, None) && cands != []
    ensures LoopDone(t, r, tor, h, p, cands, before, None)
  {
  }

  lemma NothingChosen(t: Network, payload: nat, r: Route, dst: Node, tor: Node, src: Node, h: nat)
    requires Setting(t, payload, r, dst, tor, src, h)
    ensures Chosen(r, src, [src]) && ZeroFrom(h, [0, 0, 0, 0]) && h >= 1
  {
    hide RouteOk, PortsFit, ValidNetwork, SingleHomed;
  }

  /** The outer loop: all paths from the ToR `nodeSrc` towards the host `dst` behind the ToR `swDst`. */
  method FirstHops(t: Network, nextHop: map<Node, seq<Node>>, nodeSrc: Node, swDst: Node, before: Found,
                   ghost payload: nat, ghost r: Route, ghost dst: Node, ghost h: nat)
    returns (found: Option<Found>)
    requires Setting(t, payload, r, dst, swDst, nodeSrc, h) && r.nextHop == nextHop
    ensures LoopDone(t, r, swDst, h, [nodeSrc], HopsOf(nextHop, nodeSrc), before, found)
  {
    ghost var p := [nodeSrc];
    hide *;
    NothingChosen(t, payload, r, dst, swDst, nodeSrc, h);
    var nexts1 := HopsOf(nextHop, nodeSrc);
    var result := before;
    var bytes: seq<nat> := [0, 0, 0, 0];
    LoopStarts(t, r, swDst, h, p, before);
    assert nexts1[..0] == [];
    for k := 0 to |nexts1|
      invariant LoopDone(t, r, swDst, h, p, nexts1[..k], before, Some(result))
      invariant |bytes| == 4 && ZeroFrom(h, bytes)
    {
      var next1 := nexts1[k];
      assert nexts1[..k + 1] == nexts1[..k] + [next1];
      Candidate(t, payload, r, dst, swDst, nodeSrc, h, p, next1);
      assert p + [next1] == [nodeSrc, next1];
      var outPort1 := Link(t, nodeSrc, next1).idx;
      var nexts2 := HopsOf(nextHop, next1);
      OnlyHopIs(nexts2, swDst);
      if OnlyHop(nexts2, swDst) {
        var outPort2 := Link(t, next1, nexts2[0]).idx;
        BytesOfTwo(t, nodeSrc, next1, swDst, bytes);
        LoopAddsPath(t, payload, r, dst, swDst, nodeSrc, h, p, nexts1[..k], next1, before, result);
        bytes := bytes[0 := Byte(outPort1)][1 := Byte(outPort2)];
        result := Found(result.ids + {ReadPathId(bytes)}, Some(4));
        continue;
      }
      ghost var soFar := result;
      var inner;
      inner, bytes := SecondHops(t, nextHop, bytes, nodeSrc, next1, swDst, result, payload, r, dst, h);
      LoopAddsBehind(t, payload, r, dst, swDst, nodeSrc, h, p, nexts1[..k], next1, before, soFar, inner);
      if inner.None? {
        LoopAborted(t, r, swDst, h, p, nexts1, nexts1[..k + 1], before);
        return None;
      }
      result := inner.value;
    }
    assert nexts1[..|nexts1|] == nexts1;
    return Some(result);
  }

  // ----- what the loops store for one destination host

  /** `id` is the id of an equal-cost path. */
  ghost predicate ShortestId(t: Network, src: Node, tor: Node, id: nat) {
    exists f :: Shortest(t, src, tor, f) && id == PathId(t, f)
  }

  lemma ThroughFirstHop(t: Network, payload: nat, r: Route, dst: Node, tor: Node, src: Node, h: nat, id: nat)
    requires Setting(t, payload, r, dst, tor, src, h) && h >= 2
    ensures FromSome(t, r, tor, [src], HopsOf(r.nextHop, src), id) <==> ShortestId(t, src, tor, id)
  {
    NothingChosen(t, payload, r, dst, tor, src, h);
    if c, f :| c in HopsOf(r.nextHop, src) && Continues(r, tor, [src] + [c], f) && f != [] && id == PathId(t, f) {
      assert Arrives(r, src, tor, f);
      ArrivesIsShortest(t, payload, r, dst, tor, src, f);
    }
    if f :| Shortest(t, src, tor, f) && id == PathId(t, f) {
      ShortestArrives(t, payload, r, dst, tor, src, f);
      hide PathId, RouteOk, PortsFit, ValidNetwork, SingleHomed, Shortest;
      assert Continues(r, tor, [src], f);
      NextOf(r, tor, [src], f);
    }
  }

  /** The ids of all equal-cost paths from `src` to `tor`, and no others. */
  ghost predicate ExactIds(t: Network, src: Node, tor: Node, ids: set<nat>) {
    forall id :: id in ids <==> ShortestId(t, src, tor, id)
  }

  lemma ShortestExists(t: Network, payload: nat, r: Route, dst: Node, tor: Node, src: Node) returns (f: seq<Node>)
    requires RouteOk(t, dst, payload, r) && SingleHomed(t, dst, tor) && IsSwitch(t, src) && src in r.dis
    ensures Shortest(t, src, tor, f) && |f| == r.dis[src]
  {
    HostIsAtZero(t, dst, payload, r);
    FoundAtLeast(t, payload, r, dst, src);
    hide RouteOk, WalkTo, SwitchPath, Reversed;
    var w :| WalkTo(t, dst, w, src) && |w| == r.dis[src] + 1;
    assert src != dst;
    WalkToPath(t, dst, tor, src, w);
    f := Reversed(w[1..]);
    hide SingleHomed;
    forall g | SwitchPath(t, src, tor, g)
      ensures |f| <= |g|
    {
      PathIsNoShorter(t, payload, r, dst, tor, src, g);
    }
  }

  /** Two hosts behind one ToR are equally far from every other ToR. */
  lemma SameDistance(t: Network, payload: nat, r: Route, r': Route, dst: Node, dst': Node, tor: Node, src: Node)
    requires RouteOk(t, dst, payload, r) && SingleHomed(t, dst, tor) && IsSwitch(t, src) && src in r.dis
    requires RouteOk(t, dst', payload, r') && SingleHomed(t, dst', tor) && src in r'.dis
    ensures r.dis[src] == r'.dis[src]
  {
    hide RouteOk, SingleHomed, Shortest;
    var f := ShortestExists(t, payload, r, dst, tor, src);
    ShortestArrives(t, payload, r', dst', tor, src, f);
  }

  /** The table entry of a ToR at distance `h`: adjacent ToRs get none. */
  ghost predicate EntryFor(t: Network, src: Node, tor: Node, h: nat, table: map<Node, Found>) {
    if h == 1 then tor !in table
    else tor in table && ExactIds(t, src, tor, table[tor].ids) && table[tor].rttLinks == Some(2 * h)
  }

  function EntryOf(table: map<Node, Found>, tor: Node): Found {
    if tor in table then table[tor] else Found({}, None)
  }

  /** All paths towards one host are enumerated; what was already stored for its ToR is empty or the same paths. */
  method AddHost(t: Network, nextHop: map<Node, seq<Node>>, nodeSrc: Node, swDst: Node, table: map<Node, Found>,
                 ghost payload: nat, ghost r: Route, ghost dst: Node, ghost h: nat)
    returns (table': Option<map<Node, Found>>)
    requires Setting(t, payload, r, dst, swDst, nodeSrc, h) && r.nextHop == nextHop
    requires swDst in table ==> EntryFor(t, nodeSrc, swDst, h, table)
    ensures table'.None? <==> h >= 5
    ensures h < 5 ==> EntryFor(t, nodeSrc, swDst, h, table'.value) && table'.value.Keys <= table.Keys + {swDst}
    ensures h < 5 ==> forall x :: x in table && x != swDst ==> x in table'.value && table'.value[x] == table[x]
  {
    hide *;
    var before := EntryOf(table, swDst);
    var found := FirstHops(t, nextHop, nodeSrc, swDst, before, payload, r, dst, h);
    LoopMeans(t, payload, r, dst, swDst, nodeSrc, h, before, found, table);
    if found.None? {
      return None;
    }
    if found.value == before {
      return Some(table);
    }
    return Some(table[swDst := found.value]);
  }

  lemma LoopMeans(t: Network, payload: nat, r: Route, dst: Node, tor: Node, src: Node, h: nat,
                  before: Found, found: Option<Found>, table: map<Node, Found>)
    requires Setting(t, payload, r, dst, tor, src, h)
    requires LoopDone(t, r, tor, h, [src], HopsOf(r.nextHop, src), before, found)
    requires before == EntryOf(table, tor) && (tor in table ==> EntryFor(t, src, tor, h, table))
    ensures found.None? <==> h >= 5
    ensures h < 5 ==> EntryFor(t, src, tor, h, if found.value == before then table else table[tor := found.value])
  {
    hide Setting, HopsOf, Gathered, ExactIds;
    Candidates(t, payload, r, dst, tor, src, h);
    if 2 <= h <= 4 {
      LoopIds(t, payload, r, dst, tor, src, h, before.ids, found.value.ids);
    }
  }

  lemma LoopIds(t: Network, payload: nat, r: Route, dst: Node, tor: Node, src: Node, h: nat, before: set<nat>,
                ids: set<nat>)
    requires Setting(t, payload, r, dst, tor, src, h) && h >= 2
    requires Gathered(t, r, tor, [src], HopsOf(r.nextHop, src), before, ids)
    requires before == {} || ExactIds(t, src, tor, before)
    ensures ExactIds(t, src, tor, ids) && ids != {}
  {
    hide HopsOf, Setting, FromSome, ShortestId;
    var some := SomeShortestId(t, payload, r, dst, tor, src, h);
    forall id
      ensures id in ids <==> ShortestId(t, src, tor, id)
    {
      ThroughFirstHop(t, payload, r, dst, tor, src, h, id);
    }
    assert some in ids;
  }

  lemma SomeShortestId(t: Network, payload: nat, r: Route, dst: Node, tor: Node, src: Node, h: nat) returns (id: nat)
    requires Setting(t, payload, r, dst, tor, src, h)
    ensures ShortestId(t, src, tor, id)
  {
    hide RouteOk, SingleHomed, IsSwitch, Shortest, PathId;
    var f := ShortestExists(t, payload, r, dst, tor, src);
    id := PathId(t, f);
  }

  lemma Candidates(t: Network, payload: nat, r: Route, dst: Node, tor: Node, src: Node, h: nat)
    requires Setting(t, payload, r, dst, tor, src, h)
    ensures HopsOf(r.nextHop, src) != [] && h >= 1
  {
    HostIsAtZero(t, dst, payload, r);
    NextHopExists(t, dst, payload, r, src);
  }

  // ----- the whole table of one ToR

  /** The tables of all hosts of the run, each single-homed behind its ToR. */
  ghost predicate HostsRouted(t: Network, payload: nat, routes: map<Node, Route>, torOf: map<Node, Node>) {
    && ValidNetwork(t) && PortsFit(t) && routes.Keys <= torOf.Keys
    && forall dst :: dst in routes ==> RouteOk(t, dst, payload, routes[dst]) && SingleHomed(t, dst, torOf[dst])
  }

  /** `dst` is a destination of the ToR behind another ToR. */
  predicate Remote(routes: map<Node, Route>, torOf: map<Node, Node>, nodeSrc: Node, dst: Node) {
    dst in routes && dst in torOf && nodeSrc in routes[dst].dis && torOf[dst] != nodeSrc
  }

  /** The number of links between the ToR and the ToR of `dst`, one less than to `dst` itself. */
  function Apart(routes: map<Node, Route>, nodeSrc: Node, dst: Node): nat
    requires dst in routes && nodeSrc in routes[dst].dis
  {
    if routes[dst].dis[nodeSrc] == 0 then 0 else routes[dst].dis[nodeSrc] - 1
  }

  lemma RemoteSetting(t: Network, payload: nat, routes: map<Node, Route>, torOf: map<Node, Node>, nodeSrc: Node,
                      dst: Node)
    requires HostsRouted(t, payload, routes, torOf) && IsSwitch(t, nodeSrc) && Remote(routes, torOf, nodeSrc, dst)
    ensures Apart(routes, nodeSrc, dst) >= 1
    ensures Setting(t, payload, routes[dst], dst, torOf[dst], nodeSrc, Apart(routes, nodeSrc, dst))
  {
    hide RouteOk, SingleHomed, ValidNetwork, PortsFit, IsSwitch;
    OtherTorIsFurther(t, payload, routes[dst], dst, torOf[dst], nodeSrc);
  }

  lemma OtherTorIsFurther(t: Network, payload: nat, r: Route, dst: Node, tor: Node, src: Node)
    requires RouteOk(t, dst, payload, r) && SingleHomed(t, dst, tor) && IsSwitch(t, src) && src in r.dis && src != tor
    ensures r.dis[src] >= 2
  {
    HostIsAtZero(t, dst, payload, r);
    TorIsAtOne(t, payload, r, dst, tor);
  }

  /** The hosts of one ToR are equally far from `nodeSrc`. */
  lemma ApartAgrees(t: Network, payload: nat, routes: map<Node, Route>, torOf: map<Node, Node>, nodeSrc: Node, d: Node,
                    dst: Node)
    requires HostsRouted(t, payload, routes, torOf) && IsSwitch(t, nodeSrc)
    requires Remote(routes, torOf, nodeSrc, d) && Remote(routes, torOf, nodeSrc, dst) && torOf[d] == torOf[dst]
    ensures Apart(routes, nodeSrc, d) == Apart(routes, nodeSrc, dst)
  {
    hide RouteOk, SingleHomed, ValidNetwork, PortsFit, IsSwitch;
    SameDistance(t, payload, routes[d], routes[dst], d, dst, torOf[dst], nodeSrc);
  }

  /** Every remote host outside `rest` is accounted for, and every entry belongs to one of them. */
  ghost predicate Filling(t: Network, routes: map<Node, Route>, torOf: map<Node, Node>, nodeSrc: Node, rest: set<Node>,
                          table: map<Node, Found>)
  {
    && (forall dst :: Remote(routes, torOf, nodeSrc, dst) && dst !in rest ==>
          1 <= Apart(routes, nodeSrc, dst) < 5 && EntryFor(t, nodeSrc, torOf[dst], Apart(routes, nodeSrc, dst), table))
    && (forall tor :: tor in table ==>
         exists dst :: Remote(routes, torOf, nodeSrc, dst) && dst !in rest && torOf[dst] == tor)
  }

  lemma FillingBefore(t: Network, payload: nat, routes: map<Node, Route>, torOf: map<Node, Node>, nodeSrc: Node,
                      rest: set<Node>, table: map<Node, Found>, dst: Node)
    requires HostsRouted(t, payload, routes, torOf) && IsSwitch(t, nodeSrc) && Remote(routes, torOf, nodeSrc, dst)
    requires Filling(t, routes, torOf, nodeSrc, rest, table)
    ensures Apart(routes, nodeSrc, dst) >= 1
    ensures torOf[dst] in table ==> EntryFor(t, nodeSrc, torOf[dst], Apart(routes, nodeSrc, dst), table)
  {
    hide EntryFor, HostsRouted, Setting, Apart;
    RemoteSetting(t, payload, routes, torOf, nodeSrc, dst);
    if torOf[dst] in table {
      var d :| Remote(routes, torOf, nodeSrc, d) && d !in rest && torOf[d] == torOf[dst];
      ApartAgrees(t, payload, routes, torOf, nodeSrc, d, dst);
    }
  }

  lemma FillingNext(t: Network, payload: nat, routes: map<Node, Route>, torOf: map<Node, Node>, nodeSrc: Node,
                    rest: set<Node>, table: map<Node, Found>, dst: Node, table': map<Node, Found>)
    requires HostsRouted(t, payload, routes, torOf) && IsSwitch(t, nodeSrc) && Remote(routes, torOf, nodeSrc, dst)
    requires dst in rest
    requires Filling(t, routes, torOf, nodeSrc, rest, table) && 1 <= Apart(routes, nodeSrc, dst) < 5
    requires EntryFor(t, nodeSrc, torOf[dst], Apart(routes, nodeSrc, dst), table')
    requires table'.Keys <= table.Keys + {torOf[dst]}
    requires forall x :: x in table && x != torOf[dst] ==> x in table' && table'[x] == table[x]
    ensures Filling(t, routes, torOf, nodeSrc, rest - {dst}, table')
  {
    hide ExactIds, HostsRouted, Apart;
    forall d | Remote(routes, torOf, nodeSrc, d) && d !in rest - {dst}
      ensures 1 <= Apart(routes, nodeSrc, d) < 5 && EntryFor(t, nodeSrc, torOf[d], Apart(routes, nodeSrc, d), table')
    {
      if torOf[d] == torOf[dst] {
        ApartAgrees(t, payload, routes, torOf, nodeSrc, d, dst);
      }
    }
    forall tor | tor in table'
      ensures exists d :: Remote(routes, torOf, nodeSrc, d) && d !in rest - {dst} && torOf[d] == tor
    {
      if tor == torOf[dst] {
        assert Remote(routes, torOf, nodeSrc, dst) && dst !in rest - {dst};
      } else {
        var d :| Remote(routes, torOf, nodeSrc, d) && d !in rest && torOf[d] == tor;
      }
    }
  }

  lemma FillingSkip(t: Network, routes: map<Node, Route>, torOf: map<Node, Node>, nodeSrc: Node, rest: set<Node>,
                    table: map<Node, Found>, dst: Node)
    requires Filling(t, routes, torOf, nodeSrc, rest, table) && !Remote(routes, torOf, nodeSrc, dst)
    ensures Filling(t, routes, torOf, nodeSrc, rest - {dst}, table)
  {
    hide EntryFor;
    forall tor | tor in table
      ensures exists d :: Remote(routes, torOf, nodeSrc, d) && d !in rest - {dst} && torOf[d] == tor
    {
      var d :| Remote(routes, torOf, nodeSrc, d) && d !in rest && torOf[d] == tor;
    }
  }

  /** The path table of the ToR `nodeSrc`. It is complete and exact for every ToR two to four links away, has no entry
      for adjacent ToRs, and the program stops instead exactly when some ToR is further away. Base round-trip times are
      in multiples of `one_hop_delay`. */
  method PathTableOf(t: Network, routes: map<Node, Route>, torOf: map<Node, Node>, nodeSrc: Node, ghost payload: nat)
    returns (table: Option<map<Node, Found>>)
    requires HostsRouted(t, payload, routes, torOf) && IsSwitch(t, nodeSrc)
    ensures table.None? <==> exists dst :: Remote(routes, torOf, nodeSrc, dst) && Apart(routes, nodeSrc, dst) >= 5
    ensures table.Some? ==> forall dst :: Remote(routes, torOf, nodeSrc, dst) ==>
      Apart(routes, nodeSrc, dst) >= 1 && EntryFor(t, nodeSrc, torOf[dst], Apart(routes, nodeSrc, dst), table.value)
    ensures table.Some? ==> forall tor :: tor in table.value ==>
      exists dst :: Remote(routes, torOf, nodeSrc, dst) && torOf[dst] == tor
  {
    var current: map<Node, Found> := map[];
    var rest := routes.Keys;
    assert forall dst :: Remote(routes, torOf, nodeSrc, dst) ==> dst in rest;
    hide HostsRouted, EntryFor;
    while rest != {}
      invariant rest <= routes.Keys && Filling(t, routes, torOf, nodeSrc, rest, current)
    {
      hide Filling, Apart;
      var dst :| dst in rest;
      if !Remote(routes, torOf, nodeSrc, dst) {
        FillingSkip(t, routes, torOf, nodeSrc, rest, current, dst);
      } else {
        RemoteSetting(t, payload, routes, torOf, nodeSrc, dst);
        FillingBefore(t, payload, routes, torOf, nodeSrc, rest, current, dst);
        var next := AddHost(t, routes[dst].nextHop, nodeSrc, torOf[dst], current, payload, routes[dst], dst,
                            Apart(routes, nodeSrc, dst));
        if next.None? {
          return None;
        }
        FillingNext(t, payload, routes, torOf, nodeSrc, rest, current, dst, next.value);
        current := next.value;
      }
      rest := rest - {dst};
    }
    return Some(current);
  }
}
