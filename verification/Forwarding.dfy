/** The routing tables built from every host's search, and what forwarding along them does. */
module Forwarding {
  import opened Lists
  import opened Topology
  import opened Routing

  /** The hop count of the node before the end of a least walk is one less. */
  lemma LeastPredecessor(t: Network, host: Node, w: seq<Node>, x: Node)
    requires WalkTo(t, host, w, x) && |w| >= 2 && LeastHops(t, host, x, |w| - 1)
    ensures LeastHops(t, host, w[|w| - 2], |w| - 2) && UpEdge(t, w[|w| - 2], x)
    ensures Transit(t, host, w[|w| - 2])
  {
    var u := w[|w| - 2];
    assert WalkTo(t, host, w[..|w| - 1], u);
    assert Transit(t, host, u);
    forall m: nat | Hops(t, host, u, m)
      ensures |w| - 2 <= m
    {
      var v :| WalkTo(t, host, v, u) && |v| == m + 1;
      if u == host {
        assert WalkTo(t, host, [host], host);
        assert WalkTo(t, host, [host, x], x) && |[host, x]| == 1 + 1;
        assert Hops(t, host, x, 1);
      } else {
        WalkSnoc(t, host, v, x);
        assert Hops(t, host, x, m + 1);
      }
    }
  }

  /** Every node that can reach the host has somewhere to send to. */
  lemma NextHopExists(t: Network, host: Node, payload: nat, r: Route, x: Node)
    requires RouteOk(t, host, payload, r) && x in r.dis && x != host
    ensures HopsOf(r.nextHop, x) != []
  {
    assert LeastHops(t, host, x, r.dis[x]);
    var w :| WalkTo(t, host, w, x) && |w| == r.dis[x] + 1;
    LeastPredecessor(t, host, w, x);
    var u := w[|w| - 2];
    assert u in r.dis && r.dis[u] == |w| - 2;
    assert u in HopsOf(r.nextHop, x);
  }

  lemma HostIsAtZero(t: Network, host: Node, payload: nat, r: Route)
    requires RouteOk(t, host, payload, r)
    ensures host in r.dis && r.dis[host] == 0 && HopsOf(r.nextHop, host) == []
    ensures forall x :: x in r.dis && r.dis[x] == 0 ==> x == host
  {
    assert WalkTo(t, host, [host], host);
    assert Hops(t, host, host, 0);
    assert LeastHops(t, host, host, 0);
    var hops := HopsOf(r.nextHop, host);
    assert host in r.dis && r.dis[host] == 0;
    HeadIsMember(hops);
    forall x | x in r.dis && r.dis[x] == 0
      ensures x == host
    {
      assert LeastHops(t, host, x, 0);
    }
  }

  /** A packet that some node sent on `|f| - 1` times, each time to any of the listed next hops. */
  ghost predicate Forwarded(nextHop: map<Node, seq<Node>>, f: seq<Node>) {
    f != [] && forall i, j :: 0 <= i && j == i + 1 && j < |f| ==> f[j] in HopsOf(nextHop, f[i])
  }

  /** Each hop comes exactly one link nearer, whatever next hop is chosen. */
  lemma {:induction false} ForwardingDescends(t: Network, host: Node, payload: nat, r: Route, f: seq<Node>)
    requires RouteOk(t, host, payload, r) && Forwarded(r.nextHop, f) && f[0] in r.dis
    ensures forall i :: 0 <= i < |f| ==> f[i] in r.dis && r.dis[f[i]] == r.dis[f[0]] - i
  {
    if |f| > 1 {
      var g := f[..|f| - 1];
      ForwardingDescends(t, host, payload, r, g);
      var u, v := f[|f| - 2], f[|f| - 1];
      assert g[|g| - 1] == u;
      assert v in HopsOf(r.nextHop, u);
      forall i | 0 <= i < |f|
        ensures f[i] in r.dis && r.dis[f[i]] == r.dis[f[0]] - i
      {
        assert i < |f| - 1 ==> g[i] == f[i];
      }
    }
  }

  /** Loop freedom and delivery for any choice of next hops: no node repeats, forwarding can always go on
      until the host, and it is at the host after exactly the least number of hops. */
  lemma AnyChoiceDelivers(t: Network, host: Node, payload: nat, r: Route, f: seq<Node>)
    requires RouteOk(t, host, payload, r) && Forwarded(r.nextHop, f) && f[0] in r.dis
    ensures Distinct(f) && |f| <= r.dis[f[0]] + 1
    ensures f[|f| - 1] == host <==> |f| == r.dis[f[0]] + 1
    ensures f[|f| - 1] != host ==> HopsOf(r.nextHop, f[|f| - 1]) != []
    ensures forall i :: 0 < i < |f| - 1 ==> IsSwitch(t, f[i])
  {
    ForwardingDescends(t, host, payload, r, f);
    HostIsAtZero(t, host, payload, r);
    if f[|f| - 1] != host {
      NextHopExists(t, host, payload, r, f[|f| - 1]);
    }
    forall i | 0 < i < |f| - 1
      ensures IsSwitch(t, f[i])
    {
      var before := i - 1;
      assert f[i] in HopsOf(r.nextHop, f[before]);
    }
  }

  /** The forwarding of a packet, read backwards from the host, is a walk over up links; by its length, a least one. */
  lemma ForwardingIsAWalk(t: Network, host: Node, payload: nat, r: Route, f: seq<Node>)
    requires RouteOk(t, host, payload, r) && Forwarded(r.nextHop, f) && f[0] in r.dis && f[|f| - 1] == host
    ensures WalkTo(t, host, Reversed(f), f[0]) && LeastHops(t, host, f[0], |f| - 1)
  {
    ForwardingDescends(t, host, payload, r, f);
    AnyChoiceDelivers(t, host, payload, r, f);
    var w := Reversed(f);
    forall i, j | 0 <= i && j == i + 1 && j < |w|
      ensures UpEdge(t, w[i], w[j])
    {
      var b := |f| - 1 - j;
      var c := b + 1;
      assert f[c] in HopsOf(r.nextHop, f[b]) && f[b] in r.dis;
    }
  }

  // ----- the tables

  function Lookup<V>(table: map<Node, map<Node, seq<V>>>, x: Node, dst: Node): seq<V> {
    if x in table && dst in table[x] then table[x][dst] else []
  }

  function Ports(t: Network, u: Node, hops: seq<Node>): seq<nat> {
    seq(|hops|, i requires 0 <= i < |hops| => Link(t, u, hops[i]).idx)
  }

  /** `nextHop[x][host]` after the search from `host` added its lists. */
  function StoreHops(table: map<Node, map<Node, seq<Node>>>, host: Node,
                     hops: map<Node, seq<Node>>): map<Node, map<Node, seq<Node>>>
  {
    map x | x in table.Keys + hops.Keys ::
      var row := if x in table then table[x] else map[];
      if x in hops then row[host := hops[x]] else row
  }

  lemma StoredLookups(table: map<Node, map<Node, seq<Node>>>, host: Node, hops: map<Node, seq<Node>>)
    ensures forall x, dst ::
      Lookup(StoreHops(table, host, hops), x, dst) ==
        if dst == host && x in hops then hops[x] else Lookup(table, x, dst)
  {
  }

  /** The table entries of every node outside `rest` are written, the others are empty. */
  ghost predicate Entries(t: Network, nextHop: map<Node, map<Node, seq<Node>>>, rest: set<Node>,
                          rtTable: map<Node, map<Node, seq<nat>>>)
  {
    forall x, dst :: Lookup(rtTable, x, dst) ==
      if x in nextHop && x !in rest then Ports(t, x, Lookup(nextHop, x, dst)) else []
  }

  lemma EntriesStart(t: Network, nextHop: map<Node, map<Node, seq<Node>>>, rtTable: map<Node, map<Node, seq<nat>>>)
    requires rtTable == map[]
    ensures Entries(t, nextHop, nextHop.Keys, rtTable)
  {
  }

  function RowOf(t: Network, u: Node, table: map<Node, seq<Node>>): map<Node, seq<nat>> {
    map dst | dst in table :: Ports(t, u, table[dst])
  }

  lemma EntriesStep(t: Network, nextHop: map<Node, map<Node, seq<Node>>>, rest: set<Node>,
                    rtTable: map<Node, map<Node, seq<nat>>>)
    requires Entries(t, nextHop, rest, rtTable) && rest <= nextHop.Keys
    ensures forall u :: u in rest ==> Entries(t, nextHop, rest - {u}, rtTable[u := RowOf(t, u, nextHop[u])])
  {
    forall u | u in rest
      ensures Entries(t, nextHop, rest - {u}, rtTable[u := RowOf(t, u, nextHop[u])])
    {
      var rtTable' := rtTable[u := RowOf(t, u, nextHop[u])];
      assert Ports(t, u, []) == [];
      assert forall x, dst :: x != u ==> Lookup(rtTable', x, dst) == Lookup(rtTable, x, dst);
    }
  }

  lemma EntriesEnd(t: Network, nextHop: map<Node, map<Node, seq<Node>>>, rtTable: map<Node, map<Node, seq<nat>>>)
    requires Entries(t, nextHop, {}, rtTable)
    ensures forall x, dst :: Lookup(rtTable, x, dst) == Ports(t, x, Lookup(nextHop, x, dst))
  {
    assert forall x :: Ports(t, x, []) == [];
  }

  // ----- packets that follow the interface tables

  /** A node's interface numbers tell its links apart. */
  ghost predicate PortsDiffer(t: Network) {
    forall u, v, v' :: v in Links(t, u) && v' in Links(t, u) && Link(t, u, v).idx == Link(t, u, v').idx ==> v == v'
  }

  /** `u` may put a packet for `dst` on its link to `v`: the table lists the link's interface. */
  ghost predicate SendsOver(t: Network, rtTable: map<Node, map<Node, seq<nat>>>, dst: Node, u: Node, v: Node) {
    v in Links(t, u) && Link(t, u, v).idx in Lookup(rtTable, u, dst)
  }

  /** A packet for `dst` that was sent on `|f| - 1` times, each time through any of the listed interfaces. */
  ghost predicate SentOn(t: Network, rtTable: map<Node, map<Node, seq<nat>>>, dst: Node, f: seq<Node>) {
    f != [] && forall i, j :: 0 <= i && j == i + 1 && j < |f| ==> SendsOver(t, rtTable, dst, f[i], f[j])
  }

  /** The interfaces listed for `dst` are those of the next hops that its search found. */
  ghost predicate ListsHops(t: Network, rtTable: map<Node, map<Node, seq<nat>>>, dst: Node, r: Route) {
    forall x :: Lookup(rtTable, x, dst) == Ports(t, x, HopsOf(r.nextHop, x))
  }

  lemma NextHopIsLinked(t: Network, dst: Node, payload: nat, r: Route, x: Node, u: Node)
    requires ValidNetwork(t) && RouteOk(t, dst, payload, r) && x in r.dis && u in HopsOf(r.nextHop, x)
    ensures u in Links(t, x)
  {
    hide LeastDistances, MetricsOfLeastWalks;
    assert ValidLink(t, u, x);
  }

  lemma PortsOf(t: Network, x: Node, hops: seq<Node>, v: Node)
    requires PortsDiffer(t) && v in Links(t, x) && forall u :: u in hops ==> u in Links(t, x)
    ensures Link(t, x, v).idx in Ports(t, x, hops) <==> v in hops
  {
    hide Link, Links;
    var ports := Ports(t, x, hops);
    if v in hops {
      var k :| 0 <= k < |hops| && hops[k] == v;
      assert ports[k] == Link(t, x, v).idx;
    }
    if Link(t, x, v).idx in ports {
      var k :| 0 <= k < |ports| && ports[k] == Link(t, x, v).idx;
      assert hops[k] in hops;
    }
  }

  /** A listed interface is that of a next hop, and of no other neighbour. */
  lemma InterfaceOfHop(t: Network, rtTable: map<Node, map<Node, seq<nat>>>, dst: Node, payload: nat, r: Route,
                       x: Node, v: Node)
    requires ValidNetwork(t) && PortsDiffer(t) && RouteOk(t, dst, payload, r) && ListsHops(t, rtTable, dst, r)
    requires x in r.dis
    ensures SendsOver(t, rtTable, dst, x, v) <==> v in HopsOf(r.nextHop, x)
  {
    var hops := HopsOf(r.nextHop, x);
    assert Lookup(rtTable, x, dst) == Ports(t, x, hops);
    hide RouteOk, ValidNetwork, ListsHops, HopsOf, PortsDiffer, Ports, Links, Link, Lookup;
    forall u | u in hops
      ensures u in Links(t, x)
    {
      NextHopIsLinked(t, dst, payload, r, x, u);
    }
    if v in Links(t, x) {
      PortsOf(t, x, hops, v);
    }
  }

  /** Following the interfaces is following the next hops. */
  lemma {:induction false} SentIsForwarded(t: Network, rtTable: map<Node, map<Node, seq<nat>>>, dst: Node, payload: nat,
                                           r: Route, f: seq<Node>)
    requires ValidNetwork(t) && PortsDiffer(t) && RouteOk(t, dst, payload, r) && ListsHops(t, rtTable, dst, r)
    requires f != [] && f[0] in r.dis
    ensures SentOn(t, rtTable, dst, f) <==> Forwarded(r.nextHop, f)
  {
    hide RouteOk, ValidNetwork, ListsHops, HopsOf, SendsOver, PortsDiffer;
    if |f| > 1 {
      var last := |f| - 1;
      var g, u, v := f[..last], f[last - 1], f[last];
      SentIsForwarded(t, rtTable, dst, payload, r, g);
      assert SentOn(t, rtTable, dst, f) <==> SentOn(t, rtTable, dst, g) && SendsOver(t, rtTable, dst, u, v);
      assert Forwarded(r.nextHop, f) <==> Forwarded(r.nextHop, g) && v in HopsOf(r.nextHop, u);
      if Forwarded(r.nextHop, g) {
        ForwardingDescends(t, dst, payload, r, g);
        assert g[last - 1] in r.dis;
        InterfaceOfHop(t, rtTable, dst, payload, r, u, v);
      }
    }
  }

  /** The table of `x` lists an interface for `dst`, and behind every listed one there is a neighbour. */
  ghost predicate CanSend(t: Network, rtTable: map<Node, map<Node, seq<nat>>>, dst: Node, x: Node) {
    && Lookup(rtTable, x, dst) != []
    && forall q :: q in Lookup(rtTable, x, dst) ==> LeadsOn(t, rtTable, dst, x, q)
  }

  ghost predicate LeadsOn(t: Network, rtTable: map<Node, map<Node, seq<nat>>>, dst: Node, x: Node, q: nat) {
    exists v :: SendsOver(t, rtTable, dst, x, v) && Link(t, x, v).idx == q
  }

  lemma HopsCanSend(t: Network, rtTable: map<Node, map<Node, seq<nat>>>, dst: Node, payload: nat, r: Route, x: Node)
    requires ValidNetwork(t) && PortsDiffer(t) && RouteOk(t, dst, payload, r) && ListsHops(t, rtTable, dst, r)
    requires x in r.dis && HopsOf(r.nextHop, x) != []
    ensures CanSend(t, rtTable, dst, x)
  {
    var hops := HopsOf(r.nextHop, x);
    var ports := Ports(t, x, hops);
    assert Lookup(rtTable, x, dst) == ports;
    hide RouteOk, ValidNetwork, ListsHops, HopsOf, SendsOver, PortsDiffer, Link, Lookup;
    forall q | q in ports
      ensures LeadsOn(t, rtTable, dst, x, q)
    {
      var k :| 0 <= k < |ports| && ports[k] == q;
      assert hops[k] in hops;
      InterfaceOfHop(t, rtTable, dst, payload, r, x, hops[k]);
      assert SendsOver(t, rtTable, dst, x, hops[k]) && Link(t, x, hops[k]).idx == q;
    }
  }

  /** Delivery by interfaces: a packet that leaves each node through any interface its table lists for the host passes
      no node twice, can go on through each listed interface until it is there, and is there after exactly the recorded
      number of hops. */
  lemma AnyInterfaceDelivers(t: Network, rtTable: map<Node, map<Node, seq<nat>>>, dst: Node, payload: nat, r: Route,
                             f: seq<Node>)
    requires ValidNetwork(t) && PortsDiffer(t) && RouteOk(t, dst, payload, r) && ListsHops(t, rtTable, dst, r)
    requires SentOn(t, rtTable, dst, f) && f[0] in r.dis
    ensures Distinct(f) && |f| <= r.dis[f[0]] + 1
    ensures f[|f| - 1] == dst <==> |f| == r.dis[f[0]] + 1
    ensures f[|f| - 1] != dst ==> CanSend(t, rtTable, dst, f[|f| - 1])
    ensures forall i :: 0 < i < |f| - 1 ==> f[i] in t.nodeType && t.nodeType[f[i]] == 1
  {
    SwitchesAreOnes(t, f);
    hide *;
    NotEmpty(t, rtTable, dst, f);
    SentIsForwarded(t, rtTable, dst, payload, r, f);
    AnyChoiceDelivers(t, dst, payload, r, f);
    ForwardingDescends(t, dst, payload, r, f);
    var x := f[|f| - 1];
    if x != dst {
      HopsCanSend(t, rtTable, dst, payload, r, x);
    }
  }

  lemma SwitchesAreOnes(t: Network, f: seq<Node>)
    ensures forall i :: 0 <= i < |f| && IsSwitch(t, f[i]) ==> f[i] in t.nodeType && t.nodeType[f[i]] == 1
  {
  }

  lemma NotEmpty(t: Network, rtTable: map<Node, map<Node, seq<nat>>>, dst: Node, f: seq<Node>)
    requires SentOn(t, rtTable, dst, f)
    ensures f != []
  {
    hide SendsOver;
  }

  /** The global maps of rdma-simulator.cc that the searches fill. */
  class RouteTables {
    const net: Network
    const payload: nat
    var nextHop: map<Node, map<Node, seq<Node>>>
    var rtTable: map<Node, map<Node, seq<nat>>>
    ghost var routes: map<Node, Route>

    ghost predicate Valid()
      reads this
    {
      && ValidNetwork(net)
      && (forall host :: host in routes ==>
            && RouteOk(net, host, payload, routes[host])
            && (forall x :: Lookup(nextHop, x, host) == HopsOf(routes[host].nextHop, x)))
      && (forall x, host :: host !in routes ==> Lookup(nextHop, x, host) == [])
    }

    constructor (net: Network, payload: nat)
      requires ValidNetwork(net)
      ensures Valid() && this.net == net && this.payload == payload && routes == map[] && rtTable == map[]
    {
      this.net, this.payload := net, payload;
      nextHop, rtTable, routes := map[], map[], map[];
    }

    /** One host's search, stored under `nextHop[.][host]`. */
    method AddRoute(host: Node)
      requires Valid() && host in net.nodeType && host !in routes
      modifies this`nextHop, this`routes
      ensures Valid() && routes.Keys == old(routes.Keys) + {host}
      ensures forall h :: h in old(routes) ==> routes[h] == old(routes[h])
    {
      hide RouteOk, ValidNetwork;
      var r := CalculateRoute(net, host, payload);
      StoredLookups(nextHop, host, r.nextHop);
      hide StoreHops, Lookup;
      nextHop := StoreHops(nextHop, host, r.nextHop);
      routes := routes[host := r];
    }

    /** `CalculateRoutes`: afterwards the tables answer for every host of the container. */
    method CalculateRoutes(n: seq<Node>)
      requires Valid() && routes == map[] && Distinct(n) && forall i :: 0 <= i < |n| ==> n[i] in net.nodeType
      modifies this`nextHop, this`routes
      ensures Valid()
      ensures forall h :: h in routes <==> h in n && net.nodeType[h] == 0
    {
      for i := 0 to |n|
        invariant Valid()
        invariant forall h :: h in routes <==> h in n[..i] && net.nodeType[h] == HOST
      {
        if net.nodeType[n[i]] == HOST {
          AddRoute(n[i]);
        }
      }
      assert n[..|n|] == n;
    }

    /** `SetRoutingEntries`: every next-hop list becomes the list of its interface numbers. */
    method SetRoutingEntries()
      requires Valid() && rtTable == map[]
      modifies this`rtTable
      ensures forall x, dst :: Lookup(rtTable, x, dst) == Ports(net, x, Lookup(nextHop, x, dst))
      ensures Valid() && forall dst :: dst in routes ==> ListsHops(net, rtTable, dst, routes[dst])
    {
      var nodes := nextHop.Keys;
      EntriesStart(net, nextHop, rtTable);
      hide Entries;
      while nodes != {}
        invariant nodes <= nextHop.Keys && Entries(net, nextHop, nodes, rtTable)
      {
        EntriesStep(net, nextHop, nodes, rtTable);
        var node :| node in nodes;
        nodes := nodes - {node};
        var row := FillRow(node, nextHop[node]);
        rtTable := rtTable[node := row];
      }
      EntriesEnd(net, nextHop, rtTable);
    }

    method FillRow(node: Node, table: map<Node, seq<Node>>) returns (row: map<Node, seq<nat>>)
      ensures row == RowOf(net, node, table)
    {
      row := map[];
      var dsts := table.Keys;
      while dsts != {}
        invariant dsts <= table.Keys
        invariant row == map dst | dst in table.Keys - dsts :: Ports(net, node, table[dst])
      {
        var dst :| dst in dsts;
        dsts := dsts - {dst};
        var entries: seq<nat> := [];
        for k := 0 to |table[dst]|
          invariant entries == Ports(net, node, table[dst][..k])
        {
          entries := entries + [Link(net, node, table[dst][k]).idx];
        }
        assert table[dst][..|table[dst]|] == table[dst];
        row := row[dst := entries];
      }
    }
  }
}
