/** The simulated network: node types, interfaces and walks that never pass through a host. */
module Topology {
  datatype Node = Node(id: nat)

  const HOST := 0
  const SWITCH := 1

  const WORD := 0x1_0000_0000_0000_0000

  datatype Interface = Interface(idx: nat, up: bool, delay: nat, bw: nat)

  /** `nbr2if` and the node types. */
  datatype Network = Network(nodeType: map<Node, nat>, nbr2if: map<Node, map<Node, Interface>>)

  function Links(t: Network, u: Node): map<Node, Interface> {
    if u in t.nbr2if then t.nbr2if[u] else map[]
  }

  predicate UpEdge(t: Network, u: Node, v: Node) {
    v in Links(t, u) && Links(t, u)[v].up
  }

  predicate IsSwitch(t: Network, u: Node) {
    u in t.nodeType && t.nodeType[u] == SWITCH
  }

  ghost predicate ValidLink(t: Network, u: Node, v: Node) {
    v in Links(t, u) ==>
      && u in t.nodeType && v in t.nodeType && Links(t, u)[v].bw > 0
      && u in Links(t, v) && Links(t, v)[u].up == Links(t, u)[v].up
  }

  /** Every link joins known nodes, carries at least one bit per second, and is up in both directions or in none. */
  ghost predicate ValidNetwork(t: Network) {
    forall u, v :: ValidLink(t, u, v)
  }

  /** A walk over up links from `host` whose inner nodes are all switches. */
  ghost predicate Walk(t: Network, host: Node, w: seq<Node>) {
    && w != [] && w[0] == host
    && (forall i, j :: 0 <= i && j == i + 1 && j < |w| ==> UpEdge(t, w[i], w[j]))
    && (forall i :: 0 < i < |w| - 1 ==> IsSwitch(t, w[i]))
  }

  ghost predicate WalkTo(t: Network, host: Node, w: seq<Node>, x: Node) {
    Walk(t, host, w) && w[|w| - 1] == x
  }

  ghost predicate Hops(t: Network, host: Node, x: Node, k: nat) {
    exists w :: WalkTo(t, host, w, x) && |w| == k + 1
  }

  /** `k` is the least number of links between `host` and `x`. */
  ghost predicate LeastHops(t: Network, host: Node, x: Node, k: nat) {
    Hops(t, host, x, k) && forall m: nat :: Hops(t, host, x, m) ==> k <= m
  }

  /** What a packet may pass through on its way to `host`: switches, and `host` itself. */
  predicate Transit(t: Network, host: Node, u: Node) {
    u == host || IsSwitch(t, u)
  }

  lemma WalkSnoc(t: Network, host: Node, w: seq<Node>, x: Node)
    requires Walk(t, host, w) && Transit(t, host, w[|w| - 1]) && (w[|w| - 1] == host ==> |w| == 1)
    requires UpEdge(t, w[|w| - 1], x)
    ensures WalkTo(t, host, w + [x], x)
  {
    var v := w + [x];
    forall i | 0 < i < |v| - 1
      ensures IsSwitch(t, v[i])
    {
      assert v[i] == w[i];
    }
  }

  // ----- metrics of a walk, in the source's 64-bit arithmetic

  function Link(t: Network, u: Node, v: Node): Interface {
    if v in Links(t, u) then Links(t, u)[v] else Interface(0, false, 0, 1)
  }

  /** The time to put one payload on a link, `packet_payload_size * 1000000000lu * 8 / bw`. */
  function LinkTxDelay(payload: nat, l: Interface): nat
    requires l.bw > 0
  {
    payload * 1000000000 * 8 % WORD / l.bw
  }

  ghost function WalkDelay(t: Network, w: seq<Node>): nat {
    if |w| <= 1 then 0
    else WalkDelay(t, w[..|w| - 1]) + Link(t, w[|w| - 2], w[|w| - 1]).delay
  }

  ghost function WalkTxDelay(t: Network, payload: nat, w: seq<Node>): nat {
    if |w| <= 1 then 0
    else
      var l := Link(t, w[|w| - 2], w[|w| - 1]);
      WalkTxDelay(t, payload, w[..|w| - 1]) + if l.bw > 0 then LinkTxDelay(payload, l) else 0
  }

  ghost function WalkBandwidth(t: Network, w: seq<Node>): nat {
    if |w| <= 1 then WORD - 1
    else
      var rest, l := WalkBandwidth(t, w[..|w| - 1]), Link(t, w[|w| - 2], w[|w| - 1]);
      if l.bw < rest then l.bw else rest
  }
}
