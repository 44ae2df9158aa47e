/** What the leaf switches' optical tables have to say about the optical switches' circuits. */
module OpticalTables {
  import opened LinkData
  import opened LinkMatrix

  datatype Addr = Addr(get: nat)

  /** The state of one MemsNode. */
  datatype Switch = Switch(isDay: bool, linkIndex: nat, linkTable: seq<nat>)

  /** The hosts attached to each leaf, and each leaf's interface number towards each optical switch. */
  datatype Fabric = Fabric(hosts: seq<seq<Addr>>, port: seq<seq<nat>>)

  type Table = map<Addr, nat>

  /** Every host hangs off one leaf, and a leaf's interfaces towards the `n` optical switches are distinct. */
  ghost predicate ValidFabric(f: Fabric, n: nat) {
    && |f.hosts| == LEAVES && |f.port| == LEAVES
    && (forall a, b, d :: 0 <= a < LEAVES && 0 <= b < LEAVES && d in f.hosts[a] && d in f.hosts[b] ==> a == b)
    && (forall a :: 0 <= a < LEAVES ==> |f.port[a]| == n)
    && (forall a, i, j :: 0 <= a < LEAVES && 0 <= i < n && 0 <= j < n && f.port[a][i] == f.port[a][j] ==> i == j)
  }

  function HostsOf(f: Fabric, b: nat): (hosts: seq<Addr>)
    ensures b < |f.hosts| ==> hosts == f.hosts[b]
  {
    if b < |f.hosts| then f.hosts[b] else []
  }

  /** `nbr2if[a][mems].idx`; a missing link has the number 0. */
  function PortOf(f: Fabric, a: nat, m: nat): (p: nat)
    ensures p == if a < |f.port| && m < |f.port[a]| then f.port[a][m] else 0
  {
    if a < |f.port| && m < |f.port[a]| then f.port[a][m] else 0
  }

  /** Switch `m` is light and its circuits lead from leaf `a` to the leaf of `d`. */
  ghost predicate Sends(f: Fabric, mems: seq<Switch>, m: nat, a: nat, d: Addr) {
    m < |mems| && mems[m].isDay && d in HostsOf(f, Peer(mems[m].linkIndex, a))
  }

  /** The same in the fabric's own terms: a light switch whose link table leads from leaf `a` to the leaf that has `d`,
      and which is behind the leaf's interface `p`. */
  ghost predicate LinkedThrough(f: Fabric, mems: seq<Switch>, a: nat, d: Addr, p: nat) {
    exists m: nat :: IsLink(f, mems, m, a, d, p)
  }

  ghost predicate IsLink(f: Fabric, mems: seq<Switch>, m: nat, a: nat, d: Addr, p: nat) {
    && m < |mems| && mems[m].isDay && a < |mems[m].linkTable| && mems[m].linkTable[a] < |f.hosts|
    && d in f.hosts[mems[m].linkTable[a]]
    && a < |f.port| && m < |f.port[a]| && p == f.port[a][m]
  }

  lemma LinkedIsSent(f: Fabric, n: nat, mems: seq<Switch>, a: nat, d: Addr, p: nat)
    requires ValidFabric(f, n) && |mems| == n && a < LEAVES
    requires forall m :: 0 <= m < n ==> mems[m].linkTable == LinkTable(mems[m].linkIndex)
    ensures LinkedThrough(f, mems, a, d, p) <==> SentThrough(f, mems, a, d, p)
  {
    forall m | 0 <= m < n
      ensures IsLink(f, mems, m, a, d, p) <==> Sends(f, mems, m, a, d) && p == PortOf(f, a, m)
    {
      PeerIsLeaf(mems[m].linkIndex, a);
      assert mems[m].linkTable[a] == Peer(mems[m].linkIndex, a);
      hide Peer;
    }
    hide Sends, Peer, IsLink, PortOf;
    if LinkedThrough(f, mems, a, d, p) {
      var m: nat :| IsLink(f, mems, m, a, d, p);
      assert m < |mems| by {
        LinkIsSwitch(f, mems, m, a, d, p);
      }
    }
    if SentThrough(f, mems, a, d, p) {
      var m: nat :| Sends(f, mems, m, a, d) && p == PortOf(f, a, m);
      assert m < |mems| by {
        SendsIsSwitch(f, mems, m, a, d);
      }
    }
  }

  lemma LinkIsSwitch(f: Fabric, mems: seq<Switch>, m: nat, a: nat, d: Addr, p: nat)
    requires IsLink(f, mems, m, a, d, p)
    ensures m < |mems|
  {
  }

  lemma SendsIsSwitch(f: Fabric, mems: seq<Switch>, m: nat, a: nat, d: Addr)
    requires Sends(f, mems, m, a, d)
    ensures m < |mems|
  {
  }

  ghost predicate SentThrough(f: Fabric, mems: seq<Switch>, a: nat, d: Addr, p: nat) {
    exists m: nat :: Sends(f, mems, m, a, d) && p == PortOf(f, a, m)
  }

  predicate Entry(t: Table, d: Addr, p: nat) {
    d in t && t[d] == p
  }

  /** The table of leaf `a` holds `d` through an interface exactly when a light switch behind it leads to `d`'s leaf. */
  ghost predicate LeafAgrees(f: Fabric, mems: seq<Switch>, a: nat, t: Table) {
    forall d, p :: Entry(t, d, p) <==> SentThrough(f, mems, a, d, p)
  }

  ghost predicate Agrees(f: Fabric, mems: seq<Switch>, optical: seq<Table>) {
    |optical| == LEAVES && forall a :: 0 <= a < LEAVES ==> LeafAgrees(f, mems, a, optical[a])
  }

  /** Light switches use different matrices. */
  ghost predicate LightDisjoint(mems: seq<Switch>) {
    && (forall i :: 0 <= i < |mems| ==> mems[i].linkIndex < MATRICES)
    && forall i, j :: 0 <= i < j < |mems| && mems[i].isDay && mems[j].isDay ==> mems[i].linkIndex != mems[j].linkIndex
  }

  /** A leaf reaches a host through at most one light switch. */
  lemma OneSwitchPerHost(f: Fabric, n: nat, mems: seq<Switch>, i: nat, j: nat, a: nat, d: Addr)
    requires ValidFabric(f, n) && LightDisjoint(mems) && a < LEAVES
    requires Sends(f, mems, i, a, d) && Sends(f, mems, j, a, d)
    ensures i == j
  {
    hide Peer;
    PeerIsLeaf(mems[i].linkIndex, a);
    PeerIsLeaf(mems[j].linkIndex, a);
    PeersDisjoint(mems[i].linkIndex, mems[j].linkIndex, a);
  }

  // ----- what one reconfiguration does to the table of one leaf

  function Removed(t: Table, hosts: seq<Addr>): Table {
    map d | d in t && d !in hosts :: t[d]
  }

  function Added(t: Table, hosts: seq<Addr>, p: nat): Table {
    map d | d in t.Keys + (set h | h in hosts) :: if d in hosts then p else t[d]
  }

  lemma RemovedEntries(t: Table, hosts: seq<Addr>)
    ensures forall d, p :: Entry(Removed(t, hosts), d, p) <==> Entry(t, d, p) && d !in hosts
  {
  }

  lemma AddedEntries(t: Table, hosts: seq<Addr>, q: nat)
    ensures forall d, p :: Entry(Added(t, hosts, q), d, p) <==> if d in hosts then p == q else Entry(t, d, p)
  {
  }

  /** Darkening `m` and clearing the hosts behind its circuit keeps a leaf's agreement. */
  lemma LeafDarkens(f: Fabric, n: nat, mems: seq<Switch>, m: nat, a: nat, t: Table)
    requires ValidFabric(f, n) && LightDisjoint(mems) && LeafAgrees(f, mems, a, t)
    requires m < |mems| && mems[m].isDay && a < LEAVES
    ensures LeafAgrees(f, mems[m := mems[m].(isDay := false)], a, Removed(t, HostsOf(f, Peer(mems[m].linkIndex, a))))
  {
    hide Peer, ValidFabric, LightDisjoint, Removed;
    var mems', gone := mems[m := mems[m].(isDay := false)], HostsOf(f, Peer(mems[m].linkIndex, a));
    RemovedEntries(t, gone);
    forall d, p
      ensures SentThrough(f, mems', a, d, p) <==> SentThrough(f, mems, a, d, p) && d !in gone
    {
      if i: nat :| Sends(f, mems', i, a, d) && p == PortOf(f, a, i) {
        assert Sends(f, mems, i, a, d);
        if d in gone {
          OneSwitchPerHost(f, n, mems, i, m, a, d);
        }
      }
      if SentThrough(f, mems, a, d, p) && d !in gone {
        var i: nat :| Sends(f, mems, i, a, d) && p == PortOf(f, a, i);
        assert Sends(f, mems', i, a, d);
      }
    }
  }

  /** Relighting `m` under matrix `k` and adding the hosts behind its new circuit keeps a leaf's agreement. */
  lemma LeafLightens(f: Fabric, n: nat, mems: seq<Switch>, m: nat, sw: Switch, a: nat, t: Table)
    requires m < |mems| && !mems[m].isDay && sw.isDay && a < LEAVES
    requires ValidFabric(f, n) && LightDisjoint(mems[m := sw]) && LeafAgrees(f, mems, a, t)
    ensures LeafAgrees(f, mems[m := sw], a, Added(t, HostsOf(f, Peer(sw.linkIndex, a)), PortOf(f, a, m)))
  {
    hide Peer, ValidFabric, LightDisjoint, Added;
    var mems', behind := mems[m := sw], HostsOf(f, Peer(sw.linkIndex, a));
    AddedEntries(t, behind, PortOf(f, a, m));
    forall d, p
      ensures SentThrough(f, mems', a, d, p) <==>
        if d in behind then p == PortOf(f, a, m) else SentThrough(f, mems, a, d, p)
    {
      if d in behind {
        assert Sends(f, mems', m, a, d);
        if i: nat :| Sends(f, mems', i, a, d) && p == PortOf(f, a, i) {
          OneSwitchPerHost(f, n, mems', i, m, a, d);
        }
      } else {
        if i: nat :| Sends(f, mems', i, a, d) && p == PortOf(f, a, i) {
          assert Sends(f, mems, i, a, d);
        }
        if i: nat :| Sends(f, mems, i, a, d) && p == PortOf(f, a, i) {
          assert Sends(f, mems', i, a, d);
        }
      }
    }
  }

  // ----- where entries lead, whatever matrices the light switches use

  /** Every entry of leaf `a` goes through an interface behind which a light switch leads to the address's leaf. */
  ghost predicate LeafLeads(f: Fabric, mems: seq<Switch>, a: nat, t: Table) {
    forall d, p :: Entry(t, d, p) ==> SentThrough(f, mems, a, d, p)
  }

  ghost predicate Leads(f: Fabric, mems: seq<Switch>, optical: seq<Table>) {
    |optical| == LEAVES && forall a :: 0 <= a < LEAVES ==> LeafLeads(f, mems, a, optical[a])
  }

  lemma LeafLeadsDarkened(f: Fabric, mems: seq<Switch>, m: nat, a: nat, t: Table)
    requires LeafLeads(f, mems, a, t) && m < |mems|
    ensures LeafLeads(f, mems[m := mems[m].(isDay := false)], a, Removed(t, HostsOf(f, Peer(mems[m].linkIndex, a))))
  {
    hide Peer, HostsOf, Removed, Entry;
    var mems', gone := mems[m := mems[m].(isDay := false)], HostsOf(f, Peer(mems[m].linkIndex, a));
    RemovedEntries(t, gone);
    forall d, p | Entry(t, d, p) && d !in gone
      ensures SentThrough(f, mems', a, d, p)
    {
      var i: nat :| Sends(f, mems, i, a, d) && p == PortOf(f, a, i);
      assert Sends(f, mems', i, a, d);
    }
  }

  lemma LeafLeadsLightened(f: Fabric, mems: seq<Switch>, m: nat, sw: Switch, a: nat, t: Table)
    requires LeafLeads(f, mems, a, t) && m < |mems| && !mems[m].isDay && sw.isDay
    ensures LeafLeads(f, mems[m := sw], a, Added(t, HostsOf(f, Peer(sw.linkIndex, a)), PortOf(f, a, m)))
  {
    hide Peer, HostsOf, Added, Entry;
    var mems', behind := mems[m := sw], HostsOf(f, Peer(sw.linkIndex, a));
    AddedEntries(t, behind, PortOf(f, a, m));
    forall d, p | if d in behind then p == PortOf(f, a, m) else Entry(t, d, p)
      ensures SentThrough(f, mems', a, d, p)
    {
      if d in behind {
        assert Sends(f, mems', m, a, d);
      } else {
        var i: nat :| Sends(f, mems, i, a, d) && p == PortOf(f, a, i);
        assert Sends(f, mems', i, a, d);
      }
    }
  }

  // ----- all leaves

  function Darkened(f: Fabric, optical: seq<Table>, k: nat): seq<Table> {
    seq(|optical|, a requires 0 <= a < |optical| => Removed(optical[a], HostsOf(f, Peer(k, a))))
  }

  function Lightened(f: Fabric, optical: seq<Table>, k: nat, m: nat): seq<Table> {
    seq(|optical|, a requires 0 <= a < |optical| => Added(optical[a], HostsOf(f, Peer(k, a)), PortOf(f, a, m)))
  }

  lemma DarkeningAgrees(f: Fabric, n: nat, mems: seq<Switch>, m: nat, optical: seq<Table>)
    requires ValidFabric(f, n) && LightDisjoint(mems) && Agrees(f, mems, optical) && m < |mems| && mems[m].isDay
    ensures Agrees(f, mems[m := mems[m].(isDay := false)], Darkened(f, optical, mems[m].linkIndex))
  {
    hide Peer, ValidFabric, LightDisjoint, Removed, LeafAgrees;
    forall a | 0 <= a < LEAVES
      ensures LeafAgrees(f, mems[m := mems[m].(isDay := false)], a, Darkened(f, optical, mems[m].linkIndex)[a])
    {
      LeafDarkens(f, n, mems, m, a, optical[a]);
    }
  }

  lemma LighteningAgrees(f: Fabric, n: nat, mems: seq<Switch>, m: nat, sw: Switch, optical: seq<Table>)
    requires m < |mems| && !mems[m].isDay && sw.isDay
    requires ValidFabric(f, n) && LightDisjoint(mems[m := sw]) && Agrees(f, mems, optical)
    ensures Agrees(f, mems[m := sw], Lightened(f, optical, sw.linkIndex, m))
  {
    hide Peer, ValidFabric, LightDisjoint, Added, LeafAgrees;
    forall a | 0 <= a < LEAVES
      ensures LeafAgrees(f, mems[m := sw], a, Lightened(f, optical, sw.linkIndex, m)[a])
    {
      LeafLightens(f, n, mems, m, sw, a, optical[a]);
    }
  }

  // ----- two-hop tables

  /** `d` can be reached from `a` over switch `m` and then over another light switch. */
  ghost predicate TwoHop(f: Fabric, mems: seq<Switch>, m: nat, a: nat, d: Addr) {
    m < |mems| && mems[m].isDay && exists m2: nat :: m2 != m && Sends(f, mems, m2, Peer(mems[m].linkIndex, a), d)
  }

  /** `d` maps to the interface towards the last switch that starts a two-hop route to it. */
  ghost predicate LastTwoHop(f: Fabric, mems: seq<Switch>, bound: nat, a: nat, d: Addr, p: nat) {
    exists m: nat :: m < bound && TwoHop(f, mems, m, a, d) && p == PortOf(f, a, m)
             && forall l :: m < l < bound ==> !TwoHop(f, mems, l, a, d)
  }

  ghost predicate MpLeafAgrees(f: Fabric, mems: seq<Switch>, bound: nat, a: nat, t: Table) {
    forall d, p :: Entry(t, d, p) <==> LastTwoHop(f, mems, bound, a, d, p)
  }

  /** Every two-hop table is what the pairs of distinct light switches define. */
  ghost predicate MpAgrees(f: Fabric, mems: seq<Switch>, mp: seq<Table>) {
    |mp| == LEAVES && forall a :: 0 <= a < LEAVES ==> MpLeafAgrees(f, mems, |mems|, a, mp[a])
  }

  /** The two-hop table of leaf `a` once the first `bound` switches are gone through. */
  ghost function MpTable(f: Fabric, mems: seq<Switch>, bound: nat, a: nat): Table {
    if bound == 0 then map[]
    else
      var t, hosts := MpTable(f, mems, bound - 1, a), TwoHopHosts(f, mems, bound - 1, a);
      map d | d in t.Keys + hosts :: if d in hosts then PortOf(f, a, bound - 1) else t[d]
  }

  ghost function TwoHopHosts(f: Fabric, mems: seq<Switch>, m: nat, a: nat): set<Addr> {
    set b, d | 0 <= b < |f.hosts| && d in f.hosts[b] && TwoHop(f, mems, m, a, d) :: d
  }

  /** Going through one more switch overwrites the entries of the hosts it starts a two-hop route to. */
  lemma MpLeafNext(f: Fabric, mems: seq<Switch>, m: nat, a: nat, t: Table, t': Table)
    requires MpLeafAgrees(f, mems, m, a, t)
    requires forall d, p :: Entry(t', d, p) <==>
      if TwoHop(f, mems, m, a, d) then p == PortOf(f, a, m) else Entry(t, d, p)
    ensures MpLeafAgrees(f, mems, m + 1, a, t')
  {
    hide TwoHop, Entry;
    forall d, p
      ensures Entry(t', d, p) <==> LastTwoHop(f, mems, m + 1, a, d, p)
    {
      if l: nat :| l < m && TwoHop(f, mems, l, a, d) && p == PortOf(f, a, l)
                   && forall k: nat :: l < k < m ==> !TwoHop(f, mems, k, a, d) {
        assert LastTwoHop(f, mems, m, a, d, p);
      }
    }
  }

  lemma {:induction false} MpTableAgrees(f: Fabric, mems: seq<Switch>, bound: nat, a: nat)
    ensures MpLeafAgrees(f, mems, bound, a, MpTable(f, mems, bound, a))
  {
    if bound > 0 {
      var m, t, t' := bound - 1, MpTable(f, mems, bound - 1, a), MpTable(f, mems, bound, a);
      MpTableAgrees(f, mems, m, a);
      forall d
        ensures d in TwoHopHosts(f, mems, m, a) <==> TwoHop(f, mems, m, a, d)
      {
        if TwoHop(f, mems, m, a, d) {
          var m2: nat :| m2 != m && Sends(f, mems, m2, Peer(mems[m].linkIndex, a), d);
          var b := Peer(mems[m2].linkIndex, Peer(mems[m].linkIndex, a));
          assert b < |f.hosts| && d in f.hosts[b];
        }
      }
      hide TwoHop, Peer, TwoHopHosts;
      MpLeafNext(f, mems, m, a, t, t');
    }
  }

  ghost predicate HasEntryAt(optical: seq<Table>, b: nat, d: Addr) {
    b < |optical| && d in optical[b]
  }

  /** A two-hop entry leads over a light switch to a leaf whose own table has the second circuit to `d`'s leaf,
      and it never leads back to the sender's own hosts. */
  lemma SecondHopIsThere(f: Fabric, n: nat, mems: seq<Switch>, optical: seq<Table>, mp: seq<Table>, a: nat, d: Addr)
    requires ValidFabric(f, n) && LightDisjoint(mems) && Agrees(f, mems, optical) && MpAgrees(f, mems, mp)
    requires a < LEAVES && d in mp[a]
    ensures exists m: nat ::
      m < |mems| && mems[m].isDay && mp[a][d] == PortOf(f, a, m) && HasEntryAt(optical, Peer(mems[m].linkIndex, a), d)
    ensures d !in f.hosts[a]
  {
    hide Peer;
    assert Entry(mp[a], d, mp[a][d]);
    var m: nat :| m < |mems| && TwoHop(f, mems, m, a, d) && mp[a][d] == PortOf(f, a, m);
    var b := Peer(mems[m].linkIndex, a);
    PeerIsLeaf(mems[m].linkIndex, a);
    var m2: nat :| m2 != m && Sends(f, mems, m2, b, d);
    assert SentThrough(f, mems, b, d, PortOf(f, b, m2));
    assert Entry(optical[b], d, PortOf(f, b, m2));
    PeersDisjoint(mems[m].linkIndex, mems[m2].linkIndex, b);
    PeerIsInvolution(mems[m].linkIndex, a);
    PeerIsLeaf(mems[m2].linkIndex, b);
    assert d in f.hosts[Peer(mems[m2].linkIndex, b)];
  }
}
