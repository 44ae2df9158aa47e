/** The global state behind `InitMemsConfig` and `ConfigMems`, updated in place as rdma-simulator.cc does. */
module OpticalController {
  import opened LinkData
  import opened LinkMatrix
  import opened OpticalTables
  import opened MemsSchedule
  import NodeLists

  lemma AddedSnoc(t: Table, hosts: seq<Addr>, h: Addr, p: nat)
    ensures Added(t, hosts, p)[h := p] == Added(t, hosts + [h], p)
    ensures Added(t, [], p) == t
  {
    assert forall d :: d in hosts + [h] <==> d in hosts || d == h;
  }

  lemma RemovedSnoc(t: Table, hosts: seq<Addr>, h: Addr)
    ensures Removed(t, hosts) - {h} == Removed(t, hosts + [h])
    ensures Removed(t, []) == t
  {
    assert forall d :: d in hosts + [h] <==> d in hosts || d == h;
  }

  /** Some light switch below `j` other than `m` leads from leaf `b` to the leaf of `d`. */
  ghost predicate SecondHop(f: Fabric, mems: seq<Switch>, m: nat, j: nat, b: nat, d: Addr) {
    exists m2: nat :: m2 < j && m2 != m && Sends(f, mems, m2, b, d)
  }

  /** `t` is `t0` with every host that has a second hop below `j` rewritten to `p`. */
  ghost predicate Rewritten(f: Fabric, mems: seq<Switch>, m: nat, j: nat, b: nat, p: nat, t0: Table, t: Table) {
    forall d, q :: Entry(t, d, q) <==> if SecondHop(f, mems, m, j, b, d) then q == p else Entry(t0, d, q)
  }

  lemma RewrittenNext(f: Fabric, mems: seq<Switch>, m: nat, j: nat, b: nat, p: nat, t0: Table, t: Table)
    requires Rewritten(f, mems, m, j, b, p, t0, t) && j < |mems|
    ensures var t' := if j != m && mems[j].isDay then Added(t, HostsOf(f, Peer(mems[j].linkIndex, b)), p) else t;
      Rewritten(f, mems, m, j + 1, b, p, t0, t')
  {
    hide Peer, Added, Entry;
    var c := Peer(mems[j].linkIndex, b);
    AddedEntries(t, HostsOf(f, c), p);
    forall d
      ensures SecondHop(f, mems, m, j + 1, b, d) <==>
        SecondHop(f, mems, m, j, b, d) || (j != m && Sends(f, mems, j, b, d))
    {
    }
  }

  lemma RewrittenAll(f: Fabric, mems: seq<Switch>, m: nat, a: nat, t0: Table, t: Table)
    requires m < |mems| && mems[m].isDay
    requires Rewritten(f, mems, m, |mems|, Peer(mems[m].linkIndex, a), PortOf(f, a, m), t0, t)
    requires MpLeafAgrees(f, mems, m, a, t0)
    ensures MpLeafAgrees(f, mems, m + 1, a, t)
  {
    hide Peer, Entry, LastTwoHop, MpLeafAgrees;
    forall d
      ensures SecondHop(f, mems, m, |mems|, Peer(mems[m].linkIndex, a), d) <==> TwoHop(f, mems, m, a, d)
    {
    }
    MpLeafNext(f, mems, m, a, t0, t);
  }

  lemma DarkSwitchStartsNothing(f: Fabric, mems: seq<Switch>, m: nat, a: nat, t: Table)
    requires m < |mems| && !mems[m].isDay && MpLeafAgrees(f, mems, m, a, t)
    ensures MpLeafAgrees(f, mems, m + 1, a, t)
  {
    hide MpLeafAgrees;
    MpLeafNext(f, mems, m, a, t, t);
  }

  lemma NoSwitchNoEntry(f: Fabric, mems: seq<Switch>, a: nat)
    ensures MpLeafAgrees(f, mems, 0, a, map[])
  {
  }

  lemma InitialNext(f: Fabric, t0: int, i: nat)
    ensures InitialTables(f, i + 1) == Lightened(f, InitialTables(f, i), i, i)
    ensures PendingUpTo(t0, i + 1) == PendingUpTo(t0, i) + multiset{Event(t0 + DAY + STAGGER * i, i)}
    ensures PendingUpTo(t0, 0) == multiset{}
  {
  }

  lemma InitialPending(t0: int, n: nat)
    ensures PendingAt(n, PendingUpTo(t0, n), seq(n, i requires 0 <= i < n => FirstDue(t0, i)))
  {
    PendingUpToAt(t0, n);
  }

  lemma DarkFires(f: Fabric, mpMode: bool, s: State, e: Event, s': State)
    requires e in s.pending && (forall e2 :: e2 in s.pending ==> e.time <= e2.time)
    requires e.id < |s.mems| && s.mems[e.id].isDay && s'.now == e.time
    requires s'.mems == s.mems[e.id := s.mems[e.id].(isDay := false)]
    requires s'.optical == Darkened(f, s.optical, s.mems[e.id].linkIndex)
    requires s'.pending == s.pending - multiset{e} + multiset{Event(e.time + NIGHT, e.id)}
    requires if mpMode then MpAgrees(f, s'.mems, s'.mp) else s'.mp == s.mp
    ensures Fires(f, mpMode, s, e, s')
  {
    hide Darkened, Lightened, MpAgrees, Relit;
  }

  lemma LightFires(f: Fabric, mpMode: bool, s: State, e: Event, s': State)
    requires e in s.pending && (forall e2 :: e2 in s.pending ==> e.time <= e2.time)
    requires e.id < |s.mems| && !s.mems[e.id].isDay && s'.now == e.time
    requires s'.mems == s.mems[e.id := Relit(s.mems[e.id])]
    requires s'.optical == Lightened(f, s.optical, Relit(s.mems[e.id]).linkIndex, e.id)
    requires s'.pending == s.pending - multiset{e} + multiset{Event(e.time + DAY, e.id)}
    requires if mpMode then MpAgrees(f, s'.mems, s'.mp) else s'.mp == s.mp
    ensures Fires(f, mpMode, s, e, s')
  {
    hide Darkened, Lightened, MpAgrees, Relit;
  }

  /** The constructor of MemsNode: it reads the matrix of its own number into a table of zeros. */
  method NewSwitch(id: nat) returns (sw: Switch)
    requires id < MATRICES
    ensures sw == Switch(true, id, LinkTable(id))
  {
    var zeros: seq<nat> := seq(LEAVES, _ => 0);
    MatrixIsSquare(id);
    var table := ReadLinkTable(Matrix(id), zeros);
    ReadingGivesLinkTable(id, zeros, table);
    return Switch(true, id, table);
  }

  method NewSwitches(n: nat) returns (mems: seq<Switch>)
    requires n <= MATRICES
    ensures |mems| == n && forall i :: 0 <= i < n ==> mems[i] == Switch(true, i, LinkTable(i))
  {
    mems := [];
    for i := 0 to n
      invariant |mems| == i && forall k :: 0 <= k < i ==> mems[k] == Switch(true, k, LinkTable(k))
    {
      hide LinkTable;
      var sw := NewSwitch(i);
      mems := mems + [sw];
    }
  }

  class Controller {
    const f: Fabric
    const n: nat
    const mpMode: bool
    /** The topology file's node types and its announced number of optical switches, and the lists made of them. */
    const nodeType: seq<nat>
    const spineNum: nat
    const ids: NodeLists.NodeLists

    var now: int
    var mems: seq<Switch>
    var optical: seq<Table>
    var mp: seq<Table>
    var pending: multiset<Event>

    ghost predicate Shape() {
      && |f.hosts| == LEAVES && |f.port| == LEAVES && n <= MATRICES
      && NodeLists.Built(nodeType, spineNum, |nodeType|, ids) && |ids.optical| == n && |ids.leaves| == LEAVES
      && (mpMode ==> NodeLists.LeavesLast(ids))
    }

    ghost predicate Linked()
      reads this`mems
    {
      |mems| == n && forall i :: 0 <= i < n ==>
        mems[i].linkIndex < MATRICES && mems[i].linkTable == LinkTable(mems[i].linkIndex)
    }

    ghost predicate Valid()
      reads this`mems, this`optical, this`mp
    {
      Shape() && Linked() && |optical| == LEAVES && |mp| == LEAVES
    }

    ghost function St(): State
      reads this
    {
      State(now, mems, optical, mp, pending)
    }

    /** A fresh simulation at time `t0`: the MemsNode constructors have run, nothing is configured. */
    constructor (f: Fabric, nodeType: seq<nat>, spineNum: nat, ids: NodeLists.NodeLists, mpMode: bool, t0: int)
      requires NodeLists.Built(nodeType, spineNum, |nodeType|, ids)
      requires |f.hosts| == LEAVES && |f.port| == LEAVES && |ids.optical| <= MATRICES && |ids.leaves| == LEAVES
      requires mpMode ==> NodeLists.LeavesLast(ids)
      ensures Valid() && this.f == f && this.n == |ids.optical| && this.mpMode == mpMode && this.ids == ids
      ensures now == t0 && pending == multiset{}
      ensures forall i :: 0 <= i < n ==> mems[i] == Switch(true, i, LinkTable(i))
      ensures optical == InitialTables(f, 0) && forall a :: 0 <= a < LEAVES ==> mp[a] == map[]
    {
      this.f, this.n, this.mpMode := f, |ids.optical|, mpMode;
      this.nodeType, this.spineNum, this.ids := nodeType, spineNum, ids;
      now, pending := t0, multiset{};
      optical, mp := seq(LEAVES, _ => map[]), seq(LEAVES, _ => map[]);
      var switches := NewSwitches(|ids.optical|);
      mems := switches;
    }

    /** `CalculateOpticalRoute`: leaf `a` reaches the hosts of leaf `b` over switch `m`. */
    method CalculateOpticalRoute(a: nat, m: nat, b: nat)
      requires a < |optical|
      modifies this`optical
      ensures optical == old(optical)[a := Added(old(optical)[a], HostsOf(f, b), PortOf(f, a, m))]
    {
      var hosts, port := HostsOf(f, b), PortOf(f, a, m);
      ghost var t := optical[a];
      AddedSnoc(t, [], Addr(0), port);
      for i := 0 to |hosts|
        invariant optical == old(optical)[a := Added(t, hosts[..i], port)]
      {
        AddedSnoc(t, hosts[..i], hosts[i], port);
        assert hosts[..i + 1] == hosts[..i] + [hosts[i]];
        optical := optical[a := optical[a][hosts[i] := port]];
      }
      assert hosts[..|hosts|] == hosts;
    }

    /** `ClearOpticalRoute`. */
    method ClearOpticalRoute(a: nat, b: nat)
      requires a < |optical|
      modifies this`optical
      ensures optical == old(optical)[a := Removed(old(optical)[a], HostsOf(f, b))]
    {
      var hosts := HostsOf(f, b);
      ghost var t := optical[a];
      RemovedSnoc(t, [], Addr(0));
      for i := 0 to |hosts|
        invariant optical == old(optical)[a := Removed(t, hosts[..i])]
      {
        RemovedSnoc(t, hosts[..i], hosts[i]);
        assert hosts[..i + 1] == hosts[..i] + [hosts[i]];
        optical := optical[a := optical[a] - {hosts[i]}];
      }
      assert hosts[..|hosts|] == hosts;
    }

    /** The loop of `ConfigMems` that clears the routes of switch `m`. */
    method ClearRoutes(m: nat)
      requires Valid() && m < n
      modifies this`optical
      ensures Valid() && optical == Darkened(f, old(optical), mems[m].linkIndex)
    {
      var linkTable := mems[m].linkTable;
      hide Peer;
      for i := 0 to |linkTable|
        invariant |optical| == LEAVES
        invariant forall a :: 0 <= a < i ==> optical[a] == Removed(old(optical)[a], HostsOf(f, linkTable[a]))
        invariant forall a :: i <= a < LEAVES ==> optical[a] == old(optical)[a]
      {
        ClearOpticalRoute(i, linkTable[i]);
      }
    }

    /** The loop of `ConfigMems` that adds the routes of switch `m`. */
    method AddRoutes(m: nat)
      requires Valid() && m < n
      modifies this`optical
      ensures Valid() && optical == Lightened(f, old(optical), mems[m].linkIndex, m)
    {
      var linkTable := mems[m].linkTable;
      hide Peer;
      for i := 0 to |linkTable|
        invariant |optical| == LEAVES
        invariant forall a :: 0 <= a < i ==>
          optical[a] == Added(old(optical)[a], HostsOf(f, linkTable[a]), PortOf(f, a, m))
        invariant forall a :: i <= a < LEAVES ==> optical[a] == old(optical)[a]
      {
        CalculateOpticalRoute(i, m, linkTable[i]);
      }
    }

    /** `CalculateMpOpticalRoute(a, mems, b)`: the two-hop routes of leaf `a` that start over switch `m` to leaf `b`.
        `bIndex` is recovered from the node id and is the true index of `b`, as all leaves have larger ids than the
        rest. */
    method CalculateMpOpticalRouteFrom(a: nat, m: nat, b: nat)
      requires Valid() && mpMode && a < LEAVES && m < n && b < LEAVES
      modifies this`mp
      ensures Valid() && (forall x :: 0 <= x < LEAVES && x != a ==> mp[x] == old(mp)[x])
      ensures Rewritten(f, mems, m, n, b, PortOf(f, a, m), old(mp)[a], mp[a])
    {
      var interface := PortOf(f, a, m);
      ghost var t := mp[a];
      for j := 0 to n
        invariant |mp| == LEAVES && forall x :: 0 <= x < LEAVES && x != a ==> mp[x] == old(mp)[x]
        invariant Rewritten(f, mems, m, j, b, interface, t, mp[a])
      {
        hide Peer, Rewritten, Added;
        RewrittenNext(f, mems, m, j, b, interface, t, mp[a]);
        if j != m && mems[j].isDay {
          LeafIsFound(b);
          var bIndex := ids.leaves[b] - |ids.hosts| - |ids.optical| - |ids.spines|;
          var c := mems[j].linkTable[bIndex];
          AddMpHosts(a, c, interface);
        }
      }
    }

    lemma LeafIsFound(b: nat)
      requires Shape() && mpMode && b < LEAVES
      ensures |ids.leaves| == LEAVES && NodeLists.RecoveredIndex(ids, b) == b
    {
      hide NodeLists.Built, NodeLists.LeavesLast, NodeLists.RecoveredIndex;
      NodeLists.RecoveredIndexIsRight(nodeType, spineNum, ids);
    }

    method AddMpHosts(a: nat, c: nat, interface: nat)
      requires a < |mp|
      modifies this`mp
      ensures mp == old(mp)[a := Added(old(mp)[a], HostsOf(f, c), interface)]
    {
      var hosts := HostsOf(f, c);
      ghost var t := mp[a];
      AddedSnoc(t, [], Addr(0), interface);
      for i := 0 to |hosts|
        invariant mp == old(mp)[a := Added(t, hosts[..i], interface)]
      {
        AddedSnoc(t, hosts[..i], hosts[i], interface);
        assert hosts[..i + 1] == hosts[..i] + [hosts[i]];
        var table: Table := mp[a][hosts[i] := interface];
        mp := mp[a := table];
      }
      assert hosts[..|hosts|] == hosts;
    }

    /** `CalculateMpOpticalRoute()`: afterwards every two-hop table is what the light switches define. */
    method CalculateMpOpticalRoute()
      requires Valid() && mpMode
      modifies this`mp
      ensures Valid() && MpAgrees(f, mems, mp)
    {
      hide Peer, MpLeafAgrees, Rewritten;
      mp := seq(LEAVES, _ => map[]);
      forall a | 0 <= a < LEAVES
        ensures MpLeafAgrees(f, mems, 0, a, mp[a])
      {
        NoSwitchNoEntry(f, mems, a);
      }
      for i := 0 to n
        invariant Valid() && forall a :: 0 <= a < LEAVES ==> MpLeafAgrees(f, mems, i, a, mp[a])
      {
        if mems[i].isDay {
          for j := 0 to LEAVES
            invariant Valid()
            invariant forall a :: 0 <= a < j ==> MpLeafAgrees(f, mems, i + 1, a, mp[a])
            invariant forall a :: j <= a < LEAVES ==> MpLeafAgrees(f, mems, i, a, mp[a])
          {
            ghost var t := mp[j];
            PeerIsLeaf(mems[i].linkIndex, j);
            CalculateMpOpticalRouteFrom(j, i, mems[i].linkTable[j]);
            RewrittenAll(f, mems, i, j, t, mp[j]);
          }
        } else {
          forall a | 0 <= a < LEAVES
            ensures MpLeafAgrees(f, mems, i + 1, a, mp[a])
          {
            DarkSwitchStartsNothing(f, mems, i, a, mp[a]);
          }
        }
      }
    }

    /** `MemsNode::Reconfiguration`: the next matrix is four further, modulo 15. */
    method Reconfiguration(m: nat)
      requires Valid() && m < n
      modifies this`mems
      ensures Valid() && mems == old(mems)[m := Relit(old(mems)[m]).(isDay := old(mems)[m].isDay)]
    {
      var linkIndex := (mems[m].linkIndex + 4) % MATRICES;
      MatrixIsSquare(linkIndex);
      var table := ReadLinkTable(Matrix(linkIndex), mems[m].linkTable);
      ReadingGivesLinkTable(linkIndex, mems[m].linkTable, table);
      hide LinkTable, Matrix;
      mems := mems[m := Switch(mems[m].isDay, linkIndex, table)];
    }

    /** The first branch of `ConfigMems`: switch `id` goes dark. */
    method GoDark(id: nat)
      requires Valid() && id < n
      modifies this`mems, this`optical, this`mp
      ensures Valid() && mems == old(mems)[id := old(mems)[id].(isDay := false)]
      ensures optical == Darkened(f, old(optical), old(mems)[id].linkIndex)
      ensures if mpMode then MpAgrees(f, mems, mp) else mp == old(mp)
    {
      hide Darkened, LinkTable, MpAgrees;
      mems := mems[id := mems[id].(isDay := false)];
      ClearRoutes(id);
      if mpMode {
        CalculateMpOpticalRoute();
      }
    }

    /** The other branch: switch `id` is reconfigured and lit. */
    method GoLight(id: nat)
      requires Valid() && id < n
      modifies this`mems, this`optical, this`mp
      ensures Valid() && mems == old(mems)[id := Relit(old(mems)[id])]
      ensures optical == Lightened(f, old(optical), Relit(old(mems)[id]).linkIndex, id)
      ensures if mpMode then MpAgrees(f, mems, mp) else mp == old(mp)
    {
      hide Lightened, LinkTable, MpAgrees;
      mems := mems[id := mems[id].(isDay := true)];
      Reconfiguration(id);
      AddRoutes(id);
      if mpMode {
        CalculateMpOpticalRoute();
      }
    }

    /** `ConfigMems(id)`, called by the simulator for the event it takes off the queue. */
    method ConfigMems(e: Event)
      requires Valid() && e.id < n
      requires e in pending && forall e2 :: e2 in pending ==> e.time <= e2.time
      modifies this
      ensures Valid() && Fires(f, mpMode, old(St()), e, St())
    {
      assert |mems| == n;
      hide Darkened, Lightened, MpAgrees, Relit, Shape, Linked, Fires;
      ghost var before := St();
      now, pending := e.time, pending - multiset{e};
      if mems[e.id].isDay {
        GoDark(e.id);
        pending := pending + multiset{Event(now + NIGHT, e.id)};
        DarkFires(f, mpMode, before, e, St());
      } else {
        GoLight(e.id);
        pending := pending + multiset{Event(now + DAY, e.id)};
        LightFires(f, mpMode, before, e, St());
      }
    }

    /** `InitMemsConfig()`. */
    method InitMemsConfig()
      requires Valid() && pending == multiset{}
      requires forall i :: 0 <= i < n ==> mems[i] == Switch(true, i, LinkTable(i))
      requires optical == InitialTables(f, 0) && forall a :: 0 <= a < LEAVES ==> mp[a] == map[]
      modifies this`optical, this`mp, this`pending
      ensures Valid() && Initial(f, n, mpMode, now, St())
    {
      NoSwitchesAgree();
      hide LinkTable, MpAgrees, PendingAt, InitialTables;
      InitSwitches();
      InitialPending(now, n);
    }

    /** The loop of `InitMemsConfig` over the switches: switch `i`'s first event comes `180 + 50 * i` microseconds from
        now. */
    method InitSwitches()
      requires Valid() && pending == multiset{} && optical == InitialTables(f, 0)
      requires forall i :: 0 <= i < n ==> mems[i].linkIndex == i
      modifies this`optical, this`mp, this`pending
      ensures Valid() && optical == InitialTables(f, n) && pending == PendingUpTo(now, n)
      ensures if n == 0 then mp == old(mp) else mpMode ==> MpAgrees(f, mems, mp)
    {
      hide Lightened, LinkTable, MpAgrees, Shape, Linked, InitialTables, PendingUpTo;
      InitialNext(f, now, 0);
      var initConfigTime := DAY;
      for i := 0 to n
        invariant Valid() && initConfigTime == DAY + STAGGER * i
        invariant optical == InitialTables(f, i) && pending == PendingUpTo(now, i)
        invariant if i == 0 then mp == old(mp) else mpMode ==> MpAgrees(f, mems, mp)
      {
        InitSwitch(i, initConfigTime);
        initConfigTime := initConfigTime + STAGGER;
      }
    }

    /** The loop's body: the routes of switch `i`, and its first event. */
    method InitSwitch(i: nat, initConfigTime: int)
      requires Valid() && i < n && mems[i].linkIndex == i && initConfigTime == DAY + STAGGER * i
      requires optical == InitialTables(f, i) && pending == PendingUpTo(now, i)
      modifies this`optical, this`mp, this`pending
      ensures Valid() && optical == InitialTables(f, i + 1) && pending == PendingUpTo(now, i + 1)
      ensures if mpMode then MpAgrees(f, mems, mp) else mp == old(mp)
    {
      hide Lightened, LinkTable, MpAgrees, Shape, Linked, InitialTables, PendingUpTo;
      InitialNext(f, now, i);
      InitRoutes(i);
      pending := pending + multiset{Event(now + initConfigTime, i)};
    }

    lemma NoSwitchesAgree()
      requires Valid() && forall a :: 0 <= a < LEAVES ==> mp[a] == map[]
      ensures n == 0 ==> MpAgrees(f, mems, mp)
    {
      if n == 0 {
        forall a | 0 <= a < LEAVES
          ensures MpLeafAgrees(f, mems, 0, a, mp[a])
        {
          NoSwitchNoEntry(f, mems, a);
        }
      }
    }

    /** The inner loop of `InitMemsConfig`, which recomputes the two-hop tables after every leaf. */
    method InitRoutes(m: nat)
      requires Valid() && m < n
      modifies this`optical, this`mp
      ensures Valid() && optical == Lightened(f, old(optical), mems[m].linkIndex, m)
      ensures if mpMode then MpAgrees(f, mems, mp) else mp == old(mp)
    {
      var linkTable := mems[m].linkTable;
      hide Peer, MpAgrees;
      for i := 0 to |linkTable|
        invariant |optical| == LEAVES && |mp| == LEAVES
        invariant forall a :: 0 <= a < i ==>
          optical[a] == Added(old(optical)[a], HostsOf(f, linkTable[a]), PortOf(f, a, m))
        invariant forall a :: i <= a < LEAVES ==> optical[a] == old(optical)[a]
        invariant if mpMode then i > 0 ==> MpAgrees(f, mems, mp) else mp == old(mp)
      {
        CalculateOpticalRoute(i, m, linkTable[i]);
        if mpMode {
          CalculateMpOpticalRoute();
        }
      }
    }
  }
}
