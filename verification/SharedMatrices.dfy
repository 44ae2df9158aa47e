/** Optical switches that use one matrix at the same time: when it happens, and what it does to the tables. */
module SharedMatrices {
  import opened LinkData
  import opened LinkMatrix
  import opened OpticalTables
  import opened MemsSchedule

  // ----- when two light switches share a matrix

  /** The schedule of a reachable state. */
  lemma ReachableIsScheduled(f: Fabric, n: nat, mpMode: bool, t0: int, s: State)
    requires Reachable(f, n, mpMode, t0, s) && n <= MATRICES
    ensures Scheduled(n, t0, s)
  {
    var ss :| Run(f, n, mpMode, t0, ss) && ss[|ss| - 1] == s;
    hide Scheduled, Run;
    RunIsScheduled(f, n, mpMode, t0, ss);
  }

  /** In slots of 50 microseconds: the `v`-th and the `w`-th matrix of the round are the same only when they are one. */
  lemma NearSlots(v: nat, w: nat)
    requires v - w <= 3 && w - v <= 3
    ensures v % MATRICES == w % MATRICES <==> v == w
  {
    if v != w {
      DifferentIndex(v, w);
    }
  }

  lemma ModFour(i: nat, k: nat)
    ensures (i + 4 * k) % 4 == i % 4
  {
  }

  lemma LightSlot(t0: int, now: int, i: nat, x: Switch, due: int, k: nat)
    requires Phase(t0, now, i, x, due, k) && x.isDay
    ensures x.linkIndex == (i + 4 * k) % MATRICES && now <= t0 + 50 * (i + 4 * k) + 180
    ensures k > 0 || t0 + 50 * i <= now ==> t0 + 50 * (i + 4 * k) <= now
  {
    hide LinkTable;
  }

  lemma SamePhase(t0: int, now: int, i: nat, x: Switch, due: int, k: nat, j: nat, y: Switch, due': int, l: nat)
    requires Phase(t0, now, i, x, due, k) && Phase(t0, now, j, y, due', l) && x.isDay && y.isDay && i < j < MATRICES
    ensures x.linkIndex == y.linkIndex <==> i % 4 == j % 4 && t0 + 50 * j <= now
  {
    hide Phase;
    LightSlot(t0, now, i, x, due, k);
    LightSlot(t0, now, j, y, due', l);
    if l == 0 && now < t0 + 50 * j {
      assert i + 4 * k < j;
      DifferentIndex(i + 4 * k, j);
    } else {
      NearSlots(i + 4 * k, j + 4 * l);
      SameSlot(i, k, j, l);
    }
  }

  lemma SameSlot(i: nat, k: nat, j: nat, l: nat)
    requires -3 <= i + 4 * k - (j + 4 * l) <= 3
    ensures i + 4 * k == j + 4 * l <==> i % 4 == j % 4
  {
    ModFour(i, k);
    ModFour(j, l);
  }

  /** Two light switches `i < j` use the same matrix exactly when they agree modulo 4 and the later one's turn has
      come. */
  lemma SharedExactlyWhen(f: Fabric, n: nat, mpMode: bool, t0: int, s: State, i: nat, j: nat)
    requires Reachable(f, n, mpMode, t0, s) && n <= MATRICES && i < j < n
    ensures |s.mems| == n
    ensures s.mems[i].isDay && s.mems[j].isDay ==>
      (s.mems[i].linkIndex == s.mems[j].linkIndex <==> i % 4 == j % 4 && t0 + 50 * j <= s.now)
  {
    ReachableIsScheduled(f, n, mpMode, t0, s);
    var due, rounds :| Timed(n, t0, s, due, rounds);
    if s.mems[i].isDay && s.mems[j].isDay {
      assert Phase(t0, s.now, i, s.mems[i], due[i], rounds[i]) && Phase(t0, s.now, j, s.mems[j], due[j], rounds[j]);
      hide Phase, PendingAt;
      SamePhase(t0, s.now, i, s.mems[i], due[i], rounds[i], j, s.mems[j], due[j], rounds[j]);
    }
  }

  // ----- which addresses the tables hold

  /** Some dark switch still uses matrix `k`. */
  ghost predicate Fading(mems: seq<Switch>, k: nat) {
    exists l: nat :: l < |mems| && !mems[l].isDay && mems[l].linkIndex == k
  }

  /** A light switch leads from leaf `a` to the leaf of `d`, and no switch with the same matrix has gone dark before
      it. */
  ghost predicate Served(f: Fabric, mems: seq<Switch>, a: nat, d: Addr) {
    exists m: nat :: Sends(f, mems, m, a, d) && !Fading(mems, mems[m].linkIndex)
  }

  ghost predicate LeafKeys(f: Fabric, mems: seq<Switch>, a: nat, t: Table) {
    forall d :: d in t <==> Served(f, mems, a, d)
  }

  ghost predicate Keys(f: Fabric, mems: seq<Switch>, optical: seq<Table>) {
    |optical| == LEAVES && forall a :: 0 <= a < LEAVES ==> LeafKeys(f, mems, a, optical[a])
  }

  ghost predicate Indexed(mems: seq<Switch>) {
    forall i :: 0 <= i < |mems| ==> mems[i].linkIndex < MATRICES
  }

  /** A leaf's host is behind one matrix only. */
  lemma OneMatrixPerHost(f: Fabric, n: nat, x: nat, y: nat, a: nat, d: Addr)
    requires ValidFabric(f, n) && x < MATRICES && y < MATRICES && a < LEAVES
    requires d in HostsOf(f, Peer(x, a)) && d in HostsOf(f, Peer(y, a))
    ensures x == y
  {
    PeersDisjoint(x, y, a);
    hide Peer;
  }

  lemma KeysDarken(f: Fabric, n: nat, mems: seq<Switch>, i: nat, a: nat, t: Table)
    requires ValidFabric(f, n) && Indexed(mems) && LeafKeys(f, mems, a, t) && i < |mems| && mems[i].isDay && a < LEAVES
    ensures LeafKeys(f, mems[i := mems[i].(isDay := false)], a, Removed(t, HostsOf(f, Peer(mems[i].linkIndex, a))))
  {
    var x, mems' := mems[i].linkIndex, mems[i := mems[i].(isDay := false)];
    var gone := HostsOf(f, Peer(x, a));
    hide Peer, ValidFabric, HostsOf;
    assert Fading(mems', x) by {
      assert !mems'[i].isDay && mems'[i].linkIndex == x;
    }
    forall y | y != x
      ensures Fading(mems', y) <==> Fading(mems, y)
    {
      FadingElsewhere(mems, i, mems[i].(isDay := false), y);
    }
    hide Fading;
    forall d
      ensures Served(f, mems', a, d) <==> Served(f, mems, a, d) && d !in gone
    {
      if m: nat :| Sends(f, mems', m, a, d) && !Fading(mems', mems'[m].linkIndex) {
        assert Sends(f, mems, m, a, d);
        if d in gone {
          OneMatrixPerHost(f, n, x, mems[m].linkIndex, a, d);
        }
      }
      if m: nat :| Sends(f, mems, m, a, d) && !Fading(mems, mems[m].linkIndex) && d !in gone {
        assert Sends(f, mems', m, a, d) && mems[m].linkIndex != x;
      }
    }
  }

  /** Changing one switch matters to no matrix that it used neither before nor after while dark. */
  lemma FadingElsewhere(mems: seq<Switch>, i: nat, sw: Switch, y: nat)
    requires i < |mems| && (mems[i].isDay || mems[i].linkIndex != y) && (sw.isDay || sw.linkIndex != y)
    ensures Fading(mems[i := sw], y) <==> Fading(mems, y)
  {
    var mems' := mems[i := sw];
    if l: nat :| l < |mems'| && !mems'[l].isDay && mems'[l].linkIndex == y {
      assert l != i && mems[l] == mems'[l];
    }
    if l: nat :| l < |mems| && !mems[l].isDay && mems[l].linkIndex == y {
      assert l != i && mems[l] == mems'[l];
    }
  }

  lemma KeysLighten(f: Fabric, mems: seq<Switch>, i: nat, sw: Switch, a: nat, t: Table, p: nat)
    requires LeafKeys(f, mems, a, t) && i < |mems| && !mems[i].isDay && sw.isDay && a < LEAVES
    requires forall m :: 0 <= m < |mems| && mems[m].isDay ==> mems[m].linkIndex != mems[i].linkIndex
    requires forall l :: 0 <= l < |mems| && l != i && !mems[l].isDay ==> mems[l].linkIndex != sw.linkIndex
    ensures LeafKeys(f, mems[i := sw], a, Added(t, HostsOf(f, Peer(sw.linkIndex, a)), p))
  {
    var mems' := mems[i := sw];
    var behind := HostsOf(f, Peer(sw.linkIndex, a));
    assert !Fading(mems', sw.linkIndex);
    hide Peer, HostsOf;
    forall y | y != mems[i].linkIndex
      ensures Fading(mems', y) <==> Fading(mems, y)
    {
      FadingElsewhere(mems, i, sw, y);
    }
    hide Fading;
    forall d
      ensures Served(f, mems', a, d) <==> d in behind || Served(f, mems, a, d)
    {
      if d in behind {
        assert Sends(f, mems', i, a, d);
      }
      if m: nat :| Sends(f, mems, m, a, d) && !Fading(mems, mems[m].linkIndex) {
        assert Sends(f, mems', m, a, d);
      }
      if m: nat :| m != i && Sends(f, mems', m, a, d) && !Fading(mems', mems'[m].linkIndex) {
        assert Sends(f, mems, m, a, d);
      }
    }
  }

  // ----- the schedule keeps dark and light switches apart

  lemma RelitApart(t0: int, now: int, i: nat, x: Switch, due: int, k: nat, j: nat, y: Switch, due': int, l: nat)
    requires Phase(t0, now, i, x, due, k) && Phase(t0, now, j, y, due', l) && !x.isDay && due <= due' && j < MATRICES
    ensures y.isDay ==> y.linkIndex != x.linkIndex
    ensures !y.isDay ==> y.linkIndex != (x.linkIndex + 4) % MATRICES
  {
    var v, w := i + 4 * k, j + 4 * l;
    IndexAdvances(i, k);
    if y.isDay {
      assert v < w && (l == 0 || w <= v + 4);
      DifferentIndex(v, w);
    } else {
      assert v == w;
      DifferentIndex(v, v + 4);
    }
  }

  /** Between the instants at which events are due, no dark switch uses the matrix of a light one. */
  lemma SettledApart(t0: int, now: int, i: nat, x: Switch, due: int, k: nat, j: nat, y: Switch, due': int, l: nat)
    requires Phase(t0, now, i, x, due, k) && Phase(t0, now, j, y, due', l) && !x.isDay && y.isDay && j < MATRICES
    requires now < due && now < due'
    ensures y.linkIndex != x.linkIndex
  {
    var v, w := i + 4 * k, j + 4 * l;
    assert v < w && (l == 0 || w <= v + 3);
    DifferentIndex(v, w);
  }

  /** Every event keeps the tables' addresses. */
  lemma EventKeepsKeys(f: Fabric, n: nat, mpMode: bool, t0: int, s: State, e: Event, s': State)
    requires ValidFabric(f, n) && n <= MATRICES && Scheduled(n, t0, s) && Fires(f, mpMode, s, e, s')
    requires Keys(f, s.mems, s.optical)
    ensures Keys(f, s'.mems, s'.optical)
  {
    var i := e.id;
    ScheduledIndexed(n, t0, s);
    hide LeafKeys, ValidFabric, Scheduled, Removed, Added, Indexed, MpAgrees;
    if s.mems[i].isDay {
      forall a | 0 <= a < LEAVES
        ensures LeafKeys(f, s'.mems, a, s'.optical[a])
      {
        KeysDarken(f, n, s.mems, i, a, s.optical[a]);
      }
    } else {
      EventApart(f, n, mpMode, t0, s, e, s');
      forall a | 0 <= a < LEAVES
        ensures LeafKeys(f, s'.mems, a, s'.optical[a])
      {
        KeysLighten(f, s.mems, i, Relit(s.mems[i]), a, s.optical[a], PortOf(f, a, i));
      }
    }
  }

  lemma ScheduledIndexed(n: nat, t0: int, s: State)
    requires Scheduled(n, t0, s)
    ensures Indexed(s.mems) && |s.mems| == n
  {
    var due, rounds :| Timed(n, t0, s, due, rounds);
    forall i | 0 <= i < n
      ensures s.mems[i].linkIndex < MATRICES
    {
      assert Phase(t0, s.now, i, s.mems[i], due[i], rounds[i]);
    }
  }

  lemma EventApart(f: Fabric, n: nat, mpMode: bool, t0: int, s: State, e: Event, s': State)
    requires n <= MATRICES && Scheduled(n, t0, s) && Fires(f, mpMode, s, e, s') && !s.mems[e.id].isDay
    ensures forall m :: 0 <= m < |s.mems| && s.mems[m].isDay ==> s.mems[m].linkIndex != s.mems[e.id].linkIndex
    ensures forall l :: 0 <= l < |s.mems| && l != e.id && !s.mems[l].isDay ==>
      s.mems[l].linkIndex != Relit(s.mems[e.id]).linkIndex
  {
    var due, rounds :| Timed(n, t0, s, due, rounds);
    var i := e.id;
    PendingMoves(n, s.pending, due, e, 0);
    assert Phase(t0, s.now, i, s.mems[i], due[i], rounds[i]);
    forall j | 0 <= j < n
      ensures s.mems[j].isDay ==> s.mems[j].linkIndex != s.mems[i].linkIndex
      ensures !s.mems[j].isDay ==> s.mems[j].linkIndex != (s.mems[i].linkIndex + 4) % MATRICES
    {
      assert s.pending[Event(due[j], j)] == 1;
      assert Phase(t0, s.now, j, s.mems[j], due[j], rounds[j]);
      hide Phase, PendingAt;
      RelitApart(t0, s.now, i, s.mems[i], due[i], rounds[i], j, s.mems[j], due[j], rounds[j]);
    }
  }

  lemma InitialKeys(f: Fabric, n: nat, mpMode: bool, t0: int, s: State)
    requires Initial(f, n, mpMode, t0, s) && ValidFabric(f, n) && n <= MATRICES
    ensures Keys(f, s.mems, s.optical)
  {
    InitialStateAgrees(f, n, mpMode, t0, s);
    assert forall k :: !Fading(s.mems, k);
    hide Fading, Initial, ValidFabric, Sends, MpAgrees;
    forall a | 0 <= a < LEAVES
      ensures LeafKeys(f, s.mems, a, s.optical[a])
    {
      AgreeingKeys(f, s.mems, a, s.optical[a]);
    }
  }

  lemma AgreeingKeys(f: Fabric, mems: seq<Switch>, a: nat, t: Table)
    requires LeafAgrees(f, mems, a, t) && forall k :: !Fading(mems, k)
    ensures LeafKeys(f, mems, a, t)
  {
    hide Fading, HostsOf, Peer;
    forall d
      ensures d in t <==> Served(f, mems, a, d)
    {
      if d in t {
        assert Entry(t, d, t[d]) && SentThrough(f, mems, a, d, t[d]);
        var m: nat :| Sends(f, mems, m, a, d) && t[d] == PortOf(f, a, m);
        assert !Fading(mems, mems[m].linkIndex);
      }
      if m: nat :| Sends(f, mems, m, a, d) {
        assert SentThrough(f, mems, a, d, PortOf(f, a, m));
        assert Entry(t, d, PortOf(f, a, m));
      }
    }
  }

  lemma {:induction false} RunKeepsKeys(f: Fabric, n: nat, mpMode: bool, t0: int, ss: seq<State>)
    requires Run(f, n, mpMode, t0, ss) && ValidFabric(f, n) && n <= MATRICES
    ensures Keys(f, ss[|ss| - 1].mems, ss[|ss| - 1].optical)
  {
    hide Fires, Keys, ValidFabric, Scheduled;
    if |ss| == 1 {
      InitialKeys(f, n, mpMode, t0, ss[0]);
    } else {
      var i, j := |ss| - 2, |ss| - 1;
      assert Run(f, n, mpMode, t0, ss[..j]);
      hide Initial;
      RunKeepsKeys(f, n, mpMode, t0, ss[..j]);
      RunIsScheduled(f, n, mpMode, t0, ss[..j]);
      assert ss[..j][i] == ss[i] && Step(f, mpMode, ss[i], ss[j]);
      var e :| Fires(f, mpMode, ss[i], e, ss[j]);
      EventKeepsKeys(f, n, mpMode, t0, ss[i], e, ss[j]);
    }
  }

  /** In every reachable state of up to fifteen switches a leaf has an entry for an address exactly when a light switch
      leads to its leaf and no switch with the same matrix has gone dark at this instant; and the entry goes through the
      interface of such a light switch. */
  lemma KeysAreServed(f: Fabric, n: nat, mpMode: bool, t0: int, s: State)
    requires Reachable(f, n, mpMode, t0, s) && ValidFabric(f, n) && n <= MATRICES
    ensures Keys(f, s.mems, s.optical) && Leads(f, s.mems, s.optical)
  {
    var ss :| Run(f, n, mpMode, t0, ss) && ss[|ss| - 1] == s;
    hide *;
    RunKeepsKeys(f, n, mpMode, t0, ss);
    RunLeads(f, n, mpMode, t0, ss);
  }

  /** Between the instants at which events are due, the addresses are exactly those behind light switches, each through
      the interface of one of them. */
  lemma KeysBetweenInstants(f: Fabric, n: nat, mpMode: bool, t0: int, s: State, a: nat, d: Addr)
    requires Reachable(f, n, mpMode, t0, s) && ValidFabric(f, n) && n <= MATRICES && a < LEAVES
    requires forall e :: e in s.pending ==> e.time != s.now
    ensures |s.optical| == LEAVES && (d in s.optical[a] <==> exists m: nat :: Sends(f, s.mems, m, a, d))
    ensures d in s.optical[a] ==> SentThrough(f, s.mems, a, d, s.optical[a][d])
  {
    KeysAreServed(f, n, mpMode, t0, s);
    ReachableIsScheduled(f, n, mpMode, t0, s);
    assert LeafKeys(f, s.mems, a, s.optical[a]) && LeafLeads(f, s.mems, a, s.optical[a]);
    assert d in s.optical[a] ==> Entry(s.optical[a], d, s.optical[a][d]);
    hide Reachable, ValidFabric, Keys, Leads, LeafLeads;
    if m: nat :| Sends(f, s.mems, m, a, d) {
      NothingFades(n, t0, s, m);
    }
  }

  lemma NothingFades(n: nat, t0: int, s: State, m: nat)
    requires Scheduled(n, t0, s) && n <= MATRICES && m < |s.mems| && s.mems[m].isDay
    requires forall e :: e in s.pending ==> e.time != s.now
    ensures !Fading(s.mems, s.mems[m].linkIndex)
  {
    var due, rounds :| Timed(n, t0, s, due, rounds);
    if l: nat :| l < |s.mems| && !s.mems[l].isDay && s.mems[l].linkIndex == s.mems[m].linkIndex {
      assert s.pending[Event(due[l], l)] == 1 && s.pending[Event(due[m], m)] == 1;
      assert Phase(t0, s.now, l, s.mems[l], due[l], rounds[l]) && Phase(t0, s.now, m, s.mems[m], due[m], rounds[m]);
      SettledApart(t0, s.now, l, s.mems[l], due[l], rounds[l], m, s.mems[m], due[m], rounds[m]);
    }
  }

  // ----- when the tables agree with the circuits

  /** No dark switch uses the matrix of a light one. */
  ghost predicate LightUnfaded(mems: seq<Switch>) {
    forall m :: 0 <= m < |mems| && mems[m].isDay ==> !Fading(mems, mems[m].linkIndex)
  }

  ghost predicate HostsEverywhere(f: Fabric) {
    forall b :: 0 <= b < LEAVES ==> HostsOf(f, b) != []
  }

  /** The first leaf has a host behind the circuit of a light switch. */
  lemma HostBehind(f: Fabric, mems: seq<Switch>, m: nat) returns (d: Addr)
    requires HostsEverywhere(f) && m < |mems| && mems[m].isDay
    ensures Sends(f, mems, m, 0, d) && SentThrough(f, mems, 0, d, PortOf(f, 0, m))
  {
    PeerIsLeaf(mems[m].linkIndex, 0);
    hide Peer, HostsOf;
    d := HostsOf(f, Peer(mems[m].linkIndex, 0))[0];
  }

  lemma AgreeingIsDisjoint(f: Fabric, n: nat, mems: seq<Switch>, optical: seq<Table>)
    requires ValidFabric(f, n) && |mems| == n && Indexed(mems) && HostsEverywhere(f) && Agrees(f, mems, optical)
    ensures LightDisjoint(mems)
  {
    forall i, j | 0 <= i < j < |mems| && mems[i].isDay && mems[j].isDay
      ensures mems[i].linkIndex != mems[j].linkIndex
    {
      if mems[i].linkIndex == mems[j].linkIndex {
        var d := HostBehind(f, mems, i);
        assert Sends(f, mems, j, 0, d);
        assert SentThrough(f, mems, 0, d, PortOf(f, 0, j));
        assert LeafAgrees(f, mems, 0, optical[0]);
        hide SentThrough, LeafAgrees, HostsOf, Peer;
        OneEntry(f, mems, 0, optical[0], d, PortOf(f, 0, i), PortOf(f, 0, j));
      }
    }
  }

  lemma AgreeingIsUnfaded(f: Fabric, n: nat, mems: seq<Switch>, optical: seq<Table>)
    requires ValidFabric(f, n) && Indexed(mems) && HostsEverywhere(f)
    requires Agrees(f, mems, optical) && Keys(f, mems, optical)
    ensures LightUnfaded(mems)
  {
    assert LeafAgrees(f, mems, 0, optical[0]) && LeafKeys(f, mems, 0, optical[0]);
    hide Fading, Agrees, Keys, HostsEverywhere;
    forall m | 0 <= m < |mems| && mems[m].isDay
      ensures !Fading(mems, mems[m].linkIndex)
    {
      var d := HostBehind(f, mems, m);
      assert Entry(optical[0], d, PortOf(f, 0, m));
      assert Served(f, mems, 0, d);
      var m': nat :| Sends(f, mems, m', 0, d) && !Fading(mems, mems[m'].linkIndex);
      hide HostsOf, Peer, ValidFabric;
      OneMatrixPerHost(f, n, mems[m].linkIndex, mems[m'].linkIndex, 0, d);
    }
  }

  lemma LeafAgreesWhen(f: Fabric, n: nat, mems: seq<Switch>, a: nat, t: Table)
    requires ValidFabric(f, n) && LightDisjoint(mems) && LightUnfaded(mems) && a < LEAVES
    requires LeafKeys(f, mems, a, t) && LeafLeads(f, mems, a, t)
    ensures LeafAgrees(f, mems, a, t)
  {
    forall d, p | SentThrough(f, mems, a, d, p)
      ensures Entry(t, d, p)
    {
      var m: nat :| Sends(f, mems, m, a, d) && p == PortOf(f, a, m);
      hide Fading, HostsOf, Peer, PortOf;
      assert Served(f, mems, a, d);
      assert Entry(t, d, t[d]);
      var m': nat :| Sends(f, mems, m', a, d) && t[d] == PortOf(f, a, m');
      hide ValidFabric, LightDisjoint, Sends;
      OneSwitchPerHost(f, n, mems, m, m', a, d);
    }
  }

  /** A reachable state's tables agree with the circuits if and only if the light switches use different matrices and
      none of them uses the matrix of a dark one. */
  lemma AgreesExactlyWhen(f: Fabric, n: nat, mpMode: bool, t0: int, s: State)
    requires Reachable(f, n, mpMode, t0, s) && ValidFabric(f, n) && n <= MATRICES && HostsEverywhere(f)
    ensures Agrees(f, s.mems, s.optical) <==> LightDisjoint(s.mems) && LightUnfaded(s.mems)
  {
    KeysAreServed(f, n, mpMode, t0, s);
    ReachableIsScheduled(f, n, mpMode, t0, s);
    ScheduledIndexed(n, t0, s);
    hide Reachable, Scheduled, ValidFabric, LightDisjoint, LightUnfaded, Indexed, LeafKeys, LeafLeads, LeafAgrees;
    if Agrees(f, s.mems, s.optical) {
      AgreeingIsDisjoint(f, n, s.mems, s.optical);
      AgreeingIsUnfaded(f, n, s.mems, s.optical);
    } else if LightDisjoint(s.mems) && LightUnfaded(s.mems) {
      forall a | 0 <= a < LEAVES
        ensures LeafAgrees(f, s.mems, a, s.optical[a])
      {
        LeafAgreesWhen(f, n, s.mems, a, s.optical[a]);
      }
    }
  }

  // ----- entries that are lost

  /** Every light switch still has the entries of the hosts behind it. */
  ghost predicate NoneLost(f: Fabric, s: State) {
    |s.optical| == LEAVES && forall m: nat, a, d :: 0 <= a < LEAVES && Sends(f, s.mems, m, a, d) ==> d in s.optical[a]
  }

  /** Darkening a switch takes the entries of every light switch with the same matrix. */
  lemma DarkeningTakesOthers(f: Fabric, mpMode: bool, s: State, e: Event, s': State, m: nat, a: nat, d: Addr)
    requires Fires(f, mpMode, s, e, s') && s.mems[e.id].isDay && m != e.id && a < |s.optical|
    requires Sends(f, s.mems, m, a, d) && s.mems[m].linkIndex == s.mems[e.id].linkIndex
    ensures Sends(f, s'.mems, m, a, d) && d !in s'.optical[a]
  {
    hide Peer, HostsOf, MpAgrees;
  }

  /** With five or more switches some run comes to a light switch without an entry for a host behind it. */
  lemma EntryIsLost(f: Fabric, n: nat, mpMode: bool, t0: int, b: nat, d: Addr) returns (s: State)
    requires ValidFabric(f, n) && 5 <= n <= MATRICES && b < LEAVES && d in f.hosts[b]
    ensures Reachable(f, n, mpMode, t0, s) && !NoneLost(f, s)
  {
    var before := RoundsAreReached(f, n, mpMode, t0, 4);
    var due := seq(n, i requires 0 <= i < n => FirstDue(t0, i) + if i < 4 then DAY + NIGHT else 0);
    var e := Event(due[0], 0);
    SwitchFires(f, n, mpMode, before, due, 0);
    s := After(f, mpMode, before, e);
    ReachableNext(f, n, mpMode, t0, before, s);
    hide Reachable, Step, MpAgrees, PendingAt, LinkTable, ValidFabric, RoundsDone;
    LostAfter(f, n, mpMode, t0, before, due, b, d);
  }

  lemma LostAfter(f: Fabric, n: nat, mpMode: bool, t0: int, before: State, due: seq<int>, b: nat, d: Addr)
    requires ValidFabric(f, n) && 5 <= n <= MATRICES && RoundsDone(n, t0, before, 4) && |due| == n
    requires b < LEAVES && d in f.hosts[b]
    ensures !NoneLost(f, After(f, mpMode, before, Event(due[0], 0)))
  {
    var s := After(f, mpMode, before, Event(due[0], 0));
    PeerIsInvolution(4, b);
    PeerIsLeaf(4, b);
    var a := Peer(4, b);
    assert before.mems[0].linkIndex == 4 && before.mems[4].linkIndex == 4;
    hide Peer, MpAgrees, PendingAt;
    if |s.optical| == LEAVES {
      assert Sends(f, s.mems, 4, a, d);
      assert d !in s.optical[a];
    }
  }

  /** No entry of a light switch is ever lost if and only if there are at most four optical switches. */
  lemma NoneLostUpToFour(f: Fabric, n: nat, mpMode: bool, t0: int, b: nat, d: Addr)
    requires ValidFabric(f, n) && n <= MATRICES && b < LEAVES && d in f.hosts[b]
    ensures (forall s :: Reachable(f, n, mpMode, t0, s) ==> NoneLost(f, s)) <==> n <= 4
  {
    hide Reachable, ValidFabric, NoneLost;
    if n <= 4 {
      forall s | Reachable(f, n, mpMode, t0, s)
        ensures NoneLost(f, s)
      {
        hide Agrees, Leads, LightDisjoint, MpAgrees;
        TablesAgree(f, n, mpMode, t0, s);
        AgreeingLosesNone(f, s);
      }
    } else {
      var s := EntryIsLost(f, n, mpMode, t0, b, d);
    }
  }

  lemma AgreeingLosesNone(f: Fabric, s: State)
    requires Agrees(f, s.mems, s.optical)
    ensures NoneLost(f, s)
  {
    hide Sends;
    forall m: nat, a, d | 0 <= a < LEAVES && Sends(f, s.mems, m, a, d)
      ensures d in s.optical[a]
    {
      assert LeafAgrees(f, s.mems, a, s.optical[a]);
      assert SentThrough(f, s.mems, a, d, PortOf(f, a, m));
      assert Entry(s.optical[a], d, PortOf(f, a, m));
    }
  }
}
