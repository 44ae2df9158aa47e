/** The timed behaviour of the optical switches: every run of `ConfigMems` events after `InitMemsConfig`. Times are in
    microseconds. */
module MemsSchedule {
  import opened LinkData
  import opened LinkMatrix
  import opened OpticalTables

  const DAY := 180
  const NIGHT := 20
  const STAGGER := 50

  /** A scheduled call `ConfigMems(id)`. */
  datatype Event = Event(time: int, id: nat)

  datatype State = State(now: int, mems: seq<Switch>, optical: seq<Table>, mp: seq<Table>, pending: multiset<Event>)

  /** `mems->m_isDay = true; mems->Reconfiguration();` */
  function Relit(sw: Switch): Switch {
    var k := (sw.linkIndex + 4) % MATRICES;
    Switch(true, k, LinkTable(k))
  }

  /** What the clock and the two tables are after event `e`. */
  ghost predicate Fires(f: Fabric, mpMode: bool, s: State, e: Event, s': State) {
    && e in s.pending && (forall e2 :: e2 in s.pending ==> e.time <= e2.time)
    && e.id < |s.mems| && s'.now == e.time
    && (if s.mems[e.id].isDay then
          && s'.mems == s.mems[e.id := s.mems[e.id].(isDay := false)]
          && s'.optical == Darkened(f, s.optical, s.mems[e.id].linkIndex)
          && s'.pending == s.pending - multiset{e} + multiset{Event(e.time + NIGHT, e.id)}
        else
          && s'.mems == s.mems[e.id := Relit(s.mems[e.id])]
          && s'.optical == Lightened(f, s.optical, Relit(s.mems[e.id]).linkIndex, e.id)
          && s'.pending == s.pending - multiset{e} + multiset{Event(e.time + DAY, e.id)})
    && (if mpMode then MpAgrees(f, s'.mems, s'.mp) else s'.mp == s.mp)
  }

  /** The optical tables after the first `i` switches were configured by `InitMemsConfig`. */
  function InitialTables(f: Fabric, i: nat): seq<Table> {
    if i == 0 then seq(LEAVES, _ => map[]) else Lightened(f, InitialTables(f, i - 1), i - 1, i - 1)
  }

  function FirstDue(t0: int, i: nat): int {
    t0 + DAY + STAGGER * i
  }

  /** The state `InitMemsConfig` leaves when it runs at `t0` on `n` fresh switches. */
  ghost predicate Initial(f: Fabric, n: nat, mpMode: bool, t0: int, s: State) {
    && s.now == t0 && |s.mems| == n
    && (forall i :: 0 <= i < n ==> s.mems[i] == Switch(true, i, LinkTable(i)))
    && s.optical == InitialTables(f, n)
    && (mpMode ==> MpAgrees(f, s.mems, s.mp))
    && PendingAt(n, s.pending, seq(n, i requires 0 <= i < n => FirstDue(t0, i)))
  }

  /** Exactly one pending event per switch: `due[i]` is the time of switch `i`'s. */
  ghost predicate PendingAt(n: nat, pending: multiset<Event>, due: seq<int>) {
    |due| == n && forall e: Event :: pending[e] == if e.id < n && e.time == due[e.id] then 1 else 0
  }

  ghost predicate Step(f: Fabric, mpMode: bool, s: State, s': State) {
    exists e :: Fires(f, mpMode, s, e, s')
  }

  ghost predicate Run(f: Fabric, n: nat, mpMode: bool, t0: int, ss: seq<State>) {
    && ss != [] && Initial(f, n, mpMode, t0, ss[0])
    && forall i, j :: 0 <= i && j == i + 1 && j < |ss| ==> Step(f, mpMode, ss[i], ss[j])
  }

  ghost predicate Reachable(f: Fabric, n: nat, mpMode: bool, t0: int, s: State) {
    exists ss :: Run(f, n, mpMode, t0, ss) && ss[|ss| - 1] == s
  }

  // ----- the phase of each switch

  /** Switch `i` has been reconfigured `k` times; where it stands in its 200-microsecond period follows. */
  ghost predicate Phase(t0: int, now: int, i: nat, sw: Switch, due: int, k: nat) {
    && sw.linkIndex == (i + 4 * k) % MATRICES && sw.linkTable == LinkTable(sw.linkIndex)
    && t0 <= now <= due
    && (if sw.isDay then
          && due == t0 + 50 * i + 200 * k + 180
          && (k > 0 ==> t0 + 50 * i + 200 * k <= now)
        else
          && due == t0 + 50 * i + 200 * k + 200
          && t0 + 50 * i + 200 * k + 180 <= now)
  }

  ghost predicate Timed(n: nat, t0: int, s: State, due: seq<int>, rounds: seq<nat>) {
    && |s.mems| == n && |rounds| == n && PendingAt(n, s.pending, due)
    && forall i :: 0 <= i < n ==> Phase(t0, s.now, i, s.mems[i], due[i], rounds[i])
  }

  ghost predicate Scheduled(n: nat, t0: int, s: State) {
    exists due, rounds :: Timed(n, t0, s, due, rounds)
  }

  lemma PendingMoves(n: nat, pending: multiset<Event>, due: seq<int>, e: Event, t: int)
    requires PendingAt(n, pending, due) && e in pending
    ensures e.id < n && e.time == due[e.id]
    ensures PendingAt(n, pending - multiset{e} + multiset{Event(t, e.id)}, due[e.id := t])
  {
    assert pending[e] != 0;
    var pending', due' := pending - multiset{e} + multiset{Event(t, e.id)}, due[e.id := t];
    forall x: Event
      ensures pending'[x] == if x.id < n && x.time == due'[x.id] then 1 else 0
    {
      assert pending[x] == if x.id < n && x.time == due[x.id] then 1 else 0;
      assert x == e <==> x.id == e.id && x.time == due[e.id];
      assert x == Event(t, e.id) <==> x.id == e.id && x.time == t;
    }
  }

  lemma IndexAdvances(i: nat, k: nat)
    ensures ((i + 4 * k) % MATRICES + 4) % MATRICES == (i + 4 * (k + 1)) % MATRICES
  {
  }

  lemma TimedStart(f: Fabric, n: nat, mpMode: bool, t0: int, s: State)
    requires Initial(f, n, mpMode, t0, s) && n <= MATRICES
    ensures Scheduled(n, t0, s)
  {
    var due := seq(n, i requires 0 <= i < n => FirstDue(t0, i));
    var rounds := seq(n, i => 0);
    forall i | 0 <= i < n
      ensures Phase(t0, s.now, i, s.mems[i], due[i], rounds[i])
    {
      assert i % MATRICES == i;
    }
    assert Timed(n, t0, s, due, rounds);
  }

  /** A switch that does not fire only sees the clock move, up to its own pending event at most. */
  lemma WaitingPhase(t0: int, now: int, now': int, i: nat, sw: Switch, due: int, k: nat)
    requires Phase(t0, now, i, sw, due, k) && now <= now' <= due
    ensures Phase(t0, now', i, sw, due, k)
  {
  }

  lemma FiredPhase(t0: int, now: int, i: nat, sw: Switch, due: int, k: nat)
    requires Phase(t0, now, i, sw, due, k)
    ensures sw.isDay ==> Phase(t0, due, i, sw.(isDay := false), due + NIGHT, k)
    ensures !sw.isDay ==> Phase(t0, due, i, Relit(sw), due + DAY, k + 1)
  {
    IndexAdvances(i, k);
  }

  /** The time of the event that switch `i` schedules when it fires at `time`. */
  function NextDue(sw: Switch, time: int): int {
    time + if sw.isDay then NIGHT else DAY
  }

  function NextRound(sw: Switch, k: nat): nat {
    if sw.isDay then k else k + 1
  }

  lemma PhasesStep(f: Fabric, n: nat, mpMode: bool, t0: int, s: State, e: Event, s': State, due: seq<int>,
                   rounds: seq<nat>)
    requires Timed(n, t0, s, due, rounds) && Fires(f, mpMode, s, e, s') && e.id < n && e.time == due[e.id]
    requires forall j :: 0 <= j < n ==> e.time <= due[j]
    ensures |s'.mems| == n
    ensures var sw := s.mems[e.id];
      forall j :: 0 <= j < n ==>
        Phase(t0, s'.now, j, s'.mems[j], due[e.id := NextDue(sw, e.time)][j],
              rounds[e.id := NextRound(sw, rounds[e.id])][j])
  {
    var i, sw := e.id, s.mems[e.id];
    hide PendingAt, Darkened, Lightened, MpAgrees, LinkTable, Relit, Phase;
    FiredPhase(t0, s.now, i, sw, due[i], rounds[i]);
    PhaseClock(t0, s.now, i, sw, due[i], rounds[i]);
    forall j | 0 <= j < n
      ensures Phase(t0, s'.now, j, s'.mems[j], due[i := NextDue(sw, e.time)][j],
                    rounds[i := NextRound(sw, rounds[i])][j])
    {
      if j != i {
        WaitingPhase(t0, s.now, s'.now, j, s.mems[j], due[j], rounds[j]);
      }
    }
  }

  lemma DueFirst(n: nat, pending: multiset<Event>, due: seq<int>, e: Event)
    requires PendingAt(n, pending, due) && e in pending && forall e2 :: e2 in pending ==> e.time <= e2.time
    ensures forall j :: 0 <= j < n ==> e.time <= due[j]
  {
    forall j | 0 <= j < n
      ensures e.time <= due[j]
    {
      assert pending[Event(due[j], j)] == 1;
    }
  }

  lemma FiredPending(f: Fabric, mpMode: bool, s: State, e: Event, s': State)
    requires Fires(f, mpMode, s, e, s')
    ensures e.id < |s.mems| && e in s.pending && forall e2 :: e2 in s.pending ==> e.time <= e2.time
    ensures s'.pending == s.pending - multiset{e} + multiset{Event(NextDue(s.mems[e.id], e.time), e.id)}
  {
    hide Darkened, Lightened, MpAgrees, Relit;
  }

  lemma TimedStep(f: Fabric, n: nat, mpMode: bool, t0: int, s: State, e: Event, s': State)
    requires Scheduled(n, t0, s) && Fires(f, mpMode, s, e, s')
    ensures Scheduled(n, t0, s')
  {
    FiredPending(f, mpMode, s, e, s');
    hide Fires, PendingAt, Phase, NextDue, NextRound;
    var due, rounds :| Timed(n, t0, s, due, rounds);
    var i, sw := e.id, s.mems[e.id];
    PendingMoves(n, s.pending, due, e, NextDue(sw, e.time));
    DueFirst(n, s.pending, due, e);
    PhasesStep(f, n, mpMode, t0, s, e, s', due, rounds);
    assert Timed(n, t0, s', due[i := NextDue(sw, e.time)], rounds[i := NextRound(sw, rounds[i])]);
  }

  lemma PhaseClock(t0: int, now: int, i: nat, sw: Switch, due: int, k: nat)
    requires Phase(t0, now, i, sw, due, k)
    ensures now <= due
  {
  }

  lemma {:induction false} RunIsScheduled(f: Fabric, n: nat, mpMode: bool, t0: int, ss: seq<State>)
    requires Run(f, n, mpMode, t0, ss) && n <= MATRICES
    ensures Scheduled(n, t0, ss[|ss| - 1])
  {
    hide Initial, Fires, Scheduled;
    if |ss| == 1 {
      TimedStart(f, n, mpMode, t0, ss[0]);
    } else {
      var i := |ss| - 2;
      RunIsScheduled(f, n, mpMode, t0, ss[..i + 1]);
      assert Step(f, mpMode, ss[i], ss[i + 1]);
      var e :| Fires(f, mpMode, ss[i], e, ss[i + 1]);
      TimedStep(f, n, mpMode, t0, ss[i], e, ss[i + 1]);
    }
  }

  // ----- what the schedule implies

  /** In every reachable state each switch has exactly one pending event. */
  lemma OnePendingEvent(f: Fabric, n: nat, mpMode: bool, t0: int, s: State, i: nat)
    requires Reachable(f, n, mpMode, t0, s) && n <= MATRICES && i < n
    ensures exists t :: s.pending[Event(t, i)] == 1 && forall t2 :: t2 != t ==> Event(t2, i) !in s.pending
    ensures forall e :: e in s.pending ==> e.id < n
  {
    var ss :| Run(f, n, mpMode, t0, ss) && ss[|ss| - 1] == s;
    RunIsScheduled(f, n, mpMode, t0, ss);
    var due, rounds :| Timed(n, t0, s, due, rounds);
    assert s.pending[Event(due[i], i)] == 1;
    assert forall t2 :: t2 != due[i] ==> Event(t2, i) !in s.pending;
  }

  /** Two switches dark at the same instant agree modulo 4. */
  lemma DarkTogether(f: Fabric, n: nat, mpMode: bool, t0: int, s: State, i: nat, j: nat)
    requires Reachable(f, n, mpMode, t0, s) && n <= MATRICES && i < n && j < n
    requires |s.mems| == n && !s.mems[i].isDay && !s.mems[j].isDay
    ensures i % 4 == j % 4
  {
    var ss :| Run(f, n, mpMode, t0, ss) && ss[|ss| - 1] == s;
    RunIsScheduled(f, n, mpMode, t0, ss);
    var due, rounds :| Timed(n, t0, s, due, rounds);
    assert Phase(t0, s.now, i, s.mems[i], due[i], rounds[i]);
    assert Phase(t0, s.now, j, s.mems[j], due[j], rounds[j]);
    assert i + 4 * rounds[i] == j + 4 * rounds[j];
    SameModFour(i, rounds[i], j, rounds[j]);
  }

  lemma SameModFour(i: nat, k: nat, j: nat, l: nat)
    requires i + 4 * k == j + 4 * l
    ensures i % 4 == j % 4
  {
  }

  /** With at most four switches at most one is ever dark. */
  lemma AtMostOneDark(f: Fabric, n: nat, mpMode: bool, t0: int, s: State, i: nat, j: nat)
    requires Reachable(f, n, mpMode, t0, s) && n <= 4 && i < n && j < n && |s.mems| == n
    requires !s.mems[i].isDay && !s.mems[j].isDay
    ensures i == j
  {
    hide Reachable;
    DarkTogether(f, n, mpMode, t0, s, i, j);
  }

  /** With at most four switches the light ones always use different matrices. */
  lemma FourSwitchesDisjoint(n: nat, t0: int, s: State)
    requires Scheduled(n, t0, s) && n <= 4
    ensures LightDisjoint(s.mems)
  {
    var due, rounds :| Timed(n, t0, s, due, rounds);
    forall i, j | 0 <= i < j < n && s.mems[i].isDay && s.mems[j].isDay
      ensures s.mems[i].linkIndex != s.mems[j].linkIndex
    {
      var k, l := rounds[i], rounds[j];
      assert Phase(t0, s.now, i, s.mems[i], due[i], k);
      assert Phase(t0, s.now, j, s.mems[j], due[j], l);
      assert k == l || k == l + 1;
      DifferentIndex(i + 4 * k, j + 4 * l);
    }
    forall i | 0 <= i < n
      ensures s.mems[i].linkIndex < MATRICES
    {
      assert Phase(t0, s.now, i, s.mems[i], due[i], rounds[i]);
    }
  }

  lemma DifferentIndex(x: nat, y: nat)
    requires x != y && x - y < MATRICES && y - x < MATRICES
    ensures x % MATRICES != y % MATRICES
  {
  }

  // ----- the tables in every reachable state

  /** The first `i` switches light, the others not yet configured. */
  function FirstLight(mems: seq<Switch>, i: nat): (r: seq<Switch>)
    ensures |r| == |mems|
  {
    seq(|mems|, j requires 0 <= j < |mems| => if j < i then mems[j] else mems[j].(isDay := false))
  }

  lemma AllLight(mems: seq<Switch>)
    ensures FirstLight(mems, |mems|) == mems
  {
    assert forall j :: 0 <= j < |mems| ==> FirstLight(mems, |mems|)[j] == mems[j];
  }

  /** Configuring one fresh switch after the other keeps the agreement. */
  lemma {:induction false} InitialAgrees(f: Fabric, n: nat, i: nat, mems: seq<Switch>)
    requires ValidFabric(f, n) && i <= n == |mems| <= MATRICES
    requires forall j :: 0 <= j < n ==> mems[j] == Switch(true, j, LinkTable(j))
    ensures Agrees(f, FirstLight(mems, i), InitialTables(f, i))
  {
    if i == 0 {
      forall a | 0 <= a < LEAVES
        ensures LeafAgrees(f, FirstLight(mems, 0), a, map[])
      {
        assert forall m: nat, d :: !Sends(f, FirstLight(mems, 0), m, a, d);
      }
    } else {
      InitialAgrees(f, n, i - 1, mems);
      assert FirstLight(mems, i) == FirstLight(mems, i - 1)[i - 1 := mems[i - 1]];
      hide Agrees, ValidFabric, Lightened, LinkTable;
      LighteningAgrees(f, n, FirstLight(mems, i - 1), i - 1, mems[i - 1], InitialTables(f, i - 1));
    }
  }

  lemma InitialStateAgrees(f: Fabric, n: nat, mpMode: bool, t0: int, s: State)
    requires Initial(f, n, mpMode, t0, s) && ValidFabric(f, n) && n <= MATRICES
    ensures Agrees(f, s.mems, s.optical)
  {
    InitialAgrees(f, n, n, s.mems);
    AllLight(s.mems);
  }

  /** One event keeps table and circuits in agreement as long as light switches use different matrices before and after
      it. */
  lemma EventKeepsAgreement(f: Fabric, n: nat, mpMode: bool, s: State, e: Event, s': State)
    requires ValidFabric(f, n) && Fires(f, mpMode, s, e, s') && Agrees(f, s.mems, s.optical)
    requires LightDisjoint(s.mems) && LightDisjoint(s'.mems)
    ensures Agrees(f, s'.mems, s'.optical)
  {
    hide ValidFabric, Agrees, LightDisjoint, Darkened, Lightened, LinkTable;
    if s.mems[e.id].isDay {
      DarkeningAgrees(f, n, s.mems, e.id, s.optical);
    } else {
      LighteningAgrees(f, n, s.mems, e.id, Relit(s.mems[e.id]), s.optical);
    }
  }

  lemma {:induction false} RunAgrees(f: Fabric, n: nat, mpMode: bool, t0: int, ss: seq<State>)
    requires Run(f, n, mpMode, t0, ss) && ValidFabric(f, n) && n <= 4
    ensures Agrees(f, ss[|ss| - 1].mems, ss[|ss| - 1].optical)
  {
    hide Fires, Agrees, ValidFabric, Scheduled, LightDisjoint, MpAgrees;
    if |ss| == 1 {
      InitialStateAgrees(f, n, mpMode, t0, ss[0]);
    } else {
      var i := |ss| - 2;
      assert Run(f, n, mpMode, t0, ss[..i + 1]);
      hide Initial;
      RunAgrees(f, n, mpMode, t0, ss[..i + 1]);
      RunIsScheduled(f, n, mpMode, t0, ss[..i + 1]);
      RunIsScheduled(f, n, mpMode, t0, ss);
      assert Step(f, mpMode, ss[i], ss[i + 1]);
      var e :| Fires(f, mpMode, ss[i], e, ss[i + 1]);
      FourSwitchesDisjoint(n, t0, ss[i]);
      FourSwitchesDisjoint(n, t0, ss[i + 1]);
      EventKeepsAgreement(f, n, mpMode, ss[i], e, ss[i + 1]);
    }
  }

  /** No event makes an entry lead elsewhere, also when light switches share a matrix. */
  lemma EventKeepsLeads(f: Fabric, mpMode: bool, s: State, e: Event, s': State)
    requires Fires(f, mpMode, s, e, s') && Leads(f, s.mems, s.optical)
    ensures Leads(f, s'.mems, s'.optical)
  {
    hide LeafLeads, Removed, Added, HostsOf, Peer, PortOf, MpAgrees, LinkTable;
    forall a | 0 <= a < LEAVES
      ensures LeafLeads(f, s'.mems, a, s'.optical[a])
    {
      if s.mems[e.id].isDay {
        LeafLeadsDarkened(f, s.mems, e.id, a, s.optical[a]);
      } else {
        LeafLeadsLightened(f, s.mems, e.id, Relit(s.mems[e.id]), a, s.optical[a]);
      }
    }
  }

  lemma AgreeingLeads(f: Fabric, mems: seq<Switch>, optical: seq<Table>)
    requires Agrees(f, mems, optical)
    ensures Leads(f, mems, optical)
  {
    hide SentThrough, Entry;
  }

  lemma {:induction false} RunLeads(f: Fabric, n: nat, mpMode: bool, t0: int, ss: seq<State>)
    requires Run(f, n, mpMode, t0, ss) && ValidFabric(f, n) && n <= MATRICES
    ensures Leads(f, ss[|ss| - 1].mems, ss[|ss| - 1].optical)
  {
    hide Fires, Agrees, Leads, ValidFabric;
    if |ss| == 1 {
      InitialStateAgrees(f, n, mpMode, t0, ss[0]);
      AgreeingLeads(f, ss[0].mems, ss[0].optical);
    } else {
      var i, j := |ss| - 2, |ss| - 1;
      assert Run(f, n, mpMode, t0, ss[..j]);
      hide Initial;
      RunLeads(f, n, mpMode, t0, ss[..j]);
      assert ss[..j][i] == ss[i] && Step(f, mpMode, ss[i], ss[j]);
      var e :| Fires(f, mpMode, ss[i], e, ss[j]);
      EventKeepsLeads(f, mpMode, ss[i], e, ss[j]);
    }
  }

  lemma FiresMp(f: Fabric, mpMode: bool, s: State, e: Event, s': State)
    requires Fires(f, mpMode, s, e, s')
    ensures mpMode ==> MpAgrees(f, s'.mems, s'.mp)
  {
  }

  /** For any number of switches the two-hop tables are, in every reachable state, what the light switches define. */
  lemma TwoHopTablesAgree(f: Fabric, n: nat, t0: int, s: State)
    requires Reachable(f, n, true, t0, s) && n <= MATRICES
    ensures MpAgrees(f, s.mems, s.mp)
  {
    hide MpAgrees;
    var ss :| Run(f, n, true, t0, ss) && ss[|ss| - 1] == s;
    if |ss| > 1 {
      var i, j := |ss| - 2, |ss| - 1;
      hide Initial, Fires;
      assert Step(f, true, ss[i], ss[j]);
      var e :| Fires(f, true, ss[i], e, ss[j]);
      FiresMp(f, true, ss[i], e, ss[j]);
    }
  }

  /** In every reachable state of up to fifteen switches each entry leads over a light switch to its address's leaf, and
      the two-hop tables are what the light switches define; with at most four switches no entry is missing. */
  lemma TablesAgree(f: Fabric, n: nat, mpMode: bool, t0: int, s: State)
    requires Reachable(f, n, mpMode, t0, s) && ValidFabric(f, n) && n <= MATRICES
    ensures Leads(f, s.mems, s.optical)
    ensures mpMode ==> MpAgrees(f, s.mems, s.mp)
    ensures n <= 4 ==> Agrees(f, s.mems, s.optical) && LightDisjoint(s.mems)
  {
    var ss :| Run(f, n, mpMode, t0, ss) && ss[|ss| - 1] == s;
    hide Run, Reachable, Leads, Agrees, LightDisjoint, MpAgrees, ValidFabric;
    RunLeads(f, n, mpMode, t0, ss);
    if mpMode {
      TwoHopTablesAgree(f, n, t0, s);
    }
    if n <= 4 {
      RunAgrees(f, n, mpMode, t0, ss);
      RunIsScheduled(f, n, mpMode, t0, ss);
      FourSwitchesDisjoint(n, t0, s);
    }
  }

  // ----- the same in the fabric's own terms, and the circuits themselves

  lemma TablesAreTheirMatrices(n: nat, t0: int, s: State)
    requires Scheduled(n, t0, s)
    ensures |s.mems| == n && forall m :: 0 <= m < n ==> s.mems[m].linkTable == LinkTable(s.mems[m].linkIndex)
  {
    var due, rounds :| Timed(n, t0, s, due, rounds);
    hide LinkTable;
    forall m | 0 <= m < n
      ensures s.mems[m].linkTable == LinkTable(s.mems[m].linkIndex)
    {
      assert Phase(t0, s.now, m, s.mems[m], due[m], rounds[m]);
    }
  }

  /** In every reachable state of up to fifteen switches: an entry's interface is that of a light switch whose link
      table leads to the leaf that has the host; with at most four switches there is an entry for every such link. */
  lemma EntriesFollowLinks(f: Fabric, n: nat, mpMode: bool, t0: int, s: State, a: nat, d: Addr, p: nat)
    requires Reachable(f, n, mpMode, t0, s) && ValidFabric(f, n) && n <= MATRICES && a < LEAVES
    ensures |s.optical| == LEAVES
    ensures d in s.optical[a] && s.optical[a][d] == p ==> LinkedThrough(f, s.mems, a, d, p)
    ensures n <= 4 && LinkedThrough(f, s.mems, a, d, p) ==> d in s.optical[a] && s.optical[a][d] == p
  {
    var ss :| Run(f, n, mpMode, t0, ss) && ss[|ss| - 1] == s;
    hide Run, MpAgrees, LightDisjoint, LinkedThrough, SentThrough, LinkTable;
    TablesAgree(f, n, mpMode, t0, s);
    RunIsScheduled(f, n, mpMode, t0, ss);
    hide Reachable, Scheduled;
    TablesAreTheirMatrices(n, t0, s);
    LinkedIsSent(f, n, s.mems, a, d, p);
    hide ValidFabric;
    assert Entry(s.optical[a], d, p) <==> d in s.optical[a] && s.optical[a][d] == p;
    assert LeafLeads(f, s.mems, a, s.optical[a]);
    assert n <= 4 ==> LeafAgrees(f, s.mems, a, s.optical[a]);
  }

  lemma PhaseCircuit(t0: int, now: int, m: nat, sw: Switch, due: int, r: nat)
    requires Phase(t0, now, m, sw, due, r)
    ensures |sw.linkTable| == 16
    ensures var c := (m + 4 * r) % 15 + 1; sw.linkTable[0] == c && sw.linkTable[c] == 0
    ensures var period := t0 + 50 * m + 200 * r;
      && (sw.isDay ==> (r == 0 || period <= now) && now <= period + 180)
      && (!sw.isDay ==> period + 180 <= now <= period + 200)
  {
    var k := sw.linkIndex;
    hide Peer;
    FirstLeafsPeer(k);
    assert sw.linkTable[0] == Peer(k, 0) && sw.linkTable[k + 1] == Peer(k, k + 1);
  }

  /** Switch `m`'s period `r` begins `50 m + 200 r` microseconds after the start: in it the first leaf is linked to leaf
      `(m + 4 r) mod 15 + 1`, for 180 microseconds of light and 20 of darkness. Period 0 is light from the start on. */
  lemma CircuitAtTime(f: Fabric, n: nat, mpMode: bool, t0: int, s: State, m: nat) returns (r: nat)
    requires Reachable(f, n, mpMode, t0, s) && n <= MATRICES && m < n
    ensures |s.mems| == n && |s.mems[m].linkTable| == 16
    ensures var c := (m + 4 * r) % 15 + 1; s.mems[m].linkTable[0] == c && s.mems[m].linkTable[c] == 0
    ensures var period := t0 + 50 * m + 200 * r;
      && (s.mems[m].isDay ==> (r == 0 || period <= s.now) && s.now <= period + 180)
      && (!s.mems[m].isDay ==> period + 180 <= s.now <= period + 200)
  {
    var ss :| Run(f, n, mpMode, t0, ss) && ss[|ss| - 1] == s;
    hide Run;
    RunIsScheduled(f, n, mpMode, t0, ss);
    var due, rounds :| Timed(n, t0, s, due, rounds);
    r := rounds[m];
    assert Phase(t0, s.now, m, s.mems[m], due[m], r);
    hide *;
    PhaseCircuit(t0, s.now, m, s.mems[m], due[m], r);
  }

  // ----- five switches are too many

  /** The next two events of a fresh controller darken and relight switch 0, onto the matrix that switch 4 uses. */
  ghost predicate Collides(s: State) {
    |s.mems| >= 5 && s.mems[0].isDay && s.mems[4].isDay && s.mems[0].linkIndex == s.mems[4].linkIndex == 4
  }

  lemma CollisionDisagrees(f: Fabric, n: nat, s: State, b: nat, d: Addr)
    requires ValidFabric(f, n) && 5 <= n == |s.mems| && Collides(s) && b < LEAVES && d in f.hosts[b]
    ensures !Agrees(f, s.mems, s.optical)
  {
    PeerIsInvolution(4, b);
    PeerIsLeaf(4, b);
    hide Peer;
    var a := Peer(4, b);
    assert Sends(f, s.mems, 0, a, d) && Sends(f, s.mems, 4, a, d);
    assert SentThrough(f, s.mems, a, d, PortOf(f, a, 0)) && SentThrough(f, s.mems, a, d, PortOf(f, a, 4));
    assert PortOf(f, a, 0) != PortOf(f, a, 4);
    hide SentThrough, LeafAgrees;
    if Agrees(f, s.mems, s.optical) {
      OneEntry(f, s.mems, a, s.optical[a], d, PortOf(f, a, 0), PortOf(f, a, 4));
    }
  }

  lemma OneEntry(f: Fabric, mems: seq<Switch>, a: nat, t: Table, d: Addr, p: nat, q: nat)
    requires LeafAgrees(f, mems, a, t) && SentThrough(f, mems, a, d, p) && SentThrough(f, mems, a, d, q)
    ensures p == q
  {
    hide SentThrough;
    assert Entry(t, d, p) && Entry(t, d, q);
  }

  // ----- a run that collides

  ghost function PendingUpTo(t0: int, i: nat): multiset<Event> {
    if i == 0 then multiset{} else PendingUpTo(t0, i - 1) + multiset{Event(FirstDue(t0, i - 1), i - 1)}
  }

  lemma {:induction false} PendingUpToAt(t0: int, i: nat)
    ensures forall e: Event :: PendingUpTo(t0, i)[e] == if e.id < i && e.time == FirstDue(t0, e.id) then 1 else 0
  {
    if i > 0 {
      PendingUpToAt(t0, i - 1);
    }
  }

  ghost function MpTables(f: Fabric, mems: seq<Switch>): (mp: seq<Table>)
    ensures MpAgrees(f, mems, mp)
  {
    var mp := seq(LEAVES, a requires 0 <= a < LEAVES => MpTable(f, mems, |mems|, a));
    assert forall a :: 0 <= a < LEAVES ==> MpLeafAgrees(f, mems, |mems|, a, mp[a]) by {
      forall a | 0 <= a < LEAVES {
        MpTableAgrees(f, mems, |mems|, a);
      }
    }
    mp
  }

  /** The fresh controller. */
  ghost function Start(f: Fabric, n: nat, t0: int): State {
    var mems := seq(n, i requires 0 <= i < n => Switch(true, i, LinkTable(i)));
    State(t0, mems, InitialTables(f, n), MpTables(f, mems), PendingUpTo(t0, n))
  }

  lemma StartIsInitial(f: Fabric, n: nat, mpMode: bool, t0: int)
    ensures Initial(f, n, mpMode, t0, Start(f, n, t0))
  {
    hide InitialTables, LinkTable, MpAgrees;
    PendingUpToAt(t0, n);
  }

  /** The state after event `e`. */
  ghost function After(f: Fabric, mpMode: bool, s: State, e: Event): State
    requires e.id < |s.mems|
  {
    var sw := s.mems[e.id];
    var sw' := if sw.isDay then sw.(isDay := false) else Relit(sw);
    var mems := s.mems[e.id := sw'];
    State(e.time, mems,
          if sw.isDay then Darkened(f, s.optical, sw.linkIndex) else Lightened(f, s.optical, sw'.linkIndex, e.id),
          if mpMode then MpTables(f, mems) else s.mp,
          s.pending - multiset{e} + multiset{Event(e.time + if sw.isDay then NIGHT else DAY, e.id)})
  }

  lemma AfterFires(f: Fabric, mpMode: bool, s: State, e: Event)
    requires e in s.pending && (forall e2 :: e2 in s.pending ==> e.time <= e2.time) && e.id < |s.mems|
    ensures Fires(f, mpMode, s, e, After(f, mpMode, s, e))
  {
    hide Darkened, Lightened, Relit, MpAgrees;
  }

  lemma FirstIsPending(n: nat, pending: multiset<Event>, due: seq<int>, i: nat)
    requires i < n && PendingAt(n, pending, due) && forall j :: 0 <= j < n ==> due[i] <= due[j]
    ensures |due| == n && Event(due[i], i) in pending && forall e :: e in pending ==> due[i] <= e.time
  {
    assert pending[Event(due[i], i)] == 1;
    forall e | e in pending
      ensures due[i] <= e.time
    {
      assert pending[e] != 0;
    }
  }

  /** When switch `i` is due first, its event fires and is rescheduled. */
  lemma SwitchFires(f: Fabric, n: nat, mpMode: bool, s: State, due: seq<int>, i: nat)
    requires i < n == |s.mems| && PendingAt(n, s.pending, due) && forall j :: 0 <= j < n ==> due[i] <= due[j]
    ensures var s' := After(f, mpMode, s, Event(due[i], i));
      Step(f, mpMode, s, s') && PendingAt(n, s'.pending, due[i := NextDue(s.mems[i], due[i])])
  {
    hide PendingAt, Fires, NextDue, After;
    FirstIsPending(n, s.pending, due, i);
    var e := Event(due[i], i);
    PendingMoves(n, s.pending, due, e, NextDue(s.mems[i], due[i]));
    AfterFires(f, mpMode, s, e);
    FiredPending(f, mpMode, s, e, After(f, mpMode, s, e));
  }

  lemma ReachableNext(f: Fabric, n: nat, mpMode: bool, t0: int, s: State, s': State)
    requires Reachable(f, n, mpMode, t0, s) && Step(f, mpMode, s, s')
    ensures Reachable(f, n, mpMode, t0, s')
  {
    hide Initial, Step;
    var ss :| Run(f, n, mpMode, t0, ss) && ss[|ss| - 1] == s;
    var longer := ss + [s'];
    forall i, j | 0 <= i && j == i + 1 && j < |longer|
      ensures Step(f, mpMode, longer[i], longer[j])
    {
      if j < |ss| {
        assert Step(f, mpMode, ss[i], ss[j]);
      }
    }
    assert Run(f, n, mpMode, t0, longer) && longer[|longer| - 1] == s';
  }

  lemma StartIsReachable(f: Fabric, n: nat, mpMode: bool, t0: int)
    ensures Reachable(f, n, mpMode, t0, Start(f, n, t0))
  {
    StartIsInitial(f, n, mpMode, t0);
    hide Initial, Start;
    assert Run(f, n, mpMode, t0, [Start(f, n, t0)]);
    assert [Start(f, n, t0)][0] == Start(f, n, t0);
  }

  /** Every switch is light, the first `k` have been darkened and relit once. */
  ghost predicate RoundsDone(n: nat, t0: int, s: State, k: nat) {
    && |s.mems| == n
    && (forall i :: 0 <= i < n ==> s.mems[i].isDay && s.mems[i].linkIndex == if i < k then i + 4 else i)
    && PendingAt(n, s.pending, seq(n, i requires 0 <= i < n => FirstDue(t0, i) + if i < k then DAY + NIGHT else 0))
  }

  /** Switch `k` darkens and is relit before any other switch is due. */
  lemma RoundOf(f: Fabric, n: nat, mpMode: bool, t0: int, s: State, k: nat) returns (s': State)
    requires 5 <= n <= MATRICES && k < 4 && Reachable(f, n, mpMode, t0, s) && RoundsDone(n, t0, s, k)
    ensures Reachable(f, n, mpMode, t0, s') && RoundsDone(n, t0, s', k + 1)
  {
    hide Reachable, Step, MpAgrees, PendingAt, LinkTable, Darkened, Lightened;
    var due := seq(n, i requires 0 <= i < n => FirstDue(t0, i) + if i < k then DAY + NIGHT else 0);
    SwitchFires(f, n, mpMode, s, due, k);
    var dark := After(f, mpMode, s, Event(due[k], k));
    ReachableNext(f, n, mpMode, t0, s, dark);
    var due' := due[k := due[k] + NIGHT];
    SwitchFires(f, n, mpMode, dark, due', k);
    s' := After(f, mpMode, dark, Event(due'[k], k));
    ReachableNext(f, n, mpMode, t0, dark, s');
    assert due'[k := due'[k] + DAY] ==
      seq(n, i requires 0 <= i < n => FirstDue(t0, i) + if i < k + 1 then DAY + NIGHT else 0);
  }

  lemma {:induction false} RoundsAreReached(f: Fabric, n: nat, mpMode: bool, t0: int, k: nat) returns (s: State)
    requires 5 <= n <= MATRICES && k <= 4
    ensures Reachable(f, n, mpMode, t0, s) && RoundsDone(n, t0, s, k)
  {
    if k == 0 {
      s := Start(f, n, t0);
      StartIsReachable(f, n, mpMode, t0);
      StartPending(f, n, t0);
      hide Reachable, PendingAt;
      assert seq(n, i requires 0 <= i < n => FirstDue(t0, i))
          == seq(n, i requires 0 <= i < n => FirstDue(t0, i) + if i < 0 then DAY + NIGHT else 0);
    } else {
      var before := RoundsAreReached(f, n, mpMode, t0, k - 1);
      s := RoundOf(f, n, mpMode, t0, before, k - 1);
    }
  }

  /** Darkening and relighting switch 0, the first two events of any run of five or more switches, collides with switch
      4. */
  lemma CollisionIsReached(f: Fabric, n: nat, mpMode: bool, t0: int) returns (s: State)
    requires 5 <= n <= MATRICES
    ensures Reachable(f, n, mpMode, t0, s) && |s.mems| == n && Collides(s)
  {
    s := RoundsAreReached(f, n, mpMode, t0, 1);
    hide Reachable;
  }

  lemma StartPending(f: Fabric, n: nat, t0: int)
    ensures PendingAt(n, Start(f, n, t0).pending, seq(n, i requires 0 <= i < n => FirstDue(t0, i)))
  {
    PendingUpToAt(t0, n);
  }

  /** Table and circuits agree in every reachable state if and only if there are at most four optical switches. */
  lemma FourIsTheLimit(f: Fabric, n: nat, mpMode: bool, t0: int, b: nat, d: Addr)
    requires ValidFabric(f, n) && n <= MATRICES && b < LEAVES && d in f.hosts[b]
    ensures (forall s :: Reachable(f, n, mpMode, t0, s) ==> Agrees(f, s.mems, s.optical)) <==> n <= 4
  {
    hide Reachable, Agrees, Leads, LightDisjoint, MpAgrees, ValidFabric, Collides;
    if n <= 4 {
      forall s | Reachable(f, n, mpMode, t0, s)
        ensures Agrees(f, s.mems, s.optical)
      {
        TablesAgree(f, n, mpMode, t0, s);
      }
    } else {
      var s := CollisionIsReached(f, n, mpMode, t0);
      CollisionDisagrees(f, n, s, b, d);
    }
  }
}
