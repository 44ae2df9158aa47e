/** The queue of packets that wait for a route (aodv-rqueue.cc, section 6.3 of RFC 3561). */
module RequestQueue {
  import opened Ipv4

  datatype Entry = Entry(uid: nat, dst: Address, expire: int)

  /** How an entry left: handed to the caller, or dropped with its error callback for one of three reasons. */
  datatype Fate = Dequeued | Outdated | MostAged | WithDst

  datatype Departure = Departure(entry: Entry, fate: Fate, at: int)

  /** The queue with its settings, everything it ever accepted, and everything that left it, in order. */
  datatype State = State(queue: seq<Entry>, maxLen: nat, timeout: int, accepted: seq<Entry>, left: seq<Departure>)

  datatype Op =
    | Enqueue(uid: nat, dst: Address)
    | Dequeue(dst: Address)
    | DropPacketWithDst(dst: Address)
    | GetSize
    | Find(dst: Address)
    | SetMaxQueueLen(len: nat)
    | SetQueueTimeout(timeout: int)

  datatype Event = Event(now: int, op: Op)

  /** The tests by which the methods select entries. */
  datatype Query = ExpiredBy(now: int) | AliveAt(now: int) | To(dst: Address) | NotTo(dst: Address)

  predicate Matches(e: Entry, q: Query) {
    match q
    case ExpiredBy(now) => e.expire - now < 0
    case AliveAt(now) => !(e.expire - now < 0)
    case To(dst) => e.dst == dst
    case NotTo(dst) => e.dst != dst
  }

  /** The selected entries in their order. */
  function Pick(s: seq<Entry>, q: Query): seq<Entry> {
    if s == [] then []
    else if Matches(s[0], q) then [s[0]] + Pick(s[1..], q)
    else Pick(s[1..], q)
  }

  function Departures(s: seq<Entry>, fate: Fate, at: int): seq<Departure> {
    seq(|s|, i requires 0 <= i < |s| => Departure(s[i], fate, at))
  }

  function Entries(left: seq<Departure>): seq<Entry> {
    seq(|left|, i requires 0 <= i < |left| => left[i].entry)
  }

  // ----- one operation

  function Purged(s: State, now: int): State {
    s.(queue := Pick(s.queue, AliveAt(now)),
       left := s.left + Departures(Pick(s.queue, ExpiredBy(now)), Outdated, now))
  }

  predicate HasTwin(s: seq<Entry>, uid: nat, dst: Address) {
    exists e :: e in s && e.uid == uid && e.dst == dst
  }

  /** A full queue gives up its front entry first. */
  function Pushed(s: State, e: Entry, now: int): State
    requires |s.queue| == s.maxLen ==> s.queue != []
  {
    var room :=
      if |s.queue| == s.maxLen then
        s.(queue := s.queue[1..], left := s.left + [Departure(s.queue[0], MostAged, now)])
      else s;
    room.(queue := room.queue + [e], accepted := room.accepted + [e])
  }

  /** The index of the first entry for `dst`, or the length of the queue. */
  function FirstTo(s: seq<Entry>, dst: Address): (k: nat)
    ensures k <= |s|
    ensures forall i :: 0 <= i < k ==> s[i].dst != dst
    ensures k < |s| ==> s[k].dst == dst
  {
    if s == [] || s[0].dst == dst then 0 else 1 + FirstTo(s[1..], dst)
  }

  function Taken(s: State, dst: Address, now: int): State {
    var k := FirstTo(s.queue, dst);
    if k == |s.queue| then s
    else s.(queue := s.queue[..k] + s.queue[k + 1..], left := s.left + [Departure(s.queue[k], Dequeued, now)])
  }

  function Cleared(s: State, dst: Address, now: int): State {
    s.(queue := Pick(s.queue, NotTo(dst)), left := s.left + Departures(Pick(s.queue, To(dst)), WithDst, now))
  }

  /** `m_queue.front ()` needs an entry: only a limit of 0 and an empty queue leave an operation undefined. */
  predicate Defined(s: State, e: Event) {
    !(e.op.Enqueue? && s.maxLen == 0 && Pick(s.queue, AliveAt(e.now)) == [])
  }

  function Step(s: State, e: Event): State
    requires Defined(s, e)
  {
    var p := Purged(s, e.now);
    match e.op
    case Enqueue(uid, dst) =>
      if HasTwin(p.queue, uid, dst) then p else Pushed(p, Entry(uid, dst, s.timeout + e.now), e.now)
    case Dequeue(dst) => Taken(p, dst, e.now)
    case DropPacketWithDst(dst) => Cleared(p, dst, e.now)
    case GetSize => p
    case Find(dst) => s
    case SetMaxQueueLen(len) => s.(maxLen := len)
    case SetQueueTimeout(timeout) => s.(timeout := timeout)
  }

  // ----- the class

  class RequestQueue {
    var queue: seq<Entry>
    var maxLen: nat
    var queueTimeout: int
    /** The error callbacks made and the entries handed out, in order. */
    var left: seq<Departure>
    ghost var accepted: seq<Entry>

    ghost function Value(): State
      reads this
    {
      State(queue, maxLen, queueTimeout, accepted, left)
    }

    constructor (maxLen: nat, routeToQueueTimeout: int)
      ensures Value() == State([], maxLen, routeToQueueTimeout, [], [])
    {
      queue, left, accepted := [], [], [];
      this.maxLen := maxLen;
      queueTimeout := routeToQueueTimeout;
    }

    /** Calls the error callback of `en`. */
    method Drop(en: Entry, fate: Fate, now: int)
      modifies `left
      ensures left == old(left) + [Departure(en, fate, now)]
    {
      left := left + [Departure(en, fate, now)];
    }

    method DropAll(q: Query, fate: Fate, now: int)
      modifies `left
      ensures left == old(left) + Departures(Pick(queue, q), fate, now)
    {
      ghost var before := left;
      for i := 0 to |queue|
        invariant left == before + Departures(Pick(queue[..i], q), fate, now)
      {
        PickLast(queue, i, q);
        if Matches(queue[i], q) {
          Drop(queue[i], fate, now);
        }
      }
      assert queue[..|queue|] == queue;
    }

    method Purge(now: int)
      modifies `queue, `left
      ensures Value() == Purged(old(Value()), now)
    {
      DropAll(ExpiredBy(now), Outdated, now);
      queue := Pick(queue, AliveAt(now));
    }

    method GetSize(now: int) returns (size: nat)
      modifies `queue, `left
      ensures Value() == Step(old(Value()), Event(now, Op.GetSize)) && size == |queue|
    {
      Purge(now);
      size := |queue|;
    }

    method Enqueue(uid: nat, dst: Address, now: int) returns (ok: bool)
      requires Defined(Value(), Event(now, Op.Enqueue(uid, dst)))
      modifies `queue, `left, `accepted
      ensures Value() == Step(old(Value()), Event(now, Op.Enqueue(uid, dst)))
      ensures ok <==> !HasTwin(Purged(old(Value()), now).queue, uid, dst)
    {
      Purge(now);
      for i := 0 to |queue|
        invariant forall j :: 0 <= j < i ==> !(queue[j].uid == uid && queue[j].dst == dst)
      {
        if queue[i].uid == uid && queue[i].dst == dst {
          return false;
        }
      }
      var entry := Entry(uid, dst, queueTimeout + now);
      if |queue| == maxLen {
        Drop(queue[0], MostAged, now);
        queue := queue[1..];
      }
      queue := queue + [entry];
      accepted := accepted + [entry];
      return true;
    }

    method DropPacketWithDst(dst: Address, now: int)
      modifies `queue, `left
      ensures Value() == Step(old(Value()), Event(now, Op.DropPacketWithDst(dst)))
    {
      Purge(now);
      DropAll(To(dst), WithDst, now);
      queue := Pick(queue, NotTo(dst));
    }

    /** Hands out the earliest entry for `dst` that has not expired. */
    method Dequeue(dst: Address, now: int) returns (ok: bool, entry: Entry)
      modifies `queue, `left
      ensures Value() == Step(old(Value()), Event(now, Op.Dequeue(dst)))
      ensures var alive := Pick(old(queue), AliveAt(now));
        ok <==> FirstTo(alive, dst) < |alive|
      ensures ok ==> entry == Pick(old(queue), AliveAt(now))[FirstTo(Pick(old(queue), AliveAt(now)), dst)]
    {
      Purge(now);
      entry := Entry(0, dst, 0);
      for i := 0 to |queue|
        invariant forall j :: 0 <= j < i ==> queue[j].dst != dst
      {
        if queue[i].dst == dst {
          FirstToIs(queue, dst, i);
          entry := queue[i];
          left := left + [Departure(entry, Dequeued, now)];
          queue := queue[..i] + queue[i + 1..];
          return true, entry;
        }
      }
      return false, entry;
    }

    method Find(dst: Address) returns (found: bool)
      ensures found <==> exists e :: e in queue && e.dst == dst
    {
      for i := 0 to |queue|
        invariant forall j :: 0 <= j < i ==> queue[j].dst != dst
      {
        if queue[i].dst == dst {
          return true;
        }
      }
      return false;
    }
  }

  lemma FirstToIs(s: seq<Entry>, dst: Address, k: nat)
    requires k < |s| && s[k].dst == dst && forall i :: 0 <= i < k ==> s[i].dst != dst
    ensures FirstTo(s, dst) == k
  {
  }

  // ----- selections

  lemma {:induction false} PickConcat(a: seq<Entry>, b: seq<Entry>, q: Query)
    ensures Pick(a + b, q) == Pick(a, q) + Pick(b, q)
  {
    if a == [] {
      assert a + b == b;
    } else {
      assert (a + b)[1..] == a[1..] + b;
      PickConcat(a[1..], b, q);
    }
  }

  lemma PickLast(s: seq<Entry>, i: nat, q: Query)
    requires i < |s|
    ensures Pick(s[..i + 1], q) == Pick(s[..i], q) + if Matches(s[i], q) then [s[i]] else []
  {
    assert s[..i + 1] == s[..i] + [s[i]];
    PickConcat(s[..i], [s[i]], q);
    assert [s[i]][1..] == [];
  }

  lemma {:induction false} PickMembers(s: seq<Entry>, q: Query, e: Entry)
    ensures e in Pick(s, q) <==> e in s && Matches(e, q)
  {
    if s != [] {
      PickMembers(s[1..], q, e);
      assert s == [s[0]] + s[1..];
    }
  }

  lemma PickHead(s: seq<Entry>, q: Query)
    requires s != []
    ensures Pick(s, q) == (if Matches(s[0], q) then [s[0]] else []) + Pick(s[1..], q)
  {
  }

  ghost predicate Opposite(q: Query, q': Query) {
    forall e: Entry :: Matches(e, q) <==> !Matches(e, q')
  }

  /** Two opposite selections share out the entries. */
  lemma {:induction false} PickSplits(s: seq<Entry>, q: Query, q': Query)
    requires Opposite(q, q')
    ensures multiset(Pick(s, q)) + multiset(Pick(s, q')) == multiset(s)
  {
    if s != [] {
      PickSplits(s[1..], q, q');
      PickHead(s, q);
      PickHead(s, q');
      hide Pick, Matches;
      assert s == [s[0]] + s[1..];
    }
  }

  /** Selecting twice: the narrower test decides. */
  lemma {:induction false} PickNarrower(s: seq<Entry>, q: Query, q': Query)
    requires forall e: Entry :: Matches(e, q') ==> Matches(e, q)
    ensures Pick(Pick(s, q), q') == Pick(s, q')
  {
    if s != [] {
      PickNarrower(s[1..], q, q');
      if Matches(s[0], q) {
        var t := [s[0]] + Pick(s[1..], q);
        PickHead(t, q');
        assert t[1..] == Pick(s[1..], q);
      }
    }
  }

  /** Contrary tests leave nothing. */
  lemma {:induction false} PickContrary(s: seq<Entry>, q: Query, q': Query)
    requires forall e: Entry :: Matches(e, q) ==> !Matches(e, q')
    ensures Pick(Pick(s, q), q') == []
  {
    if s != [] {
      PickContrary(s[1..], q, q');
      if Matches(s[0], q) {
        var t := [s[0]] + Pick(s[1..], q);
        PickHead(t, q');
        assert t[1..] == Pick(s[1..], q);
      }
    }
  }

  // ----- runs

  /** Some run of the queue: each state follows from the one before by the event of the same index. */
  ghost predicate IsRun(states: seq<State>, events: seq<Event>) {
    && |states| == |events| + 1
    && states[0].queue == [] && states[0].accepted == [] && states[0].left == []
    && forall i, j :: 0 <= i && j == i + 1 && j < |states| ==>
         Defined(states[i], events[i]) && states[j] == Step(states[i], events[i])
  }

  /** A packet that was accepted waits in the queue or left it, as often as it was accepted. */
  ghost predicate Accounted(s: State) {
    multiset(s.accepted) == multiset(s.queue) + multiset(Entries(s.left))
  }

  /** No two entries have the same packet and destination. */
  ghost predicate NoTwins(s: seq<Entry>) {
    forall i, j :: 0 <= i < j < |s| ==> !(s[i].uid == s[j].uid && s[i].dst == s[j].dst)
  }

  /** Entries are dropped as outdated after their expiry and leave in any other way only until then. */
  ghost predicate Punctual(left: seq<Departure>) {
    forall d :: d in left ==> (d.fate == Outdated <==> d.at > d.entry.expire)
  }

  ghost predicate Sound(s: State) {
    Accounted(s) && NoTwins(s.queue) && Punctual(s.left)
  }

  lemma Moved(s: State, q: seq<Entry>, gone: seq<Entry>, fate: Fate, at: int)
    requires Accounted(s) && multiset(gone) + multiset(q) == multiset(s.queue)
    ensures Accounted(s.(queue := q, left := s.left + Departures(gone, fate, at)))
  {
    assert Entries(s.left + Departures(gone, fate, at)) == Entries(s.left) + gone;
  }

  lemma {:induction false} PickKeepsNoTwins(s: seq<Entry>, q: Query)
    requires NoTwins(s)
    ensures NoTwins(Pick(s, q))
  {
    if s != [] {
      PickKeepsNoTwins(s[1..], q);
      forall e | e in Pick(s[1..], q)
        ensures !(e.uid == s[0].uid && e.dst == s[0].dst)
      {
        PickMembers(s[1..], q, e);
        var i :| 1 <= i < |s| && s[i] == e;
      }
    }
  }

  lemma PickedAllMatch(s: seq<Entry>, q: Query)
    ensures forall e :: e in Pick(s, q) ==> Matches(e, q)
  {
    forall e | e in Pick(s, q)
      ensures Matches(e, q)
    {
      PickMembers(s, q, e);
    }
  }

  lemma PurgedIsSound(s: State, now: int)
    requires Sound(s)
    ensures Sound(Purged(s, now)) && Alive(Purged(s, now), now)
  {
    PickSplits(s.queue, ExpiredBy(now), AliveAt(now));
    Moved(s, Pick(s.queue, AliveAt(now)), Pick(s.queue, ExpiredBy(now)), Outdated, now);
    PickKeepsNoTwins(s.queue, AliveAt(now));
    PickedAllMatch(s.queue, AliveAt(now));
    PickedAllMatch(s.queue, ExpiredBy(now));
    hide Pick;
    assert forall d :: d in Departures(Pick(s.queue, ExpiredBy(now)), Outdated, now) ==>
      d.entry in Pick(s.queue, ExpiredBy(now));
  }

  ghost predicate Alive(s: State, now: int) {
    forall e :: e in s.queue ==> e.expire >= now
  }

  lemma WithoutFrontIsSound(s: State, now: int)
    requires Sound(s) && Alive(s, now) && s.queue != []
    ensures Sound(s.(queue := s.queue[1..], left := s.left + [Departure(s.queue[0], MostAged, now)]))
  {
    assert s.queue == [s.queue[0]] + s.queue[1..];
    assert [Departure(s.queue[0], MostAged, now)] == Departures([s.queue[0]], MostAged, now);
    hide Accounted;
    Moved(s, s.queue[1..], [s.queue[0]], MostAged, now);
  }

  lemma AppendedIsSound(s: State, e: Entry)
    requires Sound(s) && !HasTwin(s.queue, e.uid, e.dst)
    ensures Sound(s.(queue := s.queue + [e], accepted := s.accepted + [e]))
  {
  }

  lemma PushedIsSound(s: State, e: Entry, now: int)
    requires Sound(s) && Alive(s, now) && !HasTwin(s.queue, e.uid, e.dst) && (|s.queue| == s.maxLen ==> s.queue != [])
    ensures Sound(Pushed(s, e, now))
  {
    hide Sound, Alive;
    if |s.queue| == s.maxLen {
      WithoutFrontIsSound(s, now);
      AppendedIsSound(s.(queue := s.queue[1..], left := s.left + [Departure(s.queue[0], MostAged, now)]), e);
    } else {
      AppendedIsSound(s, e);
    }
  }

  lemma RemovedNoTwins(s: seq<Entry>, k: nat)
    requires NoTwins(s) && k < |s|
    ensures NoTwins(s[..k] + s[k + 1..])
  {
    var t := s[..k] + s[k + 1..];
    forall i, j | 0 <= i < j < |t|
      ensures !(t[i].uid == t[j].uid && t[i].dst == t[j].dst)
    {
      var i', j' := if i < k then i else i + 1, if j < k then j else j + 1;
      assert t[i] == s[i'] && t[j] == s[j'];
    }
  }

  lemma RemovedCounts(s: seq<Entry>, k: nat)
    requires k < |s|
    ensures multiset([s[k]]) + multiset(s[..k] + s[k + 1..]) == multiset(s)
  {
    assert s == s[..k] + [s[k]] + s[k + 1..];
  }

  lemma OneDeparture(left: seq<Departure>, e: Entry, fate: Fate, at: int)
    requires Punctual(left) && (fate == Outdated <==> at > e.expire)
    ensures Punctual(left + [Departure(e, fate, at)])
    ensures [Departure(e, fate, at)] == Departures([e], fate, at)
  {
  }

  function WithoutIndex(s: State, k: nat, now: int): State
    requires k < |s.queue|
  {
    s.(queue := s.queue[..k] + s.queue[k + 1..], left := s.left + [Departure(s.queue[k], Dequeued, now)])
  }

  lemma WithoutIndexIsSound(s: State, k: nat, now: int)
    requires Sound(s) && k < |s.queue| && s.queue[k].expire >= now
    ensures Sound(WithoutIndex(s, k, now))
  {
    var e, q := s.queue[k], s.queue[..k] + s.queue[k + 1..];
    hide NoTwins, Accounted, Punctual, Departures;
    RemovedNoTwins(s.queue, k);
    RemovedCounts(s.queue, k);
    OneDeparture(s.left, e, Dequeued, now);
    Moved(s, q, [e], Dequeued, now);
  }

  lemma TakenIsSound(s: State, dst: Address, now: int)
    requires Sound(s) && Alive(s, now)
    ensures Sound(Taken(s, dst, now))
  {
    hide Sound, FirstTo;
    var k := FirstTo(s.queue, dst);
    if k < |s.queue| {
      assert s.queue[k] in s.queue;
      WithoutIndexIsSound(s, k, now);
    }
  }

  lemma ClearedIsSound(s: State, dst: Address, now: int)
    requires Sound(s) && Alive(s, now)
    ensures Sound(Cleared(s, dst, now))
  {
    PickSplits(s.queue, To(dst), NotTo(dst));
    Moved(s, Pick(s.queue, NotTo(dst)), Pick(s.queue, To(dst)), WithDst, now);
    PickKeepsNoTwins(s.queue, NotTo(dst));
    forall e | e in Pick(s.queue, To(dst))
      ensures e in s.queue
    {
      PickMembers(s.queue, To(dst), e);
    }
    hide Pick;
    assert forall d :: d in Departures(Pick(s.queue, To(dst)), WithDst, now) ==> d.entry in Pick(s.queue, To(dst));
  }

  lemma EnqueueIsSound(s: State, now: int, uid: nat, dst: Address)
    requires Sound(s) && Defined(s, Event(now, Op.Enqueue(uid, dst)))
    ensures Sound(Step(s, Event(now, Op.Enqueue(uid, dst))))
  {
    hide Sound, Alive, Pushed, Pick, HasTwin, Departures;
    PurgedIsSound(s, now);
    var p := Purged(s, now);
    if !HasTwin(p.queue, uid, dst) {
      PushedIsSound(p, Entry(uid, dst, s.timeout + now), now);
    }
  }

  lemma StepIsSound(s: State, e: Event)
    requires Sound(s) && Defined(s, e)
    ensures Sound(Step(s, e))
  {
    hide Sound, Alive, Pushed, Taken, Cleared, Purged, Defined;
    PurgedIsSound(s, e.now);
    match e.op
    case Enqueue(uid, dst) =>
      hide Step;
      EnqueueIsSound(s, e.now, uid, dst);
    case Dequeue(dst) => TakenIsSound(Purged(s, e.now), dst, e.now);
    case DropPacketWithDst(dst) => ClearedIsSound(Purged(s, e.now), dst, e.now);
    case SetMaxQueueLen(len) => SettingsDoNotMatter(s, len, s.timeout);
    case SetQueueTimeout(timeout) => SettingsDoNotMatter(s, s.maxLen, timeout);
    case _ =>
  }

  lemma SettingsDoNotMatter(s: State, maxLen: nat, timeout: int)
    requires Sound(s)
    ensures Sound(s.(maxLen := maxLen)) && Sound(s.(timeout := timeout))
  {
  }

  /** In every run, whatever the settings and times: each accepted packet waits, was handed out or was dropped with its
      error callback, exactly once; no packet waits twice for one destination; and expiry is decided by the clock
      alone. */
  lemma {:induction false} EveryPacketIsAccountedFor(states: seq<State>, events: seq<Event>, k: nat)
    requires IsRun(states, events) && k <= |events|
    ensures Accounted(states[k]) && NoTwins(states[k].queue) && Punctual(states[k].left)
  {
    hide Step, Defined;
    if k > 0 {
      var before := k - 1;
      EveryPacketIsAccountedFor(states, events, before);
      assert states[k] == Step(states[before], events[before]);
      StepIsSound(states[before], events[before]);
    }
  }

  // ----- runs with fixed settings

  ghost predicate Sorted(s: seq<Entry>) {
    forall i, j :: 0 <= i < j < |s| ==> s[i].expire <= s[j].expire
  }

  /** The packets for each destination left in the order in which they were accepted, and the rest wait in that
      order. */
  ghost predicate InOrder(s: State) {
    forall dst :: Pick(Entries(s.left), To(dst)) + Pick(s.queue, To(dst)) == Pick(s.accepted, To(dst))
  }

  ghost predicate Timely(s: State, now: int) {
    forall e :: e in s.queue ==> e.expire <= now + s.timeout
  }

  ghost predicate Steady(s: State, now: int) {
    |s.queue| <= s.maxLen && Sorted(s.queue) && Timely(s, now) && InOrder(s)
  }

  /** In a queue sorted by expiry the outdated entries are a prefix. */
  lemma {:induction false} PurgeRemovesPrefix(s: seq<Entry>, now: int) returns (k: nat)
    requires Sorted(s)
    ensures k <= |s| && Pick(s, ExpiredBy(now)) == s[..k] && Pick(s, AliveAt(now)) == s[k..]
  {
    k := 0;
    if s != [] {
      if Matches(s[0], ExpiredBy(now)) {
        k := PurgeRemovesPrefix(s[1..], now);
        assert s[1..][..k] == s[1..k + 1] && s[1..][k..] == s[k + 1..];
        assert [s[0]] + s[1..k + 1] == s[..k + 1];
        k := k + 1;
      } else {
        AllAlive(s, now);
        assert s[..0] == [] && s[0..] == s;
      }
    }
  }

  lemma {:induction false} AllAlive(s: seq<Entry>, now: int)
    requires forall e :: e in s ==> e.expire >= now
    ensures Pick(s, ExpiredBy(now)) == [] && Pick(s, AliveAt(now)) == s
  {
    if s != [] {
      forall e | e in s[1..]
        ensures e in s
      {
      }
      AllAlive(s[1..], now);
      assert s[0] in s;
      assert [s[0]] + s[1..] == s;
    }
  }

  lemma OrderMoved(s: State, q: seq<Entry>, gone: seq<Entry>, fate: Fate, at: int)
    requires InOrder(s) && forall dst :: Pick(gone, To(dst)) + Pick(q, To(dst)) == Pick(s.queue, To(dst))
    ensures InOrder(s.(queue := q, left := s.left + Departures(gone, fate, at)))
  {
    assert Entries(s.left + Departures(gone, fate, at)) == Entries(s.left) + gone;
    hide Departures, Entries;
    forall dst
      ensures Pick(Entries(s.left) + gone, To(dst)) + Pick(q, To(dst)) == Pick(s.accepted, To(dst))
    {
      PickConcat(Entries(s.left), gone, To(dst));
    }
  }

  lemma PurgedIsSteady(s: State, now: int)
    requires Steady(s, now)
    ensures Steady(Purged(s, now), now)
  {
    var k := PurgeRemovesPrefix(s.queue, now);
    forall dst
      ensures Pick(s.queue[..k], To(dst)) + Pick(s.queue[k..], To(dst)) == Pick(s.queue, To(dst))
    {
      PickConcat(s.queue[..k], s.queue[k..], To(dst));
      assert s.queue[..k] + s.queue[k..] == s.queue;
    }
    OrderMoved(s, s.queue[k..], s.queue[..k], Outdated, now);
  }

  lemma PushedIsSteady(s: State, e: Entry, now: int)
    requires Steady(s, now) && s.maxLen >= 1 && e.expire == s.timeout + now
    ensures Steady(Pushed(s, e, now), now)
  {
    hide InOrder, Pick;
    var room := s;
    if |s.queue| == s.maxLen {
      FrontIsSteady(s, now);
      room := s.(queue := s.queue[1..], left := s.left + [Departure(s.queue[0], MostAged, now)]);
    }
    AcceptedInOrder(room, e);
  }

  lemma FrontIsSteady(s: State, now: int)
    requires InOrder(s) && s.queue != []
    ensures InOrder(s.(queue := s.queue[1..], left := s.left + [Departure(s.queue[0], MostAged, now)]))
  {
    assert [Departure(s.queue[0], MostAged, now)] == Departures([s.queue[0]], MostAged, now);
    forall dst
      ensures Pick([s.queue[0]], To(dst)) + Pick(s.queue[1..], To(dst)) == Pick(s.queue, To(dst))
    {
      PickConcat([s.queue[0]], s.queue[1..], To(dst));
      assert [s.queue[0]] + s.queue[1..] == s.queue;
    }
    OrderMoved(s, s.queue[1..], [s.queue[0]], MostAged, now);
  }

  lemma AcceptedInOrder(s: State, e: Entry)
    requires InOrder(s)
    ensures InOrder(s.(queue := s.queue + [e], accepted := s.accepted + [e]))
  {
    hide Entries;
    forall dst
      ensures Pick(Entries(s.left), To(dst)) + Pick(s.queue + [e], To(dst)) == Pick(s.accepted + [e], To(dst))
    {
      PickConcat(s.queue, [e], To(dst));
      PickConcat(s.accepted, [e], To(dst));
    }
  }

  lemma {:induction false} NoneTo(s: seq<Entry>, dst: Address)
    requires forall e :: e in s ==> e.dst != dst
    ensures Pick(s, To(dst)) == []
  {
    if s != [] {
      assert s[0] in s && forall e :: e in s[1..] ==> e in s;
      NoneTo(s[1..], dst);
    }
  }

  lemma WithoutIndexInOrder(s: State, k: nat, now: int)
    requires InOrder(s) && k < |s.queue| && forall i :: 0 <= i < k ==> s.queue[i].dst != s.queue[k].dst
    ensures InOrder(WithoutIndex(s, k, now))
  {
    var front, e, back := s.queue[..k], s.queue[k], s.queue[k + 1..];
    assert [Departure(e, Dequeued, now)] == Departures([e], Dequeued, now);
    NoneTo(front, e.dst);
    hide InOrder, Departures;
    assert s.queue == front + ([e] + back);
    forall d
      ensures Pick([e], To(d)) + Pick(front + back, To(d)) == Pick(s.queue, To(d))
    {
      PickConcat(front, [e] + back, To(d));
      PickConcat([e], back, To(d));
      PickConcat(front, back, To(d));
    }
    OrderMoved(s, front + back, [e], Dequeued, now);
  }

  lemma TakenInOrder(s: State, dst: Address, now: int)
    requires InOrder(s)
    ensures InOrder(Taken(s, dst, now))
  {
    hide InOrder, FirstTo;
    var k := FirstTo(s.queue, dst);
    if k < |s.queue| {
      WithoutIndexInOrder(s, k, now);
    }
  }

  lemma ClearedInOrder(s: State, dst: Address, now: int)
    requires InOrder(s)
    ensures InOrder(Cleared(s, dst, now))
  {
    hide InOrder;
    forall d
      ensures Pick(Pick(s.queue, To(dst)), To(d)) + Pick(Pick(s.queue, NotTo(dst)), To(d)) == Pick(s.queue, To(d))
    {
      if d == dst {
        PickNarrower(s.queue, To(dst), To(d));
        PickContrary(s.queue, NotTo(dst), To(d));
      } else {
        PickContrary(s.queue, To(dst), To(d));
        PickNarrower(s.queue, NotTo(dst), To(d));
      }
    }
    OrderMoved(s, Pick(s.queue, NotTo(dst)), Pick(s.queue, To(dst)), WithDst, now);
  }

  lemma {:induction false} PickKeepsSorted(s: seq<Entry>, q: Query)
    requires Sorted(s)
    ensures Sorted(Pick(s, q)) && |Pick(s, q)| <= |s| && forall e :: e in Pick(s, q) ==> e in s
  {
    if s != [] {
      PickKeepsSorted(s[1..], q);
      assert forall e :: e in s[1..] ==> s[0].expire <= e.expire;
    }
  }

  lemma TakenIsSteady(s: State, dst: Address, now: int)
    requires Steady(s, now)
    ensures Steady(Taken(s, dst, now), now)
  {
    TakenInOrder(s, dst, now);
    hide InOrder, Pick;
  }

  lemma ClearedIsSteady(s: State, dst: Address, now: int)
    requires Steady(s, now)
    ensures Steady(Cleared(s, dst, now), now)
  {
    ClearedInOrder(s, dst, now);
    PickKeepsSorted(s.queue, NotTo(dst));
    hide InOrder, Pick;
  }

  ghost predicate SetsNothing(op: Op) {
    !op.SetMaxQueueLen? && !op.SetQueueTimeout?
  }

  lemma StepIsSteady(s: State, e: Event)
    requires Steady(s, e.now) && s.maxLen >= 1 && SetsNothing(e.op)
    ensures Defined(s, e)
    ensures Steady(Step(s, e), e.now) && Step(s, e).maxLen == s.maxLen && Step(s, e).timeout == s.timeout
  {
    PurgedIsSteady(s, e.now);
    var p := Purged(s, e.now);
    hide Steady;
    match e.op
    case Enqueue(uid, dst) => PushedIsSteady(p, Entry(uid, dst, s.timeout + e.now), e.now);
    case Dequeue(dst) => TakenIsSteady(p, dst, e.now);
    case DropPacketWithDst(dst) => ClearedIsSteady(p, dst, e.now);
    case _ =>
  }

  lemma TimeMayPass(s: State, now: int, later: int)
    requires Steady(s, now) && now <= later
    ensures Steady(s, later)
  {
  }

  /** With fixed settings, a positive limit and a clock that never runs back, the queue never exceeds its limit, stays
      sorted by expiry, and serves each destination first in, first out. */
  lemma {:induction false} FirstInFirstOut(states: seq<State>, events: seq<Event>, k: nat)
    requires IsRun(states, events) && k <= |events| && states[0].maxLen >= 1
    requires forall e :: e in events ==> SetsNothing(e.op)
    requires forall i, j :: 0 <= i < j < |events| ==> events[i].now <= events[j].now
    ensures |states[k].queue| <= states[0].maxLen && Sorted(states[k].queue) && InOrder(states[k])
    ensures states[k].maxLen == states[0].maxLen && states[k].timeout == states[0].timeout
    ensures k > 0 ==> Steady(states[k], events[k - 1].now)
  {
    hide Step, Defined;
    if k > 0 {
      var before := k - 1;
      FirstInFirstOut(states, events, before);
      assert events[before] in events;
      if before > 0 {
        TimeMayPass(states[before], events[before - 1].now, events[before].now);
      }
      StepIsSteady(states[before], events[before]);
      assert states[k] == Step(states[before], events[before]);
    }
  }

  // ----- what the settings can break

  ghost predicate WithinLimit(s: State) {
    |s.queue| <= s.maxLen
  }

  lemma {:induction false} PickShrinks(s: seq<Entry>, q: Query)
    ensures |Pick(s, q)| <= |s|
  {
    if s != [] {
      PickShrinks(s[1..], q);
    }
  }

  /** The only operation that can take the queue out of its limit is the one that lowers the limit. */
  lemma StepKeepsLimit(s: State, e: Event)
    requires WithinLimit(s) && Defined(s, e)
    ensures WithinLimit(Step(s, e)) <==> (e.op.SetMaxQueueLen? ==> |s.queue| <= e.op.len)
  {
    PickShrinks(s.queue, AliveAt(e.now));
    hide Pick;
    if e.op.DropPacketWithDst? {
      PickShrinks(Purged(s, e.now).queue, NotTo(e.op.dst));
    }
  }

  /** Every call that sets the limit comes when the queue is within the new limit. */
  ghost predicate LimitsFit(states: seq<State>, events: seq<Event>, k: nat)
    requires k <= |events| < |states|
  {
    forall i :: 0 <= i < k && events[i].op.SetMaxQueueLen? ==> |states[i].queue| <= events[i].op.len
  }

  lemma RunStep(states: seq<State>, events: seq<Event>, i: nat)
    requires IsRun(states, events) && i < |events|
    ensures Defined(states[i], events[i]) && states[i + 1] == Step(states[i], events[i])
  {
    hide Step, Defined;
    var next := i + 1;
    var s, s' := states[i], states[next];
    assert Defined(s, events[i]) && s' == Step(s, events[i]);
  }

  lemma {:induction false} LimitsFitUpTo(states: seq<State>, events: seq<Event>, k: nat)
    requires IsRun(states, events) && k <= |events| && LimitsFit(states, events, k)
    ensures WithinLimit(states[k])
  {
    if k > 0 {
      var before := k - 1;
      LimitsFitUpTo(states, events, before);
      hide Step, Defined;
      RunStep(states, events, before);
      StepKeepsLimit(states[before], events[before]);
    }
  }

  /** The length is within the limit in every state of a run if and only if no call lowers the limit below the
      length. */
  lemma WithinLimitThroughout(states: seq<State>, events: seq<Event>)
    requires IsRun(states, events)
    ensures (forall k :: 0 <= k < |states| ==> WithinLimit(states[k])) <==> LimitsFit(states, events, |events|)
  {
    assert |states| == |events| + 1;
    hide Step, Defined, IsRun;
    if LimitsFit(states, events, |events|) {
      forall k | 0 <= k < |states|
        ensures WithinLimit(states[k])
      {
        LimitsFitUpTo(states, events, k);
      }
    } else {
      var i :| 0 <= i < |events| && events[i].op.SetMaxQueueLen? && !(|states[i].queue| <= events[i].op.len);
      RunStep(states, events, i);
      if WithinLimit(states[i]) {
        StepKeepsLimit(states[i], events[i]);
      }
    }
  }

  /** Beyond its limit the queue still takes packets: an accepted packet leaves it within the limit exactly when the
      unexpired entries already were. */
  lemma LimitHolds(s: State, now: int, uid: nat, dst: Address)
    requires s.maxLen >= 1 && !HasTwin(Purged(s, now).queue, uid, dst)
    ensures |Step(s, Event(now, Op.Enqueue(uid, dst))).queue| <= s.maxLen <==> |Pick(s.queue, AliveAt(now))| <= s.maxLen
  {
  }

  /** Below or above the limit a new packet is just appended. */
  lemma Appended(s: State, now: int, uid: nat, dst: Address)
    requires |s.queue| != s.maxLen && (forall e :: e in s.queue ==> e.expire >= now) && !HasTwin(s.queue, uid, dst)
    ensures var e := Entry(uid, dst, s.timeout + now);
      Step(s, Event(now, Op.Enqueue(uid, dst))) == s.(queue := s.queue + [e], accepted := s.accepted + [e])
    ensures Defined(s, Event(now, Op.Enqueue(uid, dst)))
  {
    AllAlive(s.queue, now);
    assert s.left + Departures([], Outdated, now) == s.left;
  }

  /** A run in which the limit is lowered below the length and the queue grows on. */
  lemma LoweredLimitIsIgnored() returns (states: seq<State>, events: seq<Event>)
    ensures IsRun(states, events) && |events| == 4 && (forall s :: s in states ==> s.maxLen >= 1)
    ensures states[4].maxLen == 1 && |states[4].queue| == 3
  {
    hide Pick, Departures, Pushed, FirstTo;
    var a := Address(1);
    var s0 := State([], 2, 10, [], []);
    var put1, put2, lower, put3 := Event(0, Op.Enqueue(1, a)), Event(0, Op.Enqueue(2, a)), Event(0, SetMaxQueueLen(1)),
      Event(0, Op.Enqueue(3, a));
    Appended(s0, 0, 1, a);
    var s1 := Step(s0, put1);
    Appended(s1, 0, 2, a);
    var s2 := Step(s1, put2);
    var s3 := Step(s2, lower);
    Appended(s3, 0, 3, a);
    var s4 := Step(s3, put3);
    states, events := [s0, s1, s2, s3, s4], [put1, put2, lower, put3];
  }

  /** `Find` does not purge: a packet it reports is not handed out exactly when all packets for `dst` have expired. */
  lemma FoundButNotServed(s: State, dst: Address, now: int)
    requires exists e :: e in s.queue && e.dst == dst
    ensures Step(s, Event(now, Op.Dequeue(dst))) == Purged(s, now) <==>
      forall e :: e in s.queue && e.dst == dst ==> e.expire < now
  {
    var alive := Pick(s.queue, AliveAt(now));
    var k := FirstTo(alive, dst);
    if k < |alive| {
      PickMembers(s.queue, AliveAt(now), alive[k]);
      assert |Purged(s, now).left| < |Taken(Purged(s, now), dst, now).left|;
    } else {
      forall e | e in s.queue && e.dst == dst
        ensures e.expire < now
      {
        PickMembers(s.queue, AliveAt(now), e);
      }
    }
  }
}
