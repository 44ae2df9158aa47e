/** What each operation of the request queue does to the waiting entries and to the departures, entry by entry. */
module QueueEffects {
  import opened Ipv4
  import opened Lists
  import opened RequestQueue

  /** `t` is made of the wanted entries of `s`, every one of them, in their order. */
  ghost predicate Chosen(s: seq<Entry>, t: seq<Entry>, wanted: Entry -> bool) {
    exists idx: seq<nat> :: IsChoice(s, t, wanted, idx)
  }

  /** `idx` holds the positions of the wanted entries in rising order. */
  ghost predicate IsChoice(s: seq<Entry>, t: seq<Entry>, wanted: Entry -> bool, idx: seq<nat>) {
    && |idx| == |t| && (forall a, b :: 0 <= a < b < |idx| ==> idx[a] < idx[b])
    && (forall k :: 0 <= k < |t| ==> idx[k] < |s| && t[k] == s[idx[k]])
    && forall i :: 0 <= i < |s| ==> (i in idx <==> wanted(s[i]))
  }

  ghost predicate Rising(idx: seq<nat>) {
    forall a, b :: 0 <= a < b < |idx| ==> idx[a] < idx[b]
  }

  ghost predicate SameMembers(idx: seq<nat>, jdx: seq<nat>) {
    forall i :: i in idx <==> i in jdx
  }

  lemma LastIsGreatest(idx: seq<nat>, jdx: seq<nat>)
    requires idx != [] && jdx != [] && Rising(idx) && Rising(jdx) && SameMembers(idx, jdx)
    ensures idx[|idx| - 1] == jdx[|jdx| - 1]
  {
    var x, y := idx[|idx| - 1], jdx[|jdx| - 1];
    assert x in idx && y in jdx;
    var a :| 0 <= a < |jdx| && jdx[a] == x;
    var b :| 0 <= b < |idx| && idx[b] == y;
  }

  lemma EmptyTogether(idx: seq<nat>, jdx: seq<nat>)
    requires SameMembers(idx, jdx)
    ensures idx == [] <==> jdx == []
  {
    HeadIsMember(idx);
    HeadIsMember(jdx);
  }

  lemma {:induction false} SamePositions(idx: seq<nat>, jdx: seq<nat>)
    requires Rising(idx) && Rising(jdx) && SameMembers(idx, jdx)
    ensures idx == jdx
  {
    EmptyTogether(idx, jdx);
    if idx != [] {
      var m, n := |idx| - 1, |jdx| - 1;
      LastIsGreatest(idx, jdx);
      Fronts(idx, jdx);
      hide Rising, SameMembers;
      SamePositions(idx[..m], jdx[..n]);
      assert idx == idx[..m] + [idx[m]] && jdx == jdx[..n] + [jdx[n]];
    }
  }

  lemma Fronts(idx: seq<nat>, jdx: seq<nat>)
    requires idx != [] && jdx != [] && Rising(idx) && Rising(jdx) && SameMembers(idx, jdx)
    requires idx[|idx| - 1] == jdx[|jdx| - 1]
    ensures var front, front' := idx[..|idx| - 1], jdx[..|jdx| - 1];
      Rising(front) && Rising(front') && SameMembers(front, front')
  {
    var front, front' := idx[..|idx| - 1], jdx[..|jdx| - 1];
    forall i
      ensures i in front <==> i in front'
    {
      FrontMembers(idx, i);
      FrontMembers(jdx, i);
    }
  }

  lemma FrontMembers(idx: seq<nat>, i: nat)
    requires Rising(idx) && idx != []
    ensures i in idx[..|idx| - 1] <==> i in idx && i != idx[|idx| - 1]
  {
    var m := |idx| - 1;
    assert idx == idx[..m] + [idx[m]];
  }

  /** The wanted entries in their order are one sequence only. */
  lemma ChosenIsOne(s: seq<Entry>, t: seq<Entry>, u: seq<Entry>, wanted: Entry -> bool)
    requires Chosen(s, t, wanted) && Chosen(s, u, wanted)
    ensures t == u
  {
    var idx :| IsChoice(s, t, wanted, idx);
    var jdx :| IsChoice(s, u, wanted, jdx);
    forall i: nat
      ensures i in idx <==> i in jdx
    {
      if 0 <= i < |s| {
        assert i in idx <==> wanted(s[i]);
      }
    }
    SamePositions(idx, jdx);
  }

  /** The entries of `out` left after everything in `left`, in their order, at this time and for this reason. */
  ghost predicate Followed(left: seq<Departure>, left': seq<Departure>, out: seq<Entry>, fate: Fate, at: int) {
    && |left'| == |left| + |out| && left <= left'
    && forall k :: 0 <= k < |out| ==> left'[|left| + k] == Departure(out[k], fate, at)
  }

  /** Neither the settings nor the record of accepted packets change. */
  ghost predicate SameRest(s: State, s': State) {
    s'.maxLen == s.maxLen && s'.timeout == s.timeout && s'.accepted == s.accepted
  }

  lemma ChoiceNext(s: seq<Entry>, t: seq<Entry>, wanted: Entry -> bool, idx: seq<nat>, e: Entry)
    requires IsChoice(s, t, wanted, idx)
    ensures wanted(e) ==> IsChoice(s + [e], t + [e], wanted, idx + [|s|])
    ensures !wanted(e) ==> IsChoice(s + [e], t, wanted, idx)
  {
    assert forall k :: 0 <= k < |idx| ==> idx[k] < |s|;
    assert |s| !in idx;
    assert forall i :: i in idx + [|s|] <==> i in idx || i == |s|;
  }

  lemma {:induction false} PickIsChoice(s: seq<Entry>, q: Query, wanted: Entry -> bool) returns (idx: seq<nat>)
    requires forall e :: Matches(e, q) <==> wanted(e)
    ensures IsChoice(s, Pick(s, q), wanted, idx)
    decreases |s|
  {
    if s == [] {
      idx := [];
    } else {
      var n := |s| - 1;
      var before := PickIsChoice(s[..n], q, wanted);
      PickLast(s, n, q);
      assert s == s[..n] + [s[n]] && s[..n + 1] == s;
      hide Pick, Matches, IsChoice;
      ChoiceNext(s[..n], Pick(s[..n], q), wanted, before, s[n]);
      assert Pick(s[..n], q) + [] == Pick(s[..n], q);
      idx := if wanted(s[n]) then before + [n] else before;
    }
  }

  lemma PickIsChosen(s: seq<Entry>, q: Query, wanted: Entry -> bool)
    requires forall e :: Matches(e, q) <==> wanted(e)
    ensures Chosen(s, Pick(s, q), wanted)
  {
    hide Matches, IsChoice;
    var idx := PickIsChoice(s, q, wanted);
  }

  lemma DeparturesFollow(left: seq<Departure>, out: seq<Entry>, fate: Fate, at: int)
    ensures Followed(left, left + Departures(out, fate, at), out, fate, at)
  {
  }

  /** Every operation that purges first: the unexpired entries wait on, the others leave as outdated. */
  lemma PurgeEffect(s: State, now: int) returns (out: seq<Entry>)
    ensures var s' := Purged(s, now);
      && Chosen(s.queue, s'.queue, (e: Entry) => now <= e.expire)
      && Chosen(s.queue, out, (e: Entry) => e.expire < now)
      && Followed(s.left, s'.left, out, Outdated, now) && SameRest(s, s')
  {
    out := Pick(s.queue, ExpiredBy(now));
    PickIsChosen(s.queue, AliveAt(now), (e: Entry) => now <= e.expire);
    PickIsChosen(s.queue, ExpiredBy(now), (e: Entry) => e.expire < now);
    hide Chosen, Departures;
    DeparturesFollow(s.left, out, Outdated, now);
  }

  lemma GetSizeEffect(s: State, now: int) returns (out: seq<Entry>)
    ensures var s' := Step(s, Event(now, Op.GetSize));
      && Chosen(s.queue, s'.queue, (e: Entry) => now <= e.expire)
      && Chosen(s.queue, out, (e: Entry) => e.expire < now)
      && Followed(s.left, s'.left, out, Outdated, now) && SameRest(s, s')
  {
    hide Chosen, Purged, Followed, SameRest;
    out := PurgeEffect(s, now);
  }

  /** Choosing from what was chosen. */
  lemma PickTwiceIsChosen(s: seq<Entry>, now: int, q: Query, wanted: Entry -> bool)
    requires q.To? || q.NotTo?
    requires forall e :: wanted(e) <==> Matches(e, q) && now <= e.expire
    ensures Chosen(s, Pick(Pick(s, AliveAt(now)), q), wanted)
  {
    var idx := PickTwiceIsChoice(s, now, q, wanted);
  }

  lemma {:induction false} PickTwiceIsChoice(s: seq<Entry>, now: int, q: Query, wanted: Entry -> bool)
    returns (idx: seq<nat>)
    requires forall e :: wanted(e) <==> Matches(e, q) && now <= e.expire
    ensures IsChoice(s, Pick(Pick(s, AliveAt(now)), q), wanted, idx)
    decreases |s|
  {
    if s == [] {
      idx := [];
    } else {
      var n := |s| - 1;
      var before := PickTwiceIsChoice(s[..n], now, q, wanted);
      PickTwiceLast(s, now, q);
      assert s == s[..n] + [s[n]];
      assert wanted(s[n]) <==> Matches(s[n], q) && Matches(s[n], AliveAt(now));
      hide Pick, Matches, IsChoice;
      ChoiceNext(s[..n], Pick(Pick(s[..n], AliveAt(now)), q), wanted, before, s[n]);
      idx := if wanted(s[n]) then before + [n] else before;
    }
  }

  lemma PickTwiceLast(s: seq<Entry>, now: int, q: Query)
    requires s != []
    ensures var n := |s| - 1;
      var before := Pick(Pick(s[..n], AliveAt(now)), q);
      Pick(Pick(s, AliveAt(now)), q)
      == if Matches(s[n], AliveAt(now)) && Matches(s[n], q) then before + [s[n]] else before
  {
    var n := |s| - 1;
    var alive := Pick(s[..n], AliveAt(now));
    PickLast(s, n, AliveAt(now));
    assert s[..n + 1] == s;
    assert alive + [] == alive;
    if Matches(s[n], AliveAt(now)) {
      PickConcat(alive, [s[n]], q);
      PickHead([s[n]], q);
      assert [s[n]][1..] == [];
    }
  }

  /** Afterwards nothing waits for `dst`; each unexpired packet for it left with its error callback, in order, after the
      outdated ones; all other unexpired packets wait on in their order. */
  lemma DropPacketWithDstEffect(s: State, dst: Address, now: int)
    returns (out: seq<Entry>, dropped: seq<Entry>, between: seq<Departure>)
    ensures var s' := Step(s, Event(now, Op.DropPacketWithDst(dst)));
      && (forall e :: e in s'.queue ==> e.dst != dst)
      && Chosen(s.queue, s'.queue, (e: Entry) => now <= e.expire && e.dst != dst)
      && Chosen(s.queue, out, (e: Entry) => e.expire < now)
      && Chosen(s.queue, dropped, (e: Entry) => now <= e.expire && e.dst == dst)
      && Followed(s.left, between, out, Outdated, now) && Followed(between, s'.left, dropped, WithDst, now)
      && SameRest(s, s')
  {
    var p, s' := Purged(s, now), Step(s, Event(now, Op.DropPacketWithDst(dst)));
    out := PurgeEffect(s, now);
    dropped, between := Pick(p.queue, To(dst)), p.left;
    PickTwiceIsChosen(s.queue, now, NotTo(dst), (e: Entry) => now <= e.expire && e.dst != dst);
    PickTwiceIsChosen(s.queue, now, To(dst), (e: Entry) => now <= e.expire && e.dst == dst);
    forall e | e in s'.queue
      ensures e.dst != dst
    {
      PickMembers(p.queue, NotTo(dst), e);
    }
    hide Chosen, Departures, Pick;
    DeparturesFollow(between, dropped, WithDst, now);
  }

  /** The earliest unexpired packet for `dst` is handed out, if there is one; the other unexpired ones wait on. */
  lemma DequeueEffect(s: State, dst: Address, now: int)
    returns (out: seq<Entry>, alive: seq<Entry>, k: nat, between: seq<Departure>)
    ensures Chosen(s.queue, alive, (e: Entry) => now <= e.expire)
    ensures Chosen(s.queue, out, (e: Entry) => e.expire < now)
    ensures Followed(s.left, between, out, Outdated, now)
    ensures k <= |alive| && (forall i :: 0 <= i < k ==> alive[i].dst != dst) && (k < |alive| ==> alive[k].dst == dst)
    ensures var s' := Step(s, Event(now, Op.Dequeue(dst)));
      && SameRest(s, s')
      && (k == |alive| ==> s'.queue == alive && s'.left == between)
      && (k < |alive| ==> s'.queue == alive[..k] + alive[k + 1..])
      && (k < |alive| ==> s'.left == between + [Departure(alive[k], Dequeued, now)])
  {
    hide Chosen, Followed, Pick;
    out := PurgeEffect(s, now);
    var p := Purged(s, now);
    alive, k, between := p.queue, FirstTo(p.queue, dst), p.left;
  }

  /** A packet that already waits unexpired for the destination changes nothing more; another one is appended, and of a
      full queue the front leaves first. */
  lemma EnqueueEffect(s: State, uid: nat, dst: Address, now: int)
    returns (out: seq<Entry>, alive: seq<Entry>, between: seq<Departure>)
    requires Defined(s, Event(now, Op.Enqueue(uid, dst)))
    ensures Chosen(s.queue, alive, (e: Entry) => now <= e.expire)
    ensures Chosen(s.queue, out, (e: Entry) => e.expire < now)
    ensures Followed(s.left, between, out, Outdated, now)
    ensures var s', entry := Step(s, Event(now, Op.Enqueue(uid, dst))), Entry(uid, dst, now + s.timeout);
      && s'.maxLen == s.maxLen && s'.timeout == s.timeout
      && if exists e :: e in alive && e.uid == uid && e.dst == dst then
           s'.queue == alive && s'.left == between && s'.accepted == s.accepted
         else
           && s'.accepted == s.accepted + [entry]
           && (|alive| == s.maxLen ==> alive != [] && s'.queue == alive[1..] + [entry])
           && (|alive| == s.maxLen ==> s'.left == between + [Departure(alive[0], MostAged, now)])
           && (|alive| != s.maxLen ==> s'.queue == alive + [entry] && s'.left == between)
  {
    hide Chosen, Followed, Pick;
    out := PurgeEffect(s, now);
    var p := Purged(s, now);
    alive, between := p.queue, p.left;
  }
}
