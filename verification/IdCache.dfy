/** The cache of recently seen ids (aodv-id-cache.cc): it says whether a message was seen before. */
module IdCache {
  import opened Ipv4
  import opened Wrappers

  datatype Key = Key(context: Address, id: Word)

  datatype UniqueId = UniqueId(key: Key, expire: int)

  /** One answer of `IsDuplicate`, with the lifetime in force when it was given. */
  datatype Answer = Answer(key: Key, at: int, lifetime: int, duplicate: bool)

  predicate IsExpired(u: UniqueId, now: int) {
    u.expire < now
  }

  /** The ids that have not expired, in their order. */
  function Kept(s: seq<UniqueId>, now: int): (r: seq<UniqueId>)
    ensures forall u :: u in r <==> u in s && !IsExpired(u, now)
    ensures |r| <= |s|
  {
    if s == [] then []
    else (if IsExpired(s[0], now) then [] else [s[0]]) + Kept(s[1..], now)
  }

  ghost predicate UniqueKeys(s: seq<UniqueId>) {
    forall i, j :: 0 <= i < j < |s| ==> s[i].key != s[j].key
  }

  // ----- what the answers should be

  /** The last time `key` was answered to be new. */
  function LastNew(answers: seq<Answer>, key: Key): Option<Answer> {
    if answers == [] then None
    else
      var a := answers[|answers| - 1];
      if a.key == key && !a.duplicate then Some(a) else LastNew(answers[..|answers| - 1], key)
  }

  /** A key is a duplicate as long as the lifetime that was in force when it was last new. */
  predicate SeenRecently(answers: seq<Answer>, key: Key, now: int) {
    match LastNew(answers, key)
    case None => false
    case Some(a) => now <= a.at + a.lifetime
  }

  /** Every answer was the one the earlier answers call for. */
  ghost predicate Truthful(answers: seq<Answer>) {
    forall k :: 0 <= k < |answers| ==> answers[k].duplicate == SeenRecently(answers[..k], answers[k].key, answers[k].at)
  }

  /** Answers are given in the order of their times. */
  ghost predicate Ordered(answers: seq<Answer>) {
    forall i, j :: 0 <= i < j < |answers| ==> answers[i].at <= answers[j].at
  }

  /** The cache holds of each key its last new sighting, unless that has expired by `now`. */
  ghost predicate Remembers(cache: seq<UniqueId>, answers: seq<Answer>, now: int) {
    && (forall u :: u in cache ==> LastNew(answers, u.key).Some? && u.expire == Until(answers, u.key))
    && (forall key :: LastNew(answers, key).Some? && Until(answers, key) >= now ==>
         UniqueId(key, Until(answers, key)) in cache)
  }

  /** When the last new sighting of `key` expires. */
  ghost function Until(answers: seq<Answer>, key: Key): int {
    match LastNew(answers, key)
    case None => 0
    case Some(a) => a.at + a.lifetime
  }

  class IdCache {
    var idCache: seq<UniqueId>
    var lifetime: int
    ghost var answers: seq<Answer>
    /** The clock at the last call. */
    ghost var last: int

    ghost predicate Valid()
      reads this
    {
      && UniqueKeys(idCache) && Remembers(idCache, answers, last)
      && Truthful(answers) && Ordered(answers) && (forall a :: a in answers ==> a.at <= last)
    }

    constructor (lifetime: int, now: int)
      ensures Valid() && answers == [] && this.lifetime == lifetime && idCache == [] && last == now
    {
      this.lifetime := lifetime;
      idCache, answers, last := [], [], now;
    }

    /** Removes all expired entries. */
    method Purge(now: int)
      requires Valid() && last <= now
      modifies `idCache, `last
      ensures Valid() && last == now && idCache == Kept(old(idCache), now)
    {
      KeptIsUnique(idCache, now);
      idCache := Kept(idCache, now);
      last := now;
    }

    /** Whether `(addr, id)` was last new within the lifetime in force then; otherwise it counts as new from now on. */
    method IsDuplicate(addr: Address, id: Word, now: int) returns (duplicate: bool)
      requires Valid() && last <= now
      modifies `idCache, `last, `answers
      ensures Valid() && last == now
      ensures duplicate <==> SeenRecently(old(answers), Key(addr, id), now)
      ensures answers == old(answers) + [Answer(Key(addr, id), now, lifetime, duplicate)]
      ensures idCache == Kept(old(idCache), now) + if duplicate then [] else [UniqueId(Key(addr, id), lifetime + now)]
    {
      hide Kept, Truthful, Remembers, SeenRecently, Ordered, UniqueKeys;
      var key := Key(addr, id);
      Purge(now);
      OrderedNext(answers, key, now, lifetime);
      for i := 0 to |idCache|
        invariant forall j :: 0 <= j < i ==> idCache[j].key != key
      {
        if idCache[i].key == key {
          AnsweredDuplicate(idCache, answers, i, now, lifetime);
          answers := answers + [Answer(key, now, lifetime, true)];
          return true;
        }
      }
      AnsweredNew(idCache, answers, key, now, lifetime);
      UniqueNext(idCache, key, lifetime + now);
      answers := answers + [Answer(key, now, lifetime, false)];
      idCache := idCache + [UniqueId(key, lifetime + now)];
      return false;
    }

    method GetSize(now: int) returns (size: nat)
      requires Valid() && last <= now
      modifies `idCache, `last
      ensures Valid() && last == now && idCache == Kept(old(idCache), now) && size == |idCache|
    {
      Purge(now);
      size := |idCache|;
    }

    /** The lifetime of entries added from now on. */
    method SetLifetime(lifetime: int)
      requires Valid()
      modifies `lifetime
      ensures Valid() && this.lifetime == lifetime
    {
      this.lifetime := lifetime;
    }
  }

  // ----- proofs

  lemma {:induction false} KeptIsUnique(s: seq<UniqueId>, now: int)
    requires UniqueKeys(s)
    ensures UniqueKeys(Kept(s, now))
  {
    if s != [] {
      KeptIsUnique(s[1..], now);
      forall u | u in Kept(s[1..], now)
        ensures u.key != s[0].key
      {
        var i :| 1 <= i < |s| && s[i] == u;
      }
    }
  }

  lemma UniqueNext(s: seq<UniqueId>, key: Key, expire: int)
    requires UniqueKeys(s) && forall j :: 0 <= j < |s| ==> s[j].key != key
    ensures UniqueKeys(s + [UniqueId(key, expire)])
  {
  }

  lemma OrderedNext(answers: seq<Answer>, key: Key, now: int, lifetime: int)
    requires Ordered(answers) && forall a :: a in answers ==> a.at <= now
    ensures forall duplicate :: Ordered(answers + [Answer(key, now, lifetime, duplicate)])
  {
  }

  lemma LastNewOfNext(answers: seq<Answer>, a: Answer, key: Key)
    ensures LastNew(answers + [a], key) == if a.key == key && !a.duplicate then Some(a) else LastNew(answers, key)
  {
    assert (answers + [a])[..|answers|] == answers;
  }

  lemma TruthfulNext(answers: seq<Answer>, a: Answer)
    requires Truthful(answers) && a.duplicate == SeenRecently(answers, a.key, a.at)
    ensures Truthful(answers + [a])
  {
    var next := answers + [a];
    forall k | 0 <= k < |next|
      ensures next[k].duplicate == SeenRecently(next[..k], next[k].key, next[k].at)
    {
      if k < |answers| {
        assert next[..k] == answers[..k];
      } else {
        assert next[..k] == answers;
      }
    }
  }

  lemma AnsweredDuplicate(cache: seq<UniqueId>, answers: seq<Answer>, i: nat, now: int, lifetime: int)
    requires i < |cache| && !IsExpired(cache[i], now) && Remembers(cache, answers, now) && Truthful(answers)
    ensures SeenRecently(answers, cache[i].key, now)
    ensures var next := answers + [Answer(cache[i].key, now, lifetime, true)];
      Truthful(next) && Remembers(cache, next, now)
  {
    var a := Answer(cache[i].key, now, lifetime, true);
    assert cache[i] in cache;
    TruthfulNext(answers, a);
    hide LastNew;
    forall key
      ensures LastNew(answers + [a], key) == LastNew(answers, key)
    {
      LastNewOfNext(answers, a, key);
    }
  }

  lemma NewIsRemembered(cache: seq<UniqueId>, answers: seq<Answer>, key: Key, now: int, lifetime: int)
    requires (forall u :: u in cache ==> u.key != key) && Remembers(cache, answers, now)
    ensures Remembers(cache + [UniqueId(key, lifetime + now)], answers + [Answer(key, now, lifetime, false)], now)
  {
    var a := Answer(key, now, lifetime, false);
    hide LastNew;
    forall k
      ensures LastNew(answers + [a], k) == if k == key then Some(a) else LastNew(answers, k)
    {
      LastNewOfNext(answers, a, k);
    }
  }

  lemma AnsweredNew(cache: seq<UniqueId>, answers: seq<Answer>, key: Key, now: int, lifetime: int)
    requires (forall u :: u in cache ==> u.key != key) && Remembers(cache, answers, now) && Truthful(answers)
    ensures !SeenRecently(answers, key, now)
    ensures var next := answers + [Answer(key, now, lifetime, false)];
      Truthful(next) && Remembers(cache + [UniqueId(key, lifetime + now)], next, now)
  {
    var a := Answer(key, now, lifetime, false);
    assert LastNew(answers, key).Some? && Until(answers, key) >= now ==> UniqueId(key, Until(answers, key)) in cache;
    TruthfulNext(answers, a);
    hide LastNew, Remembers, Truthful;
    NewIsRemembered(cache, answers, key, now, lifetime);
  }

  // ----- what truthful answers amount to

  lemma {:induction false} LastNewIs(answers: seq<Answer>, i: nat)
    requires i < |answers| && !answers[i].duplicate
    requires forall k :: i < k < |answers| && answers[k].key == answers[i].key ==> answers[k].duplicate
    ensures LastNew(answers, answers[i].key) == Some(answers[i])
  {
    var n := |answers| - 1;
    if i < n {
      LastNewIs(answers[..n], i);
    }
  }

  /** After a key was new at index `i`, each later answer for it, up to the next new one, is decided by the lifetime in
      force at `i` alone: the duplicates in between do not prolong it. */
  lemma DuplicatesDoNotRefresh(answers: seq<Answer>, i: nat, j: nat)
    requires Truthful(answers) && i < j < |answers| && answers[j].key == answers[i].key && !answers[i].duplicate
    requires forall k :: i < k < j && answers[k].key == answers[i].key ==> answers[k].duplicate
    ensures answers[j].duplicate <==> answers[j].at <= answers[i].at + answers[i].lifetime
  {
    LastNewIs(answers[..j], i);
  }

  /** A key that was never asked about before is new. */
  lemma {:induction false} FirstIsNew(answers: seq<Answer>, j: nat)
    requires Truthful(answers) && j < |answers| && forall k :: 0 <= k < j ==> answers[k].key != answers[j].key
    ensures !answers[j].duplicate
  {
    NeverNew(answers[..j], answers[j].key);
  }

  lemma {:induction false} NeverNew(answers: seq<Answer>, key: Key)
    requires forall k :: 0 <= k < |answers| ==> answers[k].key != key
    ensures LastNew(answers, key) == None
  {
    if answers != [] {
      NeverNew(answers[..|answers| - 1], key);
    }
  }
}
