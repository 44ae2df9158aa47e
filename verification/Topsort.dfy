/** `topsort`, `topsort_levels` and `topsort_levels_core` of topsort.py. */
module Topsort {
  import opened Lists
  import opened DependencyGraph

  /** `CycleError` carries the dictionaries as they stand when nothing without a parent is left. */
  datatype SortResult<T> =
    | Sorted(answer: seq<T>)
    | CycleError(answer: seq<T>, numParents: map<T, nat>, children: map<T, seq<T>>)

  /** The two dictionaries once the parents in `done` are accounted for; `elems` may hold elements without pairs. */
  ghost predicate Accounts<T(!new)>(pairs: seq<(T, T)>, elems: set<T>, done: set<T>, numParents: map<T, nat>,
                                    children: map<T, seq<T>>)
  {
    && Elements(pairs) <= elems && done <= elems
    && numParents.Keys == elems - done
    && (forall x :: x in numParents ==> numParents[x] == Pending(pairs, done, x))
    && ChildrenKept(pairs, elems - done, children)
  }

  /** The child list of every parent not yet accounted for is untouched. */
  ghost predicate ChildrenKept<T(!new)>(pairs: seq<(T, T)>, parents: set<T>, children: map<T, seq<T>>) {
    forall p :: p in parents ==> ChildrenOf(pairs, p) == if p in children then children[p] else []
  }

  /** In the middle of the children of `p`: `k` of its child occurrences are taken off. */
  ghost predicate Discounting<T(!new)>(pairs: seq<(T, T)>, elems: set<T>, done: set<T>, p: T, k: nat,
                                       numParents: map<T, nat>)
  {
    && Elements(pairs) <= elems && done <= elems && p in elems && p !in done && k <= |ChildrenOf(pairs, p)|
    && numParents.Keys == elems - done - {p}
    && forall x :: x in numParents ==> numParents[x] == Pending(pairs, done, x) - multiset(ChildrenOf(pairs, p)[..k])[x]
  }

  lemma ElementsOfPair<T(!new)>(pairs: seq<(T, T)>, u: T, v: T)
    requires (u, v) in pairs
    ensures u in Elements(pairs) && v in Elements(pairs)
  {
  }

  lemma {:induction false} OccurrencesWithin<T(!new)>(s: seq<T>, k: nat, x: T)
    requires k <= |s|
    ensures multiset(s[..k])[x] <= multiset(s)[x]
    ensures k < |s| && s[k] == x ==> multiset(s[..k])[x] < multiset(s)[x]
    ensures k < |s| ==> multiset(s[..k + 1])[x] == multiset(s[..k])[x] + if s[k] == x then 1 else 0
  {
    assert s == s[..k] + s[k..];
    if k < |s| {
      assert s[..k + 1] == s[..k] + [s[k]];
      assert s[k] in multiset(s[k..]);
    }
  }

  lemma DiscountNext<T(!new)>(pairs: seq<(T, T)>, elems: set<T>, done: set<T>, p: T, k: nat, numParents: map<T, nat>)
    requires Discounting(pairs, elems, done, p, k, numParents) && k < |ChildrenOf(pairs, p)|
    requires ChildrenOf(pairs, p)[k] in numParents && numParents[ChildrenOf(pairs, p)[k]] > 0
    ensures var child := ChildrenOf(pairs, p)[k];
      Discounting(pairs, elems, done, p, k + 1, numParents[child := numParents[child] - 1])
  {
    hide ChildrenOf, Pending, Elements;
    var c := ChildrenOf(pairs, p);
    var numParents' := numParents[c[k] := numParents[c[k]] - 1];
    assert numParents'.Keys == numParents.Keys;
    forall x | x in numParents'
      ensures numParents'[x] == Pending(pairs, done, x) - multiset(c[..k + 1])[x]
    {
      OccurrencesWithin(c, k, x);
    }
  }

  /** The key that the decrement looks up is present and positive: no KeyError, no negative count. */
  lemma DecrementIsSafe<T(!new)>(pairs: seq<(T, T)>, elems: set<T>, done: set<T>, p: T, k: nat, numParents: map<T, nat>)
    requires Discounting(pairs, elems, done, p, k, numParents) && k < |ChildrenOf(pairs, p)|
    requires forall x :: x in done ==> Pending(pairs, done, x) == 0
    requires Pending(pairs, done, p) == 0
    ensures var child := ChildrenOf(pairs, p)[k];
      && child in numParents && numParents[child] > 0 && Pending(pairs, done, child) > 0
      && Discounting(pairs, elems, done, p, k + 1, numParents[child := numParents[child] - 1])
  {
    var c := ChildrenOf(pairs, p);
    assert c[k] in c;
    assert (p, c[k]) in pairs;
    ElementsOfPair(pairs, p, c[k]);
    assert Pending(pairs, done, c[k]) > 0;
    hide ChildrenOf, Pending, Elements;
    PendingDrop(pairs, done, p, c[k]);
    OccurrencesWithin(c, k, c[k]);
    assert c[k] in numParents && numParents[c[k]] > 0;
    hide Discounting;
    DiscountNext(pairs, elems, done, p, k, numParents);
  }

  lemma DiscountingStart<T(!new)>(pairs: seq<(T, T)>, elems: set<T>, done: set<T>, p: T, numParents: map<T, nat>,
                                  children: map<T, seq<T>>)
    requires Accounts(pairs, elems, done, numParents, children) && p in numParents
    ensures Discounting(pairs, elems, done, p, 0, numParents - {p})
  {
    assert ChildrenOf(pairs, p)[..0] == [];
  }

  lemma DiscountingEnd<T(!new)>(pairs: seq<(T, T)>, elems: set<T>, done: set<T>, p: T, numParents: map<T, nat>,
                                children: map<T, seq<T>>)
    requires Discounting(pairs, elems, done, p, |ChildrenOf(pairs, p)|, numParents)
    requires ChildrenKept(pairs, elems - done, children)
    ensures Accounts(pairs, elems, done + {p}, numParents, children - {p})
  {
    hide ChildrenOf, Pending, Elements, ChildrenKept;
    KeptWithout(pairs, elems, done, p, children);
    AllDiscounted(pairs, elems, done, p, numParents);
    assert elems - done - {p} == elems - (done + {p});
  }

  lemma KeptWithout<T(!new)>(pairs: seq<(T, T)>, elems: set<T>, done: set<T>, p: T, children: map<T, seq<T>>)
    requires ChildrenKept(pairs, elems - done, children)
    ensures ChildrenKept(pairs, elems - (done + {p}), children - {p})
  {
    hide ChildrenOf;
  }

  lemma AllDiscounted<T(!new)>(pairs: seq<(T, T)>, elems: set<T>, done: set<T>, p: T, numParents: map<T, nat>)
    requires Discounting(pairs, elems, done, p, |ChildrenOf(pairs, p)|, numParents)
    ensures forall x :: x in numParents ==> numParents[x] == Pending(pairs, done + {p}, x)
  {
    var c := ChildrenOf(pairs, p);
    assert c[..|c|] == c;
    hide ChildrenOf, Pending, Elements;
    forall x | x in numParents
      ensures numParents[x] == Pending(pairs, done + {p}, x)
    {
      PendingDrop(pairs, done, p, x);
    }
  }

  // ----- building the dictionaries

  lemma ElementsSnoc<T(!new)>(pairs: seq<(T, T)>, pr: (T, T))
    ensures Elements(pairs + [pr]) == Elements(pairs) + {pr.0, pr.1}
  {
    var more := pairs + [pr];
    assert forall q :: q in more <==> q in pairs || q == pr;
    assert pr in more;
  }

  lemma PendingSnoc<T(!new)>(pairs: seq<(T, T)>, pr: (T, T), x: T)
    ensures Pending(pairs + [pr], {}, x) == Pending(pairs, {}, x) + if pr.1 == x then 1 else 0
    ensures ChildrenOf(pairs + [pr], x) == ChildrenOf(pairs, x) + if pr.0 == x then [pr.1] else []
  {
    assert (pairs + [pr])[..|pairs|] == pairs;
  }

  lemma PendingOfStranger<T(!new)>(pairs: seq<(T, T)>, x: T)
    ensures x !in Elements(pairs) ==> Pending(pairs, {}, x) == 0 && ChildrenOf(pairs, x) == []
  {
    if x !in Elements(pairs) {
      assert forall u :: (u, x) !in pairs;
      assert forall v :: (x, v) !in pairs;
      var c := ChildrenOf(pairs, x);
      HeadIsMember(c);
    }
  }

  lemma CountStep<T(!new)>(pairs: seq<(T, T)>, pr: (T, T), before: map<T, nat>, after: map<T, nat>)
    requires before.Keys == Elements(pairs) && forall x :: x in before ==> before[x] == Pending(pairs, {}, x)
    requires after.Keys == before.Keys + {pr.0, pr.1}
    requires forall x :: x in after ==> after[x] == (if x in before then before[x] else 0) + if x == pr.1 then 1 else 0
    ensures after.Keys == Elements(pairs + [pr])
    ensures forall x :: x in after ==> after[x] == Pending(pairs + [pr], {}, x)
  {
    ElementsSnoc(pairs, pr);
    forall x | x in after
      ensures after[x] == Pending(pairs + [pr], {}, x)
    {
      PendingSnoc(pairs, pr, x);
      PendingOfStranger(pairs, x);
    }
  }

  ghost predicate ListsChildren<T(!new)>(pairs: seq<(T, T)>, children: map<T, seq<T>>) {
    forall p :: ChildrenOf(pairs, p) == if p in children then children[p] else []
  }

  lemma ChildStep<T(!new)>(pairs: seq<(T, T)>, pr: (T, T), children: map<T, seq<T>>)
    requires ListsChildren(pairs, children)
    ensures ListsChildren(pairs + [pr], children[pr.0 := (if pr.0 in children then children[pr.0] else []) + [pr.1]])
  {
    var children' := children[pr.0 := (if pr.0 in children then children[pr.0] else []) + [pr.1]];
    forall p
      ensures ChildrenOf(pairs + [pr], p) == if p in children' then children'[p] else []
    {
      PendingSnoc(pairs, pr, p);
    }
  }

  ghost predicate Built<T(!new)>(pairs: seq<(T, T)>, numParents: map<T, nat>, children: map<T, seq<T>>) {
    && numParents.Keys == Elements(pairs)
    && (forall x :: x in numParents ==> numParents[x] == Pending(pairs, {}, x))
    && ListsChildren(pairs, children)
  }

  lemma BuiltStep<T(!new)>(pairs: seq<(T, T)>, pr: (T, T), before: map<T, nat>, after: map<T, nat>,
                           children: map<T, seq<T>>)
    requires Built(pairs, before, children)
    requires after.Keys == before.Keys + {pr.0, pr.1}
    requires forall x :: x in after ==> after[x] == (if x in before then before[x] else 0) + if x == pr.1 then 1 else 0
    ensures Built(pairs + [pr], after, children[pr.0 := (if pr.0 in children then children[pr.0] else []) + [pr.1]])
  {
    CountStep(pairs, pr, before, after);
    ChildStep(pairs, pr, children);
    hide ListsChildren, Elements, Pending;
  }

  lemma BuiltEnds<T(!new)>(pairs: seq<(T, T)>, numParents: map<T, nat>, children: map<T, seq<T>>)
    ensures Built<T>([], map[], map[])
    ensures Built(pairs, numParents, children) ==> Accounts(pairs, Elements(pairs), {}, numParents, children)
  {
  }

  /** The loop over the pairs that fills `num_parents` and `children`. */
  method BuildMaps<T(==,!new)>(pairlist: seq<(T, T)>) returns (numParents: map<T, nat>, children: map<T, seq<T>>)
    ensures Accounts(pairlist, Elements(pairlist), {}, numParents, children)
  {
    hide *;
    numParents, children := map[], map[];
    BuiltEnds(pairlist, numParents, children);
    assert pairlist[..0] == [];
    for i := 0 to |pairlist|
      invariant Built(pairlist[..i], numParents, children)
    {
      var (parent, child) := pairlist[i];
      ghost var before := numParents;
      if parent !in numParents {
        numParents := numParents[parent := 0];
      }
      if child !in numParents {
        numParents := numParents[child := 0];
      }
      numParents := numParents[child := numParents[child] + 1];
      BuiltStep(pairlist[..i], pairlist[i], before, numParents, children);
      var siblings := if parent in children then children[parent] else [];
      children := children[parent := siblings + [child]];
      assert pairlist[..i + 1] == pairlist[..i] + [pairlist[i]];
    }
    assert pairlist[..|pairlist|] == pairlist;
    BuiltEnds(pairlist, numParents, children);
  }

  /** `[x for x in num_parents.keys() if num_parents[x] == 0]`, in the dictionary's arbitrary order. */
  method WithoutParents<T(==,!new)>(numParents: map<T, nat>) returns (roots: seq<T>)
    ensures Distinct(roots)
    ensures forall x :: x in roots <==> x in numParents && numParents[x] == 0
  {
    roots := [];
    var keys := numParents.Keys;
    while keys != {}
      invariant keys <= numParents.Keys && Distinct(roots)
      invariant forall x :: x in roots <==> x in numParents && x !in keys && numParents[x] == 0
    {
      var x :| x in keys;
      keys := keys - {x};
      if numParents[x] == 0 {
        roots := roots + [x];
      }
    }
  }

  // ----- topsort

  ghost function Members<T>(s: seq<T>): set<T> {
    set x | x in s
  }

  /** Between two parents: everything up to `i` is accounted for, everything free is queued behind it. */
  ghost predicate Sorting<T(!new)>(pairs: seq<(T, T)>, answer: seq<T>, i: nat, numParents: map<T, nat>,
                                   children: map<T, seq<T>>)
  {
    && i <= |answer| && Distinct(answer)
    && Accounts(pairs, Elements(pairs), Members(answer[..i]), numParents, children)
    && (forall x :: x in numParents ==> (numParents[x] == 0 <==> x in answer))
    && ParentsFirst(pairs, answer)
    && Members(answer) <= Elements(pairs)
  }

  /** The children loop of the parent `answer[i]` after `k` children. */
  ghost predicate Releasing<T(!new)>(pairs: seq<(T, T)>, answer: seq<T>, i: nat, k: nat, numParents: map<T, nat>) {
    && i < |answer| && Distinct(answer)
    && Discounting(pairs, Elements(pairs), Members(answer[..i]), answer[i], k, numParents)
    && (forall x :: x in numParents ==> (numParents[x] == 0 <==> x in answer))
    && ParentsFirst(pairs, answer)
    && Members(answer) <= Elements(pairs)
  }

  lemma PrefixMembers<T(!new)>(s: seq<T>, i: nat)
    requires i < |s| && Distinct(s)
    ensures s[i] !in Members(s[..i]) && Members(s[..i + 1]) == Members(s[..i]) + {s[i]}
  {
  }

  lemma QueuedIsFree<T(!new)>(pairs: seq<(T, T)>, answer: seq<T>, i: nat, x: T)
    requires ParentsFirst(pairs, answer) && i < |answer| && x in answer[..i + 1]
    ensures Pending(pairs, Members(answer[..i]), x) == 0
  {
    var k :| 0 <= k <= i && answer[k] == x;
    assert answer[..k] <= answer[..i];
  }

  lemma SortingStart<T(!new)>(pairs: seq<(T, T)>, answer: seq<T>, numParents: map<T, nat>, children: map<T, seq<T>>)
    requires Accounts(pairs, Elements(pairs), {}, numParents, children) && Distinct(answer)
    requires forall x :: x in answer <==> x in numParents && numParents[x] == 0
    ensures Sorting(pairs, answer, 0, numParents, children)
  {
    assert Members(answer[..0]) == {};
    forall k | 0 <= k < |answer|
      ensures forall u :: (u, answer[k]) !in pairs
    {
      assert answer[k] in answer;
      assert Pending(pairs, {}, answer[k]) == 0;
    }
  }

  /** `del num_parents[parent]`: the parent's own entry is there and is zero. */
  lemma ReleasingStart<T(!new)>(pairs: seq<(T, T)>, answer: seq<T>, i: nat, numParents: map<T, nat>,
                                children: map<T, seq<T>>)
    requires Sorting(pairs, answer, i, numParents, children) && i < |answer|
    ensures answer[i] in numParents
    ensures Releasing(pairs, answer, i, 0, numParents - {answer[i]})
    ensures (if answer[i] in children then children[answer[i]] else []) == ChildrenOf(pairs, answer[i])
    ensures ChildrenKept(pairs, Elements(pairs) - Members(answer[..i]), children)
  {
    PrefixMembers(answer, i);
    assert answer[i] in Members(answer);
    DiscountingStart(pairs, Elements(pairs), Members(answer[..i]), answer[i], numParents, children);
  }

  /** One child: its count is there and positive, and it is queued exactly when the count reaches zero. */
  lemma ReleasingIsFree<T(!new)>(pairs: seq<(T, T)>, answer: seq<T>, i: nat, k: nat, numParents: map<T, nat>)
    requires Releasing(pairs, answer, i, k, numParents)
    ensures forall x :: x in Members(answer[..i]) || x == answer[i] ==> Pending(pairs, Members(answer[..i]), x) == 0
  {
    hide Discounting, Pending, Elements;
    forall x | x in Members(answer[..i]) || x == answer[i]
      ensures Pending(pairs, Members(answer[..i]), x) == 0
    {
      assert answer[i] in answer[..i + 1];
      QueuedIsFree(pairs, answer, i, x);
    }
  }

  lemma WaitingIsElement<T(!new)>(pairs: seq<(T, T)>, answer: seq<T>, i: nat, k: nat, numParents: map<T, nat>, x: T)
    requires Releasing(pairs, answer, i, k, numParents) && x in numParents && numParents[x] > 0
    ensures x in Elements(pairs) && x !in answer
  {
    hide Elements, Pending, ChildrenOf, ParentsFirst, Distinct;
  }

  lemma ReleaseChild<T(!new)>(pairs: seq<(T, T)>, answer: seq<T>, i: nat, k: nat, numParents: map<T, nat>)
    requires Releasing(pairs, answer, i, k, numParents) && k < |ChildrenOf(pairs, answer[i])|
    ensures var child := ChildrenOf(pairs, answer[i])[k];
      && child in numParents && numParents[child] > 0
      && var numParents' := numParents[child := numParents[child] - 1];
         Releasing(pairs, if numParents'[child] == 0 then answer + [child] else answer, i, k + 1, numParents')
  {
    hide Discounting, Pending, Elements, ChildrenOf, ParentsFirst, Distinct;
    ReleasingIsFree(pairs, answer, i, k, numParents);
    DecrementIsSafe(pairs, Elements(pairs), Members(answer[..i]), answer[i], k, numParents);
    var child := ChildrenOf(pairs, answer[i])[k];
    WaitingIsElement(pairs, answer, i, k, numParents, child);
    var numParents' := numParents[child := numParents[child] - 1];
    if numParents'[child] == 0 {
      FreedChildComesLater(pairs, answer, i, k, child, numParents');
    }
  }

  lemma ParentsFirstSnoc<T(!new)>(pairs: seq<(T, T)>, s: seq<T>, x: T)
    requires ParentsFirst(pairs, s) && forall u :: (u, x) in pairs ==> u in s
    ensures ParentsFirst(pairs, s + [x])
  {
    var longer := s + [x];
    forall j, u | 0 <= j < |longer| && (u, longer[j]) in pairs
      ensures u in longer[..j]
    {
      assert longer[..j] == s[..j];
    }
  }

  lemma FreedChildHasNoneOutstanding<T(!new)>(pairs: seq<(T, T)>, done: set<T>, p: T, k: nat, child: T,
                                              numParents: map<T, nat>)
    requires Discounting(pairs, Elements(pairs), done, p, k + 1, numParents) && child in numParents
    requires numParents[child] == 0
    ensures forall u :: (u, child) in pairs ==> u in done + {p}
  {
    var c := ChildrenOf(pairs, p);
    OccurrencesWithin(c, k + 1, child);
    PendingDrop(pairs, done, p, child);
    hide ChildrenOf, Pending, Elements;
  }

  lemma FreedChildComesLater<T(!new)>(pairs: seq<(T, T)>, answer: seq<T>, i: nat, k: nat, child: T,
                                      numParents: map<T, nat>)
    requires i < |answer| && Distinct(answer) && ParentsFirst(pairs, answer) && child !in answer
    requires Discounting(pairs, Elements(pairs), Members(answer[..i]), answer[i], k + 1, numParents)
    requires child in numParents && numParents[child] == 0
    ensures Distinct(answer + [child]) && ParentsFirst(pairs, answer + [child])
    ensures (answer + [child])[..i] == answer[..i]
  {
    hide Discounting, ParentsFirst, Elements;
    FreedChildHasNoneOutstanding(pairs, Members(answer[..i]), answer[i], k, child, numParents);
    ParentsFirstSnoc(pairs, answer, child);
  }

  lemma ReleasingEnd<T(!new)>(pairs: seq<(T, T)>, answer: seq<T>, i: nat, numParents: map<T, nat>,
                              children: map<T, seq<T>>)
    requires i < |answer| && Releasing(pairs, answer, i, |ChildrenOf(pairs, answer[i])|, numParents)
    requires ChildrenKept(pairs, Elements(pairs) - Members(answer[..i]), children)
    ensures Sorting(pairs, answer, i + 1, numParents, children - {answer[i]})
  {
    PrefixMembers(answer, i);
    DiscountingEnd(pairs, Elements(pairs), Members(answer[..i]), answer[i], numParents, children);
  }

  /** The elements that lie on or after a cycle. */
  ghost function Residue<T(!new)>(pairs: seq<(T, T)>): set<T> {
    set x | x in Elements(pairs) && AfterCycle(pairs, x)
  }

  lemma WaitingIsSourceless<T(!new)>(pairs: seq<(T, T)>, answer: seq<T>, numParents: map<T, nat>,
                                     children: map<T, seq<T>>)
    requires Sorting(pairs, answer, |answer|, numParents, children)
    ensures numParents.Keys == Elements(pairs) - Members(answer) && Members(answer) <= Elements(pairs)
    ensures Sourceless(pairs, numParents.Keys)
    ensures Accounts(pairs, Elements(pairs), Members(answer), numParents, children)
    ensures Distinct(answer) && ParentsFirst(pairs, answer)
  {
    hide ParentsFirst, ChildrenKept, Distinct, Pending, HasParentIn;
    assert answer[..|answer|] == answer;
    forall x | x in numParents
      ensures HasParentIn(pairs, numParents.Keys, x)
    {
      assert x !in Members(answer);
      WaitingHasParent(pairs, answer, numParents, x);
    }
  }

  /** Splitting the elements at the cycles settles which of them are sorted. */
  lemma SplitAtCycles<T(!new)>(pairs: seq<(T, T)>, s: seq<T>, r: set<T>)
    requires r == Elements(pairs) - Members(s) && Members(s) <= Elements(pairs)
    requires ParentsFirst(pairs, s) && Distinct(s) && Sourceless(pairs, r)
    ensures Members(s) == Elements(pairs) - Residue(pairs) && r == Residue(pairs)
    ensures r == {} <==> Acyclic(pairs)
  {
    hide Elements, ParentsFirst, Distinct, Sourceless, Acyclic, AfterCycle;
    assert forall x :: x in Elements(pairs) ==> x in s || x in r;
    ResidueIsAfterCycle(pairs, s, r);
    assert forall x :: x in Members(s) ==> x in s;
  }

  lemma SortingEnd<T(!new)>(pairs: seq<(T, T)>, answer: seq<T>, numParents: map<T, nat>, children: map<T, seq<T>>)
    requires Sorting(pairs, answer, |answer|, numParents, children)
    ensures Members(answer) == Elements(pairs) - Residue(pairs)
    ensures Distinct(answer) && ParentsFirst(pairs, answer)
    ensures numParents.Keys == Residue(pairs)
    ensures numParents == map[] <==> Acyclic(pairs)
    ensures Accounts(pairs, Elements(pairs), Members(answer), numParents, children)
  {
    hide *;
    WaitingIsSourceless(pairs, answer, numParents, children);
    SplitAtCycles(pairs, answer, numParents.Keys);
    assert numParents == map[] <==> numParents.Keys == {};
  }

  lemma WaitingHasParent<T(!new)>(pairs: seq<(T, T)>, answer: seq<T>, numParents: map<T, nat>, x: T)
    requires numParents.Keys == Elements(pairs) - Members(answer) && x in numParents && x !in answer
    requires numParents[x] == Pending(pairs, Members(answer), x) && (numParents[x] == 0 <==> x in answer)
    ensures HasParentIn(pairs, numParents.Keys, x)
  {
    var u :| (u, x) in pairs && u !in Members(answer);
    ElementsOfPair(pairs, u, x);
  }

  /** `topsort`: Kahn's algorithm over an answer list that grows while it is traversed. */
  method Topsort<T(==,!new)>(pairlist: seq<(T, T)>) returns (r: SortResult<T>)
    ensures r.Sorted? <==> Acyclic(pairlist)
    ensures Distinct(r.answer) && ParentsFirst(pairlist, r.answer)
    ensures Members(r.answer) == Elements(pairlist) - Residue(pairlist)
    ensures r.CycleError? ==> r.numParents.Keys == Residue(pairlist)
    ensures r.CycleError? ==> Accounts(pairlist, Elements(pairlist), Members(r.answer), r.numParents, r.children)
  {
    hide *;
    var numParents, children := BuildMaps(pairlist);
    var answer := WithoutParents(numParents);
    SortingStart(pairlist, answer, numParents, children);
    var i := 0;
    while i < |answer|
      invariant i <= |answer| && Sorting(pairlist, answer, i, numParents, children)
      decreases numParents.Keys
    {
      var parent := answer[i];
      ghost var before, rest := answer[..i], children;
      ReleasingStart(pairlist, answer, i, numParents, children);
      numParents := numParents - {parent};
      ghost var keys := numParents.Keys;
      if parent in children {
        for k := 0 to |children[parent]|
          invariant i < |answer| && answer[i] == parent && answer[..i] == before && numParents.Keys == keys
          invariant Releasing(pairlist, answer, i, k, numParents)
        {
          var child := children[parent][k];
          ReleaseChild(pairlist, answer, i, k, numParents);
          numParents := numParents[child := numParents[child] - 1];
          if numParents[child] == 0 {
            answer := answer + [child];
          }
        }
        children := children - {parent};
      }
      assert children == rest - {parent};
      ReleasingEnd(pairlist, answer, i, numParents, rest);
      i := i + 1;
    }
    SortingEnd(pairlist, answer, numParents, children);
    if numParents != map[] {
      return CycleError(answer, numParents, children);
    }
    return Sorted(answer);
  }

  // ----- the children of the left-over elements

  /** Left-over elements keep their children among themselves. */
  lemma ChildOfResidue<T(!new)>(pairs: seq<(T, T)>, x: T)
    requires x in Residue(pairs) && ChildrenOf(pairs, x) != []
    ensures HasChildIn(pairs, Residue(pairs), x)
  {
    var u := ChildrenOf(pairs, x)[0];
    assert u in ChildrenOf(pairs, x);
    hide AfterCycle, Elements, ChildrenOf;
    AfterCycleExtends(pairs, x, u);
    ElementsOfPair(pairs, x, u);
    assert u in Residue(pairs);
  }

  /** Every left-over element has a child exactly when every left-over element also leads to a cycle. */
  lemma ResidueHasChildren<T(!new)>(pairs: seq<(T, T)>)
    ensures (forall x :: x in Residue(pairs) ==> ChildrenOf(pairs, x) != [])
      <==> (forall x :: x in Residue(pairs) ==> LeadsToCycle(pairs, x))
  {
    hide *;
    var r := Residue(pairs);
    if forall x :: x in r ==> ChildrenOf(pairs, x) != [] {
      forall x | x in r
        ensures HasChildIn(pairs, r, x)
      {
        ChildOfResidue(pairs, x);
      }
      ResidueIsSinkless(pairs, r);
      forall x | x in r
        ensures LeadsToCycle(pairs, x)
      {
        SinklessLeadsToCycle(pairs, r, x);
      }
    } else {
      var x :| x in r && ChildrenOf(pairs, x) == [];
      if LeadsToCycle(pairs, x) {
        LeadsToCycleHasChild(pairs, x);
      }
    }
  }

  lemma ResidueIsSinkless<T(!new)>(pairs: seq<(T, T)>, r: set<T>)
    requires forall x :: x in r ==> HasChildIn(pairs, r, x)
    ensures Sinkless(pairs, r)
  {
    hide HasChildIn;
  }

  /** The same in the dictionaries that a `CycleError` carries. */
  lemma LeftOverHaveChildren<T(!new)>(pairs: seq<(T, T)>, numParents: map<T, nat>, children: map<T, seq<T>>)
    requires Accounts(pairs, Elements(pairs), Elements(pairs) - Residue(pairs), numParents, children)
    ensures (forall x :: x in numParents ==> x in children && children[x] != [])
      <==> (forall x :: x in Residue(pairs) ==> LeadsToCycle(pairs, x))
  {
    ResidueHasChildren(pairs);
    hide LeadsToCycle, ChildrenOf, Pending, AfterCycle, Elements;
    assert forall x :: x in numParents <==> x in Residue(pairs);
    assert forall x :: x in Residue(pairs) ==>
      ChildrenOf(pairs, x) == if x in children then children[x] else [];
  }

  /** An element behind a cycle is left over although it has no child. */
  lemma LeftOverWithoutChild()
    ensures var pairs := [(1, 1), (1, 2)];
      2 in Residue(pairs) && ChildrenOf(pairs, 2) == [] && !LeadsToCycle(pairs, 2)
  {
    var pairs := [(1, 1), (1, 2)];
    assert ChainTo(pairs, [1, 1], 1);
    assert OnCycle(pairs, 1);
    assert ChainTo(pairs, [1, 2], 2);
    assert pairs[1] == (1, 2);
    ElementsOfPair(pairs, 1, 2);
    assert forall x :: (2, x) !in pairs;
    if LeadsToCycle(pairs, 2) {
      LeadsToCycleHasChild(pairs, 2);
    }
  }
}
