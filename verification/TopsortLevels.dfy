/** `topsort_levels_core` and `topsort_levels` of topsort.py. */
module TopsortLevels {
  import opened Lists
  import opened DependencyGraph
  import opened Topsort

  datatype LevelEnd<T> =
    | StopIteration
    | LevelCycleError(numParents: map<T, nat>, children: map<T, seq<T>>)

  /** Some chain of `n` pairs ends at `x`. */
  ghost predicate HasChain<T(!new)>(pairs: seq<(T, T)>, x: T, n: nat) {
    exists w :: ChainTo(pairs, w, x) && |w| == n + 1
  }

  /** The longest chain that ends at `x` has exactly `n` pairs. */
  ghost predicate LongestChain<T(!new)>(pairs: seq<(T, T)>, x: T, n: nat) {
    HasChain(pairs, x, n) && !HasChain(pairs, x, n + 1)
  }

  /** The elements whose chains are all shorter than `n`. */
  ghost function Shallow<T(!new)>(pairs: seq<(T, T)>, elems: set<T>, n: nat): set<T> {
    set x | x in elems && !HasChain(pairs, x, n)
  }

  lemma ChainOfOne<T(!new)>(pairs: seq<(T, T)>, x: T)
    ensures HasChain(pairs, x, 0)
  {
    assert ChainTo(pairs, [x], x);
  }

  lemma ChainExtends<T(!new)>(pairs: seq<(T, T)>, u: T, x: T, n: nat)
    requires (u, x) in pairs && HasChain(pairs, u, n)
    ensures HasChain(pairs, x, n + 1)
  {
    var w :| ChainTo(pairs, w, u) && |w| == n + 1;
    assert ChainTo(pairs, w + [x], x);
  }

  lemma ChainParent<T(!new)>(pairs: seq<(T, T)>, x: T, n: nat) returns (u: T)
    requires HasChain(pairs, x, n + 1)
    ensures (u, x) in pairs && HasChain(pairs, u, n)
  {
    var w :| ChainTo(pairs, w, x) && |w| == n + 2;
    u := w[n];
    assert ChainTo(pairs, w[..n + 1], u);
  }

  lemma ChainShortens<T(!new)>(pairs: seq<(T, T)>, x: T, n: nat)
    requires HasChain(pairs, x, n + 1)
    ensures HasChain(pairs, x, n)
  {
    var w :| ChainTo(pairs, w, x) && |w| == n + 2;
    assert ChainTo(pairs, w[1..], x);
  }

  /** `x` is shallower than `n + 1` exactly when all its parents are shallower than `n`. */
  lemma ShallowByParents<T(!new)>(pairs: seq<(T, T)>, elems: set<T>, n: nat, x: T)
    requires Elements(pairs) <= elems && x in elems
    ensures x in Shallow(pairs, elems, n + 1) <==> forall u :: (u, x) in pairs ==> u in Shallow(pairs, elems, n)
  {
    hide HasChain;
    if HasChain(pairs, x, n + 1) {
      var u := ChainParent(pairs, x, n);
      assert u !in Shallow(pairs, elems, n);
    } else {
      forall u | (u, x) in pairs
        ensures u in Shallow(pairs, elems, n)
      {
        ElementsOfPair(pairs, u, x);
        if HasChain(pairs, u, n) {
          ChainExtends(pairs, u, x, n);
        }
      }
    }
  }

  lemma ShallowGrows<T(!new)>(pairs: seq<(T, T)>, elems: set<T>, n: nat)
    ensures Shallow(pairs, elems, n) <= Shallow(pairs, elems, n + 1)
    ensures Shallow(pairs, elems, 0) == {}
  {
    hide HasChain;
    forall x | x in elems
      ensures HasChain(pairs, x, 0)
      ensures HasChain(pairs, x, n + 1) ==> HasChain(pairs, x, n)
    {
      ChainOfOne(pairs, x);
      if HasChain(pairs, x, n + 1) {
        ChainShortens(pairs, x, n);
      }
    }
  }

  // ----- elements after a cycle are never shallow

  lemma AfterCycleParent<T(!new)>(pairs: seq<(T, T)>, x: T)
    requires AfterCycle(pairs, x)
    ensures HasParentIn(pairs, Residue(pairs), x) && x in Elements(pairs)
  {
    var w :| ChainTo(pairs, w, x) && OnCycle(pairs, w[0]);
    var v := w;
    if |w| == 1 {
      v :| ChainTo(pairs, v, x) && |v| >= 2 && v[0] == x;
    }
    var u := v[|v| - 2];
    assert (u, x) in pairs;
    ElementsOfPair(pairs, u, x);
    assert ChainTo(pairs, v[..|v| - 1], u) && OnCycle(pairs, v[..|v| - 1][0]);
    hide OnCycle, ChainTo, Elements;
    assert AfterCycle(pairs, u);
    assert u in Residue(pairs);
  }

  lemma AfterCycleIsDeep<T(!new)>(pairs: seq<(T, T)>, x: T, n: nat)
    requires AfterCycle(pairs, x)
    ensures HasChain(pairs, x, n) && x in Elements(pairs)
  {
    var r := Residue(pairs);
    assert Sourceless(pairs, r) by {
      forall y | y in r
        ensures HasParentIn(pairs, r, y)
      {
        AfterCycleParent(pairs, y);
      }
    }
    AfterCycleParent(pairs, x);
    hide Sourceless, HasParentIn, AfterCycle, Elements;
    var w := BackChain(pairs, r, x, n);
  }

  // ----- one level

  /** Between two levels: exactly the shallow elements are accounted for. */
  ghost predicate Leveling<T(!new)>(pairs: seq<(T, T)>, elems: set<T>, n: nat, numParents: map<T, nat>,
                                    children: map<T, seq<T>>)
  {
    Accounts(pairs, elems, Shallow(pairs, elems, n), numParents, children)
  }

  /** The elements without waiting parents are those whose longest chain has `n` pairs. */
  ghost predicate IsLevel<T(!new)>(pairs: seq<(T, T)>, elems: set<T>, n: nat, level: seq<T>) {
    && Distinct(level)
    && forall x :: x in level <==> x in elems && LongestChain(pairs, x, n)
  }

  lemma LevelIsLongestChain<T(!new)>(pairs: seq<(T, T)>, elems: set<T>, n: nat, numParents: map<T, nat>,
                                     children: map<T, seq<T>>, level: seq<T>)
    requires Leveling(pairs, elems, n, numParents, children) && Distinct(level)
    requires forall x :: x in level <==> x in numParents && numParents[x] == 0
    ensures IsLevel(pairs, elems, n, level)
  {
    hide HasChain, ChildrenKept, Distinct;
    forall x
      ensures x in level <==> x in elems && LongestChain(pairs, x, n)
    {
      if x in elems {
        ShallowByParents(pairs, elems, n, x);
      }
    }
  }

  /** In the middle of a level: its first `i` parents are accounted for too. */
  ghost predicate Clearing<T(!new)>(pairs: seq<(T, T)>, elems: set<T>, n: nat, level: seq<T>, i: nat,
                                    numParents: map<T, nat>, children: map<T, seq<T>>)
  {
    && i <= |level| && IsLevel(pairs, elems, n, level)
    && Accounts(pairs, elems, Shallow(pairs, elems, n) + Members(level[..i]), numParents, children)
  }

  lemma ClearingStart<T(!new)>(pairs: seq<(T, T)>, elems: set<T>, n: nat, level: seq<T>, numParents: map<T, nat>,
                               children: map<T, seq<T>>)
    requires Leveling(pairs, elems, n, numParents, children) && IsLevel(pairs, elems, n, level)
    ensures Clearing(pairs, elems, n, level, 0, numParents, children)
  {
    hide Accounts, IsLevel, Shallow;
    assert Shallow(pairs, elems, n) + Members(level[..0]) == Shallow(pairs, elems, n);
  }

  lemma LevelSplitsShallow<T(!new)>(pairs: seq<(T, T)>, elems: set<T>, n: nat, level: seq<T>)
    requires IsLevel(pairs, elems, n, level)
    ensures Shallow(pairs, elems, n) + Members(level) == Shallow(pairs, elems, n + 1)
    ensures Shallow(pairs, elems, n) !! Members(level)
  {
    ShallowGrows(pairs, elems, n);
    hide HasChain, Distinct;
  }

  lemma ClearingEnd<T(!new)>(pairs: seq<(T, T)>, elems: set<T>, n: nat, level: seq<T>, numParents: map<T, nat>,
                             children: map<T, seq<T>>)
    requires Clearing(pairs, elems, n, level, |level|, numParents, children)
    ensures Leveling(pairs, elems, n + 1, numParents, children)
  {
    hide Accounts, IsLevel, Shallow, Members;
    assert level[..|level|] == level;
    LevelSplitsShallow(pairs, elems, n, level);
  }

  /** Nothing in or before level `n` waits for a parent any more. */
  lemma ClearedIsFree<T(!new)>(pairs: seq<(T, T)>, elems: set<T>, n: nat, level: seq<T>, done: set<T>, x: T)
    requires Elements(pairs) <= elems && IsLevel(pairs, elems, n, level)
    requires Shallow(pairs, elems, n) <= done && (x in Shallow(pairs, elems, n) || x in level)
    ensures Pending(pairs, done, x) == 0
  {
    ShallowGrows(pairs, elems, n);
    assert x in Shallow(pairs, elems, n + 1);
    ShallowByParents(pairs, elems, n, x);
  }

  /** `del num_parents[level_parent]` finds its key. */
  lemma ClearingParent<T(!new)>(pairs: seq<(T, T)>, elems: set<T>, n: nat, level: seq<T>, i: nat,
                                numParents: map<T, nat>, children: map<T, seq<T>>)
    requires Clearing(pairs, elems, n, level, i, numParents, children) && i < |level|
    ensures level[i] in numParents
    ensures Discounting(pairs, elems, Shallow(pairs, elems, n) + Members(level[..i]), level[i], 0,
                        numParents - {level[i]})
    ensures (if level[i] in children then children[level[i]] else []) == ChildrenOf(pairs, level[i])
    ensures ChildrenKept(pairs, elems - (Shallow(pairs, elems, n) + Members(level[..i])), children)
  {
    LevelSplitsShallow(pairs, elems, n, level);
    assert level[i] in Members(level);
    PrefixMembers(level, i);
    assert level[i] in elems;
    hide Shallow, IsLevel, Pending, ChildrenOf, Elements;
    DiscountingStart(pairs, elems, Shallow(pairs, elems, n) + Members(level[..i]), level[i], numParents, children);
  }

  /** `num_parents[level_parent_child] -= 1` finds its key and stays natural. */
  lemma ClearingChild<T(!new)>(pairs: seq<(T, T)>, elems: set<T>, n: nat, level: seq<T>, i: nat, k: nat,
                               numParents: map<T, nat>)
    requires IsLevel(pairs, elems, n, level) && i < |level|
    requires Discounting(pairs, elems, Shallow(pairs, elems, n) + Members(level[..i]), level[i], k, numParents)
    requires k < |ChildrenOf(pairs, level[i])|
    ensures var child := ChildrenOf(pairs, level[i])[k];
      && child in numParents && numParents[child] > 0
      && Discounting(pairs, elems, Shallow(pairs, elems, n) + Members(level[..i]), level[i], k + 1,
                     numParents[child := numParents[child] - 1])
  {
    var done := Shallow(pairs, elems, n) + Members(level[..i]);
    assert Elements(pairs) <= elems;
    forall x | x in done || x == level[i]
      ensures Pending(pairs, done, x) == 0
    {
      ClearedIsFree(pairs, elems, n, level, done, x);
    }
    hide Shallow, IsLevel, Elements, Members, Pending;
    DecrementIsSafe(pairs, elems, done, level[i], k, numParents);
  }

  lemma ClearingNext<T(!new)>(pairs: seq<(T, T)>, elems: set<T>, n: nat, level: seq<T>, i: nat,
                              numParents: map<T, nat>, children: map<T, seq<T>>)
    requires IsLevel(pairs, elems, n, level) && i < |level|
    requires Discounting(pairs, elems, Shallow(pairs, elems, n) + Members(level[..i]), level[i],
                         |ChildrenOf(pairs, level[i])|, numParents)
    requires ChildrenKept(pairs, elems - (Shallow(pairs, elems, n) + Members(level[..i])), children)
    ensures Clearing(pairs, elems, n, level, i + 1, numParents, children - {level[i]})
  {
    assert Distinct(level);
    PrefixMembers(level, i);
    hide Shallow, IsLevel, Members, Accounts, Distinct, Discounting;
    var done := Shallow(pairs, elems, n) + Members(level[..i]);
    DiscountingEnd(pairs, elems, done, level[i], numParents, children);
    assert done + {level[i]} == Shallow(pairs, elems, n) + Members(level[..i + 1]);
  }

  /** The body of the outer loop after the level is yielded. */
  method ClearLevel<T(==,!new)>(ghost pairs: seq<(T, T)>, ghost elems: set<T>, ghost n: nat, level: seq<T>,
                                numParents: map<T, nat>, children: map<T, seq<T>>)
    returns (numParents': map<T, nat>, children': map<T, seq<T>>)
    requires Leveling(pairs, elems, n, numParents, children) && IsLevel(pairs, elems, n, level)
    ensures Leveling(pairs, elems, n + 1, numParents', children')
  {
    hide *;
    numParents', children' := numParents, children;
    ClearingStart(pairs, elems, n, level, numParents, children);
    for i := 0 to |level|
      invariant Clearing(pairs, elems, n, level, i, numParents', children')
    {
      var levelParent := level[i];
      ClearingParent(pairs, elems, n, level, i, numParents', children');
      ghost var before := children';
      numParents' := numParents' - {levelParent};
      if levelParent in children' {
        for k := 0 to |children'[levelParent]|
          invariant Discounting(pairs, elems, Shallow(pairs, elems, n) + Members(level[..i]), levelParent, k,
                                numParents')
        {
          var child := children'[levelParent][k];
          ClearingChild(pairs, elems, n, level, i, k, numParents');
          numParents' := numParents'[child := numParents'[child] - 1];
        }
        children' := children' - {levelParent};
      }
      assert children' == before - {levelParent};
      ClearingNext(pairs, elems, n, level, i, numParents', before);
    }
    ClearingEnd(pairs, elems, n, level, numParents', children');
  }

  // ----- the generator

  lemma EmptyLevelIsSourceless<T(!new)>(pairs: seq<(T, T)>, elems: set<T>, n: nat, numParents: map<T, nat>,
                                        children: map<T, seq<T>>)
    requires Leveling(pairs, elems, n, numParents, children)
    requires forall x :: x in numParents ==> numParents[x] > 0
    ensures Sourceless(pairs, numParents.Keys)
    ensures numParents.Keys == elems - Shallow(pairs, elems, n) && Elements(pairs) <= elems
  {
    hide ChildrenKept, Shallow;
    forall x | x in numParents
      ensures HasParentIn(pairs, numParents.Keys, x)
    {
      var u :| (u, x) in pairs && u !in Shallow(pairs, elems, n);
      ElementsOfPair(pairs, u, x);
    }
  }

  lemma WaitingIffAfterCycle<T(!new)>(pairs: seq<(T, T)>, elems: set<T>, n: nat, waiting: set<T>, x: T)
    requires Sourceless(pairs, waiting) && waiting == elems - Shallow(pairs, elems, n) && Elements(pairs) <= elems
    ensures x in waiting <==> AfterCycle(pairs, x)
  {
    hide Sourceless, AfterCycle, HasChain;
    if x in waiting {
      SourcelessAfterCycle(pairs, waiting, x);
    } else if AfterCycle(pairs, x) {
      AfterCycleIsDeep(pairs, x, n);
    }
  }

  /** When no level is left, what remains lies on or after a cycle, and nothing else does. */
  lemma LevelsEnd<T(!new)>(pairs: seq<(T, T)>, elems: set<T>, n: nat, numParents: map<T, nat>, children: map<T, seq<T>>)
    requires Leveling(pairs, elems, n, numParents, children)
    requires forall x :: x in numParents ==> numParents[x] > 0
    ensures numParents.Keys == Residue(pairs) && Residue(pairs) == elems - Shallow(pairs, elems, n)
    ensures numParents == map[] <==> Acyclic(pairs)
  {
    EmptyLevelIsSourceless(pairs, elems, n, numParents, children);
    hide *;
    var waiting := numParents.Keys;
    forall x
      ensures x in waiting <==> AfterCycle(pairs, x)
      ensures AfterCycle(pairs, x) ==> x in Elements(pairs)
    {
      WaitingIffAfterCycle(pairs, elems, n, waiting, x);
      if AfterCycle(pairs, x) {
        AfterCycleIsDeep(pairs, x, n);
      }
    }
    ResidueIs(pairs, waiting);
    AcyclicIffNoResidue(pairs);
    NoKeys(numParents);
  }

  lemma NoKeys<T(!new)>(m: map<T, nat>)
    ensures m == map[] <==> m.Keys == {}
  {
  }

  lemma ResidueIs<T(!new)>(pairs: seq<(T, T)>, s: set<T>)
    requires forall x :: (x in s <==> AfterCycle(pairs, x)) && (AfterCycle(pairs, x) ==> x in Elements(pairs))
    ensures s == Residue(pairs)
  {
    hide AfterCycle, Elements;
  }

  lemma AcyclicIffNoResidue<T(!new)>(pairs: seq<(T, T)>)
    ensures Acyclic(pairs) <==> Residue(pairs) == {}
  {
    hide OnCycle, Elements;
    if c :| OnCycle(pairs, c) {
      CycleIsAfterCycle(pairs, c);
      assert c in Residue(pairs);
    }
  }

  lemma LevelIsSmallest<T(!new)>(pairs: seq<(T, T)>, elems: set<T>, n: nat, numParents: map<T, nat>,
                                 children: map<T, seq<T>>,
                                 level: seq<T>, numParents': map<T, nat>, children': map<T, seq<T>>)
    requires Leveling(pairs, elems, n, numParents, children) && IsLevel(pairs, elems, n, level) && level != []
    requires Leveling(pairs, elems, n + 1, numParents', children')
    ensures numParents'.Keys < numParents.Keys
  {
    LevelSplitsShallow(pairs, elems, n, level);
    assert level[0] in Members(level);
    assert level[0] in elems;
    hide Shallow, IsLevel, Pending, ChildrenKept;
    assert level[0] in numParents.Keys && level[0] !in numParents'.Keys;
  }

  ghost predicate AreLevels<T(!new)>(pairs: seq<(T, T)>, elems: set<T>, levels: seq<seq<T>>) {
    forall j :: 0 <= j < |levels| ==> levels[j] != [] && IsLevel(pairs, elems, j, levels[j])
  }

  /** `topsort_levels_core`: `levels` is what the generator yields before it ends as `end` says. */
  method TopsortLevelsCore<T(==,!new)>(numParents: map<T, nat>, children: map<T, seq<T>>, ghost pairs: seq<(T, T)>,
                                       ghost elems: set<T>)
    returns (levels: seq<seq<T>>, end: LevelEnd<T>)
    requires Accounts(pairs, elems, {}, numParents, children)
    ensures AreLevels(pairs, elems, levels)
    ensures forall x :: x in Residue(pairs) <==> x in elems && HasChain(pairs, x, |levels|)
    ensures end.StopIteration? <==> Acyclic(pairs)
    ensures end.LevelCycleError? ==> end.numParents.Keys == Residue(pairs)
    ensures end.LevelCycleError? ==> Accounts(pairs, elems, elems - Residue(pairs), end.numParents, end.children)
  {
    hide *;
    LevelingStart(pairs, elems, numParents, children);
    levels := [];
    var num, kids := numParents, children;
    while true
      invariant Leveling(pairs, elems, |levels|, num, kids)
      invariant AreLevels(pairs, elems, levels)
      decreases num.Keys
    {
      var levelParents := WithoutParents(num);
      if levelParents == [] {
        assert forall x :: x in num ==> num[x] > 0 by {
          assert forall x :: x in num && num[x] == 0 ==> x in levelParents;
        }
        break;
      }
      LevelIsLongestChain(pairs, elems, |levels|, num, kids, levelParents);
      ghost var before, kidsBefore := num, kids;
      num, kids := ClearLevel(pairs, elems, |levels|, levelParents, num, kids);
      LevelIsSmallest(pairs, elems, |levels|, before, kidsBefore, levelParents, num, kids);
      AreLevelsSnoc(pairs, elems, levels, levelParents);
      levels := levels + [levelParents];
    }
    LevelsEnd(pairs, elems, |levels|, num, kids);
    LevelsResult(pairs, elems, |levels|, num, kids);
    if num != map[] {
      return levels, LevelCycleError(num, kids);
    }
    return levels, StopIteration;
  }

  lemma LevelingStart<T(!new)>(pairs: seq<(T, T)>, elems: set<T>, numParents: map<T, nat>, children: map<T, seq<T>>)
    requires Accounts(pairs, elems, {}, numParents, children)
    ensures Leveling(pairs, elems, 0, numParents, children) && AreLevels(pairs, elems, [])
  {
    ShallowGrows(pairs, elems, 0);
    hide Accounts, Shallow;
  }

  lemma AreLevelsSnoc<T(!new)>(pairs: seq<(T, T)>, elems: set<T>, levels: seq<seq<T>>, level: seq<T>)
    requires AreLevels(pairs, elems, levels) && level != [] && IsLevel(pairs, elems, |levels|, level)
    ensures AreLevels(pairs, elems, levels + [level])
  {
    hide IsLevel;
  }

  lemma LevelsResult<T(!new)>(pairs: seq<(T, T)>, elems: set<T>, n: nat, numParents: map<T, nat>,
                              children: map<T, seq<T>>)
    requires Leveling(pairs, elems, n, numParents, children) && Residue(pairs) == elems - Shallow(pairs, elems, n)
    ensures forall x :: x in Residue(pairs) <==> x in elems && HasChain(pairs, x, n)
    ensures Accounts(pairs, elems, elems - Residue(pairs), numParents, children)
  {
    hide Accounts, Residue, HasChain;
    assert elems - Residue(pairs) == Shallow(pairs, elems, n);
  }

  /** `topsort_levels`: builds the dictionaries from pairs and runs the core. */
  method TopsortLevels<T(==,!new)>(pairlist: seq<(T, T)>) returns (levels: seq<seq<T>>, end: LevelEnd<T>)
    ensures AreLevels(pairlist, Elements(pairlist), levels)
    ensures end.StopIteration? <==> Acyclic(pairlist)
    ensures end.LevelCycleError? ==> end.numParents.Keys == Residue(pairlist)
    ensures end.LevelCycleError? ==>
      Accounts(pairlist, Elements(pairlist), Elements(pairlist) - Residue(pairlist), end.numParents, end.children)
    ensures forall x :: x in Elements(pairlist) ==> (x in Residue(pairlist) <==> HasChain(pairlist, x, |levels|))
  {
    hide *;
    var numParents, children := BuildMaps(pairlist);
    levels, end := TopsortLevelsCore(numParents, children, pairlist, Elements(pairlist));
  }
}
