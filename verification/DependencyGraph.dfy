/** Dependency pairs as a graph: chains, cycles, and the counts and child lists topsort.py builds from them. */
module DependencyGraph {
  import opened Lists

  /** Every element that some pair mentions. */
  ghost function Elements<T(!new)>(pairs: seq<(T, T)>): set<T> {
    (set pr | pr in pairs :: pr.0) + (set pr | pr in pairs :: pr.1)
  }

  /** Consecutive elements are (parent, child) pairs. */
  ghost predicate Chain<T(!new)>(pairs: seq<(T, T)>, w: seq<T>) {
    w != [] && forall i, j :: 0 <= i && j == i + 1 && j < |w| ==> (w[i], w[j]) in pairs
  }

  ghost predicate ChainTo<T(!new)>(pairs: seq<(T, T)>, w: seq<T>, x: T) {
    Chain(pairs, w) && w[|w| - 1] == x
  }

  ghost predicate OnCycle<T(!new)>(pairs: seq<(T, T)>, c: T) {
    exists w :: ChainTo(pairs, w, c) && |w| >= 2 && w[0] == c
  }

  /** `x` lies on a cycle or is reachable from one. */
  ghost predicate AfterCycle<T(!new)>(pairs: seq<(T, T)>, x: T) {
    exists w :: ChainTo(pairs, w, x) && OnCycle(pairs, w[0])
  }

  ghost predicate Acyclic<T(!new)>(pairs: seq<(T, T)>) {
    forall c :: !OnCycle(pairs, c)
  }

  /** Each element of `s` comes after all its parents. */
  ghost predicate ParentsFirst<T(!new)>(pairs: seq<(T, T)>, s: seq<T>) {
    forall k, u :: 0 <= k < |s| && (u, s[k]) in pairs ==> u in s[..k]
  }

  // ----- counts and child lists

  ghost function ChildrenOf<T(!new)>(pairs: seq<(T, T)>, p: T): (c: seq<T>)
    ensures forall x :: x in c <==> (p, x) in pairs
  {
    if pairs == [] then [] else
      var pr := pairs[|pairs| - 1];
      assert pairs == pairs[..|pairs| - 1] + [pr];
      ChildrenOf(pairs[..|pairs| - 1], p) + if pr.0 == p then [pr.1] else []
  }

  /** The number of pairs that still hold `x` back once the parents in `done` are accounted for. */
  ghost function Pending<T(!new)>(pairs: seq<(T, T)>, done: set<T>, x: T): (n: nat)
    ensures n == 0 <==> forall u :: (u, x) in pairs ==> u in done
  {
    if pairs == [] then 0 else
      var pr := pairs[|pairs| - 1];
      assert pairs == pairs[..|pairs| - 1] + [pr];
      Pending(pairs[..|pairs| - 1], done, x) + if pr.1 == x && pr.0 !in done then 1 else 0
  }

  /** Accounting for one more parent takes off its occurrences in the child list. */
  lemma {:induction false} PendingDrop<T(!new)>(pairs: seq<(T, T)>, done: set<T>, p: T, x: T)
    requires p !in done
    ensures Pending(pairs, done + {p}, x) == Pending(pairs, done, x) - multiset(ChildrenOf(pairs, p))[x]
  {
    if pairs != [] {
      PendingDrop(pairs[..|pairs| - 1], done, p, x);
    }
  }

  // ----- chains

  lemma {:induction false} ChainBackIntoSorted<T(!new)>(pairs: seq<(T, T)>, s: seq<T>, w: seq<T>, k: nat)
    requires ParentsFirst(pairs, s) && k < |s| && ChainTo(pairs, w, s[k])
    ensures w[0] in s[..k + 1] && (|w| >= 2 ==> w[0] in s[..k])
  {
    if |w| >= 2 {
      var u := w[|w| - 2];
      assert (u, s[k]) in pairs;
      var k' :| 0 <= k' < k && s[k'] == u;
      ChainBackIntoSorted(pairs, s, w[..|w| - 1], k');
      assert s[..k' + 1] <= s[..k];
    }
  }

  /** A list with parents first holds nothing that lies on or after a cycle. */
  lemma SortedAvoidsCycles<T(!new)>(pairs: seq<(T, T)>, s: seq<T>, x: T)
    requires ParentsFirst(pairs, s) && Distinct(s) && x in s
    ensures !AfterCycle(pairs, x)
  {
    if w :| ChainTo(pairs, w, x) && OnCycle(pairs, w[0]) {
      var k :| 0 <= k < |s| && s[k] == x;
      ChainBackIntoSorted(pairs, s, w, k);
      var c := w[0];
      var j :| 0 <= j < |s| && s[j] == c;
      var v :| ChainTo(pairs, v, c) && |v| >= 2 && v[0] == c;
      ChainBackIntoSorted(pairs, s, v, j);
    }
  }

  ghost predicate HasParentIn<T(!new)>(pairs: seq<(T, T)>, r: set<T>, x: T) {
    exists u :: u in r && (u, x) in pairs
  }

  /** Every element of `r` has a parent in `r`. */
  ghost predicate Sourceless<T(!new)>(pairs: seq<(T, T)>, r: set<T>) {
    forall x :: x in r ==> HasParentIn(pairs, r, x)
  }

  lemma ParentIn<T(!new)>(pairs: seq<(T, T)>, r: set<T>, x: T) returns (u: T)
    requires HasParentIn(pairs, r, x)
    ensures u in r && (u, x) in pairs
  {
    u :| u in r && (u, x) in pairs;
  }

  lemma {:induction false} BackChain<T(!new)>(pairs: seq<(T, T)>, r: set<T>, x: T, n: nat) returns (w: seq<T>)
    requires Sourceless(pairs, r) && x in r
    ensures ChainTo(pairs, w, x) && |w| == n + 1 && forall y :: y in w ==> y in r
  {
    hide HasParentIn;
    if n == 0 {
      w := [x];
    } else {
      var u := ParentIn(pairs, r, x);
      var v := BackChain(pairs, r, u, n - 1);
      w := v + [x];
    }
  }

  /** A sequence longer than the set it draws from repeats an element. */
  lemma {:induction false} Pigeonhole<T(!new)>(w: seq<T>, r: set<T>) returns (i: nat, j: nat)
    requires |w| > |r| && forall y :: y in w ==> y in r
    ensures i < j < |w| && w[i] == w[j]
  {
    var last := w[|w| - 1];
    var v := w[..|w| - 1];
    if last in v {
      i :| 0 <= i < |v| && v[i] == last;
      j := |w| - 1;
    } else {
      forall y | y in v
        ensures y in r - {last}
      {
        assert y in w;
      }
      i, j := Pigeonhole(v, r - {last});
    }
  }

  /** A finite set in which everybody has a parent hangs off its cycles. */
  lemma SourcelessAfterCycle<T(!new)>(pairs: seq<(T, T)>, r: set<T>, x: T)
    requires Sourceless(pairs, r) && x in r
    ensures AfterCycle(pairs, x)
  {
    hide Sourceless, HasParentIn;
    var w := BackChain(pairs, r, x, |r|);
    var i, j := Pigeonhole(w, r);
    var loop := w[i..j + 1];
    assert ChainTo(pairs, loop, w[j]) && loop[0] == w[j];
    assert OnCycle(pairs, w[j]);
    hide OnCycle;
    assert ChainTo(pairs, w[j..], x);
  }

  lemma CycleIsAfterCycle<T(!new)>(pairs: seq<(T, T)>, c: T)
    requires OnCycle(pairs, c)
    ensures AfterCycle(pairs, c) && c in Elements(pairs)
  {
    var w :| ChainTo(pairs, w, c) && |w| >= 2 && w[0] == c;
    assert (w[|w| - 2], c) in pairs;
    assert ChainTo(pairs, [c], c);
  }

  /** Sorted elements and a sourceless residue split the elements at the cycles exactly. */
  lemma ResidueIsAfterCycle<T(!new)>(pairs: seq<(T, T)>, s: seq<T>, r: set<T>)
    requires ParentsFirst(pairs, s) && Distinct(s) && Sourceless(pairs, r)
    requires forall x :: x in Elements(pairs) ==> x in s || x in r
    ensures forall x :: x in r ==> AfterCycle(pairs, x)
    ensures forall x :: x in s ==> !AfterCycle(pairs, x)
    ensures r == {} <==> Acyclic(pairs)
  {
    hide ParentsFirst, Distinct, Sourceless, OnCycle, Elements;
    forall x | x in r
      ensures AfterCycle(pairs, x)
    {
      SourcelessAfterCycle(pairs, r, x);
    }
    forall x | x in s
      ensures !AfterCycle(pairs, x)
    {
      SortedAvoidsCycles(pairs, s, x);
    }
    if c :| OnCycle(pairs, c) {
      CycleIsAfterCycle(pairs, c);
    }
    if x :| x in r {
      assert AfterCycle(pairs, x);
    }
  }

  // ----- what leads into a cycle

  /** Some chain starts at `x` and ends on a cycle. */
  ghost predicate LeadsToCycle<T(!new)>(pairs: seq<(T, T)>, x: T) {
    exists w :: Chain(pairs, w) && w[0] == x && OnCycle(pairs, w[|w| - 1])
  }

  ghost predicate HasChildIn<T(!new)>(pairs: seq<(T, T)>, r: set<T>, x: T) {
    exists u :: u in r && (x, u) in pairs
  }

  /** Every element of `r` has a child in `r`. */
  ghost predicate Sinkless<T(!new)>(pairs: seq<(T, T)>, r: set<T>) {
    forall x :: x in r ==> HasChildIn(pairs, r, x)
  }

  lemma ChildIn<T(!new)>(pairs: seq<(T, T)>, r: set<T>, x: T) returns (u: T)
    requires HasChildIn(pairs, r, x)
    ensures u in r && (x, u) in pairs
  {
    u :| u in r && (x, u) in pairs;
  }

  lemma {:induction false} ForwardChain<T(!new)>(pairs: seq<(T, T)>, r: set<T>, x: T, n: nat) returns (w: seq<T>)
    requires Sinkless(pairs, r) && x in r
    ensures Chain(pairs, w) && w[0] == x && |w| == n + 1 && forall y :: y in w ==> y in r
  {
    hide HasChildIn;
    if n == 0 {
      w := [x];
    } else {
      var u := ChildIn(pairs, r, x);
      var v := ForwardChain(pairs, r, u, n - 1);
      w := [x] + v;
    }
  }

  /** In a finite set where everybody has a child, everybody runs into a cycle. */
  lemma SinklessLeadsToCycle<T(!new)>(pairs: seq<(T, T)>, r: set<T>, x: T)
    requires Sinkless(pairs, r) && x in r
    ensures LeadsToCycle(pairs, x)
  {
    hide Sinkless, HasChildIn;
    var w := ForwardChain(pairs, r, x, |r|);
    var i, j := Pigeonhole(w, r);
    var loop := w[i..j + 1];
    assert ChainTo(pairs, loop, w[j]) && loop[0] == w[j];
    assert OnCycle(pairs, w[j]);
    hide OnCycle;
    assert Chain(pairs, w[..j + 1]);
  }

  lemma LeadsToCycleHasChild<T(!new)>(pairs: seq<(T, T)>, x: T)
    requires LeadsToCycle(pairs, x)
    ensures ChildrenOf(pairs, x) != []
  {
    var w :| Chain(pairs, w) && w[0] == x && OnCycle(pairs, w[|w| - 1]);
    var v := w;
    if |w| == 1 {
      v :| ChainTo(pairs, v, x) && |v| >= 2 && v[0] == x;
    }
    assert (v[0], v[1]) in pairs;
    assert v[1] in ChildrenOf(pairs, x);
  }

  lemma AfterCycleExtends<T(!new)>(pairs: seq<(T, T)>, x: T, u: T)
    requires AfterCycle(pairs, x) && (x, u) in pairs
    ensures AfterCycle(pairs, u)
  {
    hide OnCycle;
    var w :| ChainTo(pairs, w, x) && OnCycle(pairs, w[0]);
    assert ChainTo(pairs, w + [u], u);
  }
}
