/** The elementary-cycle enumerator `find_cycles` of topsort.py. */
module FindCycles {
  import opened Lists
  import opened Wrappers
  import opened Rotation

  /** `parent_children`: a node without an entry is a leaf, as the KeyError handler treats it. */
  type Graph<T> = map<T, seq<T>>

  ghost predicate Edge<T>(g: Graph<T>, u: T, v: T) {
    u in g && v in g[u]
  }

  /** The last vertex of a path. */
  function End<T>(p: seq<T>): T
    requires p != []
  {
    p[|p| - 1]
  }

  function Children<T(==)>(g: Graph<T>, u: T): seq<T> {
    if u in g then g[u] else []
  }

  ghost predicate Path<T>(g: Graph<T>, p: seq<T>) {
    p != [] && forall i, j :: 0 <= i && j == i + 1 && j < |p| ==> Edge(g, p[i], p[j])
  }

  ghost predicate SimplePath<T>(g: Graph<T>, root: T, p: seq<T>) {
    Path(g, p) && Distinct(p) && p[0] == root
  }

  ghost predicate ElementaryCycle<T>(g: Graph<T>, c: seq<T>) {
    Path(g, c) && Distinct(c) && Edge(g, c[|c| - 1], c[0])
  }

  /** Some reported cycle is `c` up to rotation. */
  ghost predicate Found<T>(cycles: seq<seq<T>>, c: seq<T>) {
    exists i :: 0 <= i < |cycles| && Rotated(cycles[i], c)
  }

  function IndexOf<T(==)>(p: seq<T>, x: T): (k: nat)
    requires x in p
    ensures k < |p| && p[k] == x && x !in p[..k]
  {
    if p[0] == x then 0 else
      var k := IndexOf(p[1..], x);
      assert p[..k + 1] == [p[0]] + p[1..][..k];
      k + 1
  }

  lemma FoundRotated<T>(cycles: seq<seq<T>>, c: seq<T>, d: seq<T>)
    requires Found(cycles, c) && Rotated(c, d)
    ensures Found(cycles, d)
  {
    var i :| 0 <= i < |cycles| && Rotated(cycles[i], c);
    RotatedTransitive(cycles[i], c, d);
  }

  lemma FoundGrows<T>(cycles: seq<seq<T>>, more: seq<seq<T>>, c: seq<T>)
    requires Found(cycles, c) && cycles <= more
    ensures Found(more, c)
  {
    var i :| 0 <= i < |cycles| && Rotated(cycles[i], c);
    assert more[i] == cycles[i];
  }

  // ----- what one depth-first exploration leaves behind

  /** A closing child is a found cycle, any other child a pushed path. */
  ghost predicate Handled<T>(p: seq<T>, child: T, cycles: seq<seq<T>>, finished: set<seq<T>>, stack: seq<seq<T>>) {
    if child in p then Found(cycles, p[IndexOf(p, child)..])
    else p + [child] in finished || p + [child] in stack
  }

  /** The first `n` children of the end of `p` are handled. */
  ghost predicate Expanded<T>(g: Graph<T>, p: seq<T>, n: nat, cycles: seq<seq<T>>,
                              finished: set<seq<T>>, stack: seq<seq<T>>)
    requires p != []
  {
    && n <= |Children(g, End(p))|
    && forall i :: 0 <= i < n ==> Handled(p, Children(g, End(p))[i], cycles, finished, stack)
  }

  ghost predicate AllExpanded<T>(g: Graph<T>, cycles: seq<seq<T>>, finished: set<seq<T>>, stack: seq<seq<T>>) {
    forall p :: p in finished ==> p != [] && Expanded(g, p, |Children(g, End(p))|, cycles, finished, stack)
  }

  lemma ExpandedChild<T>(g: Graph<T>, p: seq<T>, child: T, cycles: seq<seq<T>>, finished: set<seq<T>>)
    requires p in finished && p != [] && AllExpanded(g, cycles, finished, [])
    requires Edge(g, p[|p| - 1], child)
    ensures Handled(p, child, cycles, finished, [])
  {
    var i :| 0 <= i < |Children(g, End(p))| && Children(g, End(p))[i] == child;
    assert Expanded(g, p, |Children(g, End(p))|, cycles, finished, []);
  }

  /** With an empty stack every simple path from the root has been explored. */
  lemma {:induction false} EverySimplePathFinished<T>(g: Graph<T>, root: T, p: seq<T>, cycles: seq<seq<T>>,
                                                      finished: set<seq<T>>)
    requires [root] in finished && AllExpanded(g, cycles, finished, [])
    requires SimplePath(g, root, p)
    ensures p in finished
    decreases |p|
  {
    if |p| == 1 {
      assert p == [root];
    } else {
      var q := p[..|p| - 1];
      assert SimplePath(g, root, q);
      assert p == q + [p[|p| - 1]];
      assert Edge(g, p[|p| - 2], p[|p| - 1]) && p[|p| - 1] !in q;
      hide AllExpanded, Path, Distinct, Edge;
      EverySimplePathFinished(g, root, q, cycles, finished);
      ExpandedChild(g, q, p[|p| - 1], cycles, finished);
    }
  }

  /** The first vertex of `q` that lies on `c`. */
  lemma {:induction false} FirstContact<T>(q: seq<T>, c: seq<T>) returns (i: nat)
    requires q != [] && q[|q| - 1] in c
    ensures i < |q| && q[i] in c && forall k :: 0 <= k < i ==> q[k] !in c
  {
    i := 0;
    while q[i] !in c
      invariant i < |q| && forall k :: 0 <= k < i ==> q[k] !in c
      decreases |q| - i
    {
      i := i + 1;
    }
  }

  lemma RotatedCycle<T>(g: Graph<T>, c: seq<T>, j: nat)
    requires ElementaryCycle(g, c) && j < |c|
    ensures var d := c[j..] + c[..j];
      ElementaryCycle(g, d) && Rotated(c, d) && d[0] == c[j] && (forall x :: x in d <==> x in c)
  {
    var d := c[j..] + c[..j];
    assert RotatedBy(c, d, j);
    forall i | 0 <= i < |d| - 1
      ensures Edge(g, d[i], d[i + 1])
    {
      if i + j < |c| - 1 {
        assert d[i] == c[i + j] && d[i + 1] == c[i + j + 1];
      } else if i + j == |c| - 1 {
        assert d[i] == c[|c| - 1] && d[i + 1] == c[0];
      } else {
        assert d[i] == c[i + j - |c|] && d[i + 1] == c[i + j + 1 - |c|];
      }
    }
    if j > 0 {
      assert d[|d| - 1] == c[j - 1];
    }
    forall x ensures x in d <==> x in c {
      if x in c {
        var k :| 0 <= k < |c| && c[k] == x;
        assert d[if k >= j then k - j else k + |c| - j] == x;
      }
    }
  }

  /** Prolonging a path that first meets a cycle at its end by the rest of that cycle keeps it simple. */
  lemma PathIntoCycle<T>(g: Graph<T>, root: T, p: seq<T>, d: seq<T>)
    requires SimplePath(g, root, p) && ElementaryCycle(g, d) && p[|p| - 1] == d[0]
    requires forall k :: 0 <= k < |p| - 1 ==> p[k] !in d
    ensures SimplePath(g, root, p + d[1..])
  {
    var r := p + d[1..];
    forall i | 0 <= i < |r| - 1
      ensures Edge(g, r[i], r[i + 1])
    {
      if i >= |p| - 1 {
        assert r[i] == d[i - |p| + 1] && r[i + 1] == d[i - |p| + 2];
      }
    }
    forall i, j | 0 <= i < j < |r|
      ensures r[i] != r[j]
    {
      if j >= |p| {
        assert r[j] == d[j - |p| + 1];
        if i >= |p| - 1 {
          assert r[i] == d[i - |p| + 1];
        }
      }
    }
  }

  lemma IndexOfIs<T>(p: seq<T>, i: nat)
    requires Distinct(p) && i < |p|
    ensures IndexOf(p, p[i]) == i
  {
  }

  /** A cycle whose prolonged path is finished has been found. */
  lemma ClosedCycleFound<T>(g: Graph<T>, p: seq<T>, d: seq<T>, cycles: seq<seq<T>>, finished: set<seq<T>>)
    requires AllExpanded(g, cycles, finished, [])
    requires p != [] && ElementaryCycle(g, d) && p[|p| - 1] == d[0]
    requires p + d[1..] in finished && Distinct(p + d[1..])
    ensures Found(cycles, d)
  {
    var r := p + d[1..];
    var i := |p| - 1;
    assert r[i] == d[0] && r[|r| - 1] == d[|d| - 1] && Edge(g, d[|d| - 1], d[0]);
    hide AllExpanded, ElementaryCycle, Edge, Found, IndexOf;
    assert r[i..] == d;
    ExpandedChild(g, r, d[0], cycles, finished);
    IndexOfIs(r, i);
  }

  lemma SimplePrefix<T>(g: Graph<T>, root: T, q: seq<T>, i: nat)
    requires SimplePath(g, root, q) && i < |q|
    ensures SimplePath(g, root, q[..i + 1])
  {
  }

  /** Every elementary cycle that a finished root can reach has been found. */
  lemma ReachableCycleFound<T>(g: Graph<T>, root: T, q: seq<T>, c: seq<T>, cycles: seq<seq<T>>, finished: set<seq<T>>)
    requires [root] in finished && AllExpanded(g, cycles, finished, [])
    requires SimplePath(g, root, q) && ElementaryCycle(g, c) && q[|q| - 1] in c
    ensures Found(cycles, c)
  {
    assert q != [];
    hide AllExpanded, Found, Path, Edge, ElementaryCycle, Rotated;
    var i := FirstContact(q, c);
    var j :| 0 <= j < |c| && c[j] == q[i];
    var d := c[j..] + c[..j];
    RotatedCycle(g, c, j);
    var p := q[..i + 1];
    SimplePrefix(g, root, q, i);
    PathIntoCycle(g, root, p, d);
    EverySimplePathFinished(g, root, p + d[1..], cycles, finished);
    ClosedCycleFound(g, p, d, cycles, finished);
    RotatedSymmetric(c, d);
    FoundRotated(cycles, d, c);
  }

  /** All cycles through `v` have been found. */
  ghost predicate Covered<T(!new)>(g: Graph<T>, cycles: seq<seq<T>>, v: T) {
    forall c :: ElementaryCycle(g, c) && v in c ==> Found(cycles, c)
  }

  lemma CoveredGrows<T(!new)>(g: Graph<T>, cycles: seq<seq<T>>, more: seq<seq<T>>, v: T)
    requires Covered(g, cycles, v) && cycles <= more
    ensures Covered(g, more, v)
  {
    forall c | ElementaryCycle(g, c) && v in c
      ensures Found(more, c)
    {
      FoundGrows(cycles, more, c);
    }
  }

  // ----- termination: the weight of the stack

  ghost function Nodes<T>(g: Graph<T>): set<T> {
    g.Keys + set u, v | u in g && v in g[u] :: v
  }

  ghost function Scaled(count: nat, w: nat): nat {
    if count == 0 then 0 else Scaled(count - 1, w) + w
  }

  lemma {:induction false} ScaledMonotone(count: nat, more: nat, w: nat)
    requires count <= more
    ensures Scaled(count, w) <= Scaled(more, w)
    decreases more
  {
    if count < more {
      ScaledMonotone(count, more - 1, w);
    }
  }

  ghost function Weight(degree: nat, depth: nat): (w: nat)
    ensures w >= 1
  {
    if depth == 0 then 1 else Scaled(degree, Weight(degree, depth - 1)) + 1
  }

  ghost function StackWeight<T>(degree: nat, depth: nat, stack: seq<seq<T>>): nat {
    if stack == [] then 0
    else
      var top := stack[|stack| - 1];
      StackWeight(degree, depth, stack[..|stack| - 1]) + if |top| <= depth then Weight(degree, depth - |top|) else 0
  }

  lemma PathInNodes<T>(g: Graph<T>, p: seq<T>)
    requires Path(g, p) && p[0] in g
    ensures forall x :: x in p ==> x in Nodes(g)
  {
    forall i | 0 <= i < |p|
      ensures p[i] in Nodes(g)
    {
      if i > 0 {
        assert Edge(g, p[i - 1], p[i]);
      }
    }
  }

  ghost function {:induction false} MaxDegree<T(!new)>(g: Graph<T>): (m: nat)
    ensures forall u :: u in g ==> |g[u]| <= m
    decreases |g|
  {
    if g == map[] then 0 else
      var u :| u in g;
      var rest := g - {u};
      assert rest.Keys == g.Keys - {u};
      assert |rest| < |g|;
      var m := MaxDegree(rest);
      assert forall v :: v in g && v != u ==> v in rest && rest[v] == g[v];
      if m < |g[u]| then |g[u]| else m
  }

  // ----- the enumerator

  /** `is_dup`: whether a cycle equal to `cycle` up to rotation was reported before. */
  method IsDuplicate<T(==)>(cycles: seq<seq<T>>, cycle: seq<T>) returns (isDup: bool)
    requires cycle != []
    ensures isDup <==> Found(cycles, cycle)
  {
    isDup := false;
    for i := 0 to |cycles|
      invariant forall j :: 0 <= j < i ==> !Rotated(cycles[j], cycle)
    {
      var rotated := IsRotated(cycles[i], cycle);
      if rotated.value {
        return true;
      }
    }
  }

  ghost predicate Sound<T>(g: Graph<T>, cycles: seq<seq<T>>) {
    && (forall i :: 0 <= i < |cycles| ==> ElementaryCycle(g, cycles[i]))
    && (forall i, j :: 0 <= i < j < |cycles| ==> !Rotated(cycles[i], cycles[j]))
  }

  /** The `k`-th child of the end of a simple path closes an elementary cycle when it is on the path. */
  lemma ClosingChild<T>(g: Graph<T>, root: T, p: seq<T>, k: nat)
    requires SimplePath(g, root, p) && k < |Children(g, End(p))| && Children(g, End(p))[k] in p
    ensures ElementaryCycle(g, p[IndexOf(p, Children(g, End(p))[k])..])
  {
    var child := Children(g, End(p))[k];
    assert Edge(g, End(p), child);
    var c := p[IndexOf(p, child)..];
    assert c[|c| - 1] == End(p);
  }

  lemma HandledGrows<T>(p: seq<T>, child: T, cycles: seq<seq<T>>, finished: set<seq<T>>, stack: seq<seq<T>>,
                        cycles': seq<seq<T>>, finished': set<seq<T>>, stack': seq<seq<T>>)
    requires Handled(p, child, cycles, finished, stack) && cycles <= cycles'
    requires forall q :: q in finished || q in stack ==> q in finished' || q in stack'
    ensures Handled(p, child, cycles', finished', stack')
  {
    if child in p {
      FoundGrows(cycles, cycles', p[IndexOf(p, child)..]);
    }
  }

  lemma ExpandedGrows<T>(g: Graph<T>, p: seq<T>, n: nat, cycles: seq<seq<T>>, finished: set<seq<T>>, stack: seq<seq<T>>,
                         cycles': seq<seq<T>>, finished': set<seq<T>>, stack': seq<seq<T>>)
    requires p != [] && Expanded(g, p, n, cycles, finished, stack) && cycles <= cycles'
    requires forall q :: q in finished || q in stack ==> q in finished' || q in stack'
    ensures Expanded(g, p, n, cycles', finished', stack')
  {
    forall i | 0 <= i < n
      ensures Handled(p, Children(g, End(p))[i], cycles', finished', stack')
    {
      HandledGrows(p, Children(g, End(p))[i], cycles, finished, stack, cycles', finished', stack');
    }
  }

  ghost predicate Reached<T(!new)>(g: Graph<T>, root: T, v: T) {
    exists q :: SimplePath(g, root, q) && End(q) == v
  }

  ghost predicate NewlyReached<T(!new)>(g: Graph<T>, root: T, visited: set<T>, visited': set<T>) {
    visited <= visited' && forall v :: v in visited' && v !in visited ==> Reached(g, root, v)
  }

  ghost predicate AllSimple<T>(g: Graph<T>, root: T, stack: seq<seq<T>>) {
    forall i :: 0 <= i < |stack| ==> SimplePath(g, root, stack[i])
  }

  /** Keeps a cycle unless a rotation of it is already kept. */
  method ReportCycle<T(==)>(g: Graph<T>, cycles: seq<seq<T>>, cycle: seq<T>) returns (cycles': seq<seq<T>>)
    requires Sound(g, cycles) && ElementaryCycle(g, cycle)
    ensures Sound(g, cycles') && cycles <= cycles' && Found(cycles', cycle)
    ensures Found(cycles, cycle) ==> cycles' == cycles
  {
    cycles' := cycles;
    var isDup := IsDuplicate(cycles, cycle);
    if !isDup {
      cycles' := cycles + [cycle];
      RotatedReflexive(cycle);
      assert cycles'[|cycles|] == cycle;
    }
  }

  /** Pushing the path prolonged by its `k`-th child. */
  lemma PushChild<T(!new)>(g: Graph<T>, root: T, path: seq<T>, k: nat, degree: nat, depth: nat, stack: seq<seq<T>>,
                           visited: set<T>, visited': set<T>)
    requires SimplePath(g, root, path) && |path| < depth && k < |Children(g, End(path))|
    requires Children(g, End(path))[k] !in path
    requires AllSimple(g, root, stack) && NewlyReached(g, root, visited, visited')
    ensures var child := Children(g, End(path))[k];
      && AllSimple(g, root, stack + [path + [child]])
      && NewlyReached(g, root, visited, visited' + {child})
      && Handled(path, child, [], {}, stack + [path + [child]])
      && StackWeight(degree, depth, stack + [path + [child]])
         == StackWeight(degree, depth, stack) + Weight(degree, depth - |path| - 1)
  {
    var child := Children(g, End(path))[k];
    var longer := path + [child];
    assert Edge(g, End(path), child);
    assert SimplePath(g, root, longer) && End(longer) == child;
    assert (stack + [longer])[..|stack|] == stack;
    assert (stack + [longer])[|stack|] == longer;
  }

  /** Every simple path from `root` is shorter than `depth`. */
  ghost predicate DepthBound<T(!new)>(g: Graph<T>, root: T, depth: nat) {
    forall p :: SimplePath(g, root, p) ==> |p| < depth
  }

  lemma ExpandOne<T>(g: Graph<T>, p: seq<T>, k: nat, cycles: seq<seq<T>>, stack: seq<seq<T>>,
                     found: seq<seq<T>>, cycles': seq<seq<T>>, stack': seq<seq<T>>)
    requires p != [] && Expanded(g, p, k, cycles, {}, stack) && cycles <= cycles' && stack <= stack'
    requires k < |Children(g, End(p))| && Handled(p, Children(g, End(p))[k], found, {}, stack') && found <= cycles'
    ensures Expanded(g, p, k + 1, cycles', {}, stack')
  {
    HandledGrows(p, Children(g, End(p))[k], found, {}, stack', cycles', {}, stack');
    ExpandedGrows(g, p, k, cycles, {}, stack, cycles', {}, stack');
  }

  lemma ClosedChildHandled<T>(p: seq<T>, child: T, cycles: seq<seq<T>>, stack: seq<seq<T>>)
    requires child in p && Found(cycles, p[IndexOf(p, child)..])
    ensures Handled(p, child, cycles, {}, stack)
  {
  }

  /** What the loop over the children keeps after `k` of them, starting from the pre-state `c0`, `s0`, `v0`. */
  ghost predicate Expanding<T(!new)>(g: Graph<T>, root: T, path: seq<T>, k: nat, degree: nat, depth: nat,
                                     c0: seq<seq<T>>, s0: seq<seq<T>>, v0: set<T>, cycles: seq<seq<T>>,
                                     stack: seq<seq<T>>, visited: set<T>)
  {
    && SimplePath(g, root, path) && |path| < depth && k <= |Children(g, End(path))|
    && Sound(g, cycles) && c0 <= cycles
    && s0 <= stack && AllSimple(g, root, stack)
    && Expanded(g, path, k, cycles, {}, stack)
    && NewlyReached(g, root, v0, visited)
    && StackWeight(degree, depth, stack) <= StackWeight(degree, depth, s0) +
         Scaled(k, Weight(degree, depth - |path| - 1))
  }

  lemma ExpandingStart<T(!new)>(g: Graph<T>, root: T, path: seq<T>, degree: nat, depth: nat, c0: seq<seq<T>>,
                                s0: seq<seq<T>>, v0: set<T>)
    requires SimplePath(g, root, path) && DepthBound(g, root, depth) && Sound(g, c0) && AllSimple(g, root, s0)
    ensures Expanding(g, root, path, 0, degree, depth, c0, s0, v0, c0, s0, v0)
    ensures path != []
  {
  }

  lemma ExpandingClosed<T(!new)>(g: Graph<T>, root: T, path: seq<T>, k: nat, degree: nat, depth: nat, c0: seq<seq<T>>,
                                 s0: seq<seq<T>>, v0: set<T>,
                                 cycles: seq<seq<T>>, cycles': seq<seq<T>>, stack: seq<seq<T>>, visited: set<T>)
    requires Expanding(g, root, path, k, degree, depth, c0, s0, v0, cycles, stack, visited)
    requires k < |Children(g, End(path))| && Children(g, End(path))[k] in path
    requires Sound(g, cycles') && cycles <= cycles' && Found(cycles', path[IndexOf(path, Children(g, End(path))[k])..])
    ensures Expanding(g, root, path, k + 1, degree, depth, c0, s0, v0, cycles', stack, visited)
  {
    hide AllSimple, NewlyReached, Sound, Expanded, Found;
    ClosedChildHandled(path, Children(g, End(path))[k], cycles', stack);
    ExpandOne(g, path, k, cycles, stack, cycles', cycles', stack);
  }

  lemma ExpandingPushed<T(!new)>(g: Graph<T>, root: T, path: seq<T>, k: nat, degree: nat, depth: nat, c0: seq<seq<T>>,
                                 s0: seq<seq<T>>, v0: set<T>,
                                 cycles: seq<seq<T>>, stack: seq<seq<T>>, visited: set<T>)
    requires Expanding(g, root, path, k, degree, depth, c0, s0, v0, cycles, stack, visited)
    requires k < |Children(g, End(path))| && Children(g, End(path))[k] !in path
    ensures var child := Children(g, End(path))[k];
      Expanding(g, root, path, k + 1, degree, depth, c0, s0, v0, cycles, stack + [path + [child]], visited + {child})
  {
    hide AllSimple, NewlyReached, Sound, Expanded, Found;
    PushChild(g, root, path, k, degree, depth, stack, v0, visited);
    ExpandOne(g, path, k, cycles, stack, [], cycles, stack + [path + [Children(g, End(path))[k]]]);
  }

  lemma ExpandingEnd<T(!new)>(g: Graph<T>, root: T, path: seq<T>, degree: nat, depth: nat, c0: seq<seq<T>>,
                              s0: seq<seq<T>>, v0: set<T>,
                              cycles: seq<seq<T>>, stack: seq<seq<T>>, visited: set<T>)
    requires path != []
    requires Expanding(g, root, path, |Children(g, End(path))|, degree, depth, c0, s0, v0, cycles, stack, visited)
    requires |Children(g, End(path))| <= degree
    ensures |path| < depth
    ensures StackWeight(degree, depth, stack) < StackWeight(degree, depth, s0) + Weight(degree, depth - |path|)
  {
    ScaledMonotone(|Children(g, End(path))|, degree, Weight(degree, depth - |path| - 1));
  }

  /** Of the first `k` children, exactly those off the path have joined the visited nodes. */
  ghost predicate Marked<T(!new)>(children: seq<T>, path: seq<T>, k: nat, visited: set<T>, visited': set<T>) {
    k <= |children| && forall v :: v in visited' <==> v in visited || (v in children[..k] && v !in path)
  }

  lemma MarkNext<T(!new)>(children: seq<T>, path: seq<T>, k: nat, visited: set<T>, visited': set<T>)
    requires Marked(children, path, k, visited, visited') && k < |children|
    ensures Marked(children, path, k + 1, visited, if children[k] in path then visited' else visited' + {children[k]})
  {
    assert children[..k + 1] == children[..k] + [children[k]];
  }

  lemma AllMarked<T(!new)>(children: seq<T>, path: seq<T>, visited: set<T>, visited': set<T>)
    requires Marked(children, path, |children|, visited, visited')
    ensures forall v :: v in visited' <==> v in visited || (v in children && v !in path)
  {
    assert children[..|children|] == children;
  }

  /** The loop over the children of the end of one popped path. */
  method ExpandPath<T(==,!new)>(g: Graph<T>, root: T, path: seq<T>, cycles: seq<seq<T>>, paths: seq<seq<T>>,
                                visitedNodes: set<T>,
                                ghost degree: nat, ghost depth: nat)
    returns (cycles': seq<seq<T>>, paths': seq<seq<T>>, visitedNodes': set<T>)
    requires SimplePath(g, root, path) && Sound(g, cycles) && AllSimple(g, root, paths)
    requires DepthBound(g, root, depth)
    ensures Expanding(g, root, path, |Children(g, End(path))|, degree, depth, cycles, paths, visitedNodes, cycles',
                      paths', visitedNodes')
    ensures forall v :: v in visitedNodes' <==> v in visitedNodes || (v in Children(g, End(path)) && v !in path)
  {
    ExpandingStart(g, root, path, degree, depth, cycles, paths, visitedNodes);
    assert Marked(Children(g, End(path)), path, 0, visitedNodes, visitedNodes);
    hide *;
    cycles', paths', visitedNodes' := cycles, paths, visitedNodes;
    var children := Children(g, End(path));
    for k := 0 to |children|
      invariant Sound(g, cycles')
      invariant Expanding(g, root, path, k, degree, depth, cycles, paths, visitedNodes, cycles', paths', visitedNodes')
      invariant Marked(children, path, k, visitedNodes, visitedNodes')
    {
      MarkNext(children, path, k, visitedNodes, visitedNodes');
      if children[k] in path {
        ghost var cyclesBefore := cycles';
        ClosingChild(g, root, path, k);
        cycles' := ReportCycle(g, cycles', path[IndexOf(path, children[k])..]);
        ExpandingClosed(g, root, path, k, degree, depth, cycles, paths, visitedNodes, cyclesBefore, cycles', paths',
                        visitedNodes');
      } else {
        ExpandingPushed(g, root, path, k, degree, depth, cycles, paths, visitedNodes, cycles', paths', visitedNodes');
        paths' := paths' + [path + [children[k]]];
        visitedNodes' := visitedNodes' + {children[k]};
      }
    }
    AllMarked(children, path, visitedNodes, visitedNodes');
  }

  /** Popping and expanding one path keeps every finished path expanded. */
  lemma PopKeepsExpanded<T>(g: Graph<T>, cycles: seq<seq<T>>, finished: set<seq<T>>, rest: seq<seq<T>>, path: seq<T>,
                            cycles': seq<seq<T>>, paths': seq<seq<T>>)
    requires AllExpanded(g, cycles, finished, rest + [path]) && cycles <= cycles' && rest <= paths'
    requires path != [] && Expanded(g, path, |Children(g, End(path))|, cycles', {}, paths')
    ensures AllExpanded(g, cycles', finished + {path}, paths')
  {
    ExpandedGrows(g, path, |Children(g, End(path))|, cycles', {}, paths', cycles', finished + {path}, paths');
    forall p | p in finished
      ensures p != [] && Expanded(g, p, |Children(g, End(p))|, cycles', finished + {path}, paths')
    {
      ExpandedGrows(g, p, |Children(g, End(p))|, cycles, finished, rest + [path], cycles', finished + {path}, paths');
    }
  }

  lemma DepthOfNodes<T(!new)>(g: Graph<T>, root: T)
    requires root in g
    ensures DepthBound(g, root, |Nodes(g)| + 1)
  {
    forall p | SimplePath(g, root, p)
      ensures |p| <= |Nodes(g)|
    {
      PathInNodes(g, p);
      DistinctFits(p, Nodes(g));
    }
  }

  lemma ExplorationCovers<T(!new)>(g: Graph<T>, root: T, v: T, cycles: seq<seq<T>>, finished: set<seq<T>>)
    requires [root] in finished && AllExpanded(g, cycles, finished, []) && Reached(g, root, v)
    ensures Covered(g, cycles, v)
  {
    var q :| SimplePath(g, root, q) && End(q) == v;
    forall c | ElementaryCycle(g, c) && v in c
      ensures Found(cycles, c)
    {
      ReachableCycleFound(g, root, q, c, cycles, finished);
    }
  }

  /** What the exploration of `root` keeps, starting from `c0` and `v0`. */
  ghost predicate Exploring<T(!new)>(g: Graph<T>, root: T, c0: seq<seq<T>>, v0: set<T>,
                                     cycles: seq<seq<T>>, stack: seq<seq<T>>, visited: set<T>, finished: set<seq<T>>)
  {
    && Sound(g, cycles) && c0 <= cycles
    && AllSimple(g, root, stack)
    && ([root] in finished || [root] in stack)
    && AllExpanded(g, cycles, finished, stack)
    && NewlyReached(g, root, v0, visited)
  }

  lemma ExploringStart<T(!new)>(g: Graph<T>, root: T, c0: seq<seq<T>>, v0: set<T>)
    requires root in g && Sound(g, c0)
    ensures Exploring(g, root, c0, v0, c0, [[root]], v0, {})
  {
    assert SimplePath(g, root, [root]);
    assert [root] in [[root]];
  }

  lemma ExploringStep<T(!new)>(g: Graph<T>, root: T, degree: nat, depth: nat, c0: seq<seq<T>>, v0: set<T>,
                               cycles: seq<seq<T>>, rest: seq<seq<T>>, path: seq<T>, visited: set<T>,
                               finished: set<seq<T>>,
                               cycles': seq<seq<T>>, stack': seq<seq<T>>, visited': set<T>)
    requires Exploring(g, root, c0, v0, cycles, rest + [path], visited, finished) && path != []
    requires Expanding(g, root, path, |Children(g, End(path))|, degree, depth, cycles, rest, visited, cycles', stack',
                       visited')
    ensures Exploring(g, root, c0, v0, cycles', stack', visited', finished + {path})
  {
    hide AllSimple, Sound, Expanded, Found, AllExpanded, SimplePath, Reached, StackWeight;
    PopKeepsExpanded(g, cycles, finished, rest, path, cycles', stack');
  }

  lemma ExploringEnd<T(!new)>(g: Graph<T>, root: T, c0: seq<seq<T>>, v0: set<T>, cycles: seq<seq<T>>, visited: set<T>,
                              finished: set<seq<T>>)
    requires root in g && Exploring(g, root, c0, v0, cycles, [], visited, finished)
    ensures Sound(g, cycles) && c0 <= cycles
    ensures forall v :: v == root || (v in visited && v !in v0) ==> Covered(g, cycles, v)
  {
    assert SimplePath(g, root, [root]) && End([root]) == root;
    assert Reached(g, root, root);
    hide AllSimple, Sound, AllExpanded, SimplePath, Reached, Covered;
    forall v | v == root || (v in visited && v !in v0)
      ensures Covered(g, cycles, v)
    {
      ExplorationCovers(g, root, v, cycles, finished);
    }
  }

  lemma PopWeight<T(!new)>(g: Graph<T>, root: T, degree: nat, depth: nat, stack: seq<seq<T>>)
    requires stack != [] && AllSimple(g, root, stack) && DepthBound(g, root, depth)
    ensures var path, rest := stack[|stack| - 1], stack[..|stack| - 1];
      && stack == rest + [path] && SimplePath(g, root, path) && AllSimple(g, root, rest) && path != [] && |path| < depth
      && StackWeight(degree, depth, stack) == StackWeight(degree, depth, rest) + Weight(degree, depth - |path|)
  {
  }

  /** The depth-first exploration from one root. */
  method ExploreRoot<T(==,!new)>(g: Graph<T>, root: T, cycles: seq<seq<T>>, visitedNodes: set<T>)
    returns (cycles': seq<seq<T>>, visitedNodes': set<T>)
    requires root in g && Sound(g, cycles)
    ensures Sound(g, cycles') && cycles <= cycles'
    ensures forall v :: v == root || (v in visitedNodes' && v !in visitedNodes) ==> Covered(g, cycles', v)
  {
    hide *;
    cycles', visitedNodes' := cycles, visitedNodes;
    var paths := [[root]];
    ghost var finished: set<seq<T>> := {};
    ghost var degree, depth := MaxDegree(g), |Nodes(g)| + 1;
    DepthOfNodes(g, root);
    ExploringStart(g, root, cycles, visitedNodes);
    while paths != []
      invariant Exploring(g, root, cycles, visitedNodes, cycles', paths, visitedNodes', finished)
      decreases StackWeight(degree, depth, paths)
    {
      ghost var cyclesBefore, visitedBefore := cycles', visitedNodes';
      ExploringStack(g, root, cycles, visitedNodes, cycles', paths, visitedNodes', finished);
      PopWeight(g, root, degree, depth, paths);
      var path, rest := paths[|paths| - 1], paths[..|paths| - 1];
      cycles', paths, visitedNodes' := ExpandPath(g, root, path, cycles', rest, visitedNodes', degree, depth);
      DegreeBound(g, End(path), degree);
      ExpandingEnd(g, root, path, degree, depth, cyclesBefore, rest, visitedBefore, cycles', paths, visitedNodes');
      ExploringStep(g, root, degree, depth, cycles, visitedNodes, cyclesBefore, rest, path, visitedBefore, finished,
                    cycles', paths, visitedNodes');
      finished := finished + {path};
    }
    ExploringEnd(g, root, cycles, visitedNodes, cycles', visitedNodes', finished);
  }

  lemma DegreeBound<T(!new)>(g: Graph<T>, u: T, degree: nat)
    requires degree == MaxDegree(g)
    ensures |Children(g, u)| <= degree
  {
  }

  lemma ExploringStack<T(!new)>(g: Graph<T>, root: T, c0: seq<seq<T>>, v0: set<T>, cycles: seq<seq<T>>,
                                stack: seq<seq<T>>, visited: set<T>, finished: set<seq<T>>)
    requires Exploring(g, root, c0, v0, cycles, stack, visited, finished)
    ensures Sound(g, cycles) && AllSimple(g, root, stack)
  {
  }

  /** A cycle passes through a key of the dictionary. */
  lemma CycleStartsAtKey<T>(g: Graph<T>, c: seq<T>)
    requires ElementaryCycle(g, c)
    ensures c[0] in g
  {
    assert |c| == 1 ==> Edge(g, c[0], c[0]);
    assert |c| > 1 ==> Edge(g, c[0], c[1]);
  }

  /** `find_cycles`: `keys` is the order in which the dictionary enumerates its keys. */
  method FindCycles<T(==,!new)>(g: Graph<T>, keys: seq<T>) returns (cycles: seq<seq<T>>)
    requires forall k :: k in keys <==> k in g
    ensures forall i :: 0 <= i < |cycles| ==> ElementaryCycle(g, cycles[i])
    ensures forall i, j :: 0 <= i < j < |cycles| ==> !Rotated(cycles[i], cycles[j])
    ensures forall c :: ElementaryCycle(g, c) ==> Found(cycles, c)
  {
    cycles := [];
    var visitedNodes: set<T> := {};
    for r := 0 to |keys|
      invariant Sound(g, cycles)
      invariant forall v :: v in visitedNodes ==> Covered(g, cycles, v)
      invariant forall k :: 0 <= k < r ==> Covered(g, cycles, keys[k])
    {
      if keys[r] in visitedNodes {
        continue;
      }
      ghost var before := cycles;
      cycles, visitedNodes := ExploreRoot(g, keys[r], cycles, visitedNodes);
      forall v | Covered(g, before, v)
        ensures Covered(g, cycles, v)
      {
        CoveredGrows(g, before, cycles, v);
      }
    }
    forall c | ElementaryCycle(g, c)
      ensures Found(cycles, c)
    {
      CycleStartsAtKey(g, c);
      var k :| 0 <= k < |keys| && keys[k] == c[0];
      assert Covered(g, cycles, keys[k]);
    }
  }
}
