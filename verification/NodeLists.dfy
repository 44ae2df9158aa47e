/** How rdma-simulator.cc sorts the nodes of a topology file into lists, and the leaf numbers it recovers from node
    ids. */
module NodeLists {
  datatype Kind = Host | Optical | Electric

  function KindOf(nodeType: nat): Kind {
    if nodeType == 0 then Host else if nodeType == 2 then Optical else Electric
  }

  /** `Hosts`, `OpticalSwitches`, `ElectricSpineSwitches` and `ElectricLeafSwitches`, each node by its id. */
  datatype NodeLists = NodeLists(hosts: seq<nat>, optical: seq<nat>, spines: seq<nat>, leaves: seq<nat>)

  ghost predicate Ascending(s: seq<nat>) {
    forall i, j :: 0 <= i < j < |s| ==> s[i] < s[j]
  }

  /** `s` holds the ids below `upTo` of the nodes of one kind, in increasing order. */
  ghost predicate Lists(nodeType: seq<nat>, upTo: nat, kind: Kind, s: seq<nat>) {
    && upTo <= |nodeType| && Ascending(s)
    && forall i: nat :: i in s <==> i < upTo && KindOf(nodeType[i]) == kind
  }

  /** The lists for the nodes with ids below `upTo`: the first `spineNum` electric switches are spines. */
  ghost predicate Built(nodeType: seq<nat>, spineNum: nat, upTo: nat, ids: NodeLists) {
    && Lists(nodeType, upTo, Host, ids.hosts)
    && Lists(nodeType, upTo, Optical, ids.optical)
    && Lists(nodeType, upTo, Electric, ids.spines + ids.leaves)
    && |ids.spines| <= spineNum && (ids.leaves != [] ==> |ids.spines| == spineNum)
  }

  lemma AscendingSnoc(s: seq<nat>, x: nat)
    requires Ascending(s) && forall y :: y in s ==> y < x
    ensures Ascending(s + [x])
  {
    forall i | 0 <= i < |s|
      ensures s[i] < x
    {
      assert s[i] in s;
    }
  }

  lemma ListsSnoc(nodeType: seq<nat>, upTo: nat, kind: Kind, s: seq<nat>)
    requires Lists(nodeType, upTo, kind, s) && upTo < |nodeType|
    ensures Lists(nodeType, upTo + 1, kind, if KindOf(nodeType[upTo]) == kind then s + [upTo] else s)
  {
    hide KindOf;
    if KindOf(nodeType[upTo]) == kind {
      AscendingSnoc(s, upTo);
      hide Ascending;
      assert forall i :: i in s + [upTo] <==> i in s || i == upTo;
    }
  }

  /** The loop that creates the nodes. `spineNum` is the number of optical switches that the file's first line
      announces. */
  method BuildNodeLists(nodeType: seq<nat>, spineNum: nat) returns (ids: NodeLists)
    ensures Built(nodeType, spineNum, |nodeType|, ids)
  {
    var hosts: seq<nat>, optical: seq<nat>, spines: seq<nat>, leaves: seq<nat> := [], [], [], [];
    var electricSwitchCnt := 0;
    BuiltNothing(nodeType, spineNum);
    hide Built;
    for i := 0 to |nodeType|
      invariant electricSwitchCnt == |spines| + |leaves|
      invariant Built(nodeType, spineNum, i, NodeLists(hosts, optical, spines, leaves))
    {
      BuiltNext(nodeType, spineNum, i, NodeLists(hosts, optical, spines, leaves));
      if nodeType[i] == 0 {
        hosts := hosts + [i];
      } else if nodeType[i] == 2 {
        optical := optical + [i];
      } else {
        if electricSwitchCnt < spineNum {
          spines := spines + [i];
        } else {
          leaves := leaves + [i];
        }
        electricSwitchCnt := electricSwitchCnt + 1;
      }
    }
    return NodeLists(hosts, optical, spines, leaves);
  }

  lemma BuiltNothing(nodeType: seq<nat>, spineNum: nat)
    ensures Built(nodeType, spineNum, 0, NodeLists([], [], [], []))
  {
  }

  /** One more node goes to the end of its list. */
  lemma BuiltNext(nodeType: seq<nat>, spineNum: nat, i: nat, ids: NodeLists)
    requires Built(nodeType, spineNum, i, ids) && i < |nodeType|
    ensures var ids' :=
        match KindOf(nodeType[i])
        case Host => ids.(hosts := ids.hosts + [i])
        case Optical => ids.(optical := ids.optical + [i])
        case Electric =>
          if |ids.spines| + |ids.leaves| < spineNum then ids.(spines := ids.spines + [i])
          else ids.(leaves := ids.leaves + [i]);
      Built(nodeType, spineNum, i + 1, ids')
  {
    hide Lists, KindOf;
    ListsSnoc(nodeType, i, Host, ids.hosts);
    ListsSnoc(nodeType, i, Optical, ids.optical);
    ListsSnoc(nodeType, i, Electric, ids.spines + ids.leaves);
    assert ids.spines + ids.leaves + [i] == ids.spines + (ids.leaves + [i]);
    assert ids.leaves == [] ==> ids.spines + ids.leaves + [i] == ids.spines + [i] + ids.leaves;
  }

  /** Type 0 is a host and type 2 an optical switch; the others are electric, the first `spineNum` of them spines. */
  lemma ListedByType(nodeType: seq<nat>, spineNum: nat, ids: NodeLists, i: nat)
    requires Built(nodeType, spineNum, |nodeType|, ids) && i < |nodeType|
    ensures i in ids.hosts <==> nodeType[i] == 0
    ensures i in ids.optical <==> nodeType[i] == 2
    ensures i in ids.spines || i in ids.leaves <==> nodeType[i] != 0 && nodeType[i] != 2
    ensures i in ids.leaves ==> |ids.spines| == spineNum && forall j :: 0 <= j < spineNum ==> ids.spines[j] < i
  {
    var electric := ids.spines + ids.leaves;
    assert i in electric <==> i in ids.spines || i in ids.leaves;
    if i in ids.leaves {
      var k :| 0 <= k < |ids.leaves| && ids.leaves[k] == i;
      assert electric[|ids.spines| + k] == i;
      assert forall j :: 0 <= j < |ids.spines| ==> electric[j] == ids.spines[j];
    }
  }

  // ----- the leaf number behind a node id

  /** `b->GetId() - Hosts.size() - OpticalSwitches.size() - ElectricSpineSwitches.size()` for the `k`-th leaf. */
  function RecoveredIndex(ids: NodeLists, k: nat): int
    requires k < |ids.leaves|
  {
    ids.leaves[k] - |ids.hosts| - |ids.optical| - |ids.spines|
  }

  /** Every host and every optical switch has a smaller id than every leaf. */
  predicate LeavesLast(ids: NodeLists) {
    && (forall i, k :: 0 <= i < |ids.hosts| && 0 <= k < |ids.leaves| ==> ids.hosts[i] < ids.leaves[k])
    && (forall i, k :: 0 <= i < |ids.optical| && 0 <= k < |ids.leaves| ==> ids.optical[i] < ids.leaves[k])
  }

  ghost function Below(s: seq<nat>, x: nat): set<nat> {
    set y | y in s && y < x
  }

  lemma BelowNext(s: seq<nat>, x: nat)
    ensures |Below(s, 0)| == 0
    ensures |Below(s, x + 1)| == |Below(s, x)| + if x in s then 1 else 0
  {
    assert Below(s, 0) == {};
    assert Below(s, x + 1) == if x in s then Below(s, x) + {x} else Below(s, x);
  }

  /** Every id below `x` is in exactly one of the lists. */
  lemma {:induction false} IdsBelow(nodeType: seq<nat>, spineNum: nat, ids: NodeLists, x: nat)
    requires Built(nodeType, spineNum, |nodeType|, ids) && x <= |nodeType|
    ensures |Below(ids.hosts, x)| + |Below(ids.optical, x)| + |Below(ids.spines + ids.leaves, x)| == x
  {
    var y := if x == 0 then 0 else x - 1;
    BelowNext(ids.hosts, y);
    BelowNext(ids.optical, y);
    BelowNext(ids.spines + ids.leaves, y);
    hide Below;
    if x > 0 {
      IdsBelow(nodeType, spineNum, ids, y);
      assert (y in ids.hosts) == (KindOf(nodeType[y]) == Host);
      assert (y in ids.optical) == (KindOf(nodeType[y]) == Optical);
      assert (y in ids.spines + ids.leaves) == (KindOf(nodeType[y]) == Electric);
    }
  }

  /** Nothing lies between neighbours in an increasing list. */
  lemma NoneBetween(s: seq<nat>, k: nat, y: nat)
    requires Ascending(s) && k <= |s| && y in s && (k < |s| ==> y < s[k])
    ensures k > 0 && y <= s[k - 1]
  {
    var i :| 0 <= i < |s| && s[i] == y;
    assert i < k;
  }

  lemma BelowStep(s: seq<nat>, k: nat, x: nat)
    requires Ascending(s) && k <= |s| && (k > 0 ==> s[k - 1] < x) && (k < |s| ==> x <= s[k])
    ensures Below(s, x) == if k == 0 then {} else Below(s, s[k - 1]) + {s[k - 1]}
  {
    hide Ascending;
    forall y | y in s && y < x
      ensures k > 0 && y <= s[k - 1]
    {
      NoneBetween(s, k, y);
    }
    if k > 0 {
      assert s[k - 1] in s;
    }
  }

  /** An increasing list has `k` elements below its `k`-th one. */
  lemma {:induction false} BelowAt(s: seq<nat>, k: nat, x: nat)
    requires Ascending(s) && k <= |s| && (k > 0 ==> s[k - 1] < x) && (k < |s| ==> x <= s[k])
    ensures |Below(s, x)| == k
  {
    BelowStep(s, k, x);
    if k > 0 {
      assert k > 1 ==> s[k - 2] < s[k - 1];
      assert s[k - 1] !in Below(s, s[k - 1]);
      hide Below, Ascending;
      BelowAt(s, k - 1, s[k - 1]);
    }
  }

  /** A list is below `x` in full exactly when as many ids below `x` are in it as it is long. */
  lemma {:induction false} AllBelow(s: seq<nat>, x: nat)
    requires Ascending(s)
    ensures |Below(s, x)| <= |s|
    ensures |Below(s, x)| == |s| <==> forall i :: 0 <= i < |s| ==> s[i] < x
  {
    if s == [] || s[|s| - 1] < x {
      BelowAt(s, |s|, x);
    } else {
      var front := s[..|s| - 1];
      AllBelow(front, x);
      assert Below(s, x) == Below(front, x);
    }
  }

  /** What is subtracted from a leaf's id: its index plus the hosts and optical switches with larger ids are missing. */
  lemma RecoveredIndexIs(nodeType: seq<nat>, spineNum: nat, ids: NodeLists, k: nat)
    requires Built(nodeType, spineNum, |nodeType|, ids) && k < |ids.leaves|
    ensures var x := ids.leaves[k];
      RecoveredIndex(ids, k) == k - (|ids.hosts| - |Below(ids.hosts, x)|) - (|ids.optical| - |Below(ids.optical, x)|)
  {
    var x, electric := ids.leaves[k], ids.spines + ids.leaves;
    assert electric[|ids.spines| + k] == x;
    assert x in electric;
    IdsBelow(nodeType, spineNum, ids, x);
    BelowAt(electric, |ids.spines| + k, x);
  }

  /** The recovered number is the leaf's index for every leaf exactly when every other node's id is below every
      leaf's. */
  lemma RecoveredIndexIsRight(nodeType: seq<nat>, spineNum: nat, ids: NodeLists)
    requires Built(nodeType, spineNum, |nodeType|, ids)
    ensures (forall k :: 0 <= k < |ids.leaves| ==> RecoveredIndex(ids, k) == k) <==> LeavesLast(ids)
  {
    forall k | 0 <= k < |ids.leaves|
      ensures RecoveredIndex(ids, k) <= k
      ensures RecoveredIndex(ids, k) == k <==>
        && (forall i :: 0 <= i < |ids.hosts| ==> ids.hosts[i] < ids.leaves[k])
        && (forall i :: 0 <= i < |ids.optical| ==> ids.optical[i] < ids.leaves[k])
    {
      hide Lists, Below;
      RecoveredIndexIs(nodeType, spineNum, ids, k);
      AllBelow(ids.hosts, ids.leaves[k]);
      AllBelow(ids.optical, ids.leaves[k]);
    }
  }

  // ----- the topology that spine_leaf.py writes

  /** Hosts first, then the optical switches, then the electric ones, for `k` optical spines. */
  function SpineLeafTypes(k: nat): seq<nat> {
    seq(4 * k * k, _ => 0) + seq(k, _ => 2) + seq(k + 4 * k, _ => 1)
  }

  /** An increasing list of all numbers from `a` to `b`. */
  lemma {:induction false} IntervalLength(s: seq<nat>, a: nat, b: nat)
    requires Ascending(s) && a <= b && forall i: nat :: i in s <==> a <= i < b
    ensures |s| == b - a
  {
    if s == [] {
      assert a < b ==> a in s;
    } else {
      var front, last := s[..|s| - 1], s[|s| - 1];
      assert last in s;
      assert b - 1 in s;
      assert last == b - 1;
      assert forall i: nat :: i in s <==> i in front || i == last;
      IntervalLength(front, a, b - 1);
    }
  }

  /** Hosts below `h`, optical switches from `h` to `o`, electric switches from `o`. */
  lemma LayoutPutsLeavesLast(nodeType: seq<nat>, h: nat, o: nat, spineNum: nat, ids: NodeLists)
    requires Built(nodeType, spineNum, |nodeType|, ids) && h <= o <= |nodeType|
    requires forall i :: 0 <= i < |nodeType| ==>
      KindOf(nodeType[i]) == if i < h then Host else if i < o then Optical else Electric
    ensures LeavesLast(ids) && |ids.optical| == o - h && |ids.spines| + |ids.leaves| == |nodeType| - o
  {
    hide KindOf;
    var electric := ids.spines + ids.leaves;
    IntervalLength(ids.optical, h, o);
    IntervalLength(electric, o, |nodeType|);
    forall i | 0 <= i < |ids.leaves|
      ensures ids.leaves[i] >= o
    {
      assert electric[|ids.spines| + i] in electric;
    }
    assert forall i :: 0 <= i < |ids.hosts| ==> ids.hosts[i] in ids.hosts;
    assert forall i :: 0 <= i < |ids.optical| ==> ids.optical[i] in ids.optical;
  }

  /** In the generated topology every leaf is found by its id, and there are four leaves to each optical spine. */
  lemma GeneratedLeavesAreLast(k: nat, ids: NodeLists)
    requires Built(SpineLeafTypes(k), k, |SpineLeafTypes(k)|, ids)
    ensures LeavesLast(ids) && |ids.optical| == k && |ids.spines| == k && |ids.leaves| == 4 * k
  {
    hide Lists, LeavesLast;
    var h := 4 * k * k;
    LayoutPutsLeavesLast(SpineLeafTypes(k), h, h + k, k, ids);
  }
}
