/** Rotations of sequences and the test `is_rotated` of rad_util.py. */
module Rotation {
  import opened Wrappers

  /** `b` is `a` read from some position `k`, wrapping around. */
  ghost predicate Rotated<T>(a: seq<T>, b: seq<T>) {
    exists k :: RotatedBy(a, b, k)
  }

  ghost predicate RotatedBy<T>(a: seq<T>, b: seq<T>, k: int) {
    0 <= k <= |a| && b == Rotate(a, k)
  }

  lemma RotatedReflexive<T>(a: seq<T>)
    ensures Rotated(a, a)
  {
    assert RotatedBy(a, a, 0);
  }

  lemma RotatedSymmetric<T>(a: seq<T>, b: seq<T>)
    requires Rotated(a, b)
    ensures Rotated(b, a)
  {
    var k :| RotatedBy(a, b, k);
    assert b[|a| - k..] == a[..k] && b[..|a| - k] == a[k..];
    assert RotatedBy(b, a, |a| - k);
  }

  function Rotate<T>(a: seq<T>, k: nat): (b: seq<T>)
    requires k <= |a|
    ensures |b| == |a|
  {
    a[k..] + a[..k]
  }

  lemma RotateTwice<T>(a: seq<T>, k: nat, j: nat)
    requires k <= |a| && j <= |a|
    ensures Rotate(Rotate(a, k), j) == Rotate(a, if k + j <= |a| then k + j else k + j - |a|)
  {
    var m := if k + j <= |a| then k + j else k + j - |a|;
    var b, c, d := Rotate(a, k), Rotate(Rotate(a, k), j), Rotate(a, m);
    forall i | 0 <= i < |a|
      ensures c[i] == d[i]
    {
      var i' := if i + j < |a| then i + j else i + j - |a|;
      assert c[i] == b[i'];
      assert b[i'] == a[if i' + k < |a| then i' + k else i' + k - |a|];
    }
  }

  lemma RotatedTransitive<T>(a: seq<T>, b: seq<T>, c: seq<T>)
    requires Rotated(a, b) && Rotated(b, c)
    ensures Rotated(a, c)
  {
    var k :| RotatedBy(a, b, k);
    var j :| RotatedBy(b, c, j);
    RotateTwice(a, k, j);
    hide Rotate;
    assert RotatedBy(a, c, if k + j <= |a| then k + j else k + j - |a|);
  }

  /** One position of the doubled sequence decides one rotation. */
  lemma DoubledWindow<T>(a: seq<T>, k: nat)
    requires k <= |a|
    ensures (a + a)[k..k + |a|] == Rotate(a, k)
  {
  }

  /** `is_rotated`: `None` is the IndexError of `seq2[0]` on two empty lists. */
  method IsRotated<T(==)>(seq1: seq<T>, seq2: seq<T>) returns (r: Option<bool>)
    ensures r.None? <==> seq1 == [] && seq2 == []
    ensures r.Some? ==> (r.value <==> Rotated(seq1, seq2))
  {
    if |seq1| != |seq2| {
      return Some(false);
    }
    if seq2 == [] {
      return None;
    }
    var startIndexes: seq<nat> := [];
    var headItem := seq2[0];
    for index1 := 0 to |seq1|
      invariant forall k :: k in startIndexes <==> 0 <= k < index1 && seq1[k] == headItem
    {
      if seq1[index1] == headItem {
        startIndexes := startIndexes + [index1];
      }
    }
    var doubleSeq1 := seq1 + seq1;
    for i := 0 to |startIndexes|
      invariant forall j :: 0 <= j < i ==> !RotatedBy(seq1, seq2, startIndexes[j])
    {
      var index1 := startIndexes[i];
      assert index1 in startIndexes;
      DoubledWindow(seq1, index1);
      if doubleSeq1[index1..index1 + |seq1|] == seq2 {
        assert RotatedBy(seq1, seq2, index1);
        return Some(true);
      }
    }
    RotationStartsAtHead(seq1, seq2);
    return Some(false);
  }

  /** A rotation of a non-empty sequence starts at some position holding its head. */
  lemma RotationStartsAtHead<T>(a: seq<T>, b: seq<T>)
    requires b != []
    ensures Rotated(a, b) ==> exists k :: 0 <= k < |a| && a[k] == b[0] && RotatedBy(a, b, k)
  {
    if k :| RotatedBy(a, b, k) {
      assert RotatedBy(a, b, if k == |a| then 0 else k);
    }
  }
}
