/** The optical switches' 15 link matrices (mems-link-matrix.h) and the link tables MemsNode derives from them. */
module LinkMatrix {
  import opened LinkData

  const MATRICES: nat := 15

  /** Where MATRIX_(k+1) sends leaf `i`. */
  function Peer(k: nat, i: nat): nat {
    if k == 0 then Row1(i) else if k == 1 then Row2(i) else if k == 2 then Row3(i) else if k == 3 then Row4(i) else
    if k == 4 then Row5(i) else if k == 5 then Row6(i) else if k == 6 then Row7(i) else if k == 7 then Row8(i) else
    if k == 8 then Row9(i) else if k == 9 then Row10(i) else if k == 10 then Row11(i) else if k == 11 then Row12(i) else
    if k == 12 then Row13(i) else if k == 13 then Row14(i) else Row15(i)
  }

  lemma PeerIsLeaf(k: nat, i: nat)
    requires i < LEAVES
    ensures Peer(k, i) < LEAVES
  {
  }

  /** Circuits are symmetric and never lead back to the same leaf. */
  lemma PeerIsInvolution(k: nat, i: nat)
    requires k < MATRICES && i < LEAVES
    ensures Peer(k, Peer(k, i)) == i && Peer(k, i) != i
  {
    if k < 8 {
      InvolutionLow(k, i);
    } else if i < 8 && k < 12 {
      InvolutionHigh(k, i);
    } else if i < 8 {
      InvolutionTop(k, i);
    } else {
      InvolutionHigher(k, i);
    }
  }

  lemma InvolutionLow(k: nat, i: nat)
    requires k < 8 && i < LEAVES
    ensures Peer(k, Peer(k, i)) == i && Peer(k, i) != i
  {
  }

  lemma InvolutionHigh(k: nat, i: nat)
    requires 8 <= k < 12 && i < 8
    ensures Peer(k, Peer(k, i)) == i && Peer(k, i) != i
  {
  }

  lemma InvolutionTop(k: nat, i: nat)
    requires 12 <= k < MATRICES && i < 8
    ensures Peer(k, Peer(k, i)) == i && Peer(k, i) != i
  {
  }

  lemma InvolutionHigher(k: nat, i: nat)
    requires 8 <= k < MATRICES && 8 <= i < LEAVES
    ensures Peer(k, Peer(k, i)) == i && Peer(k, i) != i
  {
  }

  /** Different matrices send a leaf to different leaves. */
  lemma PeersDisjoint(k: nat, l: nat, i: nat)
    requires k < MATRICES && l < MATRICES && i < LEAVES
    ensures k != l ==> Peer(k, i) != Peer(l, i)
  {
    var low, high := if k < l then k else l, if k < l then l else k;
    if k == l {
    } else if i < 8 {
      DisjointLow(low, high, i);
    } else {
      DisjointHigh(low, high, i);
    }
  }

  lemma DisjointLow(k: nat, l: nat, i: nat)
    requires k < l < MATRICES && i < 8
    ensures Peer(k, i) != Peer(l, i)
  {
  }

  lemma DisjointHigh(k: nat, l: nat, i: nat)
    requires k < l < MATRICES && 8 <= i < LEAVES
    ensures Peer(k, i) != Peer(l, i)
  {
  }

  // ----- reading a matrix

  /** `m_linkMatrix`: the matrices in the order in which the constructor pushes them. */
  function Matrix(k: nat): seq<seq<nat>>
    requires k < MATRICES
  {
    [MATRIX_1, MATRIX_2, MATRIX_3, MATRIX_4, MATRIX_5, MATRIX_6, MATRIX_7, MATRIX_8, MATRIX_9, MATRIX_10,
     MATRIX_11, MATRIX_12, MATRIX_13, MATRIX_14, MATRIX_15][k]
  }

  /** `Peer` is what the header's rows say. */
  lemma MatrixRow(k: nat, i: nat)
    requires k < MATRICES && i < LEAVES
    ensures OneAt(Matrix(k), i, Peer(k, i))
  {
    hide OneAt, Row1, Row2, Row3, Row4, Row5, Row6, Row7, Row8, Row9, Row10, Row11, Row12, Row13, Row14, Row15;
    if i < 8 {
      Upper1(i); Upper2(i); Upper3(i); Upper4(i); Upper5(i);
      Upper6(i); Upper7(i); Upper8(i); Upper9(i); Upper10(i);
      Upper11(i); Upper12(i); Upper13(i); Upper14(i); Upper15(i);
    } else {
      Lower1(i); Lower2(i); Lower3(i); Lower4(i); Lower5(i);
      Lower6(i); Lower7(i); Lower8(i); Lower9(i); Lower10(i);
      Lower11(i); Lower12(i); Lower13(i); Lower14(i); Lower15(i);
    }
  }

  /** Matrix `k` joins the first leaf with leaf `k + 1`, in both directions. */
  lemma FirstLeafsPeer(k: nat)
    requires k < MATRICES
    ensures Peer(k, 0) == k + 1 && Peer(k, k + 1) == 0
  {
    PeerIsInvolution(k, 0);
  }

  ghost predicate IsSquare(matrix: seq<seq<nat>>) {
    |matrix| == LEAVES && forall i :: 0 <= i < LEAVES ==> |matrix[i]| == LEAVES
  }

  lemma MatrixIsSquare(k: nat)
    requires k < MATRICES
    ensures IsSquare(Matrix(k))
  {
    hide Matrix, Peer;
    MatrixRow(k, 0);
    forall i | 0 <= i < LEAVES
      ensures |Matrix(k)[i]| == LEAVES
    {
      MatrixRow(k, i);
    }
  }

  /** The double loop of the MemsNode constructor and of `Reconfiguration`: the last non-zero column of each row. */
  method ReadLinkTable(matrix: seq<seq<nat>>, linkTable: seq<nat>) returns (table: seq<nat>)
    requires IsSquare(matrix) && |linkTable| == LEAVES
    ensures |table| == LEAVES
    ensures forall i :: 0 <= i < LEAVES ==> table[i] == LastOne(matrix[i], LEAVES, linkTable[i])
  {
    table := linkTable;
    for i := 0 to LEAVES
      invariant |table| == LEAVES
      invariant forall r :: 0 <= r < i ==> table[r] == LastOne(matrix[r], LEAVES, linkTable[r])
      invariant forall r :: i <= r < LEAVES ==> table[r] == linkTable[r]
    {
      for j := 0 to LEAVES
        invariant |table| == LEAVES
        invariant forall r :: 0 <= r < i ==> table[r] == LastOne(matrix[r], LEAVES, linkTable[r])
        invariant forall r :: i < r < LEAVES ==> table[r] == linkTable[r]
        invariant table[i] == LastOne(matrix[i], j, linkTable[i])
      {
        if matrix[i][j] != 0 {
          table := table[i := j];
        }
      }
    }
  }

  /** The last non-zero column among the first `n`, or `default` when there is none. */
  function LastOne(row: seq<nat>, n: nat, default: nat): nat
    requires n <= |row|
  {
    if n == 0 then default else if row[n - 1] != 0 then n - 1 else LastOne(row, n - 1, default)
  }

  lemma {:induction false} LastOneOfOneHot(row: seq<nat>, n: nat, c: nat, default: nat)
    requires n <= |row| && forall j :: 0 <= j < |row| ==> (row[j] != 0 <==> j == c)
    ensures LastOne(row, n, default) == if c < n then c else default
  {
    if n > 0 {
      LastOneOfOneHot(row, n - 1, c, default);
    }
  }

  /** The link table under matrix `k`. */
  function LinkTable(k: nat): seq<nat> {
    seq(LEAVES, i requires 0 <= i < LEAVES => Peer(k, i))
  }

  /** Whatever the table held before, reading matrix `k` leaves its link table. */
  lemma ReadingGivesLinkTable(k: nat, linkTable: seq<nat>, table: seq<nat>)
    requires |table| == |linkTable| == LEAVES && k < MATRICES && IsSquare(Matrix(k))
    requires forall i :: 0 <= i < LEAVES ==> table[i] == LastOne(Matrix(k)[i], LEAVES, linkTable[i])
    ensures table == LinkTable(k)
  {
    hide Peer, Matrix;
    forall i | 0 <= i < LEAVES
      ensures table[i] == Peer(k, i)
    {
      MatrixRow(k, i);
      PeerIsLeaf(k, i);
      LastOneOfOneHot(Matrix(k)[i], LEAVES, Peer(k, i), linkTable[i]);
    }
  }
}
