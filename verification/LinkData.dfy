/** The matrices of mems-link-matrix.h, row by row, and the column of the 1 in each row. */
module LinkData {
  const LEAVES: nat := 16

  /** Row `i` of a matrix has its only 1 in column `c`. */
  ghost predicate OneAt(m: seq<seq<nat>>, i: nat, c: nat) {
    |m| == LEAVES && i < LEAVES && |m[i]| == LEAVES &&
      forall j :: 0 <= j < LEAVES ==> m[i][j] == if j == c then 1 else 0
  }

  const MATRIX_1: seq<seq<nat>> := [
    [0, 1, 0, 0, 0, 0, 0, 0, 0, 0, 0, 0, 0, 0, 0, 0],
    [1, 0, 0, 0, 0, 0, 0, 0, 0, 0, 0, 0, 0, 0, 0, 0],
    [0, 0, 0, 0, 0, 0, 0, 0, 0, 0, 0, 0, 1, 0, 0, 0],
    [0, 0, 0, 0, 0, 0, 0, 0, 0, 0, 0, 0, 0, 1, 0, 0],
    [0, 0, 0, 0, 0, 0, 0, 1, 0, 0, 0, 0, 0, 0, 0, 0],
    [0, 0, 0, 0, 0, 0, 0, 0, 1, 0, 0, 0, 0, 0, 0, 0],
    [0, 0, 0, 0, 0, 0, 0, 0, 0, 1, 0, 0, 0, 0, 0, 0],
    [0, 0, 0, 0, 1, 0, 0, 0, 0, 0, 0, 0, 0, 0, 0, 0],
    [0, 0, 0, 0, 0, 1, 0, 0, 0, 0, 0, 0, 0, 0, 0, 0],
    [0, 0, 0, 0, 0, 0, 1, 0, 0, 0, 0, 0, 0, 0, 0, 0],
    [0, 0, 0, 0, 0, 0, 0, 0, 0, 0, 0, 1, 0, 0, 0, 0],
    [0, 0, 0, 0, 0, 0, 0, 0, 0, 0, 1, 0, 0, 0, 0, 0],
    [0, 0, 1, 0, 0, 0, 0, 0, 0, 0, 0, 0, 0, 0, 0, 0],
    [0, 0, 0, 1, 0, 0, 0, 0, 0, 0, 0, 0, 0, 0, 0, 0],
    [0, 0, 0, 0, 0, 0, 0, 0, 0, 0, 0, 0, 0, 0, 0, 1],
    [0, 0, 0, 0, 0, 0, 0, 0, 0, 0, 0, 0, 0, 0, 1, 0]
  ]

  /** MATRIX_1: the column of the 1 in row `i`. */
  function Row1(i: nat): nat {
    if i == 0 then 1 else if i == 1 then 0 else if i == 2 then 12 else if i == 3 then 13 else
    if i == 4 then 7 else if i == 5 then 8 else if i == 6 then 9 else if i == 7 then 4 else
    if i == 8 then 5 else if i == 9 then 6 else if i == 10 then 11 else if i == 11 then 10 else
    if i == 12 then 2 else if i == 13 then 3 else if i == 14 then 15 else 14
  }

  lemma Upper1(i: nat)
    requires i < 8
    ensures OneAt(MATRIX_1, i, Row1(i))
  {
  }

  lemma Lower1(i: nat)
    requires 8 <= i < LEAVES
    ensures OneAt(MATRIX_1, i, Row1(i))
  {
  }

  const MATRIX_2: seq<seq<nat>> := [
    [0, 0, 1, 0, 0, 0, 0, 0, 0, 0, 0, 0, 0, 0, 0, 0],
    [0, 0, 0, 0, 0, 0, 0, 0, 0, 0, 0, 1, 0, 0, 0, 0],
    [1, 0, 0, 0, 0, 0, 0, 0, 0, 0, 0, 0, 0, 0, 0, 0],
    [0, 0, 0, 0, 0, 0, 1, 0, 0, 0, 0, 0, 0, 0, 0, 0],
    [0, 0, 0, 0, 0, 0, 0, 0, 0, 0, 0, 0, 0, 1, 0, 0],
    [0, 0, 0, 0, 0, 0, 0, 1, 0, 0, 0, 0, 0, 0, 0, 0],
    [0, 0, 0, 1, 0, 0, 0, 0, 0, 0, 0, 0, 0, 0, 0, 0],
    [0, 0, 0, 0, 0, 1, 0, 0, 0, 0, 0, 0, 0, 0, 0, 0],
    [0, 0, 0, 0, 0, 0, 0, 0, 0, 0, 0, 0, 0, 0, 0, 1],
    [0, 0, 0, 0, 0, 0, 0, 0, 0, 0, 0, 0, 0, 0, 1, 0],
    [0, 0, 0, 0, 0, 0, 0, 0, 0, 0, 0, 0, 1, 0, 0, 0],
    [0, 1, 0, 0, 0, 0, 0, 0, 0, 0, 0, 0, 0, 0, 0, 0],
    [0, 0, 0, 0, 0, 0, 0, 0, 0, 0, 1, 0, 0, 0, 0, 0],
    [0, 0, 0, 0, 1, 0, 0, 0, 0, 0, 0, 0, 0, 0, 0, 0],
    [0, 0, 0, 0, 0, 0, 0, 0, 0, 1, 0, 0, 0, 0, 0, 0],
    [0, 0, 0, 0, 0, 0, 0, 0, 1, 0, 0, 0, 0, 0, 0, 0]
  ]

  /** MATRIX_2: the column of the 1 in row `i`. */
  function Row2(i: nat): nat {
    if i == 0 then 2 else if i == 1 then 11 else if i == 2 then 0 else if i == 3 then 6 else
    if i == 4 then 13 else if i == 5 then 7 else if i == 6 then 3 else if i == 7 then 5 else
    if i == 8 then 15 else if i == 9 then 14 else if i == 10 then 12 else if i == 11 then 1 else
    if i == 12 then 10 else if i == 13 then 4 else if i == 14 then 9 else 8
  }

  lemma Upper2(i: nat)
    requires i < 8
    ensures OneAt(MATRIX_2, i, Row2(i))
  {
  }

  lemma Lower2(i: nat)
    requires 8 <= i < LEAVES
    ensures OneAt(MATRIX_2, i, Row2(i))
  {
  }

  const MATRIX_3: seq<seq<nat>> := [
    [0, 0, 0, 1, 0, 0, 0, 0, 0, 0, 0, 0, 0, 0, 0, 0],
    [0, 0, 0, 0, 0, 0, 1, 0, 0, 0, 0, 0, 0, 0, 0, 0],
    [0, 0, 0, 0, 0, 0, 0, 1, 0, 0, 0, 0, 0, 0, 0, 0],
    [1, 0, 0, 0, 0, 0, 0, 0, 0, 0, 0, 0, 0, 0, 0, 0],
    [0, 0, 0, 0, 0, 0, 0, 0, 0, 0, 0, 0, 0, 0, 1, 0],
    [0, 0, 0, 0, 0, 0, 0, 0, 0, 0, 1, 0, 0, 0, 0, 0],
    [0, 1, 0, 0, 0, 0, 0, 0, 0, 0, 0, 0, 0, 0, 0, 0],
    [0, 0, 1, 0, 0, 0, 0, 0, 0, 0, 0, 0, 0, 0, 0, 0],
    [0, 0, 0, 0, 0, 0, 0, 0, 0, 0, 0, 1, 0, 0, 0, 0],
    [0, 0, 0, 0, 0, 0, 0, 0, 0, 0, 0, 0, 0, 0, 0, 1],
    [0, 0, 0, 0, 0, 1, 0, 0, 0, 0, 0, 0, 0, 0, 0, 0],
    [0, 0, 0, 0, 0, 0, 0, 0, 1, 0, 0, 0, 0, 0, 0, 0],
    [0, 0, 0, 0, 0, 0, 0, 0, 0, 0, 0, 0, 0, 1, 0, 0],
    [0, 0, 0, 0, 0, 0, 0, 0, 0, 0, 0, 0, 1, 0, 0, 0],
    [0, 0, 0, 0, 1, 0, 0, 0, 0, 0, 0, 0, 0, 0, 0, 0],
    [0, 0, 0, 0, 0, 0, 0, 0, 0, 1, 0, 0, 0, 0, 0, 0]
  ]

  /** MATRIX_3: the column of the 1 in row `i`. */
  function Row3(i: nat): nat {
    if i == 0 then 3 else if i == 1 then 6 else if i == 2 then 7 else if i == 3 then 0 else
    if i == 4 then 14 else if i == 5 then 10 else if i == 6 then 1 else if i == 7 then 2 else
    if i == 8 then 11 else if i == 9 then 15 else if i == 10 then 5 else if i == 11 then 8 else
    if i == 12 then 13 else if i == 13 then 12 else if i == 14 then 4 else 9
  }

  lemma Upper3(i: nat)
    requires i < 8
    ensures OneAt(MATRIX_3, i, Row3(i))
  {
  }

  lemma Lower3(i: nat)
    requires 8 <= i < LEAVES
    ensures OneAt(MATRIX_3, i, Row3(i))
  {
  }

  const MATRIX_4: seq<seq<nat>> := [
    [0, 0, 0, 0, 1, 0, 0, 0, 0, 0, 0, 0, 0, 0, 0, 0],
    [0, 0, 0, 0, 0, 0, 0, 0, 1, 0, 0, 0, 0, 0, 0, 0],
    [0, 0, 0, 0, 0, 1, 0, 0, 0, 0, 0, 0, 0, 0, 0, 0],
    [0, 0, 0, 0, 0, 0, 0, 0, 0, 0, 0, 0, 1, 0, 0, 0],
    [1, 0, 0, 0, 0, 0, 0, 0, 0, 0, 0, 0, 0, 0, 0, 0],
    [0, 0, 1, 0, 0, 0, 0, 0, 0, 0, 0, 0, 0, 0, 0, 0],
    [0, 0, 0, 0, 0, 0, 0, 0, 0, 0, 0, 0, 0, 1, 0, 0],
    [0, 0, 0, 0, 0, 0, 0, 0, 0, 1, 0, 0, 0, 0, 0, 0],
    [0, 1, 0, 0, 0, 0, 0, 0, 0, 0, 0, 0, 0, 0, 0, 0],
    [0, 0, 0, 0, 0, 0, 0, 1, 0, 0, 0, 0, 0, 0, 0, 0],
    [0, 0, 0, 0, 0, 0, 0, 0, 0, 0, 0, 0, 0, 0, 0, 1],
    [0, 0, 0, 0, 0, 0, 0, 0, 0, 0, 0, 0, 0, 0, 1, 0],
    [0, 0, 0, 1, 0, 0, 0, 0, 0, 0, 0, 0, 0, 0, 0, 0],
    [0, 0, 0, 0, 0, 0, 1, 0, 0, 0, 0, 0, 0, 0, 0, 0],
    [0, 0, 0, 0, 0, 0, 0, 0, 0, 0, 0, 1, 0, 0, 0, 0],
    [0, 0, 0, 0, 0, 0, 0, 0, 0, 0, 1, 0, 0, 0, 0, 0]
  ]

  /** MATRIX_4: the column of the 1 in row `i`. */
  function Row4(i: nat): nat {
    if i == 0 then 4 else if i == 1 then 8 else if i == 2 then 5 else if i == 3 then 12 else
    if i == 4 then 0 else if i == 5 then 2 else if i == 6 then 13 else if i == 7 then 9 else
    if i == 8 then 1 else if i == 9 then 7 else if i == 10 then 15 else if i == 11 then 14 else
    if i == 12 then 3 else if i == 13 then 6 else if i == 14 then 11 else 10
  }

  lemma Upper4(i: nat)
    requires i < 8
    ensures OneAt(MATRIX_4, i, Row4(i))
  {
  }

  lemma Lower4(i: nat)
    requires 8 <= i < LEAVES
    ensures OneAt(MATRIX_4, i, Row4(i))
  {
  }

  const MATRIX_5: seq<seq<nat>> := [
    [0, 0, 0, 0, 0, 1, 0, 0, 0, 0, 0, 0, 0, 0, 0, 0],
    [0, 0, 0, 0, 0, 0, 0, 0, 0, 0, 0, 0, 0, 0, 1, 0],
    [0, 0, 0, 0, 0, 0, 0, 0, 0, 0, 1, 0, 0, 0, 0, 0],
    [0, 0, 0, 0, 0, 0, 0, 0, 0, 1, 0, 0, 0, 0, 0, 0],
    [0, 0, 0, 0, 0, 0, 0, 0, 0, 0, 0, 1, 0, 0, 0, 0],
    [1, 0, 0, 0, 0, 0, 0, 0, 0, 0, 0, 0, 0, 0, 0, 0],
    [0, 0, 0, 0, 0, 0, 0, 0, 0, 0, 0, 0, 0, 0, 0, 1],
    [0, 0, 0, 0, 0, 0, 0, 0, 0, 0, 0, 0, 1, 0, 0, 0],
    [0, 0, 0, 0, 0, 0, 0, 0, 0, 0, 0, 0, 0, 1, 0, 0],
    [0, 0, 0, 1, 0, 0, 0, 0, 0, 0, 0, 0, 0, 0, 0, 0],
    [0, 0, 1, 0, 0, 0, 0, 0, 0, 0, 0, 0, 0, 0, 0, 0],
    [0, 0, 0, 0, 1, 0, 0, 0, 0, 0, 0, 0, 0, 0, 0, 0],
    [0, 0, 0, 0, 0, 0, 0, 1, 0, 0, 0, 0, 0, 0, 0, 0],
    [0, 0, 0, 0, 0, 0, 0, 0, 1, 0, 0, 0, 0, 0, 0, 0],
    [0, 1, 0, 0, 0, 0, 0, 0, 0, 0, 0, 0, 0, 0, 0, 0],
    [0, 0, 0, 0, 0, 0, 1, 0, 0, 0, 0, 0, 0, 0, 0, 0]
  ]

  /** MATRIX_5: the column of the 1 in row `i`. */
  function Row5(i: nat): nat {
    if i == 0 then 5 else if i == 1 then 14 else if i == 2 then 10 else if i == 3 then 9 else
    if i == 4 then 11 else if i == 5 then 0 else if i == 6 then 15 else if i == 7 then 12 else
    if i == 8 then 13 else if i == 9 then 3 else if i == 10 then 2 else if i == 11 then 4 else
    if i == 12 then 7 else if i == 13 then 8 else if i == 14 then 1 else 6
  }

  lemma Upper5(i: nat)
    requires i < 8
    ensures OneAt(MATRIX_5, i, Row5(i))
  {
  }

  lemma Lower5(i: nat)
    requires 8 <= i < LEAVES
    ensures OneAt(MATRIX_5, i, Row5(i))
  {
  }

  const MATRIX_6: seq<seq<nat>> := [
    [0, 0, 0, 0, 0, 0, 1, 0, 0, 0, 0, 0, 0, 0, 0, 0],
    [0, 0, 0, 1, 0, 0, 0, 0, 0, 0, 0, 0, 0, 0, 0, 0],
    [0, 0, 0, 0, 1, 0, 0, 0, 0, 0, 0, 0, 0, 0, 0, 0],
    [0, 1, 0, 0, 0, 0, 0, 0, 0, 0, 0, 0, 0, 0, 0, 0],
    [0, 0, 1, 0, 0, 0, 0, 0, 0, 0, 0, 0, 0, 0, 0, 0],
    [0, 0, 0, 0, 0, 0, 0, 0, 0, 0, 0, 0, 1, 0, 0, 0],
    [1, 0, 0, 0, 0, 0, 0, 0, 0, 0, 0, 0, 0, 0, 0, 0],
    [0, 0, 0, 0, 0, 0, 0, 0, 0, 0, 0, 0, 0, 0, 0, 1],
    [0, 0, 0, 0, 0, 0, 0, 0, 0, 0, 0, 0, 0, 0, 1, 0],
    [0, 0, 0, 0, 0, 0, 0, 0, 0, 0, 1, 0, 0, 0, 0, 0],
    [0, 0, 0, 0, 0, 0, 0, 0, 0, 1, 0, 0, 0, 0, 0, 0],
    [0, 0, 0, 0, 0, 0, 0, 0, 0, 0, 0, 0, 0, 1, 0, 0],
    [0, 0, 0, 0, 0, 1, 0, 0, 0, 0, 0, 0, 0, 0, 0, 0],
    [0, 0, 0, 0, 0, 0, 0, 0, 0, 0, 0, 1, 0, 0, 0, 0],
    [0, 0, 0, 0, 0, 0, 0, 0, 1, 0, 0, 0, 0, 0, 0, 0],
    [0, 0, 0, 0, 0, 0, 0, 1, 0, 0, 0, 0, 0, 0, 0, 0]
  ]

  /** MATRIX_6: the column of the 1 in row `i`. */
  function Row6(i: nat): nat {
    if i == 0 then 6 else if i == 1 then 3 else if i == 2 then 4 else if i == 3 then 1 else
    if i == 4 then 2 else if i == 5 then 12 else if i == 6 then 0 else if i == 7 then 15 else
    if i == 8 then 14 else if i == 9 then 10 else if i == 10 then 9 else if i == 11 then 13 else
    if i == 12 then 5 else if i == 13 then 11 else if i == 14 then 8 else 7
  }

  lemma Upper6(i: nat)
    requires i < 8
    ensures OneAt(MATRIX_6, i, Row6(i))
  {
  }

  lemma Lower6(i: nat)
    requires 8 <= i < LEAVES
    ensures OneAt(MATRIX_6, i, Row6(i))
  {
  }

  const MATRIX_7: seq<seq<nat>> := [
    [0, 0, 0, 0, 0, 0, 0, 1, 0, 0, 0, 0, 0, 0, 0, 0],
    [0, 0, 0, 0, 0, 1, 0, 0, 0, 0, 0, 0, 0, 0, 0, 0],
    [0, 0, 0, 0, 0, 0, 0, 0, 1, 0, 0, 0, 0, 0, 0, 0],
    [0, 0, 0, 0, 0, 0, 0, 0, 0, 0, 1, 0, 0, 0, 0, 0],
    [0, 0, 0, 0, 0, 0, 1, 0, 0, 0, 0, 0, 0, 0, 0, 0],
    [0, 1, 0, 0, 0, 0, 0, 0, 0, 0, 0, 0, 0, 0, 0, 0],
    [0, 0, 0, 0, 1, 0, 0, 0, 0, 0, 0, 0, 0, 0, 0, 0],
    [1, 0, 0, 0, 0, 0, 0, 0, 0, 0, 0, 0, 0, 0, 0, 0],
    [0, 0, 1, 0, 0, 0, 0, 0, 0, 0, 0, 0, 0, 0, 0, 0],
    [0, 0, 0, 0, 0, 0, 0, 0, 0, 0, 0, 1, 0, 0, 0, 0],
    [0, 0, 0, 1, 0, 0, 0, 0, 0, 0, 0, 0, 0, 0, 0, 0],
    [0, 0, 0, 0, 0, 0, 0, 0, 0, 1, 0, 0, 0, 0, 0, 0],
    [0, 0, 0, 0, 0, 0, 0, 0, 0, 0, 0, 0, 0, 0, 0, 1],
    [0, 0, 0, 0, 0, 0, 0, 0, 0, 0, 0, 0, 0, 0, 1, 0],
    [0, 0, 0, 0, 0, 0, 0, 0, 0, 0, 0, 0, 0, 1, 0, 0],
    [0, 0, 0, 0, 0, 0, 0, 0, 0, 0, 0, 0, 1, 0, 0, 0]
  ]

  /** MATRIX_7: the column of the 1 in row `i`. */
  function Row7(i: nat): nat {
    if i == 0 then 7 else if i == 1 then 5 else if i == 2 then 8 else if i == 3 then 10 else
    if i == 4 then 6 else if i == 5 then 1 else if i == 6 then 4 else if i == 7 then 0 else
    if i == 8 then 2 else if i == 9 then 11 else if i == 10 then 3 else if i == 11 then 9 else
    if i == 12 then 15 else if i == 13 then 14 else if i == 14 then 13 else 12
  }

  lemma Upper7(i: nat)
    requires i < 8
    ensures OneAt(MATRIX_7, i, Row7(i))
  {
  }

  lemma Lower7(i: nat)
    requires 8 <= i < LEAVES
    ensures OneAt(MATRIX_7, i, Row7(i))
  {
  }

  const MATRIX_8: seq<seq<nat>> := [
    [0, 0, 0, 0, 0, 0, 0, 0, 1, 0, 0, 0, 0, 0, 0, 0],
    [0, 0, 0, 0, 0, 0, 0, 0, 0, 0, 0, 0, 1, 0, 0, 0],
    [0, 0, 0, 0, 0, 0, 0, 0, 0, 0, 0, 0, 0, 1, 0, 0],
    [0, 0, 0, 0, 0, 0, 0, 0, 0, 0, 0, 0, 0, 0, 0, 1],
    [0, 0, 0, 0, 0, 0, 0, 0, 0, 1, 0, 0, 0, 0, 0, 0],
    [0, 0, 0, 0, 0, 0, 0, 0, 0, 0, 0, 0, 0, 0, 1, 0],
    [0, 0, 0, 0, 0, 0, 0, 0, 0, 0, 0, 1, 0, 0, 0, 0],
    [0, 0, 0, 0, 0, 0, 0, 0, 0, 0, 1, 0, 0, 0, 0, 0],
    [1, 0, 0, 0, 0, 0, 0, 0, 0, 0, 0, 0, 0, 0, 0, 0],
    [0, 0, 0, 0, 1, 0, 0, 0, 0, 0, 0, 0, 0, 0, 0, 0],
    [0, 0, 0, 0, 0, 0, 0, 1, 0, 0, 0, 0, 0, 0, 0, 0],
    [0, 0, 0, 0, 0, 0, 1, 0, 0, 0, 0, 0, 0, 0, 0, 0],
    [0, 1, 0, 0, 0, 0, 0, 0, 0, 0, 0, 0, 0, 0, 0, 0],
    [0, 0, 1, 0, 0, 0, 0, 0, 0, 0, 0, 0, 0, 0, 0, 0],
    [0, 0, 0, 0, 0, 1, 0, 0, 0, 0, 0, 0, 0, 0, 0, 0],
    [0, 0, 0, 1, 0, 0, 0, 0, 0, 0, 0, 0, 0, 0, 0, 0]
  ]

  /** MATRIX_8: the column of the 1 in row `i`. */
  function Row8(i: nat): nat {
    if i == 0 then 8 else if i == 1 then 12 else if i == 2 then 13 else if i == 3 then 15 else
    if i == 4 then 9 else if i == 5 then 14 else if i == 6 then 11 else if i == 7 then 10 else
    if i == 8 then 0 else if i == 9 then 4 else if i == 10 then 7 else if i == 11 then 6 else
    if i == 12 then 1 else if i == 13 then 2 else if i == 14 then 5 else 3
  }

  lemma Upper8(i: nat)
    requires i < 8
    ensures OneAt(MATRIX_8, i, Row8(i))
  {
  }

  lemma Lower8(i: nat)
    requires 8 <= i < LEAVES
    ensures OneAt(MATRIX_8, i, Row8(i))
  {
  }

  const MATRIX_9: seq<seq<nat>> := [
    [0, 0, 0, 0, 0, 0, 0, 0, 0, 1, 0, 0, 0, 0, 0, 0],
    [0, 0, 0, 0, 0, 0, 0, 0, 0, 0, 0, 0, 0, 0, 0, 1],
    [0, 0, 0, 0, 0, 0, 0, 0, 0, 0, 0, 0, 0, 0, 1, 0],
    [0, 0, 0, 0, 0, 0, 0, 0, 0, 0, 0, 1, 0, 0, 0, 0],
    [0, 0, 0, 0, 0, 0, 0, 0, 0, 0, 0, 0, 1, 0, 0, 0],
    [0, 0, 0, 0, 0, 0, 0, 0, 0, 0, 0, 0, 0, 1, 0, 0],
    [0, 0, 0, 0, 0, 0, 0, 1, 0, 0, 0, 0, 0, 0, 0, 0],
    [0, 0, 0, 0, 0, 0, 1, 0, 0, 0, 0, 0, 0, 0, 0, 0],
    [0, 0, 0, 0, 0, 0, 0, 0, 0, 0, 1, 0, 0, 0, 0, 0],
    [1, 0, 0, 0, 0, 0, 0, 0, 0, 0, 0, 0, 0, 0, 0, 0],
    [0, 0, 0, 0, 0, 0, 0, 0, 1, 0, 0, 0, 0, 0, 0, 0],
    [0, 0, 0, 1, 0, 0, 0, 0, 0, 0, 0, 0, 0, 0, 0, 0],
    [0, 0, 0, 0, 1, 0, 0, 0, 0, 0, 0, 0, 0, 0, 0, 0],
    [0, 0, 0, 0, 0, 1, 0, 0, 0, 0, 0, 0, 0, 0, 0, 0],
    [0, 0, 1, 0, 0, 0, 0, 0, 0, 0, 0, 0, 0, 0, 0, 0],
    [0, 1, 0, 0, 0, 0, 0, 0, 0, 0, 0, 0, 0, 0, 0, 0]
  ]

  /** MATRIX_9: the column of the 1 in row `i`. */
  function Row9(i: nat): nat {
    if i == 0 then 9 else if i == 1 then 15 else if i == 2 then 14 else if i == 3 then 11 else
    if i == 4 then 12 else if i == 5 then 13 else if i == 6 then 7 else if i == 7 then 6 else
    if i == 8 then 10 else if i == 9 then 0 else if i == 10 then 8 else if i == 11 then 3 else
    if i == 12 then 4 else if i == 13 then 5 else if i == 14 then 2 else 1
  }

  lemma Upper9(i: nat)
    requires i < 8
    ensures OneAt(MATRIX_9, i, Row9(i))
  {
  }

  lemma Lower9(i: nat)
    requires 8 <= i < LEAVES
    ensures OneAt(MATRIX_9, i, Row9(i))
  {
  }

  const MATRIX_10: seq<seq<nat>> := [
    [0, 0, 0, 0, 0, 0, 0, 0, 0, 0, 1, 0, 0, 0, 0, 0],
    [0, 0, 0, 0, 1, 0, 0, 0, 0, 0, 0, 0, 0, 0, 0, 0],
    [0, 0, 0, 0, 0, 0, 0, 0, 0, 1, 0, 0, 0, 0, 0, 0],
    [0, 0, 0, 0, 0, 0, 0, 0, 1, 0, 0, 0, 0, 0, 0, 0],
    [0, 1, 0, 0, 0, 0, 0, 0, 0, 0, 0, 0, 0, 0, 0, 0],
    [0, 0, 0, 0, 0, 0, 0, 0, 0, 0, 0, 0, 0, 0, 0, 1],
    [0, 0, 0, 0, 0, 0, 0, 0, 0, 0, 0, 0, 0, 0, 1, 0],
    [0, 0, 0, 0, 0, 0, 0, 0, 0, 0, 0, 0, 0, 1, 0, 0],
    [0, 0, 0, 1, 0, 0, 0, 0, 0, 0, 0, 0, 0, 0, 0, 0],
    [0, 0, 1, 0, 0, 0, 0, 0, 0, 0, 0, 0, 0, 0, 0, 0],
    [1, 0, 0, 0, 0, 0, 0, 0, 0, 0, 0, 0, 0, 0, 0, 0],
    [0, 0, 0, 0, 0, 0, 0, 0, 0, 0, 0, 0, 1, 0, 0, 0],
    [0, 0, 0, 0, 0, 0, 0, 0, 0, 0, 0, 1, 0, 0, 0, 0],
    [0, 0, 0, 0, 0, 0, 0, 1, 0, 0, 0, 0, 0, 0, 0, 0],
    [0, 0, 0, 0, 0, 0, 1, 0, 0, 0, 0, 0, 0, 0, 0, 0],
    [0, 0, 0, 0, 0, 1, 0, 0, 0, 0, 0, 0, 0, 0, 0, 0]
  ]

  /** MATRIX_10: the column of the 1 in row `i`. */
  function Row10(i: nat): nat {
    if i == 0 then 10 else if i == 1 then 4 else if i == 2 then 9 else if i == 3 then 8 else
    if i == 4 then 1 else if i == 5 then 15 else if i == 6 then 14 else if i == 7 then 13 else
    if i == 8 then 3 else if i == 9 then 2 else if i == 10 then 0 else if i == 11 then 12 else
    if i == 12 then 11 else if i == 13 then 7 else if i == 14 then 6 else 5
  }

  lemma Upper10(i: nat)
    requires i < 8
    ensures OneAt(MATRIX_10, i, Row10(i))
  {
  }

  lemma Lower10(i: nat)
    requires 8 <= i < LEAVES
    ensures OneAt(MATRIX_10, i, Row10(i))
  {
  }

  const MATRIX_11: seq<seq<nat>> := [
    [0, 0, 0, 0, 0, 0, 0, 0, 0, 0, 0, 1, 0, 0, 0, 0],
    [0, 0, 0, 0, 0, 0, 0, 0, 0, 0, 0, 0, 0, 1, 0, 0],
    [0, 0, 0, 0, 0, 0, 0, 0, 0, 0, 0, 0, 0, 0, 0, 1],
    [0, 0, 0, 0, 0, 0, 0, 0, 0, 0, 0, 0, 0, 0, 1, 0],
    [0, 0, 0, 0, 0, 0, 0, 0, 0, 0, 1, 0, 0, 0, 0, 0],
    [0, 0, 0, 0, 0, 0, 1, 0, 0, 0, 0, 0, 0, 0, 0, 0],
    [0, 0, 0, 0, 0, 1, 0, 0, 0, 0, 0, 0, 0, 0, 0, 0],
    [0, 0, 0, 0, 0, 0, 0, 0, 1, 0, 0, 0, 0, 0, 0, 0],
    [0, 0, 0, 0, 0, 0, 0, 1, 0, 0, 0, 0, 0, 0, 0, 0],
    [0, 0, 0, 0, 0, 0, 0, 0, 0, 0, 0, 0, 1, 0, 0, 0],
    [0, 0, 0, 0, 1, 0, 0, 0, 0, 0, 0, 0, 0, 0, 0, 0],
    [1, 0, 0, 0, 0, 0, 0, 0, 0, 0, 0, 0, 0, 0, 0, 0],
    [0, 0, 0, 0, 0, 0, 0, 0, 0, 1, 0, 0, 0, 0, 0, 0],
    [0, 1, 0, 0, 0, 0, 0, 0, 0, 0, 0, 0, 0, 0, 0, 0],
    [0, 0, 0, 1, 0, 0, 0, 0, 0, 0, 0, 0, 0, 0, 0, 0],
    [0, 0, 1, 0, 0, 0, 0, 0, 0, 0, 0, 0, 0, 0, 0, 0]
  ]

  /** MATRIX_11: the column of the 1 in row `i`. */
  function Row11(i: nat): nat {
    if i == 0 then 11 else if i == 1 then 13 else if i == 2 then 15 else if i == 3 then 14 else
    if i == 4 then 10 else if i == 5 then 6 else if i == 6 then 5 else if i == 7 then 8 else
    if i == 8 then 7 else if i == 9 then 12 else if i == 10 then 4 else if i == 11 then 0 else
    if i == 12 then 9 else if i == 13 then 1 else if i == 14 then 3 else 2
  }

  lemma Upper11(i: nat)
    requires i < 8
    ensures OneAt(MATRIX_11, i, Row11(i))
  {
  }

  lemma Lower11(i: nat)
    requires 8 <= i < LEAVES
    ensures OneAt(MATRIX_11, i, Row11(i))
  {
  }

  const MATRIX_12: seq<seq<nat>> := [
    [0, 0, 0, 0, 0, 0, 0, 0, 0, 0, 0, 0, 1, 0, 0, 0],
    [0, 0, 1, 0, 0, 0, 0, 0, 0, 0, 0, 0, 0, 0, 0, 0],
    [0, 1, 0, 0, 0, 0, 0, 0, 0, 0, 0, 0, 0, 0, 0, 0],
    [0, 0, 0, 0, 0, 0, 0, 1, 0, 0, 0, 0, 0, 0, 0, 0],
    [0, 0, 0, 0, 0, 0, 0, 0, 0, 0, 0, 0, 0, 0, 0, 1],
    [0, 0, 0, 0, 0, 0, 0, 0, 0, 0, 0, 1, 0, 0, 0, 0],
    [0, 0, 0, 0, 0, 0, 0, 0, 1, 0, 0, 0, 0, 0, 0, 0],
    [0, 0, 0, 1, 0, 0, 0, 0, 0, 0, 0, 0, 0, 0, 0, 0],
    [0, 0, 0, 0, 0, 0, 1, 0, 0, 0, 0, 0, 0, 0, 0, 0],
    [0, 0, 0, 0, 0, 0, 0, 0, 0, 0, 0, 0, 0, 1, 0, 0],
    [0, 0, 0, 0, 0, 0, 0, 0, 0, 0, 0, 0, 0, 0, 1, 0],
    [0, 0, 0, 0, 0, 1, 0, 0, 0, 0, 0, 0, 0, 0, 0, 0],
    [1, 0, 0, 0, 0, 0, 0, 0, 0, 0, 0, 0, 0, 0, 0, 0],
    [0, 0, 0, 0, 0, 0, 0, 0, 0, 1, 0, 0, 0, 0, 0, 0],
    [0, 0, 0, 0, 0, 0, 0, 0, 0, 0, 1, 0, 0, 0, 0, 0],
    [0, 0, 0, 0, 1, 0, 0, 0, 0, 0, 0, 0, 0, 0, 0, 0]
  ]

  /** MATRIX_12: the column of the 1 in row `i`. */
  function Row12(i: nat): nat {
    if i == 0 then 12 else if i == 1 then 2 else if i == 2 then 1 else if i == 3 then 7 else
    if i == 4 then 15 else if i == 5 then 11 else if i == 6 then 8 else if i == 7 then 3 else
    if i == 8 then 6 else if i == 9 then 13 else if i == 10 then 14 else if i == 11 then 5 else
    if i == 12 then 0 else if i == 13 then 9 else if i == 14 then 10 else 4
  }

  lemma Upper12(i: nat)
    requires i < 8
    ensures OneAt(MATRIX_12, i, Row12(i))
  {
  }

  lemma Lower12(i: nat)
    requires 8 <= i < LEAVES
    ensures OneAt(MATRIX_12, i, Row12(i))
  {
  }

  const MATRIX_13: seq<seq<nat>> := [
    [0, 0, 0, 0, 0, 0, 0, 0, 0, 0, 0, 0, 0, 1, 0, 0],
    [0, 0, 0, 0, 0, 0, 0, 0, 0, 0, 1, 0, 0, 0, 0, 0],
    [0, 0, 0, 1, 0, 0, 0, 0, 0, 0, 0, 0, 0, 0, 0, 0],
    [0, 0, 1, 0, 0, 0, 0, 0, 0, 0, 0, 0, 0, 0, 0, 0],
    [0, 0, 0, 0, 0, 1, 0, 0, 0, 0, 0, 0, 0, 0, 0, 0],
    [0, 0, 0, 0, 1, 0, 0, 0, 0, 0, 0, 0, 0, 0, 0, 0],
    [0, 0, 0, 0, 0, 0, 0, 0, 0, 0, 0, 0, 1, 0, 0, 0],
    [0, 0, 0, 0, 0, 0, 0, 0, 0, 0, 0, 0, 0, 0, 1, 0],
    [0, 0, 0, 0, 0, 0, 0, 0, 0, 1, 0, 0, 0, 0, 0, 0],
    [0, 0, 0, 0, 0, 0, 0, 0, 1, 0, 0, 0, 0, 0, 0, 0],
    [0, 1, 0, 0, 0, 0, 0, 0, 0, 0, 0, 0, 0, 0, 0, 0],
    [0, 0, 0, 0, 0, 0, 0, 0, 0, 0, 0, 0, 0, 0, 0, 1],
    [0, 0, 0, 0, 0, 0, 1, 0, 0, 0, 0, 0, 0, 0, 0, 0],
    [1, 0, 0, 0, 0, 0, 0, 0, 0, 0, 0, 0, 0, 0, 0, 0],
    [0, 0, 0, 0, 0, 0, 0, 1, 0, 0, 0, 0, 0, 0, 0, 0],
    [0, 0, 0, 0, 0, 0, 0, 0, 0, 0, 0, 1, 0, 0, 0, 0]
  ]

  /** MATRIX_13: the column of the 1 in row `i`. */
  function Row13(i: nat): nat {
    if i == 0 then 13 else if i == 1 then 10 else if i == 2 then 3 else if i == 3 then 2 else
    if i == 4 then 5 else if i == 5 then 4 else if i == 6 then 12 else if i == 7 then 14 else
    if i == 8 then 9 else if i == 9 then 8 else if i == 10 then 1 else if i == 11 then 15 else
    if i == 12 then 6 else if i == 13 then 0 else if i == 14 then 7 else 11
  }

  lemma Upper13(i: nat)
    requires i < 8
    ensures OneAt(MATRIX_13, i, Row13(i))
  {
  }

  lemma Lower13(i: nat)
    requires 8 <= i < LEAVES
    ensures OneAt(MATRIX_13, i, Row13(i))
  {
  }

  const MATRIX_14: seq<seq<nat>> := [
    [0, 0, 0, 0, 0, 0, 0, 0, 0, 0, 0, 0, 0, 0, 1, 0],
    [0, 0, 0, 0, 0, 0, 0, 1, 0, 0, 0, 0, 0, 0, 0, 0],
    [0, 0, 0, 0, 0, 0, 0, 0, 0, 0, 0, 1, 0, 0, 0, 0],
    [0, 0, 0, 0, 1, 0, 0, 0, 0, 0, 0, 0, 0, 0, 0, 0],
    [0, 0, 0, 1, 0, 0, 0, 0, 0, 0, 0, 0, 0, 0, 0, 0],
    [0, 0, 0, 0, 0, 0, 0, 0, 0, 1, 0, 0, 0, 0, 0, 0],
    [0, 0, 0, 0, 0, 0, 0, 0, 0, 0, 1, 0, 0, 0, 0, 0],
    [0, 1, 0, 0, 0, 0, 0, 0, 0, 0, 0, 0, 0, 0, 0, 0],
    [0, 0, 0, 0, 0, 0, 0, 0, 0, 0, 0, 0, 1, 0, 0, 0],
    [0, 0, 0, 0, 0, 1, 0, 0, 0, 0, 0, 0, 0, 0, 0, 0],
    [0, 0, 0, 0, 0, 0, 1, 0, 0, 0, 0, 0, 0, 0, 0, 0],
    [0, 0, 1, 0, 0, 0, 0, 0, 0, 0, 0, 0, 0, 0, 0, 0],
    [0, 0, 0, 0, 0, 0, 0, 0, 1, 0, 0, 0, 0, 0, 0, 0],
    [0, 0, 0, 0, 0, 0, 0, 0, 0, 0, 0, 0, 0, 0, 0, 1],
    [1, 0, 0, 0, 0, 0, 0, 0, 0, 0, 0, 0, 0, 0, 0, 0],
    [0, 0, 0, 0, 0, 0, 0, 0, 0, 0, 0, 0, 0, 1, 0, 0]
  ]

  /** MATRIX_14: the column of the 1 in row `i`. */
  function Row14(i: nat): nat {
    if i == 0 then 14 else if i == 1 then 7 else if i == 2 then 11 else if i == 3 then 4 else
    if i == 4 then 3 else if i == 5 then 9 else if i == 6 then 10 else if i == 7 then 1 else
    if i == 8 then 12 else if i == 9 then 5 else if i == 10 then 6 else if i == 11 then 2 else
    if i == 12 then 8 else if i == 13 then 15 else if i == 14 then 0 else 13
  }

  lemma Upper14(i: nat)
    requires i < 8
    ensures OneAt(MATRIX_14, i, Row14(i))
  {
  }

  lemma Lower14(i: nat)
    requires 8 <= i < LEAVES
    ensures OneAt(MATRIX_14, i, Row14(i))
  {
  }

  const MATRIX_15: seq<seq<nat>> := [
    [0, 0, 0, 0, 0, 0, 0, 0, 0, 0, 0, 0, 0, 0, 0, 1],
    [0, 0, 0, 0, 0, 0, 0, 0, 0, 1, 0, 0, 0, 0, 0, 0],
    [0, 0, 0, 0, 0, 0, 1, 0, 0, 0, 0, 0, 0, 0, 0, 0],
    [0, 0, 0, 0, 0, 1, 0, 0, 0, 0, 0, 0, 0, 0, 0, 0],
    [0, 0, 0, 0, 0, 0, 0, 0, 1, 0, 0, 0, 0, 0, 0, 0],
    [0, 0, 0, 1, 0, 0, 0, 0, 0, 0, 0, 0, 0, 0, 0, 0],
    [0, 0, 1, 0, 0, 0, 0, 0, 0, 0, 0, 0, 0, 0, 0, 0],
    [0, 0, 0, 0, 0, 0, 0, 0, 0, 0, 0, 1, 0, 0, 0, 0],
    [0, 0, 0, 0, 1, 0, 0, 0, 0, 0, 0, 0, 0, 0, 0, 0],
    [0, 1, 0, 0, 0, 0, 0, 0, 0, 0, 0, 0, 0, 0, 0, 0],
    [0, 0, 0, 0, 0, 0, 0, 0, 0, 0, 0, 0, 0, 1, 0, 0],
    [0, 0, 0, 0, 0, 0, 0, 1, 0, 0, 0, 0, 0, 0, 0, 0],
    [0, 0, 0, 0, 0, 0, 0, 0, 0, 0, 0, 0, 0, 0, 1, 0],
    [0, 0, 0, 0, 0, 0, 0, 0, 0, 0, 1, 0, 0, 0, 0, 0],
    [0, 0, 0, 0, 0, 0, 0, 0, 0, 0, 0, 0, 1, 0, 0, 0],
    [1, 0, 0, 0, 0, 0, 0, 0, 0, 0, 0, 0, 0, 0, 0, 0]
  ]

  /** MATRIX_15: the column of the 1 in row `i`. */
  function Row15(i: nat): nat {
    if i == 0 then 15 else if i == 1 then 9 else if i == 2 then 6 else if i == 3 then 5 else
    if i == 4 then 8 else if i == 5 then 3 else if i == 6 then 2 else if i == 7 then 11 else
    if i == 8 then 4 else if i == 9 then 1 else if i == 10 then 13 else if i == 11 then 7 else
    if i == 12 then 14 else if i == 13 then 10 else if i == 14 then 12 else 0
  }

  lemma Upper15(i: nat)
    requires i < 8
    ensures OneAt(MATRIX_15, i, Row15(i))
  {
  }

  lemma Lower15(i: nat)
    requires 8 <= i < LEAVES
    ensures OneAt(MATRIX_15, i, Row15(i))
  {
  }
}
