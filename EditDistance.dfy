/** The edit-distance recurrence that `RegionService.levenshteinDistance`
    fills its matrix with, and the facts the search ranking relies on. */
module EditDistance {

  function Max(x: int, y: int): int {
    if x >= y then x else y
  }

  function Min3(x: nat, y: nat, z: nat): nat {
    if x <= y && x <= z then x else if y <= z then y else z
  }

  /** Cell `[i][j]` of the matrix: the distance between the prefixes
      `a[..i]` and `b[..j]`. Row 0 and column 0 hold `j` and `i`; equal
      characters copy the diagonal; otherwise one more than the least of
      the cell above, the cell to the left and the diagonal. */
  function Cell(a: string, b: string, i: nat, j: nat): nat
    requires i <= |a| && j <= |b|
    decreases i + j
  {
    if i == 0 then j
    else if j == 0 then i
    else if a[i - 1] == b[j - 1] then Cell(a, b, i - 1, j - 1)
    else 1 + Min3(Cell(a, b, i - 1, j), Cell(a, b, i, j - 1), Cell(a, b, i - 1, j - 1))
  }

  /** The Levenshtein distance of two whole strings: the bottom-right cell. */
  function Distance(a: string, b: string): nat {
    Cell(a, b, |a|, |b|)
  }

  /** A cell never exceeds the longer of its two prefixes. */
  lemma {:induction false} CellUpper(a: string, b: string, i: nat, j: nat)
    requires i <= |a| && j <= |b|
    ensures Cell(a, b, i, j) <= Max(i, j)
    decreases i + j
  {
    if i > 0 && j > 0 {
      CellUpper(a, b, i - 1, j - 1);
      CellUnfold(a, b, i, j);
    }
  }

  /** A cell never falls below the difference of its prefixes' lengths. */
  lemma {:induction false} CellLower(a: string, b: string, i: nat, j: nat)
    requires i <= |a| && j <= |b|
    ensures i - j <= Cell(a, b, i, j) && j - i <= Cell(a, b, i, j)
    decreases i + j
  {
    if i > 0 && j > 0 {
      CellLower(a, b, i - 1, j - 1);
      if a[i - 1] != b[j - 1] {
        CellLower(a, b, i - 1, j);
        CellLower(a, b, i, j - 1);
      }
      CellUnfold(a, b, i, j);
    }
  }

  /** An inner cell copies the diagonal when its two characters match, and
      is one more than the least of its three neighbours otherwise. */
  lemma CellUnfold(a: string, b: string, i: nat, j: nat)
    requires 0 < i <= |a| && 0 < j <= |b|
    ensures a[i - 1] == b[j - 1] ==> Cell(a, b, i, j) == Cell(a, b, i - 1, j - 1)
    ensures a[i - 1] != b[j - 1] ==>
      Cell(a, b, i, j) == 1 + Min3(Cell(a, b, i - 1, j), Cell(a, b, i, j - 1), Cell(a, b, i - 1, j - 1))
  {
  }

  /** The distance lies between the difference of the lengths and the
      longer length. */
  lemma DistanceBounds(a: string, b: string)
    ensures Distance(a, b) <= Max(|a|, |b|)
    ensures |a| - |b| <= Distance(a, b) && |b| - |a| <= Distance(a, b)
  {
    CellUpper(a, b, |a|, |b|);
    CellLower(a, b, |a|, |b|);
  }

  /** Distance to or from the empty string is the other string's length. */
  lemma DistanceFromEmpty(s: string)
    ensures Distance("", s) == |s| && Distance(s, "") == |s|
  {
  }

  lemma {:induction false} CellSymmetric(a: string, b: string, i: nat, j: nat)
    requires i <= |a| && j <= |b|
    ensures Cell(a, b, i, j) == Cell(b, a, j, i)
    decreases i + j
  {
    if i == 0 || j == 0 {
      CellSymmetricBorder(a, b, i, j);
    } else if a[i - 1] == b[j - 1] {
      CellSymmetric(a, b, i - 1, j - 1);
      CellSymmetricMatch(a, b, i, j);
    } else {
      CellSymmetric(a, b, i - 1, j - 1);
      CellSymmetric(a, b, i - 1, j);
      CellSymmetric(a, b, i, j - 1);
      CellSymmetricStep(a, b, i, j);
    }
  }

  lemma CellSymmetricBorder(a: string, b: string, i: nat, j: nat)
    requires i <= |a| && j <= |b| && (i == 0 || j == 0)
    ensures Cell(a, b, i, j) == Cell(b, a, j, i)
  {
  }

  lemma CellSymmetricMatch(a: string, b: string, i: nat, j: nat)
    requires 0 < i <= |a| && 0 < j <= |b| && a[i - 1] == b[j - 1]
    requires Cell(a, b, i - 1, j - 1) == Cell(b, a, j - 1, i - 1)
    ensures Cell(a, b, i, j) == Cell(b, a, j, i)
  {
  }

  /** One step of the symmetry proof: with the three neighbouring cells
      already symmetric, so is the cell itself, since the minimum does not
      care whether "above" and "left" swap places. */
  lemma CellSymmetricStep(a: string, b: string, i: nat, j: nat)
    requires 0 < i <= |a| && 0 < j <= |b| && a[i - 1] != b[j - 1]
    requires Cell(a, b, i - 1, j) == Cell(b, a, j, i - 1)
    requires Cell(a, b, i, j - 1) == Cell(b, a, j - 1, i)
    requires Cell(a, b, i - 1, j - 1) == Cell(b, a, j - 1, i - 1)
    ensures Cell(a, b, i, j) == Cell(b, a, j, i)
  {
    var up, left, diag := Cell(a, b, i - 1, j), Cell(a, b, i, j - 1), Cell(a, b, i - 1, j - 1);
    assert Cell(a, b, i, j) == 1 + Min3(up, left, diag);
    assert Cell(b, a, j, i) == 1 + Min3(left, up, diag);
  }

  /** The distance does not depend on the order of its arguments. */
  lemma DistanceSymmetric(a: string, b: string)
    ensures Distance(a, b) == Distance(b, a)
  {
    CellSymmetric(a, b, |a|, |b|);
  }

  lemma {:induction false} CellDiagonalSelf(a: string, i: nat)
    requires i <= |a|
    ensures Cell(a, a, i, i) == 0
  {
    if i > 0 {
      CellDiagonalSelf(a, i - 1);
    }
  }

  /** Distance zero means equal prefixes, and equal prefixes have distance
      zero. */
  lemma {:induction false} CellZeroIff(a: string, b: string, i: nat, j: nat)
    requires i <= |a| && j <= |b|
    ensures Cell(a, b, i, j) == 0 <==> i == j && a[..i] == b[..j]
    decreases i + j
  {
    if i > 0 && j > 0 {
      CellZeroIff(a, b, i - 1, j - 1);
      assert a[..i] == a[..i - 1] + [a[i - 1]];
      assert b[..j] == b[..j - 1] + [b[j - 1]];
      if i == j && a[..i] == b[..j] {
        assert a[i - 1] == a[..i][i - 1] == b[..j][j - 1] == b[j - 1];
      }
    }
  }

  /** Two strings are at distance zero exactly when they are equal. */
  lemma DistanceZeroIff(a: string, b: string)
    ensures Distance(a, b) == 0 <==> a == b
  {
    CellZeroIff(a, b, |a|, |b|);
    assert a[..|a|] == a && b[..|b|] == b;
  }

  /** The worked example from the literature: three edits turn "kitten"
      into "sitting". */
  lemma KittenSitting()
    ensures Distance("kitten", "sitting") == 3
  {
    var a, b := "kitten", "sitting";
    assert Cell(a, b, 1, 1) == 1;
    assert Cell(a, b, 1, 2) == 2;
    assert Cell(a, b, 1, 3) == 3;
    assert Cell(a, b, 1, 4) == 4;
    assert Cell(a, b, 1, 5) == 5;
    assert Cell(a, b, 1, 6) == 6;
    assert Cell(a, b, 1, 7) == 7;
    assert Cell(a, b, 2, 1) == 2;
    assert Cell(a, b, 2, 2) == 1;
    assert Cell(a, b, 2, 3) == 2;
    assert Cell(a, b, 2, 4) == 3;
    assert Cell(a, b, 2, 5) == 4;
    assert Cell(a, b, 2, 6) == 5;
    assert Cell(a, b, 2, 7) == 6;
    assert Cell(a, b, 3, 1) == 3;
    assert Cell(a, b, 3, 2) == 2;
    assert Cell(a, b, 3, 3) == 1;
    assert Cell(a, b, 3, 4) == 2;
    assert Cell(a, b, 3, 5) == 3;
    assert Cell(a, b, 3, 6) == 4;
    assert Cell(a, b, 3, 7) == 5;
    assert Cell(a, b, 4, 1) == 4;
    assert Cell(a, b, 4, 2) == 3;
    assert Cell(a, b, 4, 3) == 2;
    assert Cell(a, b, 4, 4) == 1;
    assert Cell(a, b, 4, 5) == 2;
    assert Cell(a, b, 4, 6) == 3;
    assert Cell(a, b, 4, 7) == 4;
    assert Cell(a, b, 5, 1) == 5;
    assert Cell(a, b, 5, 2) == 4;
    assert Cell(a, b, 5, 3) == 3;
    assert Cell(a, b, 5, 4) == 2;
    assert Cell(a, b, 5, 5) == 2;
    assert Cell(a, b, 5, 6) == 3;
    assert Cell(a, b, 5, 7) == 4;
    assert Cell(a, b, 6, 1) == 6;
    assert Cell(a, b, 6, 2) == 5;
    assert Cell(a, b, 6, 3) == 4;
    assert Cell(a, b, 6, 4) == 3;
    assert Cell(a, b, 6, 5) == 3;
    assert Cell(a, b, 6, 6) == 2;
    assert Cell(a, b, 6, 7) == 3;
  }
}
