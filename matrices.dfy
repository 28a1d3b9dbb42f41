/** `invert_matrix` and `matmul`: the closed-form inverse of a 3x3 matrix
    and the product of two matrices given as lists of rows. Entries are exact
    reals; the failures the source raises (its assertions, an index past the
    end of a row, a singular matrix) are `Err` results. */
module Matrices {
  import opened Wrappers

  /** A matrix as a list of rows; nothing forces the rows to have one length. */
  type Matrix = seq<seq<real>>

  datatype MatrixError =
    | NotThreeByThree    // `assert len(mat) == 3` or `assert len(mat[0]) == 3` failed
    | Singular           // `ValueError("Singular matrix")`
    | DimensionMismatch  // `assert len(mat1[i]) == len(mat2)` failed
    | IndexOutOfRange    // an `IndexError` from indexing past the end of a list

  /** Three rows of three entries. */
  predicate Square3(m: Matrix) {
    |m| == 3 && forall i :: 0 <= i < 3 ==> |m[i]| == 3
  }

  /** Three rows, each with at least three entries: every index the
      closed-form inverse reads exists. */
  predicate Indexable3(m: Matrix) {
    |m| == 3 && forall i :: 0 <= i < 3 ==> |m[i]| >= 3
  }

  function Identity(): (id: Matrix)
    ensures Square3(id)
  {
    [[1.0, 0.0, 0.0], [0.0, 1.0, 0.0], [0.0, 0.0, 1.0]]
  }

  // ---------------------------------------------------------------------
  // `invert_matrix`
  // ---------------------------------------------------------------------

  /** The determinant, expanded along the first row. */
  function Det(m: Matrix): real
    requires Indexable3(m)
  {
    m[0][0] * (m[1][1] * m[2][2] - m[2][1] * m[1][2])
    - m[0][1] * (m[1][0] * m[2][2] - m[1][2] * m[2][0])
    + m[0][2] * (m[1][0] * m[2][1] - m[1][1] * m[2][0])
  }

  /** The two other indices of `i`, in cyclic order: (1,2), (2,0), (0,1). */
  function Others(i: int): (p: (int, int))
    ensures 0 <= p.0 < 3 && 0 <= p.1 < 3
    ensures 0 <= i < 3 ==> p.0 != i && p.1 != i && p.0 != p.1
  {
    if i == 0 then (1, 2) else if i == 1 then (2, 0) else (0, 1)
  }

  /** The cofactor of entry (i, j): the 2x2 determinant of the rows and
      columns other than i and j, taken in cyclic order, which carries the
      cofactor's sign. */
  function Cofactor(m: Matrix, i: int, j: int): real
    requires Indexable3(m)
  {
    m[Others(i).0][Others(j).0] * m[Others(i).1][Others(j).1]
    - m[Others(i).0][Others(j).1] * m[Others(i).1][Others(j).0]
  }

  /** The adjugate (transposed cofactors) over the determinant. */
  function Inverse(m: Matrix): (inv: Matrix)
    requires Indexable3(m) && Det(m) != 0.0
    ensures Square3(inv)
    ensures forall j, i :: 0 <= j < 3 && 0 <= i < 3 ==> inv[j][i] == Cofactor(m, i, j) / Det(m)
  {
    seq(3, j requires 0 <= j < 3 => seq(3, i requires 0 <= i < 3 => Cofactor(m, i, j) / Det(m)))
  }

  /** `invert_matrix`: the checks in the source's order, then the inverse. */
  function Invert(m: Matrix): (r: Result<Matrix, MatrixError>)
    ensures r.Ok? ==> Square3(r.value)
    ensures |m| != 3 || |m[0]| != 3 ==> r == Err(NotThreeByThree)
    ensures |m| == 3 && |m[0]| == 3 && (|m[1]| < 3 || |m[2]| < 3) ==> r == Err(IndexOutOfRange)
    ensures Square3(m) ==> (r == Err(Singular) <==> Det(m) == 0.0)
    ensures Square3(m) && Det(m) != 0.0 ==> r == Ok(Inverse(m))
  {
    if |m| != 3 || |m[0]| != 3 then Err(NotThreeByThree)
    else if |m[1]| < 3 || |m[2]| < 3 then Err(IndexOutOfRange)
    else if Det(m) == 0.0 then Err(Singular)
    else Ok(Inverse(m))
  }

  /** `invert_matrix`, filling a 3x3 result cell by cell in nested loops. */
  method InvertMatrix(mat: Matrix) returns (r: Result<Matrix, MatrixError>)
    ensures r == Invert(mat)
  {
    if |mat| != 3 || |mat[0]| != 3 {
      return Err(NotThreeByThree);
    }
    if |mat[1]| < 3 || |mat[2]| < 3 {
      return Err(IndexOutOfRange);
    }
    var detfull := mat[0][0] * (mat[1][1] * mat[2][2] - mat[2][1] * mat[1][2])
      - mat[0][1] * (mat[1][0] * mat[2][2] - mat[1][2] * mat[2][0])
      + mat[0][2] * (mat[1][0] * mat[2][1] - mat[1][1] * mat[2][0]);
    assert detfull == Det(mat);
    if detfull == 0.0 {
      return Err(Singular);
    }
    // The source fills the rows with None; every cell is overwritten below.
    var inverse: Matrix := [[0.0, 0.0, 0.0], [0.0, 0.0, 0.0], [0.0, 0.0, 0.0]];
    ghost var target := Inverse(mat);
    for i := 0 to 3
      invariant Square3(inverse)
      invariant forall a, c :: 0 <= a < 3 && 0 <= c < i ==> inverse[a][c] == target[a][c]
    {
      var x1, x2;
      if i == 0 {
        x1, x2 := 1, 2;
      } else if i == 1 {
        x1, x2 := 2, 0;
      } else {
        x1, x2 := 0, 1;
      }
      for j := 0 to 3
        invariant Square3(inverse)
        invariant forall a, c :: 0 <= a < 3 && 0 <= c < i ==> inverse[a][c] == target[a][c]
        invariant forall a :: 0 <= a < j ==> inverse[a][i] == target[a][i]
      {
        var y1, y2;
        if j == 0 {
          y1, y2 := 1, 2;
        } else if j == 1 {
          y1, y2 := 2, 0;
        } else {
          y1, y2 := 0, 1;
        }
        var cell := (mat[x1][y1] * mat[x2][y2] - mat[x1][y2] * mat[x2][y1]) / detfull;
        InverseCell(mat, i, j, x1, x2, y1, y2, detfull);
        inverse := inverse[j := inverse[j][i := cell]];
      }
    }
    SameMatrix(inverse, target);
    return Ok(inverse);
  }

  /** The cell `invert_matrix` computes for row i and column j of the
      original is entry (j, i) of the inverse. */
  lemma {:induction false} InverseCell(m: Matrix, i: int, j: int, x1: int, x2: int, y1: int, y2: int, d: real)
    requires Indexable3(m) && 0 <= i < 3 && 0 <= j < 3 && d == Det(m) && d != 0.0
    requires (x1, x2) == Others(i) && (y1, y2) == Others(j)
    ensures (m[x1][y1] * m[x2][y2] - m[x1][y2] * m[x2][y1]) / d == Inverse(m)[j][i]
  {
  }

  /** Two 3x3 matrices with the same entries are equal. */
  lemma {:induction false} SameMatrix(a: Matrix, b: Matrix)
    requires Square3(a) && Square3(b)
    requires forall i, j :: 0 <= i < 3 && 0 <= j < 3 ==> a[i][j] == b[i][j]
    ensures a == b
  {
    forall i | 0 <= i < 3 ensures a[i] == b[i] {
    }
  }

  // ---------------------------------------------------------------------
  // `matmul`
  // ---------------------------------------------------------------------

  /** The sum over k < n of a[k] * m2[k][j]. */
  function Dot(a: seq<real>, m2: Matrix, j: nat, n: nat): real
    requires n <= |a| && n <= |m2|
    requires forall k :: 0 <= k < n ==> j < |m2[k]|
  {
    if n == 0 then 0.0 else Dot(a, m2, j, n - 1) + a[n - 1] * m2[n - 1][j]
  }

  /** No row of `m2` is shorter than its first. */
  predicate Rect(m2: Matrix) {
    |m2| > 0 && forall k :: 0 <= k < |m2| ==> |m2[k]| >= |m2[0]|
  }

  /** Every row of `m1` has one entry per row of `m2`. */
  predicate Conformable(m1: Matrix, m2: Matrix) {
    forall i :: 0 <= i < |m1| ==> |m1[i]| == |m2|
  }

  /** The matrix product: |m1| rows of |m2[0]| entries each. */
  function Product(m1: Matrix, m2: Matrix): (p: Matrix)
    requires Rect(m2) && Conformable(m1, m2)
    ensures |p| == |m1|
    ensures forall i :: 0 <= i < |p| ==> |p[i]| == |m2[0]|
  {
    seq(|m1|, i requires 0 <= i < |m1| =>
      seq(|m2[0]|, j requires 0 <= j < |m2[0]| => Dot(m1[i], m2, j, |m2|)))
  }

  /** n rows with no entries. */
  function EmptyRows(n: nat): (rows: Matrix)
    ensures |rows| == n && forall i :: 0 <= i < n ==> rows[i] == []
  {
    if n == 0 then [] else EmptyRows(n - 1) + [[]]
  }

  /** `matmul`, failing as the source's loops fail: reading `mat2[0]` when
      `mat2` is empty, the dimension assertion (checked only when `mat2[0]`
      has entries, first on row 0), and reading past the end of a row of
      `mat2` shorter than its first. */
  function Multiply(m1: Matrix, m2: Matrix): (r: Result<Matrix, MatrixError>)
    ensures r.Ok? ==> |r.value| == |m1|
    ensures r.Ok? && |m1| > 0 ==> |m2| > 0 && forall i :: 0 <= i < |m1| ==> |r.value[i]| == |m2[0]|
  {
    if |m1| == 0 then Ok([])
    else if |m2| == 0 then Err(IndexOutOfRange)
    else if |m2[0]| == 0 then Ok(EmptyRows(|m1|))
    else if |m1[0]| != |m2| then Err(DimensionMismatch)
    else if !Rect(m2) then Err(IndexOutOfRange)
    else if !Conformable(m1, m2) then Err(DimensionMismatch)
    else Ok(Product(m1, m2))
  }

  /** `matmul`: append a row per row of `mat1`, an entry per column of
      `mat2`, each accumulated over k. */
  method MatMul(mat1: Matrix, mat2: Matrix) returns (r: Result<Matrix, MatrixError>)
    ensures r == Multiply(mat1, mat2)
  {
    var answer: Matrix := [];
    for i := 0 to |mat1|
      invariant |answer| == i
      invariant i > 0 ==> |mat2| > 0
      invariant i > 0 && |mat2[0]| > 0 ==> Rect(mat2)
      invariant forall a :: 0 <= a < i && |mat2[0]| > 0 ==> |mat1[a]| == |mat2|
      invariant forall a :: 0 <= a < i ==> |answer[a]| == |mat2[0]|
      invariant forall a, c :: 0 <= a < i && 0 <= c < |mat2[0]| ==> answer[a][c] == Dot(mat1[a], mat2, c, |mat2|)
    {
      answer := answer + [[]];
      if |mat2| == 0 {
        // `len(mat2[0])` raises.
        return Err(IndexOutOfRange);
      }
      for j := 0 to |mat2[0]|
        invariant |answer| == i + 1 && |answer[i]| == j
        invariant forall a :: 0 <= a < i ==> |answer[a]| == |mat2[0]|
        invariant forall a, c :: 0 <= a < i && 0 <= c < |mat2[0]| ==> answer[a][c] == Dot(mat1[a], mat2, c, |mat2|)
        invariant j > 0 ==> |mat1[i]| == |mat2|
        invariant forall k :: 0 <= k < |mat2| ==> j <= |mat2[k]|
        invariant forall c :: 0 <= c < j ==> answer[i][c] == Dot(mat1[i], mat2, c, |mat2|)
      {
        var elem := 0.0;
        if |mat1[i]| != |mat2| {
          MismatchAt(mat1, mat2, i);
          return Err(DimensionMismatch);
        }
        for k := 0 to |mat1[i]|
          invariant forall kk :: 0 <= kk < k ==> j < |mat2[kk]|
          invariant elem == Dot(mat1[i], mat2, j, k)
        {
          if j >= |mat2[k]| {
            // `mat2[k][j]` raises.
            ShortRowAt(mat1, mat2, i, k, j);
            return Err(IndexOutOfRange);
          }
          elem := elem + mat1[i][k] * mat2[k][j];
        }
        answer := answer[i := answer[i] + [elem]];
      }
    }
    r := Ok(answer);
    if |mat1| > 0 {
      SameProduct(mat1, mat2, answer);
    }
  }

  /** Row i fails the dimension assertion, and every earlier row passed it
      (so the rows of `mat2` were all checked while row 0 was computed). */
  lemma {:induction false} MismatchAt(m1: Matrix, m2: Matrix, i: nat)
    requires i < |m1| && |m2| > 0 && |m2[0]| > 0 && |m1[i]| != |m2|
    requires i > 0 ==> Rect(m2)
    requires forall a :: 0 <= a < i ==> |m1[a]| == |m2|
    ensures Multiply(m1, m2) == Err(DimensionMismatch)
  {
  }

  /** Reading column j of row k of `m2` past its end while computing row i:
      this can only happen on row 0, whose length passed the dimension
      assertion. */
  lemma {:induction false} ShortRowAt(m1: Matrix, m2: Matrix, i: nat, k: nat, j: nat)
    requires i < |m1| && k < |m2| && |m1[i]| == |m2|
    requires forall a :: 0 <= a < i ==> |m1[a]| == |m2|
    requires j < |m2[0]| && |m2[k]| <= j
    ensures Multiply(m1, m2) == Err(IndexOutOfRange)
  {
    assert !Rect(m2);
  }

  /** The rows the loops built are the product's. */
  lemma {:induction false} SameProduct(m1: Matrix, m2: Matrix, answer: Matrix)
    requires |m1| > 0 && |m2| > 0 && |answer| == |m1|
    requires |m2[0]| > 0 ==> Rect(m2)
    requires forall a :: 0 <= a < |m1| && |m2[0]| > 0 ==> |m1[a]| == |m2|
    requires forall a :: 0 <= a < |m1| ==> |answer[a]| == |m2[0]|
    requires forall a, c :: 0 <= a < |m1| && 0 <= c < |m2[0]| ==> answer[a][c] == Dot(m1[a], m2, c, |m2|)
    ensures Multiply(m1, m2) == Ok(answer)
  {
    if |m2[0]| == 0 {
      var z := EmptyRows(|m1|);
      forall a | 0 <= a < |m1| ensures answer[a] == z[a] {
        assert |answer[a]| == 0;
      }
      assert answer == z;
    } else {
      assert |m1[0]| == |m2| && Conformable(m1, m2);
      var p := Product(m1, m2);
      forall a | 0 <= a < |m1| ensures answer[a] == p[a] {
        assert forall c :: 0 <= c < |m2[0]| ==> answer[a][c] == p[a][c];
      }
      assert answer == p;
    }
  }

  // ---------------------------------------------------------------------
  // Properties
  // ---------------------------------------------------------------------

  /** Three products whose second factors share a nonzero denominator d,
      and whose numerators sum to d or to zero, sum to one or to zero. */
  lemma {:induction false} SumOverDet(x0: real, x1: real, x2: real, c0: real, c1: real, c2: real,
                                      e0: real, e1: real, e2: real, d: real, same: bool)
    requires d != 0.0 && e0 == c0 / d && e1 == c1 / d && e2 == c2 / d
    requires x0 * c0 + x1 * c1 + x2 * c2 == if same then d else 0.0
    ensures x0 * e0 + x1 * e1 + x2 * e2 == if same then 1.0 else 0.0
  {
    calc {
      x0 * e0 + x1 * e1 + x2 * e2;
      (x0 * c0) / d + (x1 * c1) / d + (x2 * c2) / d;
      (x0 * c0 + x1 * c1 + x2 * c2) / d;
    }
  }

  /** A product over three rows, written out. */
  lemma {:induction false} Dot3(a: seq<real>, m2: Matrix, j: nat)
    requires 3 <= |a| && 3 <= |m2| && forall k :: 0 <= k < 3 ==> j < |m2[k]|
    ensures Dot(a, m2, j, 3) == a[0] * m2[0][j] + a[1] * m2[1][j] + a[2] * m2[2][j]
  {
    assert Dot(a, m2, j, 0) == 0.0;
    assert Dot(a, m2, j, 1) == a[0] * m2[0][j];
  }

  /** Expanding along row a with the cofactors of row b gives the
      determinant when a == b and zero otherwise (a matrix with a repeated
      row). */
  lemma {:induction false} CofactorExpansion(m: Matrix, a: int, b: int)
    requires Indexable3(m) && 0 <= a < 3 && 0 <= b < 3
    ensures m[a][0] * Cofactor(m, b, 0) + m[a][1] * Cofactor(m, b, 1) + m[a][2] * Cofactor(m, b, 2)
            == if a == b then Det(m) else 0.0
  {
  }

  /** Expanding along column a with the cofactors of column b, the same for
      the columns. */
  lemma {:induction false} CofactorExpansionColumns(m: Matrix, a: int, b: int)
    requires Indexable3(m) && 0 <= a < 3 && 0 <= b < 3
    ensures m[0][a] * Cofactor(m, 0, b) + m[1][a] * Cofactor(m, 1, b) + m[2][a] * Cofactor(m, 2, b)
            == if a == b then Det(m) else 0.0
  {
  }

  /** The identity's entries. */
  lemma {:induction false} IdentityEntry(a: int, b: int)
    requires 0 <= a < 3 && 0 <= b < 3
    ensures Identity()[a][b] == if a == b then 1.0 else 0.0
  {
  }

  /** An entry of a product of two matrices with three rows each. */
  lemma {:induction false} ProductEntry(m1: Matrix, m2: Matrix, a: int, b: int)
    requires Rect(m2) && Conformable(m1, m2) && |m2| == 3
    requires 0 <= a < |m1| && 0 <= b < |m2[0]|
    ensures Product(m1, m2)[a][b] == m1[a][0] * m2[0][b] + m1[a][1] * m2[1][b] + m1[a][2] * m2[2][b]
  {
    Dot3(m1[a], m2, b);
  }

  /** Entry (a, b) of m1 * m2 is that of the identity when column b of m2
      is three numerators over d whose combination with row a of m1 is d
      on the diagonal and zero off it. */
  lemma {:induction false} UnitEntry(m1: Matrix, m2: Matrix, a: int, b: int,
                                     c0: real, c1: real, c2: real, d: real)
    requires Square3(m1) && Square3(m2) && 0 <= a < 3 && 0 <= b < 3 && d != 0.0
    requires m2[0][b] == c0 / d && m2[1][b] == c1 / d && m2[2][b] == c2 / d
    requires m1[a][0] * c0 + m1[a][1] * c1 + m1[a][2] * c2 == if a == b then d else 0.0
    ensures Product(m1, m2)[a][b] == Identity()[a][b]
  {
    IdentityEntry(a, b);
    ProductEntry(m1, m2, a, b);
    SumOverDet(m1[a][0], m1[a][1], m1[a][2], c0, c1, c2, m2[0][b], m2[1][b], m2[2][b], d, a == b);
  }

  /** The same with the numerators along row a of m1. */
  lemma {:induction false} UnitEntryRow(m1: Matrix, m2: Matrix, a: int, b: int,
                                        c0: real, c1: real, c2: real, d: real)
    requires Square3(m1) && Square3(m2) && 0 <= a < 3 && 0 <= b < 3 && d != 0.0
    requires m1[a][0] == c0 / d && m1[a][1] == c1 / d && m1[a][2] == c2 / d
    requires m2[0][b] * c0 + m2[1][b] * c1 + m2[2][b] * c2 == if a == b then d else 0.0
    ensures Product(m1, m2)[a][b] == Identity()[a][b]
  {
    IdentityEntry(a, b);
    ProductEntry(m1, m2, a, b);
    SumOverDet(m2[0][b], m2[1][b], m2[2][b], c0, c1, c2, m1[a][0], m1[a][1], m1[a][2], d, a == b);
  }

  /** Entry (a, b) of `matmul(M, invert_matrix(M))`. */
  lemma {:induction false} RightEntry(m: Matrix, a: int, b: int)
    requires Square3(m) && Det(m) != 0.0 && 0 <= a < 3 && 0 <= b < 3
    ensures Product(m, Inverse(m))[a][b] == Identity()[a][b]
  {
    CofactorExpansion(m, a, b);
    UnitEntry(m, Inverse(m), a, b, Cofactor(m, b, 0), Cofactor(m, b, 1), Cofactor(m, b, 2), Det(m));
  }

  /** Entry (a, b) of `matmul(invert_matrix(M), M)`. */
  lemma {:induction false} LeftEntry(m: Matrix, a: int, b: int)
    requires Square3(m) && Det(m) != 0.0 && 0 <= a < 3 && 0 <= b < 3
    ensures Product(Inverse(m), m)[a][b] == Identity()[a][b]
  {
    CofactorExpansionColumns(m, b, a);
    UnitEntryRow(Inverse(m), m, a, b, Cofactor(m, 0, a), Cofactor(m, 1, a), Cofactor(m, 2, a), Det(m));
  }

  /** `matmul(M, invert_matrix(M))` is the identity. */
  lemma {:induction false} InverseOnRight(m: Matrix)
    requires Square3(m) && Det(m) != 0.0
    ensures Multiply(m, Inverse(m)) == Ok(Identity())
  {
    var p := Product(m, Inverse(m));
    forall a, b | 0 <= a < 3 && 0 <= b < 3 ensures p[a][b] == Identity()[a][b] {
      RightEntry(m, a, b);
    }
    SameMatrix(p, Identity());
  }

  /** `matmul(invert_matrix(M), M)` is the identity. */
  lemma {:induction false} InverseOnLeft(m: Matrix)
    requires Square3(m) && Det(m) != 0.0
    ensures Multiply(Inverse(m), m) == Ok(Identity())
  {
    var p := Product(Inverse(m), m);
    forall a, b | 0 <= a < 3 && 0 <= b < 3 ensures p[a][b] == Identity()[a][b] {
      LeftEntry(m, a, b);
    }
    SameMatrix(p, Identity());
  }

  /** A successful `invert_matrix` gives both-sided inverse. */
  lemma {:induction false} InvertIsInverse(m: Matrix)
    requires Square3(m) && Invert(m).Ok?
    ensures Multiply(m, Invert(m).value) == Ok(Identity())
    ensures Multiply(Invert(m).value, m) == Ok(Identity())
  {
    InverseOnRight(m);
    InverseOnLeft(m);
  }

  /** The inverse of the identity is the identity. */
  lemma {:induction false} InvertIdentity()
    ensures Invert(Identity()) == Ok(Identity())
  {
    var id := Identity();
    assert Det(id) == 1.0;
    SameMatrix(Inverse(id), id);
  }

  /** The (2x3)·(3x2) integer product computed by hand. */
  lemma {:induction false} ProductExample()
    ensures Multiply([[4.0, 7.0, 6.0], [0.0, -3.0, 1.0]], [[0.0, 1.0], [-1.0, 3.0], [5.0, 0.0]])
            == Ok([[23.0, 25.0], [8.0, -9.0]])
  {
    var m1: Matrix := [[4.0, 7.0, 6.0], [0.0, -3.0, 1.0]];
    var m2: Matrix := [[0.0, 1.0], [-1.0, 3.0], [5.0, 0.0]];
    assert Rect(m2) && Conformable(m1, m2);
    var p := Product(m1, m2);
    Dot3(m1[0], m2, 0);
    Dot3(m1[0], m2, 1);
    Dot3(m1[1], m2, 0);
    Dot3(m1[1], m2, 1);
    assert p[0] == [23.0, 25.0];
    assert p[1] == [8.0, -9.0];
    assert p == [[23.0, 25.0], [8.0, -9.0]];
  }
}
