/// Row-major storage of an ACMatrix: the cells of an r×c matrix live in one
/// flat sequence of length r*c, row 0 first, each row left to right, so cell
/// (i, j) (0-based) sits at offset i*c + j. The enumerator visits the cells in
/// exactly this order.
module RowMajor {
  import opened MatrixAlgebra

  /** Offset of cell (i, j) of an r×c matrix in its row-major storage. */
  function Offset(i: nat, j: nat, r: nat, c: nat): (k: nat)
    requires i < r && j < c
    ensures k < r * c
    ensures k / c == i && k % c == j
  {
    OffsetBounds(i, j, r, c);
    i * c + j
  }

  lemma OffsetBounds(i: nat, j: nat, r: nat, c: nat)
    requires i < r && j < c
    ensures i * c + j < r * c
    ensures (i * c + j) / c == i && (i * c + j) % c == j
  {
    assert (i + 1) * c <= r * c by {
      MulMonotone(i + 1, r, c);
    }
    DivModUnique(i * c + j, c, i, j);
  }

  lemma MulMonotone(x: nat, y: nat, c: nat)
    requires x <= y
    ensures x * c <= y * c
  {
    // Dafny's arithmetic proves this unaided
  }

  /** The quotient and remainder of n by c are the only q, m with n == q*c + m and 0 <= m < c. */
  lemma DivModUnique(n: nat, c: nat, q: nat, m: nat)
    requires 0 <= m < c && n == q * c + m
    ensures n / c == q && n % c == m
  {
    var q', m' := n / c, n % c;
    assert n == q' * c + m' && 0 <= m' < c;
    if q' < q {
      MulMonotone(q' + 1, q, c);
      assert false;
    } else if q < q' {
      MulMonotone(q + 1, q', c);
      assert false;
    }
  }

  /** Every storage offset below r*c is the offset of exactly one cell. */
  lemma CellOfOffset(k: nat, r: nat, c: nat)
    requires k < r * c
    ensures c > 0 && k / c < r && k % c < c
    ensures Offset(k / c, k % c, r, c) == k
  {
    // Dafny's arithmetic proves this unaided
  }

  // ---------------------------------------------------------------------
  // From storage to matrix value and back

  /** The matrix that a row-major storage of length r*c holds. */
  function Unflatten(s: seq<real>, r: nat, c: nat): (a: Grid)
    requires |s| == r * c
    ensures IsMatrix(a, r, c)
  {
    seq(r, i requires 0 <= i < r => seq(c, j requires 0 <= j < c => s[Offset(i, j, r, c)]))
  }

  /** The cells of a matrix, row after row: an independent reference for row-major order. */
  function Cells(a: Grid): seq<real> {
    if |a| == 0 then [] else Cells(a[..|a| - 1]) + a[|a| - 1]
  }

  /** Cell (i, j) of an r×c matrix is at offset i*c + j of its row-major cells. */
  lemma {:induction false} CellsAt(a: Grid, r: nat, c: nat, i: nat, j: nat)
    requires IsMatrix(a, r, c) && i < r && j < c
    ensures |Cells(a)| == r * c
    ensures Cells(a)[Offset(i, j, r, c)] == a[i][j]
  {
    var front := a[..r - 1];
    assert IsMatrix(front, r - 1, c);
    CellsLength(front, r - 1, c);
    assert Cells(a) == Cells(front) + a[r - 1];
    if i < r - 1 {
      CellsAt(front, r - 1, c, i, j);
      assert Offset(i, j, r, c) == Offset(i, j, r - 1, c);
    } else {
      assert Offset(i, j, r, c) == (r - 1) * c + j;
    }
  }

  lemma {:induction false} CellsLength(a: Grid, r: nat, c: nat)
    requires IsMatrix(a, r, c)
    ensures |Cells(a)| == r * c
  {
    if r > 0 {
      var front := a[..r - 1];
      assert IsMatrix(front, r - 1, c);
      CellsLength(front, r - 1, c);
      assert Cells(a) == Cells(front) + a[r - 1];
    }
  }

  /** Reading a storage back as a matrix and listing its cells gives the storage again. */
  lemma CellsOfUnflatten(s: seq<real>, r: nat, c: nat)
    requires |s| == r * c
    ensures Cells(Unflatten(s, r, c)) == s
  {
    var a := Unflatten(s, r, c);
    CellsLength(a, r, c);
    forall k | 0 <= k < r * c
      ensures Cells(a)[k] == s[k]
    {
      CellOfOffset(k, r, c);
      CellsAt(a, r, c, k / c, k % c);
    }
  }

  /** Storing the cells of a matrix row-major and reading them back gives the matrix again. */
  lemma UnflattenOfCells(a: Grid, r: nat, c: nat)
    requires IsMatrix(a, r, c)
    ensures |Cells(a)| == r * c
    ensures Unflatten(Cells(a), r, c) == a
  {
    CellsLength(a, r, c);
    forall i, j | 0 <= i < r && 0 <= j < c
      ensures Unflatten(Cells(a), r, c)[i][j] == a[i][j]
    {
      CellsAt(a, r, c, i, j);
    }
    CellwiseEqual(Unflatten(Cells(a), r, c), a, r, c);
  }

  // ---------------------------------------------------------------------
  // The enumerator's order of visits

  /** One call of the enumerator's callback: 0-based row and column, and the value there. */
  datatype Visit = Visit(row: nat, column: nat, value: real)

  /** The callbacks for row i, left to right. */
  function RowVisits(a: Grid, i: nat, c: nat): (vs: seq<Visit>)
    requires i < |a| && |a[i]| == c
    ensures |vs| == c
  {
    seq(c, j requires 0 <= j < c => Visit(i, j, a[i][j]))
  }

  /** The callbacks for the first n rows, top to bottom. */
  function Enumeration(a: Grid, n: nat, c: nat): seq<Visit>
    requires n <= |a| && forall i :: 0 <= i < n ==> |a[i]| == c
  {
    if n == 0 then [] else Enumeration(a, n - 1, c) + RowVisits(a, n - 1, c)
  }

  lemma {:induction false} EnumerationLength(a: Grid, n: nat, c: nat)
    requires n <= |a| && forall i :: 0 <= i < n ==> |a[i]| == c
    ensures |Enumeration(a, n, c)| == n * c
  {
    if n > 0 {
      EnumerationLength(a, n - 1, c);
    }
  }

  /** Cell (i, j) is visited at position i*c + j, with the value stored there. */
  lemma {:induction false} EnumerationAt(a: Grid, r: nat, c: nat, i: nat, j: nat)
    requires IsMatrix(a, r, c) && i < r && j < c
    ensures |Enumeration(a, r, c)| == r * c
    ensures Enumeration(a, r, c)[Offset(i, j, r, c)] == Visit(i, j, a[i][j])
    decreases r, 1
  {
    EnumerationLength(a, r, c);
    EnumerationLength(a, r - 1, c);
    if i < r - 1 {
      EnumerationPrefix(a, r, c, i, j);
    } else {
      assert Offset(i, j, r, c) == (r - 1) * c + j;
    }
  }

  lemma {:induction false} EnumerationPrefix(a: Grid, r: nat, c: nat, i: nat, j: nat)
    requires IsMatrix(a, r, c) && i < r - 1 && j < c
    ensures |Enumeration(a, r - 1, c)| == (r - 1) * c
    ensures Enumeration(a, r - 1, c)[Offset(i, j, r - 1, c)] == Visit(i, j, a[i][j])
    decreases r, 0
  {
    var front := a[..r - 1];
    assert IsMatrix(front, r - 1, c);
    EnumerationSameRows(a, front, r - 1, c);
    EnumerationAt(front, r - 1, c, i, j);
  }

  /** The enumeration of the first n rows depends only on those rows. */
  lemma {:induction false} EnumerationSameRows(a: Grid, b: Grid, n: nat, c: nat)
    requires n <= |a| && n <= |b| && forall i :: 0 <= i < n ==> |a[i]| == c && a[i] == b[i]
    ensures Enumeration(a, n, c) == Enumeration(b, n, c)
  {
    if n > 0 {
      EnumerationSameRows(a, b, n - 1, c);
    }
  }

  /** Position k of the enumeration is the cell (k / c, k % c): exactly rows*columns visits, 0-based. */
  lemma EnumerationPosition(a: Grid, r: nat, c: nat, k: nat)
    requires IsMatrix(a, r, c) && k < r * c
    ensures |Enumeration(a, r, c)| == r * c
    ensures c > 0 && k / c < r
    ensures Enumeration(a, r, c)[k] == Visit(k / c, k % c, a[k / c][k % c])
  {
    CellOfOffset(k, r, c);
    EnumerationAt(a, r, c, k / c, k % c);
  }

  /** Every cell is visited exactly once: at position i*c + j and at no other. */
  lemma EnumerationVisitsOnce(a: Grid, r: nat, c: nat, i: nat, j: nat, k: nat)
    requires IsMatrix(a, r, c) && i < r && j < c && k < r * c
    ensures |Enumeration(a, r, c)| == r * c
    ensures Enumeration(a, r, c)[k].row == i && Enumeration(a, r, c)[k].column == j <==> k == Offset(i, j, r, c)
  {
    EnumerationPosition(a, r, c, k);
  }

  /** The visits run left to right within a row and top to bottom across rows,
      from (0, 0) to (r-1, c-1). */
  lemma EnumerationOrder(a: Grid, r: nat, c: nat, k: nat)
    requires IsMatrix(a, r, c) && 0 < r && 0 < c && k < r * c
    ensures |Enumeration(a, r, c)| == r * c
    ensures Enumeration(a, r, c)[0].row == 0 && Enumeration(a, r, c)[0].column == 0
    ensures Enumeration(a, r, c)[r * c - 1].row == r - 1 && Enumeration(a, r, c)[r * c - 1].column == c - 1
    ensures k + 1 < r * c ==>
      var v, w := Enumeration(a, r, c)[k], Enumeration(a, r, c)[k + 1];
      (v.column + 1 < c && w.row == v.row && w.column == v.column + 1) ||
      (v.column == c - 1 && w.row == v.row + 1 && w.column == 0)
  {
    EnumerationAt(a, r, c, 0, 0);
    EnumerationAt(a, r, c, r - 1, c - 1);
    assert Offset(r - 1, c - 1, r, c) == r * c - 1;
    if k + 1 < r * c {
      EnumerationPosition(a, r, c, k);
      EnumerationPosition(a, r, c, k + 1);
      var i, j := k / c, k % c;
      assert k == i * c + j;
      if j + 1 < c {
        DivModUnique(k + 1, c, i, j + 1);
      } else {
        DivModUnique(k + 1, c, i + 1, 0);
      }
    }
  }

  /** The values the enumerator passes are the matrix's cells in row-major order. */
  lemma EnumerationValues(a: Grid, r: nat, c: nat, k: nat)
    requires IsMatrix(a, r, c) && k < r * c
    ensures |Enumeration(a, r, c)| == |Cells(a)| == r * c
    ensures Enumeration(a, r, c)[k].value == Cells(a)[k]
  {
    CellOfOffset(k, r, c);
    EnumerationAt(a, r, c, k / c, k % c);
    CellsAt(a, r, c, k / c, k % c);
  }

  /** A matrix filled from a value sequence (by `rows:columns:values:` or `update`)
      hands those values to the enumerator in the same order. */
  lemma FillOrderIsEnumerationOrder(s: seq<real>, r: nat, c: nat, k: nat)
    requires |s| == r * c && k < r * c
    ensures |Enumeration(Unflatten(s, r, c), r, c)| == r * c
    ensures Enumeration(Unflatten(s, r, c), r, c)[k].value == s[k]
  {
    EnumerationValues(Unflatten(s, r, c), r, c, k);
    CellsOfUnflatten(s, r, c);
  }
}
