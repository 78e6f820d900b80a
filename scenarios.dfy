/// Client code written against the ACMatrix contracts alone: what a caller can
/// conclude about concrete matrices, and about chains of calls, from the
/// specifications of the class.
module Scenarios {
  import opened MatrixAlgebra
  import opened RowMajor
  import opened Matrices

  /** A = [[1, 2], [3, 4]] and B = [[5, 6], [7, 8]]: A + B = [[6, 8], [10, 12]]. */
  method SumOfTwoByTwo() {
    var ra := ACMatrix.WithRowsValues(2, 2, [1.0, 2.0, 3.0, 4.0]);
    var rb := ACMatrix.WithRowsValues(2, 2, [5.0, 6.0, 7.0, 8.0]);
    var a, b := ra.value, rb.value;
    var rs := a.Plus(b);
    var sum := rs.value;
    CellwiseEqual(sum.View(), [[6.0, 8.0], [10.0, 12.0]], 2, 2);
    var v := sum.M(2, 1);
    assert v == Ok(10.0);
    // the operands are left as they were
    v := a.M(2, 2);
    assert v == Ok(4.0);
  }

  /** A = [[1, 2], [3, 4]] and B = [[5, 6], [7, 8]]: A • B = [[19, 22], [43, 50]]. */
  method ProductOfTwoByTwo() {
    var ra := ACMatrix.WithRowsValues(2, 2, [1.0, 2.0, 3.0, 4.0]);
    var rb := ACMatrix.WithRowsValues(2, 2, [5.0, 6.0, 7.0, 8.0]);
    var a, b := ra.value, rb.value;
    ghost var ga, gb := a.View(), b.View();
    assert ga[0][0] == 1.0 && ga[0][1] == 2.0 && ga[1][0] == 3.0 && ga[1][1] == 4.0;
    assert gb[0][0] == 5.0 && gb[0][1] == 6.0 && gb[1][0] == 7.0 && gb[1][1] == 8.0;
    var rp := a.MultiplyBy(b);
    var prod := rp.value;
    assert Dot(ga, gb, 0, 0, 1) == 5.0;
    assert Dot(ga, gb, 0, 1, 1) == 6.0;
    assert Dot(ga, gb, 1, 0, 1) == 15.0;
    assert Dot(ga, gb, 1, 1, 1) == 18.0;
    assert prod.View()[0][0] == Dot(ga, gb, 0, 0, 2) == 19.0;
    assert prod.View()[0][1] == Dot(ga, gb, 0, 1, 2) == 22.0;
    assert prod.View()[1][0] == Dot(ga, gb, 1, 0, 2) == 43.0;
    assert prod.View()[1][1] == Dot(ga, gb, 1, 1, 2) == 50.0;
    CellwiseEqual(prod.View(), [[19.0, 22.0], [43.0, 50.0]], 2, 2);
  }

  /** [[2, 0], [0, 2]] scaled by 0.5 is the 2×2 identity. */
  method HalfOfTwiceIdentity() {
    var ra := ACMatrix.WithRowsValues(2, 2, [2.0, 0.0, 0.0, 2.0]);
    var half := ra.value.ScaleBy(0.5);
    var ri := ACMatrix.IdentityWithDimension(2);
    CellwiseEqual(half.View(), ri.value.View(), 2, 2);
    assert half.View() == ri.value.View();
  }

  /** A 2×3 matrix cannot be added to a 3×2 matrix, or multiplied on the right by a 2×3 one... */
  method MismatchedShapes() {
    var ra := ACMatrix.WithRows(2, 3);
    var rb := ACMatrix.WithRows(3, 2);
    var a, b := ra.value, rb.value;
    var rs := a.Plus(b);
    assert rs == Err(DimensionMismatch);
    var rd := a.Minus(b);
    assert rd == Err(DimensionMismatch);
    var rp := a.MultiplyBy(a);
    assert rp == Err(DimensionMismatch);
    // ...but a 2×3 times a 3×2 matrix is 2×2
    rp := a.MultiplyBy(b);
    assert rp.Ok? && rp.value.rows == 2 && rp.value.columns == 2;
  }

  /** Construction is refused for a dimension below 1 or a wrong number of values. */
  method RefusedConstruction() {
    var r := ACMatrix.WithRows(0, 3);
    assert r == Err(InvalidDimension);
    r := ACMatrix.WithRowsValues(2, 2, [1.0, 2.0, 3.0]);
    assert r == Err(ValueCountMismatch);
    r := ACMatrix.IdentityWithDimension(-1);
    assert r == Err(InvalidDimension);
  }

  /** `set` is chainable and changes one cell; reads through `m` are 1-based. */
  method SetThenRead() {
    var ra := ACMatrix.WithRows(2, 3);
    var a := ra.value;
    var r1 := a.Set(1, 1, 0.5);
    var r2 := r1.value.Set(2, 3, 7.0);
    assert r2 == Ok(a);
    var v := a.M(1, 1);
    assert v == Ok(0.5);
    v := a.M(2, 3);
    assert v == Ok(7.0);
    v := a.M(1, 2);
    assert v == Ok(0.0);
    v := a.M(0, 1);
    assert v == Err(IndexOutOfRange);
    v := a.M(3, 1);
    assert v == Err(IndexOutOfRange);
    var r3 := a.Set(2, 4, 1.0);
    assert r3 == Err(IndexOutOfRange);
    assert a.rows == 2 && a.columns == 3;
  }

  /** Applying `identity` twice leaves the same cells as applying it once; on a
      non-square matrix it is refused and nothing changes. */
  method IdentityTwice(a: ACMatrix)
    requires a.Valid()
    modifies a.data
  {
    var r1 := a.Identity();
    ghost var once := a.View();
    var r2 := a.Identity();
    assert r1.Ok? <==> r2.Ok?;
    assert r2.Ok? ==> a.View() == once;
  }

  /** Transposing twice gives back the original shape and cells. */
  method TransposeTwice(a: ACMatrix)
    requires a.Valid()
  {
    var t := a.Transpose();
    var tt := t.Transpose();
    TransposeInvolutive(a.View(), a.rows, a.columns);
    assert tt.rows == a.rows && tt.columns == a.columns && tt.View() == a.View();
  }

  /** Multiplying on the right by identityWithDimension(columns) gives back the matrix. */
  method TimesIdentity(a: ACMatrix)
    requires a.Valid()
  {
    var ri := ACMatrix.IdentityWithDimension(a.columns);
    var rp := a.MultiplyBy(ri.value);
    MulIdentityRight(a.View(), a.rows, a.columns);
    assert rp.Ok? && rp.value.View() == a.View();
  }

  /** The enumerator over [[1, 2], [3, 4]] calls back four times, in row-major order. */
  method EnumerateTwoByTwo() {
    var ra := ACMatrix.WithRowsValues(2, 2, [1.0, 2.0, 3.0, 4.0]);
    var visits := ra.value.Enumerate();
    EnumerationLength(ra.value.View(), 2, 2);
    assert visits == [Visit(0, 0, 1.0), Visit(0, 1, 2.0), Visit(1, 0, 3.0), Visit(1, 1, 4.0)];
  }
}
