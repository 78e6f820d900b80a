/// The ACMatrix class: a dense matrix whose dimensions are fixed when it is
/// created and whose cells live in one array in row-major order. `set`,
/// `update` and `identity` overwrite the receiver's cells and hand back the
/// receiver; `copy`, `transpose`, `plus`, `minus`, `scaleBy` and `multiplyBy`
/// build a new matrix and leave their operands alone; `m` and the enumerator
/// only read.
module Matrices {
  import opened MatrixAlgebra
  import opened RowMajor

  /** The ways a call on a matrix can be refused. */
  datatype MatrixError =
    | InvalidDimension    // a dimension below 1 at construction
    | ValueCountMismatch  // a value list whose length is not rows*columns
    | IndexOutOfRange     // a 1-based position outside [1, rows] × [1, columns]
    | DimensionMismatch   // operands whose shapes do not fit the operation
    | NotSquare           // `identity` on a matrix that is not square

  datatype Result<T> = Ok(value: T) | Err(error: MatrixError)

  /** The first i rows, and the first j cells of row i, of `cells` hold g's cells. */
  ghost predicate FilledUpTo(cells: array<real>, g: Grid, r: nat, c: nat, i: nat, j: nat)
    reads cells
    requires IsMatrix(g, r, c) && cells.Length == r * c
  {
    forall i', j' :: 0 <= i' < r && 0 <= j' < c && (i' < i || (i' == i && j' < j)) ==>
      cells[Offset(i', j', r, c)] == g[i'][j']
  }

  class ACMatrix {
    /** Number of rows and of columns: read-only once the matrix exists. */
    const rows: nat
    const columns: nat
    /** The cells, row-major: (i, j), 0-based, is data[i * columns + j]. */
    const data: array<real>

    ghost predicate Valid() {
      1 <= rows && 1 <= columns && data.Length == rows * columns
    }

    /** The matrix value this object holds. */
    ghost function View(): (g: Grid)
      reads data
      requires Valid()
      ensures IsMatrix(g, rows, columns)
    {
      Unflatten(data[..], rows, columns)
    }

    /** A matrix whose storage is completely filled from g. */
    ghost predicate Holds(g: Grid)
      reads data
      requires Valid() && IsMatrix(g, rows, columns)
    {
      FilledUpTo(data, g, rows, columns, rows, 0)
    }

    lemma HoldsView(g: Grid)
      requires Valid() && IsMatrix(g, rows, columns) && Holds(g)
      ensures View() == g
    {
      CellwiseEqual(View(), g, rows, columns);
    }

    // -------------------------------------------------------------------
    // Construction

    /** A zero-filled r×c matrix. */
    constructor Init(r: nat, c: nat)
      requires 1 <= r && 1 <= c
      ensures Valid() && rows == r && columns == c && fresh(data)
      ensures View() == Zero(r, c)
    {
      rows, columns := r, c;
      data := new real[r * c](_ => 0.0);
      new;
      CellwiseEqual(View(), Zero(r, c), r, c);
    }

    /** The designated initializer: an r×c matrix filled row-major from `values`. */
    constructor InitWithRows(r: nat, c: nat, values: seq<real>)
      requires 1 <= r && 1 <= c && |values| == r * c
      ensures Valid() && rows == r && columns == c && fresh(data)
      ensures data[..] == values && View() == Unflatten(values, r, c)
    {
      rows, columns := r, c;
      data := new real[r * c](k requires 0 <= k < r * c => values[k]);
    }

    /** `rows:columns:`: a zero-filled matrix, refused when a dimension is below 1. */
    static method WithRows(r: int, c: int) returns (res: Result<ACMatrix>)
      ensures res.Err? <==> r < 1 || c < 1
      ensures res.Err? ==> res.error == InvalidDimension
      ensures res.Ok? ==> var m := res.value;
        fresh(m) && fresh(m.data) && m.Valid() && m.rows == r && m.columns == c && m.View() == Zero(r, c)
    {
      if r < 1 || c < 1 {
        return Err(InvalidDimension);
      }
      var m := new ACMatrix.Init(r, c);
      res := Ok(m);
    }

    /** `rows:columns:values:`: a matrix filled row-major from `values`, which must
        hold exactly r*c numbers. */
    static method WithRowsValues(r: int, c: int, values: seq<real>) returns (res: Result<ACMatrix>)
      ensures res.Err? <==> r < 1 || c < 1 || |values| != r * c
      ensures res.Err? ==> res.error == if r < 1 || c < 1 then InvalidDimension else ValueCountMismatch
      ensures res.Ok? ==> var m := res.value;
        fresh(m) && fresh(m.data) && m.Valid() && m.rows == r && m.columns == c &&
        m.data[..] == values && m.View() == Unflatten(values, r, c)
    {
      if r < 1 || c < 1 {
        return Err(InvalidDimension);
      }
      if |values| != r * c {
        return Err(ValueCountMismatch);
      }
      var m := new ACMatrix.InitWithRows(r, c, values);
      res := Ok(m);
    }

    /** `identityWithDimension:`: the n×n identity matrix. */
    static method IdentityWithDimension(n: int) returns (res: Result<ACMatrix>)
      ensures res.Err? <==> n < 1
      ensures res.Err? ==> res.error == InvalidDimension
      ensures res.Ok? ==> var m := res.value;
        fresh(m) && fresh(m.data) && m.Valid() && m.rows == n && m.columns == n && m.View() == MatrixAlgebra.Identity(n)
    {
      if n < 1 {
        return Err(InvalidDimension);
      }
      var m := new ACMatrix.Init(n, n);
      var _ := m.Identity();
      res := Ok(m);
    }

    /** `copy`: an independent matrix with the same dimensions and cells. */
    method Copy() returns (m: ACMatrix)
      requires Valid()
      ensures fresh(m) && fresh(m.data) && m.Valid()
      ensures m.rows == rows && m.columns == columns && m.data[..] == data[..] && m.View() == View()
    {
      m := new ACMatrix.Init(rows, columns);
      var k := 0;
      while k < data.Length
        invariant 0 <= k <= data.Length
        invariant m.data[..k] == data[..k]
      {
        m.data[k] := data[k];
        k := k + 1;
      }
      assert m.data[..] == m.data[..k];
      assert data[..] == data[..k];
    }

    // -------------------------------------------------------------------
    // Element access

    /** `m(row, column)`: the value at a 1-based position. */
    method M(row: int, column: int) returns (res: Result<real>)
      requires Valid()
      ensures res.Ok? <==> 1 <= row <= rows && 1 <= column <= columns
      ensures res.Err? ==> res.error == IndexOutOfRange
      ensures res.Ok? ==> res.value == View()[row - 1][column - 1]
      ensures row == 1 && column == 1 ==> res == Ok(data[0])
    {
      if row < 1 || rows < row || column < 1 || columns < column {
        return Err(IndexOutOfRange);
      }
      res := Ok(data[Offset(row - 1, column - 1, rows, columns)]);
    }

    /** `set(row, column, value)`: overwrites one cell, 1-based, and returns the
        receiver; out of range it changes nothing. */
    method Set(row: int, column: int, value: real) returns (res: Result<ACMatrix>)
      requires Valid()
      modifies data
      ensures res.Ok? <==> 1 <= row <= rows && 1 <= column <= columns
      ensures res.Err? ==> res.error == IndexOutOfRange && data[..] == old(data[..])
      ensures res.Ok? ==> res.value == this && View() == SetCell(old(View()), rows, columns, row - 1, column - 1, value)
    {
      if row < 1 || rows < row || column < 1 || columns < column {
        return Err(IndexOutOfRange);
      }
      ghost var before := View();
      var k := Offset(row - 1, column - 1, rows, columns);
      data[k] := value;
      ghost var after := SetCell(before, rows, columns, row - 1, column - 1, value);
      assert forall i, j :: 0 <= i < rows && 0 <= j < columns ==> View()[i][j] == after[i][j] by {
        forall i, j | 0 <= i < rows && 0 <= j < columns
          ensures View()[i][j] == after[i][j]
        {
          if (i, j) != (row - 1, column - 1) {
            assert Offset(i, j, rows, columns) != k;
          }
        }
      }
      CellwiseEqual(View(), after, rows, columns);
      res := Ok(this);
    }

    /** `update(values...)`: overwrites every cell from `values`, in row-major order,
        and returns the receiver; a value list of the wrong length changes nothing. */
    method Update(values: seq<real>) returns (res: Result<ACMatrix>)
      requires Valid()
      modifies data
      ensures res.Ok? <==> |values| == rows * columns
      ensures res.Err? ==> res.error == ValueCountMismatch && data[..] == old(data[..])
      ensures res.Ok? ==> res.value == this && data[..] == values && View() == Unflatten(values, rows, columns)
    {
      if |values| != data.Length {
        return Err(ValueCountMismatch);
      }
      var k := 0;
      while k < data.Length
        invariant 0 <= k <= data.Length
        invariant data[..k] == values[..k]
      {
        data[k] := values[k];
        k := k + 1;
      }
      assert data[..] == data[..k];
      res := Ok(this);
    }

    /** `identity`: turns a square receiver into the identity matrix and returns it. */
    method Identity() returns (res: Result<ACMatrix>)
      requires Valid()
      modifies data
      ensures res.Ok? <==> rows == columns
      ensures res.Err? ==> res.error == NotSquare && data[..] == old(data[..])
      ensures res.Ok? ==> res.value == this && View() == MatrixAlgebra.Identity(rows)
    {
      if rows != columns {
        return Err(NotSquare);
      }
      ghost var e := MatrixAlgebra.Identity(rows);
      var i := 0;
      while i < rows
        invariant 0 <= i <= rows
        invariant FilledUpTo(data, e, rows, columns, i, 0)
      {
        var j := 0;
        while j < columns
          invariant 0 <= j <= columns
          invariant FilledUpTo(data, e, rows, columns, i, j)
        {
          data[Offset(i, j, rows, columns)] := if i == j then 1.0 else 0.0;
          j := j + 1;
        }
        i := i + 1;
      }
      HoldsView(e);
      res := Ok(this);
    }

    // -------------------------------------------------------------------
    // Operations that build a new matrix

    /** `transpose`: B = A^T, a new columns×rows matrix; the receiver is unchanged. */
    method Transpose() returns (t: ACMatrix)
      requires Valid()
      ensures fresh(t) && fresh(t.data) && t.Valid()
      ensures t.rows == columns && t.columns == rows && t.View() == MatrixAlgebra.Transpose(View(), rows, columns)
    {
      t := new ACMatrix.Init(columns, rows);
      ghost var g := MatrixAlgebra.Transpose(View(), rows, columns);
      var i := 0;
      while i < columns
        invariant 0 <= i <= columns
        invariant FilledUpTo(t.data, g, columns, rows, i, 0)
      {
        var j := 0;
        while j < rows
          invariant 0 <= j <= rows
          invariant FilledUpTo(t.data, g, columns, rows, i, j)
        {
          t.data[Offset(i, j, columns, rows)] := data[Offset(j, i, rows, columns)];
          j := j + 1;
        }
        i := i + 1;
      }
      t.HoldsView(g);
    }

    /** `plus`: C = A + B for an operand of the same dimensions. */
    method Plus(other: ACMatrix) returns (res: Result<ACMatrix>)
      requires Valid() && other.Valid()
      ensures res.Err? <==> other.rows != rows || other.columns != columns
      ensures res.Err? ==> res.error == DimensionMismatch
      ensures res.Ok? ==> var m := res.value;
        fresh(m) && fresh(m.data) && m.Valid() && m.rows == rows && m.columns == columns &&
        m.View() == Add(View(), other.View(), rows, columns)
    {
      if other.rows != rows || other.columns != columns {
        return Err(DimensionMismatch);
      }
      var m := new ACMatrix.Init(rows, columns);
      ghost var g := Add(View(), other.View(), rows, columns);
      var i := 0;
      while i < rows
        invariant 0 <= i <= rows
        invariant FilledUpTo(m.data, g, rows, columns, i, 0)
      {
        var j := 0;
        while j < columns
          invariant 0 <= j <= columns
          invariant FilledUpTo(m.data, g, rows, columns, i, j)
        {
          var k := Offset(i, j, rows, columns);
          m.data[k] := data[k] + other.data[k];
          j := j + 1;
        }
        i := i + 1;
      }
      m.HoldsView(g);
      res := Ok(m);
    }

    /** `minus`: C = A - B for an operand of the same dimensions. */
    method Minus(other: ACMatrix) returns (res: Result<ACMatrix>)
      requires Valid() && other.Valid()
      ensures res.Err? <==> other.rows != rows || other.columns != columns
      ensures res.Err? ==> res.error == DimensionMismatch
      ensures res.Ok? ==> var m := res.value;
        fresh(m) && fresh(m.data) && m.Valid() && m.rows == rows && m.columns == columns &&
        m.View() == Sub(View(), other.View(), rows, columns)
    {
      if other.rows != rows || other.columns != columns {
        return Err(DimensionMismatch);
      }
      var m := new ACMatrix.Init(rows, columns);
      ghost var g := Sub(View(), other.View(), rows, columns);
      var i := 0;
      while i < rows
        invariant 0 <= i <= rows
        invariant FilledUpTo(m.data, g, rows, columns, i, 0)
      {
        var j := 0;
        while j < columns
          invariant 0 <= j <= columns
          invariant FilledUpTo(m.data, g, rows, columns, i, j)
        {
          var k := Offset(i, j, rows, columns);
          m.data[k] := data[k] - other.data[k];
          j := j + 1;
        }
        i := i + 1;
      }
      m.HoldsView(g);
      res := Ok(m);
    }

    /** `scaleBy`: B = A * s. */
    method ScaleBy(s: real) returns (m: ACMatrix)
      requires Valid()
      ensures fresh(m) && fresh(m.data) && m.Valid() && m.rows == rows && m.columns == columns
      ensures m.View() == Scale(View(), rows, columns, s)
    {
      m := new ACMatrix.Init(rows, columns);
      ghost var g := Scale(View(), rows, columns, s);
      var i := 0;
      while i < rows
        invariant 0 <= i <= rows
        invariant FilledUpTo(m.data, g, rows, columns, i, 0)
      {
        var j := 0;
        while j < columns
          invariant 0 <= j <= columns
          invariant FilledUpTo(m.data, g, rows, columns, i, j)
        {
          var k := Offset(i, j, rows, columns);
          m.data[k] := data[k] * s;
          j := j + 1;
        }
        i := i + 1;
      }
      m.HoldsView(g);
    }

    /** `multiplyBy`: C = A • B, defined when A.columns == B.rows; C is A.rows × B.columns. */
    method MultiplyBy(other: ACMatrix) returns (res: Result<ACMatrix>)
      requires Valid() && other.Valid()
      ensures res.Err? <==> columns != other.rows
      ensures res.Err? ==> res.error == DimensionMismatch
      ensures res.Ok? ==> var m := res.value;
        fresh(m) && fresh(m.data) && m.Valid() && m.rows == rows && m.columns == other.columns &&
        m.View() == Mul(View(), other.View(), rows, columns, other.columns)
    {
      if columns != other.rows {
        return Err(DimensionMismatch);
      }
      var n, inner, p := rows, columns, other.columns;
      var m := new ACMatrix.Init(n, p);
      ghost var a, b := View(), other.View();
      ghost var g := Mul(a, b, n, inner, p);
      var i := 0;
      while i < n
        invariant 0 <= i <= n
        invariant FilledUpTo(m.data, g, n, p, i, 0)
      {
        var j := 0;
        while j < p
          invariant 0 <= j <= p
          invariant FilledUpTo(m.data, g, n, p, i, j)
        {
          var sum := 0.0;
          var t := 0;
          while t < inner
            invariant 0 <= t <= inner
            invariant sum == Dot(a, b, i, j, t)
          {
            sum := sum + data[Offset(i, t, n, inner)] * other.data[Offset(t, j, inner, p)];
            t := t + 1;
          }
          m.data[Offset(i, j, n, p)] := sum;
          j := j + 1;
        }
        i := i + 1;
      }
      m.HoldsView(g);
      res := Ok(m);
    }

    // -------------------------------------------------------------------
    // Enumeration

    /** `enumerator(callback)`: the callbacks it makes, in order, each with a 0-based
        row and column and the value stored there. */
    method Enumerate() returns (visits: seq<Visit>)
      requires Valid()
      ensures visits == Enumeration(View(), rows, columns)
    {
      ghost var a := View();
      visits := [];
      var i := 0;
      while i < rows
        invariant 0 <= i <= rows
        invariant visits == Enumeration(a, i, columns)
      {
        var j := 0;
        while j < columns
          invariant 0 <= j <= columns
          invariant visits == Enumeration(a, i, columns) + RowVisits(a, i, columns)[..j]
        {
          visits := visits + [Visit(i, j, data[Offset(i, j, rows, columns)])];
          assert RowVisits(a, i, columns)[..j + 1] == RowVisits(a, i, columns)[..j] + [RowVisits(a, i, columns)[j]];
          j := j + 1;
        }
        assert RowVisits(a, i, columns)[..columns] == RowVisits(a, i, columns);
        i := i + 1;
      }
    }
  }
}
