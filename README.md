# ACMatrix in Dafny

A model of `ACMatrix`, a dense matrix of numbers whose numbers of rows and
columns are fixed, read-only properties. The matrix keeps its cells in one
array in row-major order. Positions given to `m` and `set` are read as
1-based and the enumerator reports 0-based positions (see the note on
positions below).

The class has two disciplines, and the model keeps both:

- `set`, `update` and `identity` overwrite the receiver's cells in place and
  return the receiver, so calls can be chained.
- `copy`, `transpose`, `plus`, `minus`, `scaleBy` and `multiplyBy` build a new
  matrix and leave their operands unchanged. `m` and the enumerator only read.

Cells are exact `real`s. This is an abstraction of the IEEE doubles the class
stores: every identity proved here holds exactly for reals, and for doubles
only up to rounding.

Files:

- `algebra.dfy`, module `MatrixAlgebra`: the matrix value `Grid`
  (`seq<seq<real>>`), the operations on it (zero, identity, single-cell update,
  transpose, sum, difference, scaling, product) and their algebra.
- `row_major.dfy`, module `RowMajor`: row-major storage (the offset
  `i*columns + j`, reading a flat sequence as a matrix and back) and the
  enumerator's order of visits.
- `acmatrix.dfy`, module `Matrices`: the class `ACMatrix`. Its fields are the
  read-only `rows` and `columns` and a `data` array of length `rows*columns`.
  A ghost view `View()` reads `data` as a `seq<seq<real>>`. Every method's
  contract is stated against that view.
- `scenarios.dfy`, module `Scenarios`: client code that derives concrete
  results from the class contracts alone. Examples: [[1,2],[3,4]] + [[5,6],[7,8]],
  the product of the same two matrices, [[2,0],[0,2]] scaled by 0.5, shape
  mismatches, chained `set`, and a 2×2 enumeration.

Errors. The header declares no error behaviour. The model makes every refusal
explicit with `Result` and `MatrixError`:

- `InvalidDimension`: a dimension below 1 at construction.
- `ValueCountMismatch`: a value list whose length is not `rows*columns`.
- `IndexOutOfRange`: a position outside [1, rows] × [1, columns].
- `DimensionMismatch`: `plus` or `minus` on operands of different shape, or
  `multiplyBy` where `A.columns != B.rows`.
- `NotSquare`: `identity` on a non-square matrix.

A refused in-place call leaves the receiver's cells unchanged.

`transpose` is declared as "Get transpose matrix … B = A^T" and returns an
`ACMatrix *`. The declaration (MatrixTest/ACMatrix.h:196-199) does not say
whether the receiver also changes. An in-place version that swaps rows and
columns is just as possible a reading. This model follows the declaration and
returns a new columns×rows matrix, leaving the receiver alone.

Positions: the 1-based reading of `m` and `set` is inferred from the usage
example in their documentation (MatrixTest/ACMatrix.h:167 and 177, where
`self.m(1, 1)` and `self.set(1, 1, 0.5)` name position [1, 1]). The enumerator's documentation
(MatrixTest/ACMatrix.h:256) writes the first cell as m[0, 0], so its row and
column arguments are modelled as 0-based.

## Model

| member | source | states |
|---|---|---|
| `MatrixAlgebra.Zero` | MatrixTest/ACMatrix.h:122-131 | the empty matrix of `rows:columns:` has exactly r rows of c cells |
| `MatrixAlgebra.Identity` | MatrixTest/ACMatrix.h:134-142 | the identity of dimension n is an n×n matrix |
| `MatrixAlgebra.SetCell` | MatrixTest/ACMatrix.h:173-180 | after writing v at (i, j): the shape is unchanged, reading (i, j) gives v, and every other cell keeps its old value |
| `MatrixAlgebra.Transpose` | MatrixTest/ACMatrix.h:192-199 | the transpose of an r×c matrix is c×r |
| `MatrixAlgebra.Add` | MatrixTest/ACMatrix.h:212-219 | the sum of two r×c matrices is r×c |
| `MatrixAlgebra.Sub` | MatrixTest/ACMatrix.h:222-229 | the difference of two r×c matrices is r×c |
| `MatrixAlgebra.Scale` | MatrixTest/ACMatrix.h:232-239 | a scaled r×c matrix is r×c |
| `MatrixAlgebra.Mul` | MatrixTest/ACMatrix.h:242-249 | the product of an n×m and an m×p matrix is n×p |
| `MatrixAlgebra.TransposeInvolutive` | MatrixTest/ACMatrix.h:192-199 | transposing twice restores the original shape and every cell |
| `MatrixAlgebra.TransposeIdentity` | MatrixTest/ACMatrix.h:134-151 | the identity matrix is its own transpose |
| `MatrixAlgebra.AddCommutative` | MatrixTest/ACMatrix.h:212-219 | A + B == B + A |
| `MatrixAlgebra.AddAssociative` | MatrixTest/ACMatrix.h:212-219 | (A + B) + D == A + (B + D) |
| `MatrixAlgebra.AddZero` | MatrixTest/ACMatrix.h:122-131 | adding the zero matrix of `rows:columns:` changes nothing |
| `MatrixAlgebra.SubUndoesAdd` | MatrixTest/ACMatrix.h:212-229 | `minus` is the inverse of `plus`: (A + B) - B == A |
| `MatrixAlgebra.SubSelf` | MatrixTest/ACMatrix.h:222-229 | A - A is the zero matrix |
| `MatrixAlgebra.SubIsAddNegated` | MatrixTest/ACMatrix.h:222-239 | A - B == A + B·(-1): `minus` agrees with `plus` and `scaleBy` |
| `MatrixAlgebra.ScaleByOne` | MatrixTest/ACMatrix.h:232-239 | scaling by 1 changes nothing |
| `MatrixAlgebra.ScaleScale` | MatrixTest/ACMatrix.h:232-239 | scaling by s and then by t is scaling by s·t |
| `MatrixAlgebra.ScaleDistributesOverAdd` | MatrixTest/ACMatrix.h:212-239 | (A + B)·s == A·s + B·s |
| `MatrixAlgebra.MulIdentityRight` | MatrixTest/ACMatrix.h:242-249 | A • identityWithDimension(A.columns) == A |
| `MatrixAlgebra.MulIdentityLeft` | MatrixTest/ACMatrix.h:242-249 | identityWithDimension(A.rows) • A == A |
| `MatrixAlgebra.TransposeOfProduct` | MatrixTest/ACMatrix.h:192-249 | (A • B)^T == B^T • A^T |
| `MatrixAlgebra.MulDistributesOverAdd` | MatrixTest/ACMatrix.h:212-249 | A • (B + D) == A • B + A • D |
| `MatrixAlgebra.MulScaleRight` | MatrixTest/ACMatrix.h:232-249 | A • (B·s) == (A • B)·s |
| `MatrixAlgebra.MulAssociative` | MatrixTest/ACMatrix.h:242-249 | (A • B) • D == A • (B • D) |
| `RowMajor.Offset` | MatrixTest/ACMatrix.h:252-258 | the storage offset of cell (i, j) lies below rows·columns, and its row and column are recovered as offset / columns and offset % columns, so no two cells share an offset |
| `RowMajor.CellOfOffset` | MatrixTest/ACMatrix.h:252-258 | every offset below rows·columns is the offset of a cell, so the storage has no unused slot |
| `RowMajor.Unflatten` | MatrixTest/ACMatrix.h:183-189 | a flat sequence of rows·columns values read row-major is a rows×columns matrix |
| `RowMajor.CellsAt` | MatrixTest/ACMatrix.h:252-258 | listing a matrix's rows one after another puts cell (i, j) at offset i·columns + j |
| `RowMajor.CellsOfUnflatten` | MatrixTest/ACMatrix.h:183-189 | reading a value sequence as a matrix and listing its cells row by row gives the sequence back |
| `RowMajor.UnflattenOfCells` | MatrixTest/ACMatrix.h:183-189 | listing a matrix's cells row by row and reading them back gives the matrix back |
| `RowMajor.EnumerationLength` | MatrixTest/ACMatrix.h:252-258 | over n rows of c cells the enumerator calls back exactly n·c times |
| `RowMajor.EnumerationAt` | MatrixTest/ACMatrix.h:252-258 | cell (i, j) is visited at call number i·columns + j, with 0-based row i, column j and the value stored there |
| `RowMajor.EnumerationPosition` | MatrixTest/ACMatrix.h:53-63 | call number k reports 0-based row k / columns and column k % columns, and the value there |
| `RowMajor.EnumerationVisitsOnce` | MatrixTest/ACMatrix.h:252-258 | every cell is visited at exactly one call |
| `RowMajor.EnumerationOrder` | MatrixTest/ACMatrix.h:252-258 | the first call is (0, 0), the last is (rows-1, columns-1), and each call moves one column right, or from the last column to column 0 of the next row |
| `RowMajor.EnumerationValues` | MatrixTest/ACMatrix.h:252-258 | the values passed to the callback are the matrix's cells listed row by row |
| `RowMajor.FillOrderIsEnumerationOrder` | MatrixTest/ACMatrix.h:183-189 | a matrix filled from a value list hands the values to the enumerator in list order |
| `Matrices.ACMatrix.Init` | MatrixTest/ACMatrix.h:122-131 | a fresh rows×columns matrix with every cell 0 |
| `Matrices.ACMatrix.InitWithRows` | MatrixTest/ACMatrix.h:96-106 | a fresh r×c matrix whose storage is exactly the given r·c values, in row-major order |
| `Matrices.ACMatrix.WithRows` | MatrixTest/ACMatrix.h:122-131 | `rows:columns:` gives a fresh zero-filled r×c matrix, and is refused exactly when a dimension is below 1 |
| `Matrices.ACMatrix.WithRowsValues` | MatrixTest/ACMatrix.h:109-119 | `rows:columns:values:` gives a fresh r×c matrix holding the values row-major; it is refused for a dimension below 1 or a value count other than r·c |
| `Matrices.ACMatrix.IdentityWithDimension` | MatrixTest/ACMatrix.h:134-142 | a fresh n×n identity matrix, refused exactly when n < 1 |
| `Matrices.ACMatrix.Copy` | MatrixTest/ACMatrix.h:154-160 | a fresh matrix with its own storage, the same dimensions and the same cells |
| `Matrices.ACMatrix.M` | MatrixTest/ACMatrix.h:163-170 | `m(row, column)` succeeds exactly when 1 ≤ row ≤ rows and 1 ≤ column ≤ columns, then returns cell (row-1, column-1); `m(1, 1)` is the first stored cell |
| `Matrices.ACMatrix.Set` | MatrixTest/ACMatrix.h:173-180 | `set` succeeds exactly on an in-range 1-based position and returns the receiver itself; the new cells are the old ones with that single cell replaced; out of range nothing changes; rows and columns never change |
| `Matrices.ACMatrix.Update` | MatrixTest/ACMatrix.h:183-189 | `update` succeeds exactly when given rows·columns values, returns the receiver, and leaves storage equal to the values in order; otherwise nothing changes |
| `Matrices.ACMatrix.Identity` | MatrixTest/ACMatrix.h:145-151 | on a square receiver the cells become the identity, the shape stays, and the receiver is returned; so applying it twice leaves what applying it once left; a non-square receiver is refused and left unchanged |
| `Matrices.ACMatrix.Transpose` | MatrixTest/ACMatrix.h:192-199 | a fresh columns×rows matrix B with B = A^T; the receiver is not modified |
| `Matrices.ACMatrix.Plus` | MatrixTest/ACMatrix.h:212-219 | refused exactly when the shapes differ; otherwise a fresh matrix of the receiver's dimensions equal to A + B; neither operand is modified |
| `Matrices.ACMatrix.Minus` | MatrixTest/ACMatrix.h:222-229 | refused exactly when the shapes differ; otherwise a fresh matrix of the receiver's dimensions equal to A - B; neither operand is modified |
| `Matrices.ACMatrix.ScaleBy` | MatrixTest/ACMatrix.h:232-239 | a fresh matrix of the receiver's dimensions equal to A·s; the receiver is not modified |
| `Matrices.ACMatrix.MultiplyBy` | MatrixTest/ACMatrix.h:242-249 | refused exactly when A.columns != B.rows; otherwise a fresh A.rows × B.columns matrix equal to A • B; neither operand is modified |
| `Matrices.ACMatrix.Enumerate` | MatrixTest/ACMatrix.h:252-258 | the sequence of callbacks the enumerator makes is exactly the row-major enumeration of the matrix's cells, which the `RowMajor.Enumeration*` lemmas characterise |

## Left out

- `inverse` (MatrixTest/ACMatrix.h:202-209): its declaration gives no algorithm, and over doubles its result depends on rounding.
- `print` (MatrixTest/ACMatrix.h:261-267): string formatting of the cells to 6 or 2 digits. It has no algorithmic content.
- The `name` property (MatrixTest/ACMatrix.h:69-75): a debug label used only by `print`. `Copy` therefore copies dimensions and cells and no name.
- Variadic arguments of `initWithRows:columns:values:`, `rows:columns:values:` and `update` (MatrixTest/ACMatrix.h:106, 119, 189): the values are an explicit `seq<real>`. `Matrices.ACMatrix.InitWithRows` requires of its callers that there be rows·columns of them; `Matrices.ACMatrix.WithRowsValues` and `Matrices.ACMatrix.Update` check the count and return `ValueCountMismatch` when it is wrong.
- The `AC_M` and `AC_MI` macros, `NSCopying` and other Foundation plumbing (MatrixTest/ACMatrix.h:27-50, 66): thin wrappers around the modelled factories and `copy`.
- IEEE `double` arithmetic: cells are exact reals, so rounding, infinities and NaN are not modelled.
- `NSInteger` width: dimensions and offsets are unbounded integers, so an overflow of rows·columns is not modelled.
- The enumerator's callback (MatrixTest/ACMatrix.h:63, 258) is code the model cannot see. `Matrices.ACMatrix.Enumerate` returns the sequence of calls it would make. A callback that mutates the matrix during the traversal is not modelled.
- The block-returning calling convention of `m`, `set`, `update`, `plus`, `minus`, `scaleBy`, `multiplyBy` and `enumerator`: each is an ordinary method that takes the block's arguments directly.
