/// The algebra of ACMatrix values, stated on an abstract view of a matrix:
/// a sequence of rows, each a sequence of cells. Cells are exact reals; they
/// stand for the IEEE doubles the class stores, so the identities below hold
/// exactly here and only up to rounding for doubles.
module MatrixAlgebra {

  /** A matrix value: row i, column j (both 0-based) is a[i][j]. */
  type Grid = seq<seq<real>>

  /** `a` has `r` rows of `c` cells each. */
  predicate IsMatrix(a: Grid, r: nat, c: nat) {
    |a| == r && forall i :: 0 <= i < r ==> |a[i]| == c
  }

  /** Two matrices of one shape that agree on every cell are the same matrix. */
  lemma CellwiseEqual(a: Grid, b: Grid, r: nat, c: nat)
    requires IsMatrix(a, r, c) && IsMatrix(b, r, c)
    requires forall i, j :: 0 <= i < r && 0 <= j < c ==> a[i][j] == b[i][j]
    ensures a == b
  {
    forall i | 0 <= i < r
      ensures a[i] == b[i]
    {
      assert |a[i]| == |b[i]| == c;
    }
  }

  // ---------------------------------------------------------------------
  // The matrices the class builds

  /** The r×c matrix of zeros that `rows:columns:` allocates. */
  function Zero(r: nat, c: nat): (z: Grid)
    ensures IsMatrix(z, r, c)
  {
    seq(r, _ => seq(c, _ => 0.0))
  }

  /** The n×n identity matrix of `identityWithDimension:` and `identity`. */
  function Identity(n: nat): (e: Grid)
    ensures IsMatrix(e, n, n)
  {
    seq(n, i => seq(n, j => if i == j then 1.0 else 0.0))
  }

  /** `a` with the single cell (i, j) replaced by v, as `set` leaves it. */
  function SetCell(a: Grid, r: nat, c: nat, i: nat, j: nat, v: real): (b: Grid)
    requires IsMatrix(a, r, c) && i < r && j < c
    ensures IsMatrix(b, r, c)
    ensures b[i][j] == v
    ensures forall i', j' :: 0 <= i' < r && 0 <= j' < c && (i', j') != (i, j) ==> b[i'][j'] == a[i'][j']
  {
    a[i := a[i][j := v]]
  }

  // ---------------------------------------------------------------------
  // The value-returning operations

  /** B = A^T: the c×r matrix whose (j, i) cell is a's (i, j) cell. */
  function Transpose(a: Grid, r: nat, c: nat): (t: Grid)
    requires IsMatrix(a, r, c)
    ensures IsMatrix(t, c, r)
  {
    seq(c, j requires 0 <= j < c => seq(r, i requires 0 <= i < r => a[i][j]))
  }

  /** C = A + B for two r×c matrices. */
  function Add(a: Grid, b: Grid, r: nat, c: nat): (s: Grid)
    requires IsMatrix(a, r, c) && IsMatrix(b, r, c)
    ensures IsMatrix(s, r, c)
  {
    seq(r, i requires 0 <= i < r => seq(c, j requires 0 <= j < c => a[i][j] + b[i][j]))
  }

  /** C = A - B for two r×c matrices. */
  function Sub(a: Grid, b: Grid, r: nat, c: nat): (d: Grid)
    requires IsMatrix(a, r, c) && IsMatrix(b, r, c)
    ensures IsMatrix(d, r, c)
  {
    seq(r, i requires 0 <= i < r => seq(c, j requires 0 <= j < c => a[i][j] - b[i][j]))
  }

  /** B = A * s for a scalar s. */
  function Scale(a: Grid, r: nat, c: nat, s: real): (b: Grid)
    requires IsMatrix(a, r, c)
    ensures IsMatrix(b, r, c)
  {
    seq(r, i requires 0 <= i < r => seq(c, j requires 0 <= j < c => a[i][j] * s))
  }

  /** The partial sum a[i][0]*b[0][j] + ... + a[i][k-1]*b[k-1][j]. */
  function Dot(a: Grid, b: Grid, i: nat, j: nat, k: nat): real
    requires i < |a| && k <= |a[i]| && k <= |b|
    requires forall t :: 0 <= t < k ==> j < |b[t]|
  {
    if k == 0 then 0.0 else Dot(a, b, i, j, k - 1) + a[i][k - 1] * b[k - 1][j]
  }

  /** C = A • B for an n×m matrix a and an m×p matrix b: C[i][j] is the sum over k < m of a[i][k]*b[k][j]. */
  function Mul(a: Grid, b: Grid, n: nat, m: nat, p: nat): (prod: Grid)
    requires IsMatrix(a, n, m) && IsMatrix(b, m, p)
    ensures IsMatrix(prod, n, p)
  {
    seq(n, i requires 0 <= i < n => seq(p, j requires 0 <= j < p => Dot(a, b, i, j, m)))
  }

  // ---------------------------------------------------------------------
  // Transpose

  /** Transposing twice restores the original matrix, shape and cells. */
  lemma TransposeInvolutive(a: Grid, r: nat, c: nat)
    requires IsMatrix(a, r, c)
    ensures Transpose(Transpose(a, r, c), c, r) == a
  {
    var tt := Transpose(Transpose(a, r, c), c, r);
    CellwiseEqual(tt, a, r, c);
  }

  /** The identity matrix is its own transpose. */
  lemma TransposeIdentity(n: nat)
    ensures Transpose(Identity(n), n, n) == Identity(n)
  {
    CellwiseEqual(Transpose(Identity(n), n, n), Identity(n), n, n);
  }

  // ---------------------------------------------------------------------
  // Addition, subtraction, scaling

  lemma AddCommutative(a: Grid, b: Grid, r: nat, c: nat)
    requires IsMatrix(a, r, c) && IsMatrix(b, r, c)
    ensures Add(a, b, r, c) == Add(b, a, r, c)
  {
    CellwiseEqual(Add(a, b, r, c), Add(b, a, r, c), r, c);
  }

  lemma AddAssociative(a: Grid, b: Grid, d: Grid, r: nat, c: nat)
    requires IsMatrix(a, r, c) && IsMatrix(b, r, c) && IsMatrix(d, r, c)
    ensures Add(Add(a, b, r, c), d, r, c) == Add(a, Add(b, d, r, c), r, c)
  {
    CellwiseEqual(Add(Add(a, b, r, c), d, r, c), Add(a, Add(b, d, r, c), r, c), r, c);
  }

  /** The zero matrix is the neutral element of `plus`. */
  lemma AddZero(a: Grid, r: nat, c: nat)
    requires IsMatrix(a, r, c)
    ensures Add(a, Zero(r, c), r, c) == a
  {
    CellwiseEqual(Add(a, Zero(r, c), r, c), a, r, c);
  }

  /** `minus` undoes `plus`: (A + B) - B == A. */
  lemma SubUndoesAdd(a: Grid, b: Grid, r: nat, c: nat)
    requires IsMatrix(a, r, c) && IsMatrix(b, r, c)
    ensures Sub(Add(a, b, r, c), b, r, c) == a
  {
    CellwiseEqual(Sub(Add(a, b, r, c), b, r, c), a, r, c);
  }

  /** A - A is the zero matrix. */
  lemma SubSelf(a: Grid, r: nat, c: nat)
    requires IsMatrix(a, r, c)
    ensures Sub(a, a, r, c) == Zero(r, c)
  {
    CellwiseEqual(Sub(a, a, r, c), Zero(r, c), r, c);
  }

  /** A - B == A + B * (-1). */
  lemma SubIsAddNegated(a: Grid, b: Grid, r: nat, c: nat)
    requires IsMatrix(a, r, c) && IsMatrix(b, r, c)
    ensures Sub(a, b, r, c) == Add(a, Scale(b, r, c, -1.0), r, c)
  {
    CellwiseEqual(Sub(a, b, r, c), Add(a, Scale(b, r, c, -1.0), r, c), r, c);
  }

  lemma ScaleByOne(a: Grid, r: nat, c: nat)
    requires IsMatrix(a, r, c)
    ensures Scale(a, r, c, 1.0) == a
  {
    CellwiseEqual(Scale(a, r, c, 1.0), a, r, c);
  }

  /** Scaling twice is scaling once by the product of the scalars. */
  lemma ScaleScale(a: Grid, r: nat, c: nat, s: real, t: real)
    requires IsMatrix(a, r, c)
    ensures Scale(Scale(a, r, c, s), r, c, t) == Scale(a, r, c, s * t)
  {
    CellwiseEqual(Scale(Scale(a, r, c, s), r, c, t), Scale(a, r, c, s * t), r, c);
  }

  /** Scaling distributes over addition. */
  lemma ScaleDistributesOverAdd(a: Grid, b: Grid, r: nat, c: nat, s: real)
    requires IsMatrix(a, r, c) && IsMatrix(b, r, c)
    ensures Scale(Add(a, b, r, c), r, c, s) == Add(Scale(a, r, c, s), Scale(b, r, c, s), r, c)
  {
    CellwiseEqual(Scale(Add(a, b, r, c), r, c, s), Add(Scale(a, r, c, s), Scale(b, r, c, s), r, c), r, c);
  }

  // ---------------------------------------------------------------------
  // Multiplication

  /** Against a column of the identity, a partial sum picks out one cell of a's row. */
  lemma {:induction false} DotIdentityRight(a: Grid, c: nat, i: nat, j: nat, k: nat)
    requires i < |a| && |a[i]| == c && j < c && k <= c
    ensures Dot(a, Identity(c), i, j, k) == if j < k then a[i][j] else 0.0
  {
    if k > 0 {
      DotIdentityRight(a, c, i, j, k - 1);
    }
  }

  /** Against a row of the identity, a partial sum picks out one cell of b's column. */
  lemma {:induction false} DotIdentityLeft(b: Grid, r: nat, c: nat, i: nat, j: nat, k: nat)
    requires IsMatrix(b, r, c) && i < r && j < c && k <= r
    ensures Dot(Identity(r), b, i, j, k) == if i < k then b[i][j] else 0.0
  {
    if k > 0 {
      DotIdentityLeft(b, r, c, i, j, k - 1);
    }
  }

  /** A • I == A, with I = identityWithDimension(A.columns). */
  lemma MulIdentityRight(a: Grid, r: nat, c: nat)
    requires IsMatrix(a, r, c)
    ensures Mul(a, Identity(c), r, c, c) == a
  {
    forall i, j | 0 <= i < r && 0 <= j < c
      ensures Mul(a, Identity(c), r, c, c)[i][j] == a[i][j]
    {
      DotIdentityRight(a, c, i, j, c);
    }
    CellwiseEqual(Mul(a, Identity(c), r, c, c), a, r, c);
  }

  /** I • A == A, with I = identityWithDimension(A.rows). */
  lemma MulIdentityLeft(a: Grid, r: nat, c: nat)
    requires IsMatrix(a, r, c)
    ensures Mul(Identity(r), a, r, r, c) == a
  {
    forall i, j | 0 <= i < r && 0 <= j < c
      ensures Mul(Identity(r), a, r, r, c)[i][j] == a[i][j]
    {
      DotIdentityLeft(a, r, c, i, j, r);
    }
    CellwiseEqual(Mul(Identity(r), a, r, r, c), a, r, c);
  }

  lemma {:induction false} DotTranspose(a: Grid, b: Grid, n: nat, m: nat, p: nat, i: nat, j: nat, k: nat)
    requires IsMatrix(a, n, m) && IsMatrix(b, m, p) && i < n && j < p && k <= m
    ensures Dot(a, b, i, j, k) == Dot(Transpose(b, m, p), Transpose(a, n, m), j, i, k)
  {
    if k > 0 {
      DotTranspose(a, b, n, m, p, i, j, k - 1);
    }
  }

  /** (A • B)^T == B^T • A^T. */
  lemma TransposeOfProduct(a: Grid, b: Grid, n: nat, m: nat, p: nat)
    requires IsMatrix(a, n, m) && IsMatrix(b, m, p)
    ensures Transpose(Mul(a, b, n, m, p), n, p) == Mul(Transpose(b, m, p), Transpose(a, n, m), p, m, n)
  {
    var lhs := Transpose(Mul(a, b, n, m, p), n, p);
    var rhs := Mul(Transpose(b, m, p), Transpose(a, n, m), p, m, n);
    forall j, i | 0 <= j < p && 0 <= i < n
      ensures lhs[j][i] == rhs[j][i]
    {
      DotTranspose(a, b, n, m, p, i, j, m);
    }
    CellwiseEqual(lhs, rhs, p, n);
  }

  lemma {:induction false} DotAddRight(a: Grid, b: Grid, d: Grid, n: nat, m: nat, p: nat, i: nat, j: nat, k: nat)
    requires IsMatrix(a, n, m) && IsMatrix(b, m, p) && IsMatrix(d, m, p) && i < n && j < p && k <= m
    ensures Dot(a, Add(b, d, m, p), i, j, k) == Dot(a, b, i, j, k) + Dot(a, d, i, j, k)
  {
    if k > 0 {
      DotAddRight(a, b, d, n, m, p, i, j, k - 1);
    }
  }

  /** Multiplication distributes over addition on the right: A • (B + D) == A • B + A • D. */
  lemma MulDistributesOverAdd(a: Grid, b: Grid, d: Grid, n: nat, m: nat, p: nat)
    requires IsMatrix(a, n, m) && IsMatrix(b, m, p) && IsMatrix(d, m, p)
    ensures Mul(a, Add(b, d, m, p), n, m, p) == Add(Mul(a, b, n, m, p), Mul(a, d, n, m, p), n, p)
  {
    var lhs := Mul(a, Add(b, d, m, p), n, m, p);
    var rhs := Add(Mul(a, b, n, m, p), Mul(a, d, n, m, p), n, p);
    forall i, j | 0 <= i < n && 0 <= j < p
      ensures lhs[i][j] == rhs[i][j]
    {
      DotAddRight(a, b, d, n, m, p, i, j, m);
    }
    CellwiseEqual(lhs, rhs, n, p);
  }

  lemma {:induction false} DotScaleRight(a: Grid, b: Grid, n: nat, m: nat, p: nat, s: real, i: nat, j: nat, k: nat)
    requires IsMatrix(a, n, m) && IsMatrix(b, m, p) && i < n && j < p && k <= m
    ensures Dot(a, Scale(b, m, p, s), i, j, k) == Dot(a, b, i, j, k) * s
  {
    if k > 0 {
      DotScaleRight(a, b, n, m, p, s, i, j, k - 1);
    }
  }

  /** A scalar factor moves out of a product: A • (B * s) == (A • B) * s. */
  lemma MulScaleRight(a: Grid, b: Grid, n: nat, m: nat, p: nat, s: real)
    requires IsMatrix(a, n, m) && IsMatrix(b, m, p)
    ensures Mul(a, Scale(b, m, p, s), n, m, p) == Scale(Mul(a, b, n, m, p), n, p, s)
  {
    var lhs := Mul(a, Scale(b, m, p, s), n, m, p);
    var rhs := Scale(Mul(a, b, n, m, p), n, p, s);
    forall i, j | 0 <= i < n && 0 <= j < p
      ensures lhs[i][j] == rhs[i][j]
    {
      DotScaleRight(a, b, n, m, p, s, i, j, m);
    }
    CellwiseEqual(lhs, rhs, n, p);
  }

  /** A partial sum depends only on the one column of the right operand that it reads. */
  lemma {:induction false} DotSameColumn(a: Grid, b: Grid, b': Grid, i: nat, j: nat, j': nat, k: nat)
    requires i < |a| && k <= |a[i]| && k <= |b| && k <= |b'|
    requires forall t :: 0 <= t < k ==> j < |b[t]| && j' < |b'[t]| && b[t][j] == b'[t][j']
    ensures Dot(a, b, i, j, k) == Dot(a, b', i, j', k)
  {
    if k > 0 {
      DotSameColumn(a, b, b', i, j, j', k - 1);
    }
  }

  lemma {:induction false} DotZeroRight(a: Grid, n: nat, m: nat, p: nat, i: nat, j: nat, k: nat)
    requires IsMatrix(a, n, m) && i < n && j < p && k <= m
    ensures Dot(a, Zero(m, p), i, j, k) == 0.0
  {
    if k > 0 {
      DotZeroRight(a, n, m, p, i, j, k - 1);
    }
  }

  /** The m×1 column whose t-th cell is the partial sum of row t of b against column j of d, over k terms. */
  function PartialProductColumn(b: Grid, d: Grid, m: nat, q: nat, p: nat, j: nat, k: nat): (v: Grid)
    requires IsMatrix(b, m, q) && IsMatrix(d, q, p) && j < p && k <= q
    ensures IsMatrix(v, m, 1)
  {
    seq(m, t requires 0 <= t < m => [Dot(b, d, t, j, k)])
  }

  /** The first k terms of row i of (A • B) • D against column j regroup as row i of A
      against the corresponding partial column of B • D. */
  lemma {:induction false} MulAssociativeAt(a: Grid, b: Grid, d: Grid, n: nat, m: nat, q: nat, p: nat, i: nat, j: nat, k: nat)
    requires IsMatrix(a, n, m) && IsMatrix(b, m, q) && IsMatrix(d, q, p) && i < n && j < p && k <= q
    ensures Dot(Mul(a, b, n, m, q), d, i, j, k) == Dot(a, PartialProductColumn(b, d, m, q, p, j, k), i, 0, m)
  {
    if k == 0 {
      CellwiseEqual(PartialProductColumn(b, d, m, q, p, j, k), Zero(m, 1), m, 1);
      DotZeroRight(a, n, m, 1, i, 0, m);
    } else {
      MulAssociativeAt(a, b, d, n, m, q, p, i, j, k - 1);
      MulAssociativeStep(a, b, d, n, m, q, p, i, j, k);
      assert Mul(a, b, n, m, q)[i][k - 1] == Dot(a, b, i, k - 1, m);
    }
  }

  /** One more term on the right regroups as one more term of row i of A against column k-1 of B. */
  lemma MulAssociativeStep(a: Grid, b: Grid, d: Grid, n: nat, m: nat, q: nat, p: nat, i: nat, j: nat, k: nat)
    requires IsMatrix(a, n, m) && IsMatrix(b, m, q) && IsMatrix(d, q, p) && i < n && j < p && 0 < k <= q
    ensures Dot(a, PartialProductColumn(b, d, m, q, p, j, k), i, 0, m)
         == Dot(a, PartialProductColumn(b, d, m, q, p, j, k - 1), i, 0, m) + Dot(a, b, i, k - 1, m) * d[k - 1][j]
  {
    var prev := PartialProductColumn(b, d, m, q, p, j, k - 1);
    var col: Grid := seq(m, t requires 0 <= t < m => [b[t][k - 1]]);
    assert IsMatrix(col, m, 1);
    var s := d[k - 1][j];
    PartialProductColumnStep(b, d, m, q, p, j, k, col);
    DotAddRight(a, prev, Scale(col, m, 1, s), n, m, 1, i, 0, m);
    DotScaleRight(a, col, n, m, 1, s, i, 0, m);
    DotSameColumn(a, col, b, i, 0, k - 1, m);
  }

  lemma PartialProductColumnStep(b: Grid, d: Grid, m: nat, q: nat, p: nat, j: nat, k: nat, col: Grid)
    requires IsMatrix(b, m, q) && IsMatrix(d, q, p) && j < p && 0 < k <= q
    requires IsMatrix(col, m, 1) && forall t :: 0 <= t < m ==> col[t][0] == b[t][k - 1]
    ensures PartialProductColumn(b, d, m, q, p, j, k)
         == Add(PartialProductColumn(b, d, m, q, p, j, k - 1), Scale(col, m, 1, d[k - 1][j]), m, 1)
  {
    CellwiseEqual(PartialProductColumn(b, d, m, q, p, j, k),
                  Add(PartialProductColumn(b, d, m, q, p, j, k - 1), Scale(col, m, 1, d[k - 1][j]), m, 1), m, 1);
  }

  /** Multiplication is associative: (A • B) • D == A • (B • D). */
  lemma MulAssociative(a: Grid, b: Grid, d: Grid, n: nat, m: nat, q: nat, p: nat)
    requires IsMatrix(a, n, m) && IsMatrix(b, m, q) && IsMatrix(d, q, p)
    ensures Mul(Mul(a, b, n, m, q), d, n, q, p) == Mul(a, Mul(b, d, m, q, p), n, m, p)
  {
    var lhs := Mul(Mul(a, b, n, m, q), d, n, q, p);
    var rhs := Mul(a, Mul(b, d, m, q, p), n, m, p);
    forall i, j | 0 <= i < n && 0 <= j < p
      ensures lhs[i][j] == rhs[i][j]
    {
      MulAssociativeAt(a, b, d, n, m, q, p, i, j, q);
      DotSameColumn(a, PartialProductColumn(b, d, m, q, p, j, q), Mul(b, d, m, q, p), i, 0, j, m);
    }
    CellwiseEqual(lhs, rhs, n, p);
  }
}
