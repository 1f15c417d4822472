/** Finite sums, matrix-vector products and bilinear forms over `real`.
    A vector is a function of its index and a matrix a function of its row and
    column; the dimension is passed where a sum needs one. */
module LinearAlgebra {

  type Vec = int -> real
  type Mat = (int, int) -> real

  ghost function Sum(n: nat, f: Vec): real {
    if n == 0 then 0.0 else Sum(n - 1, f) + f(n - 1)
  }

  ghost function Times(u: Vec, v: Vec): Vec {
    i => u(i) * v(i)
  }

  ghost function Scaled(c: real, f: Vec): Vec {
    i => c * f(i)
  }

  ghost function VecAdd(u: Vec, v: Vec): Vec {
    i => u(i) + v(i)
  }

  ghost function VecSub(u: Vec, v: Vec): Vec {
    i => u(i) - v(i)
  }

  ghost function Row(M: Mat, i: int): Vec {
    j => M(i, j)
  }

  ghost function Transpose(M: Mat): Mat {
    (i, j) => M(j, i)
  }

  ghost function MatAdd(A: Mat, B: Mat): Mat {
    (i, j) => A(i, j) + B(i, j)
  }

  ghost function Dot(n: nat, u: Vec, v: Vec): real {
    Sum(n, Times(u, v))
  }

  /** `A * x`, where `A` has `n` columns. */
  ghost function MatVec(n: nat, A: Mat, x: Vec): Vec {
    i => Dot(n, Row(A, i), x)
  }

  /** `A * B`, where `A` has `m` columns. */
  ghost function MatMul(m: nat, A: Mat, B: Mat): Mat {
    (i, k) => Dot(m, Row(A, i), Row(Transpose(B), k))
  }

  /** `u' * M * v` for an n-by-n matrix. */
  ghost function Bilinear(n: nat, M: Mat, u: Vec, v: Vec): real {
    Dot(n, u, MatVec(n, M, v))
  }

  ghost predicate Symmetric(n: nat, M: Mat) {
    forall i, j | 0 <= i < n && 0 <= j < n :: M(i, j) == M(j, i)
  }

  ghost predicate SameUpTo(n: nat, f: Vec, g: Vec) {
    forall i | 0 <= i < n :: f(i) == g(i)
  }

  // ----- sums -----

  lemma {:induction false} SumExt(n: nat, f: Vec, g: Vec)
    requires SameUpTo(n, f, g)
    ensures Sum(n, f) == Sum(n, g)
  {
    if n > 0 {
      SumExt(n - 1, f, g);
    }
  }

  lemma {:induction false} SumZero(n: nat, f: Vec)
    requires forall i | 0 <= i < n :: f(i) == 0.0
    ensures Sum(n, f) == 0.0
  {
    if n > 0 {
      SumZero(n - 1, f);
    }
  }

  lemma {:induction false} SumAdd(n: nat, f: Vec, g: Vec)
    ensures Sum(n, VecAdd(f, g)) == Sum(n, f) + Sum(n, g)
  {
    if n > 0 {
      SumAdd(n - 1, f, g);
    }
  }

  lemma {:induction false} SumScale(n: nat, c: real, f: Vec)
    ensures Sum(n, Scaled(c, f)) == c * Sum(n, f)
  {
    if n > 0 {
      SumScale(n - 1, c, f);
      assert c * (Sum(n - 1, f) + f(n - 1)) == c * Sum(n - 1, f) + c * f(n - 1);
    }
  }

  lemma {:induction false} SumNonNegative(n: nat, f: Vec)
    requires forall i | 0 <= i < n :: f(i) >= 0.0
    ensures Sum(n, f) >= 0.0
  {
    if n > 0 {
      SumNonNegative(n - 1, f);
    }
  }

  /** A sum of nonnegative terms is at least each of its terms. */
  lemma {:induction false} SumAtLeast(n: nat, f: Vec, k: int)
    requires forall i | 0 <= i < n :: f(i) >= 0.0
    requires 0 <= k < n
    ensures Sum(n, f) >= f(k)
  {
    if k == n - 1 {
      SumNonNegative(n - 1, f);
    } else {
      SumAtLeast(n - 1, f, k);
    }
  }

  /** Only the term at `k` is nonzero. */
  lemma {:induction false} SumSingle(n: nat, f: Vec, k: int)
    requires 0 <= k < n
    requires forall i | 0 <= i < n && i != k :: f(i) == 0.0
    ensures Sum(n, f) == f(k)
  {
    if k == n - 1 {
      SumZero(n - 1, f);
    } else {
      SumSingle(n - 1, f, k);
    }
  }

  ghost function Shift(f: Vec, k: int): Vec {
    i => f(k + i)
  }

  /** Only the `m` terms starting at `k` are nonzero. */
  lemma {:induction false} SumWindow(n: nat, f: Vec, k: nat, m: nat)
    requires k + m <= n
    requires forall i | 0 <= i < n && !(k <= i < k + m) :: f(i) == 0.0
    ensures Sum(n, f) == Sum(m, Shift(f, k))
  {
    if n > k + m {
      SumWindow(n - 1, f, k, m);
    } else if m == 0 {
      SumZero(n, f);
    } else {
      SumWindow(n - 1, f, k, m - 1);
    }
  }

  /** A sum of 2n terms taken two at a time. */
  lemma {:induction false} SumPairs(n: nat, f: Vec, g: Vec)
    requires forall i | 0 <= i < n :: g(i) == f(2 * i) + f(2 * i + 1)
    ensures Sum(2 * n, f) == Sum(n, g)
  {
    if n > 0 {
      SumPairs(n - 1, f, g);
      assert Sum(2 * n, f) == Sum(2 * n - 1, f) + f(2 * n - 1);
      assert Sum(2 * n - 1, f) == Sum(2 * n - 2, f) + f(2 * n - 2);
    }
  }

  ghost function RowSums(n: nat, f: Mat): Vec {
    i => Sum(n, Row(f, i))
  }

  lemma {:induction false} SumSwap(m: nat, n: nat, f: Mat)
    ensures Sum(m, RowSums(n, f)) == Sum(n, RowSums(m, Transpose(f)))
  {
    if m == 0 {
      SumZero(n, RowSums(m, Transpose(f)));
    } else {
      SumSwap(m - 1, n, f);
      var last := Row(f, m - 1);
      SumAdd(n, RowSums(m - 1, Transpose(f)), last);
      SumExt(n, RowSums(m, Transpose(f)), VecAdd(RowSums(m - 1, Transpose(f)), last));
    }
  }

  // ----- inner products -----

  lemma DotExt(n: nat, u: Vec, v: Vec, u': Vec, v': Vec)
    requires SameUpTo(n, u, u') && SameUpTo(n, v, v')
    ensures Dot(n, u, v) == Dot(n, u', v')
  {
    SumExt(n, Times(u, v), Times(u', v'));
  }

  lemma DotComm(n: nat, u: Vec, v: Vec)
    ensures Dot(n, u, v) == Dot(n, v, u)
  {
    SumExt(n, Times(u, v), Times(v, u));
  }

  lemma DotAddRight(n: nat, u: Vec, v: Vec, w: Vec)
    ensures Dot(n, u, VecAdd(v, w)) == Dot(n, u, v) + Dot(n, u, w)
  {
    SumAdd(n, Times(u, v), Times(u, w));
    SumExt(n, Times(u, VecAdd(v, w)), VecAdd(Times(u, v), Times(u, w)));
  }

  lemma DotSubRight(n: nat, u: Vec, v: Vec, w: Vec)
    ensures Dot(n, u, VecSub(v, w)) == Dot(n, u, v) - Dot(n, u, w)
  {
    DotAddRight(n, u, VecSub(v, w), w);
    DotExt(n, u, VecAdd(VecSub(v, w), w), u, v);
  }

  lemma DotScaleRight(n: nat, c: real, u: Vec, v: Vec)
    ensures Dot(n, u, Scaled(c, v)) == c * Dot(n, u, v)
  {
    forall i | 0 <= i < n
      ensures Times(u, Scaled(c, v))(i) == Scaled(c, Times(u, v))(i)
    {
      MulSwap(u(i), c, v(i));
    }
    SumExt(n, Times(u, Scaled(c, v)), Scaled(c, Times(u, v)));
    SumScale(n, c, Times(u, v));
  }

  lemma MulSwap(a: real, b: real, c: real)
    ensures a * (b * c) == b * (a * c) == (a * b) * c == c * (a * b)
  {
  }

  /** Outside the window of `n` entries at `base` the left vector is zero. */
  lemma WindowDot(total: nat, u: Vec, x: Vec, base: nat, n: nat, c: Vec, s: Vec)
    requires base + n <= total
    requires forall i | 0 <= i < total && !(base <= i < base + n) :: u(i) == 0.0
    requires SameUpTo(n, Shift(u, base), c) && SameUpTo(n, Shift(x, base), s)
    ensures Dot(total, u, x) == Dot(n, c, s)
  {
    SumWindow(total, Times(u, x), base, n);
    forall i | 0 <= i < n
      ensures Shift(Times(u, x), base)(i) == Times(c, s)(i)
    {
      assert Shift(u, base)(i) == c(i) && Shift(x, base)(i) == s(i);
    }
    SumExt(n, Shift(Times(u, x), base), Times(c, s));
  }

  // ----- matrix products -----

  /** Entry (i, j) of the double sum behind `u' * M * v`. */
  ghost function Terms(u: Vec, M: Mat, v: Vec): Mat {
    (i, j) => u(i) * (M(i, j) * v(j))
  }

  lemma RowOfTerms(n: nat, u: Vec, M: Mat, v: Vec, i: int)
    ensures Times(u, MatVec(n, M, v))(i) == RowSums(n, Terms(u, M, v))(i)
  {
    SumScale(n, u(i), Times(Row(M, i), v));
    SumExt(n, Scaled(u(i), Times(Row(M, i), v)), Row(Terms(u, M, v), i));
  }

  lemma ColumnOfTerms(m: nat, u: Vec, M: Mat, v: Vec, j: int)
    ensures Times(MatVec(m, Transpose(M), u), v)(j) == RowSums(m, Transpose(Terms(u, M, v)))(j)
  {
    var col := Times(Row(Transpose(M), j), u);
    SumScale(m, v(j), col);
    forall i | 0 <= i < m
      ensures Scaled(v(j), col)(i) == Row(Transpose(Terms(u, M, v)), j)(i)
    {
      MulSwap(u(i), M(i, j), v(j));
      MulSwap(v(j), M(i, j), u(i));
    }
    SumExt(m, Scaled(v(j), col), Row(Transpose(Terms(u, M, v)), j));
  }

  /** u' * (M * v) == (M' * u)' * v: the two sums exchanged. */
  lemma DotMatVecSwap(m: nat, n: nat, u: Vec, M: Mat, v: Vec)
    ensures Dot(m, u, MatVec(n, M, v)) == Dot(n, MatVec(m, Transpose(M), u), v)
  {
    var terms := Terms(u, M, v);
    forall i | 0 <= i < m
      ensures Times(u, MatVec(n, M, v))(i) == RowSums(n, terms)(i)
    {
      RowOfTerms(n, u, M, v, i);
    }
    SumExt(m, Times(u, MatVec(n, M, v)), RowSums(n, terms));
    SumSwap(m, n, terms);
    forall j | 0 <= j < n
      ensures Times(MatVec(m, Transpose(M), u), v)(j) == RowSums(m, Transpose(terms))(j)
    {
      ColumnOfTerms(m, u, M, v, j);
    }
    SumExt(n, Times(MatVec(m, Transpose(M), u), v), RowSums(m, Transpose(terms)));
  }

  /** (A * B) * x == A * (B * x). */
  lemma MatMulVec(m: nat, n: nat, A: Mat, B: Mat, x: Vec, i: int)
    ensures MatVec(n, MatMul(m, A, B), x)(i) == MatVec(m, A, MatVec(n, B, x))(i)
  {
    DotMatVecSwap(m, n, Row(A, i), B, x);
    forall k | 0 <= k < n
      ensures Row(MatMul(m, A, B), i)(k) == MatVec(m, Transpose(B), Row(A, i))(k)
    {
      DotComm(m, Row(A, i), Row(Transpose(B), k));
    }
    DotExt(n, Row(MatMul(m, A, B), i), x, MatVec(m, Transpose(B), Row(A, i)), x);
  }

  // ----- bilinear forms -----

  lemma BilinearExt(n: nat, M: Mat, M': Mat, u: Vec, v: Vec)
    requires forall i, j | 0 <= i < n && 0 <= j < n :: M(i, j) == M'(i, j)
    ensures Bilinear(n, M, u, v) == Bilinear(n, M', u, v)
  {
    forall i | 0 <= i < n
      ensures MatVec(n, M, v)(i) == MatVec(n, M', v)(i)
    {
      DotExt(n, Row(M, i), v, Row(M', i), v);
    }
    DotExt(n, u, MatVec(n, M, v), u, MatVec(n, M', v));
  }

  lemma BilinearVecExt(n: nat, M: Mat, u: Vec, v: Vec, u': Vec, v': Vec)
    requires SameUpTo(n, u, u') && SameUpTo(n, v, v')
    ensures Bilinear(n, M, u, v) == Bilinear(n, M, u', v')
  {
    forall i | 0 <= i < n
      ensures MatVec(n, M, v)(i) == MatVec(n, M, v')(i)
    {
      DotExt(n, Row(M, i), v, Row(M, i), v');
    }
    DotExt(n, u, MatVec(n, M, v), u', MatVec(n, M, v'));
  }

  lemma BilinearMatAdd(n: nat, M: Mat, M': Mat, u: Vec, v: Vec)
    ensures Bilinear(n, MatAdd(M, M'), u, v) == Bilinear(n, M, u, v) + Bilinear(n, M', u, v)
  {
    forall i | 0 <= i < n
      ensures MatVec(n, MatAdd(M, M'), v)(i) == VecAdd(MatVec(n, M, v), MatVec(n, M', v))(i)
    {
      var s := Times(Row(MatAdd(M, M'), i), v);
      SumAdd(n, Times(Row(M, i), v), Times(Row(M', i), v));
      SumExt(n, s, VecAdd(Times(Row(M, i), v), Times(Row(M', i), v)));
    }
    DotExt(n, u, MatVec(n, MatAdd(M, M'), v), u, VecAdd(MatVec(n, M, v), MatVec(n, M', v)));
    DotAddRight(n, u, MatVec(n, M, v), MatVec(n, M', v));
  }

  lemma BilinearAddRight(n: nat, M: Mat, u: Vec, v: Vec, w: Vec)
    ensures Bilinear(n, M, u, VecAdd(v, w)) == Bilinear(n, M, u, v) + Bilinear(n, M, u, w)
  {
    forall i | 0 <= i < n
      ensures MatVec(n, M, VecAdd(v, w))(i) == VecAdd(MatVec(n, M, v), MatVec(n, M, w))(i)
    {
      DotAddRight(n, Row(M, i), v, w);
    }
    DotExt(n, u, MatVec(n, M, VecAdd(v, w)), u, VecAdd(MatVec(n, M, v), MatVec(n, M, w)));
    DotAddRight(n, u, MatVec(n, M, v), MatVec(n, M, w));
  }

  lemma BilinearSymmetric(n: nat, M: Mat, u: Vec, v: Vec)
    requires Symmetric(n, M)
    ensures Bilinear(n, M, u, v) == Bilinear(n, M, v, u)
  {
    DotMatVecSwap(n, n, u, M, v);
    forall j | 0 <= j < n
      ensures MatVec(n, Transpose(M), u)(j) == MatVec(n, M, u)(j)
    {
      DotExt(n, Row(Transpose(M), j), u, Row(M, j), u);
    }
    DotExt(n, MatVec(n, Transpose(M), u), v, MatVec(n, M, u), v);
    DotComm(n, MatVec(n, M, u), v);
  }

  /** The binomial expansion of a quadratic form of a symmetric matrix. */
  lemma QuadraticOfSum(n: nat, M: Mat, u: Vec, v: Vec)
    requires Symmetric(n, M)
    ensures Bilinear(n, M, VecAdd(u, v), VecAdd(u, v))
         == Bilinear(n, M, u, u) + 2.0 * Bilinear(n, M, u, v) + Bilinear(n, M, v, v)
  {
    var s := VecAdd(u, v);
    BilinearAddRight(n, M, s, u, v);
    BilinearSymmetric(n, M, s, u);
    BilinearSymmetric(n, M, s, v);
    BilinearAddRight(n, M, u, u, v);
    BilinearAddRight(n, M, v, u, v);
    BilinearSymmetric(n, M, u, v);
  }

  lemma QuadraticOfDifference(n: nat, M: Mat, u: Vec, v: Vec)
    requires Symmetric(n, M)
    ensures Bilinear(n, M, VecSub(u, v), VecSub(u, v))
         == Bilinear(n, M, u, u) - 2.0 * Bilinear(n, M, v, u) + Bilinear(n, M, v, v)
  {
    var d := VecSub(u, v);
    QuadraticOfSum(n, M, v, d);
    BilinearVecExt(n, M, VecAdd(v, d), VecAdd(v, d), u, u);
    BilinearAddRight(n, M, v, v, d);
    BilinearVecExt(n, M, v, VecAdd(v, d), v, u);
  }

  /** u' * (B' * M * B) * v == (B * u)' * M * (B * v), for B with m rows and n columns. */
  lemma Congruence(m: nat, n: nat, M: Mat, B: Mat, u: Vec, v: Vec)
    ensures Bilinear(n, MatMul(m, Transpose(B), MatMul(m, M, B)), u, v)
         == Bilinear(m, M, MatVec(n, B, u), MatVec(n, B, v))
  {
    var MB := MatMul(m, M, B);
    var Bt := Transpose(B);
    var z := MatVec(n, MB, v);
    forall i | 0 <= i < n
      ensures MatVec(n, MatMul(m, Bt, MB), v)(i) == MatVec(m, Bt, z)(i)
    {
      MatMulVec(m, n, Bt, MB, v, i);
    }
    DotExt(n, u, MatVec(n, MatMul(m, Bt, MB), v), u, MatVec(m, Bt, z));
    DotComm(n, u, MatVec(m, Bt, z));
    DotMatVecSwap(m, n, z, B, u);
    DotComm(m, z, MatVec(n, B, u));
    forall p | 0 <= p < m
      ensures z(p) == MatVec(m, M, MatVec(n, B, v))(p)
    {
      MatMulVec(m, n, M, B, v, p);
    }
    DotExt(m, MatVec(n, B, u), z, MatVec(n, B, u), MatVec(m, M, MatVec(n, B, v)));
  }
}
