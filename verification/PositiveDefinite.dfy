/** A symmetric positive definite system has a solution: elimination of the last variable leaves a
    smaller system of the same kind. */
module PositiveDefinite {
  import opened LinearAlgebra
  import opened RealArithmetic

  ghost predicate NonZero(n: nat, u: Vec) {
    exists k :: 0 <= k < n && u(k) != 0.0
  }

  ghost predicate PosDef(n: nat, M: Mat) {
    Symmetric(n, M) && forall u: Vec | NonZero(n, u) :: Bilinear(n, M, u, u) > 0.0
  }

  /** A vector with one more entry. */
  ghost function Extended(n: nat, v: Vec, x: real): Vec {
    j => if j == n then x else v(j)
  }

  /** What is left of M once variable n is eliminated. */
  ghost function Schur(n: nat, M: Mat): Mat
    requires M(n, n) != 0.0
  {
    (i, j) => M(i, j) - Mul(Quotient(M(i, n), M(n, n)), M(n, j))
  }

  lemma ExtendedDot(n: nat, r: Vec, v: Vec, x: real)
    ensures Dot(n + 1, r, Extended(n, v, x)) == Dot(n, r, v) + r(n) * x
  {
    SumExt(n, Times(r, Extended(n, v, x)), Times(r, v));
  }

  lemma SchurDot(n: nat, M: Mat, v: Vec, i: int)
    requires M(n, n) != 0.0
    ensures MatVec(n, Schur(n, M), v)(i)
         == MatVec(n, M, v)(i) - Mul(Quotient(M(i, n), M(n, n)), MatVec(n, M, v)(n))
  {
    var q := Quotient(M(i, n), M(n, n));
    var row, last := Times(Row(M, i), v), Times(Row(M, n), v);
    forall j | 0 <= j < n
      ensures Times(Row(Schur(n, M), i), v)(j) == VecAdd(row, Scaled(-q, last))(j)
    {
      ProductTerm(M(i, j), q, M(n, j), v(j));
    }
    SumExt(n, Times(Row(Schur(n, M), i), v), VecAdd(row, Scaled(-q, last)));
    SumAdd(n, row, Scaled(-q, last));
    SumScale(n, -q, last);
  }

  lemma ProductTerm(a: real, q: real, b: real, v: real)
    ensures (a - Mul(q, b)) * v == a * v + (-q) * (b * v)
  {
    assert (a - q * b) * v == a * v - q * b * v;
  }

  /** M applied to a vector extended by x, row by row. */
  lemma ExtendedRow(n: nat, M: Mat, v: Vec, x: real, i: int)
    requires M(n, n) != 0.0
    ensures var p := MatVec(n, M, v)(n);
            MatVec(n + 1, M, Extended(n, v, x))(i)
            == MatVec(n, Schur(n, M), v)(i) + Mul(Quotient(M(i, n), M(n, n)), p + M(n, n) * x)
  {
    ExtendedDot(n, Row(M, i), v, x);
    SchurDot(n, M, v, i);
    QuotientTimes(M(i, n), M(n, n));
    SplitRatio(Quotient(M(i, n), M(n, n)), M(n, n), MatVec(n, M, v)(n), x, M(i, n));
  }

  lemma SplitRatio(q: real, d: real, p: real, x: real, m: real)
    requires Mul(q, d) == m
    ensures Mul(q, p + d * x) == Mul(q, p) + m * x
  {
    assert q * (p + d * x) == q * p + q * d * x;
  }

  lemma LastRow(n: nat, M: Mat, v: Vec, x: real)
    ensures MatVec(n + 1, M, Extended(n, v, x))(n) == MatVec(n, M, v)(n) + M(n, n) * x
  {
    ExtendedDot(n, Row(M, n), v, x);
  }

  lemma {:induction false} UnitForm(n: nat, M: Mat, e: Vec)
    requires e(n) == 1.0 && forall j | 0 <= j < n :: e(j) == 0.0
    ensures Bilinear(n + 1, M, e, e) == M(n, n)
  {
    SumZero(n, Times(Row(M, n), e));
    SumZero(n, Times(e, MatVec(n + 1, M, e)));
  }

  lemma PivotPositive(n: nat, M: Mat)
    requires PosDef(n + 1, M)
    ensures M(n, n) > 0.0
  {
    var e: Vec := j => if j == n then 1.0 else 0.0;
    assert e(n) != 0.0;
    assert NonZero(n + 1, e);
    UnitForm(n, M, e);
  }

  /** The form of the remainder is the form of M on a vector extended so that the last row vanishes. */
  lemma SchurForm(n: nat, M: Mat, v: Vec)
    requires M(n, n) != 0.0
    ensures var x := -Quotient(MatVec(n, M, v)(n), M(n, n));
            Bilinear(n + 1, M, Extended(n, v, x), Extended(n, v, x)) == Bilinear(n, Schur(n, M), v, v)
  {
    var p, d := MatVec(n, M, v)(n), M(n, n);
    var x := -Quotient(p, d);
    var w := Extended(n, v, x);
    QuotientTimes(p, d);
    assert p + d * x == 0.0 by {
      assert d * x == -Mul(Quotient(p, d), d);
    }
    forall i | 0 <= i < n
      ensures Times(w, MatVec(n + 1, M, w))(i) == Times(v, MatVec(n, Schur(n, M), v))(i)
    {
      ExtendedRow(n, M, v, x, i);
      assert Mul(Quotient(M(i, n), d), 0.0) == 0.0;
    }
    LastRow(n, M, v, x);
    SumExt(n, Times(w, MatVec(n + 1, M, w)), Times(v, MatVec(n, Schur(n, M), v)));
  }

  lemma SchurSymmetric(n: nat, M: Mat)
    requires Symmetric(n + 1, M) && M(n, n) != 0.0
    ensures Symmetric(n, Schur(n, M))
  {
    forall i, j | 0 <= i < n && 0 <= j < n
      ensures Schur(n, M)(i, j) == Schur(n, M)(j, i)
    {
      assert M(i, j) == M(j, i) && M(i, n) == M(n, i) && M(j, n) == M(n, j);
      CrossTerm(M(i, n), M(j, n), M(n, n));
    }
  }

  lemma CrossTerm(a: real, b: real, d: real)
    requires d != 0.0
    ensures Mul(Quotient(a, d), b) == Mul(Quotient(b, d), a)
  {
    assert a / d * b == a * b / d && b / d * a == b * a / d;
  }

  lemma SchurPosDef(n: nat, M: Mat)
    requires PosDef(n + 1, M)
    ensures M(n, n) > 0.0 && PosDef(n, Schur(n, M))
  {
    PivotPositive(n, M);
    SchurSymmetric(n, M);
    forall v: Vec | NonZero(n, v)
      ensures Bilinear(n, Schur(n, M), v, v) > 0.0
    {
      var x := -Quotient(MatVec(n, M, v)(n), M(n, n));
      SchurForm(n, M, v);
      var k :| 0 <= k < n && v(k) != 0.0;
      assert Extended(n, v, x)(k) != 0.0;
      assert NonZero(n + 1, Extended(n, v, x));
    }
  }

  ghost predicate SolvesSystem(n: nat, M: Mat, u: Vec, b: Vec) {
    forall i | 0 <= i < n :: MatVec(n, M, u)(i) == b(i)
  }

  /** The solution of the smaller system extends to one of the larger. */
  lemma BackSubstitute(n: nat, M: Mat, b: Vec, v: Vec, x: real)
    requires M(n, n) != 0.0 && x == Quotient(b(n) - MatVec(n, M, v)(n), M(n, n))
    requires SolvesSystem(n, Schur(n, M), v, i => b(i) - Mul(Quotient(M(i, n), M(n, n)), b(n)))
    ensures SolvesSystem(n + 1, M, Extended(n, v, x), b)
  {
    var p, d := MatVec(n, M, v)(n), M(n, n);
    QuotientTimes(b(n) - p, d);
    assert p + d * x == b(n) by {
      assert d * x == Mul(x, d);
    }
    LastRow(n, M, v, x);
    forall i | 0 <= i < n
      ensures MatVec(n + 1, M, Extended(n, v, x))(i) == b(i)
    {
      ExtendedRow(n, M, v, x, i);
    }
  }

  /** Every symmetric positive definite system has a solution. */
  lemma {:induction false} Solvable(n: nat, M: Mat, b: Vec) returns (u: Vec)
    requires PosDef(n, M)
    ensures SolvesSystem(n, M, u, b)
    decreases n
  {
    if n == 0 {
      u := b;
    } else {
      var k: nat := n - 1;
      SchurPosDef(k, M);
      var reduced: Vec := i => b(i) - Mul(Quotient(M(i, k), M(k, k)), b(k));
      var v := Solvable(k, Schur(k, M), reduced);
      var x := Quotient(b(k) - MatVec(k, M, v)(k), M(k, k));
      BackSubstitute(k, M, b, v, x);
      u := Extended(k, v, x);
    }
  }

  /** The determinant of such a matrix: the product of the pivots of the elimination. */
  ghost function Determinant(n: nat, M: Mat): (d: real)
    requires PosDef(n, M)
    ensures d > 0.0
    decreases n
  {
    if n == 0 then 1.0
    else
      SchurPosDef(n - 1, M);
      var rest := Determinant(n - 1, Schur(n - 1, M));
      ProductPositive(M(n - 1, n - 1), rest);
      Mul(M(n - 1, n - 1), rest)
  }
}
