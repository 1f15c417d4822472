/** `solve_tridiagonal_matrix_algorithm` of spline_interpolation.cpp: forward sweep and
    back substitution. Division by a zero pivot is outside the model, so the solver asks
    for nonzero pivots; strict diagonal dominance supplies them. */
module Tridiagonal {
  import opened RealArithmetic

  /** Subdiagonal a, diagonal b, superdiagonal c, right-hand side d. */
  datatype System = System(a: seq<real>, b: seq<real>, c: seq<real>, d: seq<real>)
  {
    predicate Valid() {
      |d| >= 1 && |b| == |d| && |a| == |c| == |d| - 1
    }

    function Size(): nat {
      |d|
    }

    /** The diagonal entry of row i once row i - 1 has been eliminated. */
    ghost function Pivot(i: nat): real
      requires Valid() && i < Size()
      decreases i, 0
    {
      if i == 0 then b[0] else b[i] - Mul(a[i - 1], Ratio(i - 1))
    }

    /** The superdiagonal entry of row i divided by its pivot. */
    ghost function Ratio(i: nat): real
      requires Valid() && i < Size()
      decreases i, 1
    {
      if i == Size() - 1 || Pivot(i) == 0.0 then 0.0 else Quotient(c[i], Pivot(i))
    }

    ghost predicate NoZeroPivot()
      requires Valid()
    {
      forall i | 0 <= i < Size() :: Pivot(i) != 0.0
    }

    /** Row i of the system holds for x. */
    ghost predicate Row(x: seq<real>, i: nat)
      requires Valid() && |x| == Size() && i < Size()
    {
      (if i == 0 then 0.0 else Mul(a[i - 1], x[i - 1])) + Mul(b[i], x[i])
      + (if i == Size() - 1 then 0.0 else Mul(c[i], x[i + 1])) == d[i]
    }

    ghost predicate Solution(x: seq<real>)
      requires Valid()
    {
      |x| == Size() && forall i | 0 <= i < Size() :: Row(x, i)
    }

    ghost predicate DiagonallyDominant()
      requires Valid()
    {
      forall i | 0 <= i < Size() ::
        b[i] > (if i == 0 then 0.0 else Abs(a[i - 1])) + (if i == Size() - 1 then 0.0 else Abs(c[i]))
    }
  }

  // ----- pivots of a dominant system -----

  lemma AbsOfProduct(x: real, y: real)
    ensures Abs(Mul(x, y)) == Mul(Abs(x), Abs(y))
  {
    if x < 0.0 && y < 0.0 {
      ProductOfNegatives(x, y);
    } else if x < 0.0 {
      ProductNonNegative(-x, y);
    } else if y < 0.0 {
      ProductNonNegative(x, -y);
    } else {
      ProductNonNegative(x, y);
    }
  }

  lemma ProductBound(x: real, y: real)
    requires Abs(y) <= 1.0
    ensures Abs(Mul(x, y)) <= Abs(x)
  {
    AbsOfProduct(x, y);
    ProductMonotone(Abs(x), Abs(y), 1.0);
    assert Mul(Abs(x), 1.0) == Abs(x);
  }

  lemma AtLeastOnce(t: real, p: real)
    requires p > 0.0
    ensures t >= 1.0 ==> Mul(t, p) >= p
  {
    if t >= 1.0 {
      ProductMonotone(p, 1.0, t);
    }
  }

  lemma RatioBound(x: real, p: real)
    requires Abs(x) < p
    ensures Abs(Quotient(x, p)) <= 1.0
  {
    var q := Quotient(x, p);
    QuotientTimes(x, p);
    AbsOfProduct(q, p);
    AtLeastOnce(Abs(q), p);
  }

  /** Elimination keeps every pivot above the superdiagonal entry of its row. */
  lemma {:induction false} PivotDominates(s: System, i: nat)
    requires s.Valid() && s.DiagonallyDominant() && i < s.Size()
    ensures s.Pivot(i) > (if i == s.Size() - 1 then 0.0 else Abs(s.c[i]))
    ensures Abs(s.Ratio(i)) <= 1.0
  {
    if i > 0 {
      PivotDominates(s, i - 1);
      ProductBound(s.a[i - 1], s.Ratio(i - 1));
    }
    if i < s.Size() - 1 {
      RatioBound(s.c[i], s.Pivot(i));
    }
  }

  lemma DominantHasNoZeroPivot(s: System)
    requires s.Valid() && s.DiagonallyDominant()
    ensures s.NoZeroPivot()
  {
    forall i | 0 <= i < s.Size()
      ensures s.Pivot(i) != 0.0
    {
      PivotDominates(s, i);
    }
  }

  // ----- the sweeps -----

  /** The right-hand side of row i after elimination, divided by its pivot. */
  ghost function Target(s: System, i: nat): real
    requires s.Valid() && s.NoZeroPivot() && i < s.Size()
  {
    if i == 0 then Quotient(s.d[0], s.Pivot(0))
    else Quotient(s.d[i] - Mul(s.a[i - 1], Target(s, i - 1)), s.Pivot(i))
  }

  /** x satisfies row i of the eliminated system. */
  ghost predicate Eliminated(s: System, x: seq<real>, i: nat)
    requires s.Valid() && s.NoZeroPivot() && |x| == s.Size() && i < s.Size()
  {
    x[i] + (if i == s.Size() - 1 then 0.0 else Mul(s.Ratio(i), x[i + 1])) == Target(s, i)
  }

  lemma CancelFactor(p: real, x: real, y: real)
    requires p != 0.0 && Mul(x, p) == Mul(y, p)
    ensures x == y
  {
    assert x == x * p / p;
    assert y == y * p / p;
  }

  /** One elimination step, written for the values it involves. */
  lemma EliminationStep(a: real, b: real, ratio: real, target: real, xPrev: real, x: real, p: real)
    requires xPrev + Mul(ratio, x) == target
    requires p == b - Mul(a, ratio)
    ensures Mul(a, xPrev) + Mul(b, x) == Mul(a, target) + Mul(x, p)
  {
  }

  /** Given the eliminated row above, a row of the system and its eliminated form are equivalent. */
  lemma RowIffEliminated(s: System, x: seq<real>, i: nat)
    requires s.Valid() && s.NoZeroPivot() && |x| == s.Size() && i < s.Size()
    requires i > 0 ==> Eliminated(s, x, i - 1)
    ensures s.Row(x, i) <==> Eliminated(s, x, i)
  {
    var p := s.Pivot(i);
    var right := if i == s.Size() - 1 then 0.0 else Mul(s.Ratio(i), x[i + 1]);
    var above := if i == 0 then 0.0 else Mul(s.a[i - 1], Target(s, i - 1));
    if i > 0 {
      EliminationStep(s.a[i - 1], s.b[i], s.Ratio(i - 1), Target(s, i - 1), x[i - 1], x[i], p);
    }
    if i < s.Size() - 1 {
      QuotientTimes(s.c[i], p);
      SwapFactor(s.Ratio(i), x[i + 1], p, s.c[i]);
    }
    QuotientTimes(s.d[i] - above, p);
    assert Mul(x[i] + right, p) == Mul(x[i], p) + Mul(right, p);
    assert s.Row(x, i) <==> Mul(x[i] + right, p) == Mul(Target(s, i), p);
    if s.Row(x, i) {
      CancelFactor(p, x[i] + right, Target(s, i));
    }
  }

  lemma SwapFactor(ratio: real, x: real, p: real, c: real)
    requires Mul(ratio, p) == c
    ensures Mul(Mul(ratio, x), p) == Mul(c, x)
  {
    assert ratio * x * p == ratio * p * x;
  }

  /** A vector solves the system exactly when it satisfies every eliminated row. */
  lemma {:induction false} SolutionIffEliminated(s: System, x: seq<real>, i: nat)
    requires s.Valid() && s.NoZeroPivot() && |x| == s.Size() && i <= s.Size()
    ensures (forall k | 0 <= k < i :: s.Row(x, k)) <==> (forall k | 0 <= k < i :: Eliminated(s, x, k))
  {
    if i > 0 {
      SolutionIffEliminated(s, x, i - 1);
      if forall k | 0 <= k < i - 1 :: Eliminated(s, x, k) {
        RowIffEliminated(s, x, i - 1);
      }
    }
  }

  /** Back substitution determines the solution. */
  lemma {:induction false} EliminatedUnique(s: System, x: seq<real>, y: seq<real>, i: nat)
    requires s.Valid() && s.NoZeroPivot() && |x| == |y| == s.Size() && i < s.Size()
    requires forall k | 0 <= k < s.Size() :: Eliminated(s, x, k) && Eliminated(s, y, k)
    ensures x[i] == y[i]
    decreases s.Size() - i
  {
    assert Eliminated(s, x, i) && Eliminated(s, y, i);
    if i < s.Size() - 1 {
      EliminatedUnique(s, x, y, i + 1);
    }
  }

  /** A system without zero pivots has at most one solution. */
  lemma SolutionUnique(s: System, x: seq<real>, y: seq<real>)
    requires s.Valid() && s.NoZeroPivot()
    requires s.Solution(x) && s.Solution(y)
    ensures x == y
  {
    SolutionIffEliminated(s, x, s.Size());
    SolutionIffEliminated(s, y, s.Size());
    forall i | 0 <= i < s.Size()
      ensures x[i] == y[i]
    {
      EliminatedUnique(s, x, y, i);
    }
  }

  /** The sweep's result satisfies every row; no other vector does. */
  method Solve(s: System) returns (x: array<real>)
    requires s.Valid() && s.NoZeroPivot()
    ensures fresh(x)
    ensures forall y: seq<real> :: s.Solution(y) <==> y == x[..]
  {
    var n := s.Size();
    if n == 1 {
      x := new real[1];
      x[0] := s.d[0] / s.b[0];
    } else {
      var cPrime, dPrime := ForwardSweep(s);
      x := BackSubstitution(s, cPrime, dPrime);
    }
    assert forall k | 0 <= k < n :: Eliminated(s, x[..], k);
    SolutionIffEliminated(s, x[..], n);
    forall y: seq<real> | s.Solution(y)
      ensures y == x[..]
    {
      SolutionUnique(s, x[..], y);
    }
  }

  method ForwardSweep(s: System) returns (cPrime: array<real>, dPrime: array<real>)
    requires s.Valid() && s.NoZeroPivot() && s.Size() > 1
    ensures fresh(cPrime) && fresh(dPrime)
    ensures cPrime.Length == dPrime.Length == s.Size()
    ensures forall k | 0 <= k < s.Size() :: cPrime[k] == s.Ratio(k) && dPrime[k] == Target(s, k)
  {
    var n := s.Size();
    cPrime := new real[n];
    dPrime := new real[n];
    assert s.Pivot(0) == s.b[0];
    cPrime[0] := s.c[0] / s.b[0];
    dPrime[0] := s.d[0] / s.b[0];
    for i := 1 to n
      invariant forall k | 0 <= k < i :: cPrime[k] == s.Ratio(k) && dPrime[k] == Target(s, k)
    {
      SweepStep(s, i, cPrime[i - 1], dPrime[i - 1]);
      var m := Quotient(1.0, s.b[i] - Mul(s.a[i - 1], cPrime[i - 1]));
      cPrime[i] := if i < n - 1 then Mul(s.c[i], m) else 0.0;
      dPrime[i] := Mul(s.d[i] - Mul(s.a[i - 1], dPrime[i - 1]), m);
    }
  }

  lemma SweepStep(s: System, i: nat, ratio: real, target: real)
    requires s.Valid() && s.NoZeroPivot() && 0 < i < s.Size()
    requires ratio == s.Ratio(i - 1) && target == Target(s, i - 1)
    ensures s.b[i] - Mul(s.a[i - 1], ratio) != 0.0
    ensures var m := Quotient(1.0, s.b[i] - Mul(s.a[i - 1], ratio));
            && (i < s.Size() - 1 ==> Mul(s.c[i], m) == s.Ratio(i))
            && Mul(s.d[i] - Mul(s.a[i - 1], target), m) == Target(s, i)
  {
    assert s.Pivot(i) == s.b[i] - Mul(s.a[i - 1], ratio);
    InverseFactor(s.d[i] - Mul(s.a[i - 1], target), s.Pivot(i));
    if i < s.Size() - 1 {
      InverseFactor(s.c[i], s.Pivot(i));
    }
  }

  lemma StillEliminated(s: System, before: seq<real>, x: seq<real>, i: nat)
    requires s.Valid() && s.NoZeroPivot() && |before| == |x| == s.Size() && i < s.Size() - 1
    requires forall k | i < k < s.Size() :: Eliminated(s, before, k) && x[k] == before[k]
    requires x[i] == Target(s, i) - Mul(s.Ratio(i), x[i + 1])
    ensures forall k | i <= k < s.Size() :: Eliminated(s, x, k)
  {
    forall k | i <= k < s.Size()
      ensures Eliminated(s, x, k)
    {
      assert k > i ==> Eliminated(s, before, k);
    }
  }

  method BackSubstitution(s: System, cPrime: array<real>, dPrime: array<real>) returns (x: array<real>)
    requires s.Valid() && s.NoZeroPivot() && s.Size() > 1
    requires cPrime.Length == dPrime.Length == s.Size()
    requires forall k | 0 <= k < s.Size() :: cPrime[k] == s.Ratio(k) && dPrime[k] == Target(s, k)
    ensures fresh(x) && x.Length == s.Size()
    ensures forall k | 0 <= k < s.Size() :: Eliminated(s, x[..], k)
  {
    var n := s.Size();
    x := new real[n];
    x[n - 1] := dPrime[n - 1];
    for i := n - 1 downto 0
      invariant forall k | i <= k < n :: Eliminated(s, x[..], k)
    {
      ghost var before := x[..];
      x[i] := dPrime[i] - Mul(cPrime[i], x[i + 1]);
      StillEliminated(s, before, x[..], i);
    }
  }

  lemma InverseFactor(x: real, p: real)
    requires p != 0.0
    ensures Mul(x, Quotient(1.0, p)) == Quotient(x, p)
  {
    QuotientUnique(x, p, 1.0 / p);
  }
}
