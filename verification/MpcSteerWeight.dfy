/** The banded input penalties of `mpc.cpp`: difference blocks added along the diagonal,
    and the sums of squares they stand for. */
module MpcSteerWeight {
  import opened LinearAlgebra
  import opened RealArithmetic
  import opened MpcProblem

  /** D placed on the diagonal at row i, zero elsewhere. */
  ghost function Block(i: int, size: nat, D: Mat): Mat {
    (r, c) => if i <= r < i + size && i <= c < i + size then D(r - i, c - i) else 0.0
  }

  /** w * [1 -1; -1 1] */
  function FirstDifference(w: real): Mat {
    (r, c) => if r == c then w else -w
  }

  function SecondCoefficient(r: int): real {
    if r == 1 then -2.0 else 1.0
  }

  /** w * [1 -2 1; -2 4 -2; 1 -2 1] */
  function SecondDifference(w: real): Mat {
    (r, c) => w * (SecondCoefficient(r) * SecondCoefficient(c))
  }

  ghost predicate Same(n: nat, M: Mat, M': Mat) {
    forall i, j | 0 <= i < n && 0 <= j < n :: M(i, j) == M'(i, j)
  }

  lemma BlockForm(n: nat, i: nat, size: nat, D: Mat, u: Vec, v: Vec)
    requires i + size <= n
    ensures Bilinear(n, Block(i, size, D), u, v) == Bilinear(size, D, Shift(u, i), Shift(v, i))
  {
    var B := Block(i, size, D);
    forall r | 0 <= r < n
      ensures MatVec(n, B, v)(r) == if i <= r < i + size then MatVec(size, D, Shift(v, i))(r - i) else 0.0
    {
      if i <= r < i + size {
        WindowDot(n, Row(B, r), v, i, size, Row(D, r - i), Shift(v, i));
      } else {
        SumZero(n, Times(Row(B, r), v));
      }
    }
    DotComm(n, u, MatVec(n, B, v));
    WindowDot(n, MatVec(n, B, v), u, i, size, MatVec(size, D, Shift(v, i)), Shift(u, i));
    DotComm(size, Shift(u, i), MatVec(size, D, Shift(v, i)));
  }

  lemma Dot2(u: Vec, v: Vec)
    ensures Dot(2, u, v) == u(0) * v(0) + u(1) * v(1)
  {
    assert Sum(1, Times(u, v)) == Times(u, v)(0);
  }

  lemma Dot3(u: Vec, v: Vec)
    ensures Dot(3, u, v) == u(0) * v(0) + u(1) * v(1) + u(2) * v(2)
  {
    Dot2(u, v);
    assert Dot(3, u, v) == Dot(2, u, v) + Times(u, v)(2);
  }

  lemma FirstDifferenceForm(w: real, u: Vec)
    ensures Bilinear(2, FirstDifference(w), u, u) == w * Square(u(1) - u(0))
  {
    var D := FirstDifference(w);
    Dot2(u, MatVec(2, D, u));
    Dot2(Row(D, 0), u);
    Dot2(Row(D, 1), u);
    FirstDifferenceArithmetic(w, u(0), u(1));
  }

  lemma FirstDifferenceArithmetic(w: real, a: real, b: real)
    ensures a * (w * a + -w * b) + b * (-w * a + w * b) == w * Square(b - a)
  {
    assert Square(b - a) == b * b - 2.0 * (a * b) + a * a;
  }

  /** A rank-one form is the weighted square of its linear factor. */
  lemma SecondDifferenceForm(w: real, u: Vec)
    ensures Bilinear(3, SecondDifference(w), u, u) == w * Square(u(2) - 2.0 * u(1) + u(0))
  {
    var D := SecondDifference(w);
    var s := u(0) - 2.0 * u(1) + u(2);
    forall r | 0 <= r < 3
      ensures MatVec(3, D, u)(r) == w * (SecondCoefficient(r) * s)
    {
      Dot3(Row(D, r), u);
      assert w * (SecondCoefficient(r) * 1.0) * u(0) + w * (SecondCoefficient(r) * -2.0) * u(1)
             + w * (SecondCoefficient(r) * 1.0) * u(2) == w * (SecondCoefficient(r) * s);
    }
    Dot3(u, MatVec(3, D, u));
    SecondDifferenceArithmetic(w, u(0), u(1), u(2));
  }

  lemma SecondDifferenceArithmetic(w: real, a: real, b: real, c: real)
    ensures var s := a - 2.0 * b + c;
            a * (w * (1.0 * s)) + b * (w * (-2.0 * s)) + c * (w * (1.0 * s)) == w * Square(c - 2.0 * b + a)
  {
    var s := a - 2.0 * b + c;
    assert a * (w * s) + b * (w * (-2.0 * s)) + c * (w * s) == w * (s * (a - 2.0 * b + c));
  }

  /** Adding a first-difference block adds one weighted squared difference. */
  lemma AddFirstDifference(n: nat, M: Mat, i: nat, w: real, u: Vec)
    requires i + 2 <= n
    ensures Bilinear(n, MatAdd(M, Block(i, 2, FirstDifference(w))), u, u)
         == Bilinear(n, M, u, u) + w * Square(u(i + 1) - u(i))
  {
    var D := FirstDifference(w);
    BilinearMatAdd(n, M, Block(i, 2, D), u, u);
    BlockForm(n, i, 2, D, u, u);
    FirstDifferenceForm(w, Shift(u, i));
  }

  /** Adding a second-difference block adds one weighted squared second difference. */
  lemma AddSecondDifference(n: nat, M: Mat, i: nat, w: real, u: Vec)
    requires i + 3 <= n
    ensures Bilinear(n, MatAdd(M, Block(i, 3, SecondDifference(w))), u, u)
         == Bilinear(n, M, u, u) + w * Square(u(i + 2) - 2.0 * u(i + 1) + u(i))
  {
    var D, x := SecondDifference(w), Shift(u, i);
    BilinearMatAdd(n, M, Block(i, 3, D), u, u);
    BlockForm(n, i, 3, D, u, u);
    SecondDifferenceForm(w, x);
    assert x(0) == u(i) && x(1) == u(i + 1) && x(2) == u(i + 2);
  }

  // ----- the matrices the loops build -----

  /** The lateral-jerk blocks of the first k stages. */
  ghost function JerkBlocks(p: Problem, k: nat): Mat
    requires p.Valid() && (k == 0 || k < p.N())
  {
    if k == 0 then (r, c) => 0.0
    else MatAdd(JerkBlocks(p, k - 1), Block(k - 1, 2, FirstDifference(p.JerkWeight(k - 1))))
  }

  ghost function RateBlocks(p: Problem, M: Mat, k: nat): Mat
    requires p.Valid()
  {
    if k == 0 then M
    else MatAdd(RateBlocks(p, M, k - 1), Block(k - 1, 2, FirstDifference(RateFactor(p))))
  }

  ghost function AccelerationBlocks(p: Problem, M: Mat, k: nat): Mat
    requires p.Valid()
  {
    if k == 0 then M
    else MatAdd(AccelerationBlocks(p, M, k - 1), Block(k - 1, 3, SecondDifference(AccelerationFactor(p))))
  }

  // ----- the factors, as the code divides them -----

  function RateFactor(p: Problem): real
    requires p.Valid()
  {
    PowerPositive(p.dt, 2);
    Quotient(p.param.steerRate, Power(p.dt, 2))
  }

  function FirstRateFactor(p: Problem): real
    requires p.Valid()
  {
    PowerPositive(p.param.ctrlPeriod, 2);
    Quotient(p.param.steerRate, Power(p.param.ctrlPeriod, 2))
  }

  function AccelerationFactor(p: Problem): real
    requires p.Valid()
  {
    PowerPositive(p.dt, 4);
    Quotient(p.param.steerAcc, Power(p.dt, 4))
  }

  function AccelerationFactorCp1(p: Problem): real
    requires p.Valid()
  {
    DivideByPowers(p.param.steerAcc, p.dt, 3, p.param.ctrlPeriod, 1);
    Quotient(p.param.steerAcc, Mul(Power(p.dt, 3), Power(p.param.ctrlPeriod, 1)))
  }

  function AccelerationFactorCp2(p: Problem): real
    requires p.Valid()
  {
    DivideByPowers(p.param.steerAcc, p.dt, 2, p.param.ctrlPeriod, 2);
    Quotient(p.param.steerAcc, Mul(Power(p.dt, 2), Power(p.param.ctrlPeriod, 2)))
  }

  function AccelerationFactorCp4(p: Problem): real
    requires p.Valid()
  {
    PowerPositive(p.param.ctrlPeriod, 4);
    Quotient(p.param.steerAcc, Power(p.param.ctrlPeriod, 4))
  }

  ghost function FirstRate(p: Problem): Mat
    requires p.Valid()
  {
    (i, j) => FirstRateFactor(p)
  }

  /** The entries added at the top left corner for stages 0 and 1. */
  ghost function StartBlock(p: Problem): Mat
    requires p.Valid()
  {
    var r, cp1, cp2, cp4 :=
      AccelerationFactor(p), AccelerationFactorCp1(p), AccelerationFactorCp2(p), AccelerationFactorCp4(p);
    (i, j) => if i == 0 && j == 0 then r + cp2 + cp1 * 2.0 + cp4
              else if i == j then r
              else -r - cp1
  }

  /** R after `addSteerWeightR`. */
  ghost function SteerWeighted(p: Problem, M: Mat): Mat
    requires p.Valid()
  {
    if p.N() <= 1 then M
    else
      var rates := MatAdd(RateBlocks(p, M, p.N() - 1), Block(0, 1, FirstRate(p)));
      MatAdd(AccelerationBlocks(p, rates, p.N() - 2), Block(0, 2, StartBlock(p)))
  }

  // ----- each factor times its square is the cost of the stage -----

  lemma PowersOf(x: real)
    ensures Power(x, 1) == x && Power(x, 2) == x * x && Power(x, 3) == x * (x * x)
    ensures Power(x, 4) == x * (x * (x * x))
  {
    assert Power(x, 2) == x * Power(x, 1);
    assert Power(x, 3) == x * Power(x, 2);
    assert Power(x, 4) == x * Power(x, 3);
  }

  lemma RateTerm(p: Problem, u: Vec, i: nat)
    requires p.Valid() && i > 0
    ensures RateFactor(p) * Square(u(i) - u(i - 1)) == p.RateCost(u, i)
  {
    var d := u(i) - u(i - 1);
    DivideByPower(p.param.steerRate, p.dt, 2);
    PowersOf(Quotient(1.0, p.dt));
    QuotientIsProduct(d, p.dt);
    ScaledSquare(p.param.steerRate, Quotient(1.0, p.dt), d);
  }

  lemma FirstRateTerm(p: Problem, u: Vec)
    requires p.Valid()
    ensures FirstRateFactor(p) * Square(u(0)) == p.RateCost(u, 0)
  {
    var t := p.param.ctrlPeriod;
    DivideByPower(p.param.steerRate, t, 2);
    PowersOf(Quotient(1.0, t));
    QuotientIsProduct(u(0), t);
    ScaledSquare(p.param.steerRate, Quotient(1.0, t), u(0));
  }

  lemma ScaledSquare(w: real, a: real, d: real)
    ensures w * (a * a) * Square(d) == w * Square(Mul(d, a))
  {
    assert Square(Mul(d, a)) == (d * a) * (d * a) == (a * a) * Square(d);
  }

  lemma AccelerationTerm(p: Problem, u: Vec, i: nat)
    requires p.Valid() && i > 1
    ensures AccelerationFactor(p) * Square(u(i) - 2.0 * u(i - 1) + u(i - 2)) == p.AccelerationCost(u, i)
  {
    var d0, d1, a, w := u(i - 1) - u(i - 2), u(i) - u(i - 1), Quotient(1.0, p.dt), p.param.steerAcc;
    DivideByPower(w, p.dt, 4);
    PowersOf(a);
    QuotientIsProduct(d0, p.dt);
    QuotientIsProduct(d1, p.dt);
    QuotientIsProduct(p.SteerRate(u, i) - p.SteerRate(u, i - 1), p.dt);
    assert p.SteerAcceleration(u, i) == Mul(Mul(d1, a) - Mul(d0, a), a);
    SecondDifferenceSquare(w, a, d0, d1);
  }

  lemma SecondDifferenceSquare(w: real, a: real, d0: real, d1: real)
    ensures w * (a * (a * (a * a))) * Square(d1 - d0) == w * Square(Mul(Mul(d1, a) - Mul(d0, a), a))
  {
    var e := d1 - d0;
    assert Mul(Mul(d1, a) - Mul(d0, a), a) == Mul(e, a * a);
    assert Square(Mul(e, a * a)) == (a * (a * (a * a))) * Square(e);
  }

  /** The corner block is the acceleration cost of stages 0 and 1. */
  lemma StartForm(p: Problem, u: Vec)
    requires p.Valid()
    ensures Bilinear(2, StartBlock(p), u, u) == p.AccelerationCost(u, 0) + p.AccelerationCost(u, 1)
  {
    var r, cp1, cp2, cp4 :=
      AccelerationFactor(p), AccelerationFactorCp1(p), AccelerationFactorCp2(p), AccelerationFactorCp4(p);
    Dot2(u, MatVec(2, StartBlock(p), u));
    Dot2(Row(StartBlock(p), 0), u);
    Dot2(Row(StartBlock(p), 1), u);
    CornerArithmetic(u(0), u(1), r, cp1, cp2, cp4);
    FirstAccelerationTerm(p, u);
    SecondAccelerationTerm(p, u);
  }

  lemma CornerArithmetic(x: real, y: real, r: real, cp1: real, cp2: real, cp4: real)
    ensures x * ((r + cp2 + cp1 * 2.0 + cp4) * x + (-r - cp1) * y) + y * ((-r - cp1) * x + r * y)
         == cp4 * Square(x) + (Mul(r, Square(y - x)) - 2.0 * Mul(cp1, Mul(y - x, x)) + Mul(cp2, Square(x)))
  {
    var xx, xy, yy := x * x, x * y, y * y;
    assert Square(y - x) == yy - 2.0 * xy + xx;
    assert Mul(y - x, x) == xy - xx;
    assert x * ((r + cp2 + cp1 * 2.0 + cp4) * x + (-r - cp1) * y) + y * ((-r - cp1) * x + r * y)
        == (r + cp2 + cp1 * 2.0 + cp4) * xx - 2.0 * ((r + cp1) * xy) + r * yy;
  }

  lemma FirstAccelerationTerm(p: Problem, u: Vec)
    requires p.Valid()
    ensures AccelerationFactorCp4(p) * Square(u(0)) == p.AccelerationCost(u, 0)
  {
    var w, c := p.param.steerAcc, p.param.ctrlPeriod;
    var b := Quotient(1.0, c);
    DivideByPower(w, c, 4);
    PowersOf(b);
    QuotientIsProduct(u(0), c);
    QuotientIsProduct(p.SteerRate(u, 0), c);
    assert p.SteerAcceleration(u, 0) == Mul(u(0), b * b);
    ScaledSquare(w, b * b, u(0));
    assert (b * b) * (b * b) == b * (b * (b * b));
  }

  lemma SecondAccelerationTerm(p: Problem, u: Vec)
    requires p.Valid()
    ensures Mul(AccelerationFactor(p), Square(u(1) - u(0)))
            - 2.0 * Mul(AccelerationFactorCp1(p), Mul(u(1) - u(0), u(0)))
            + Mul(AccelerationFactorCp2(p), Square(u(0))) == p.AccelerationCost(u, 1)
  {
    var w, t, c := p.param.steerAcc, p.dt, p.param.ctrlPeriod;
    var a, b := Quotient(1.0, t), Quotient(1.0, c);
    DivideByPower(w, t, 4);
    DivideByPowers(w, t, 3, c, 1);
    DivideByPowers(w, t, 2, c, 2);
    QuotientIsProduct(u(0), c);
    QuotientIsProduct(u(1) - u(0), t);
    QuotientIsProduct(p.SteerRate(u, 1) - p.SteerRate(u, 0), t);
    var acceleration := p.SteerAcceleration(u, 1);
    assert acceleration == Mul(Mul(u(1) - u(0), a) - Mul(u(0), b), a);
    MixedSquare(w, a, b, u(1) - u(0), u(0));
    assert p.AccelerationCost(u, 1) == Mul(w, Square(acceleration));
  }

  lemma MixedSquare(w: real, a: real, b: real, s: real, x: real)
    ensures Mul(w, Square(Mul(Mul(s, a) - Mul(x, b), a)))
         == Mul(Mul(w, Power(a, 4)), Square(s)) - 2.0 * Mul(Mul(w, Mul(Power(a, 3), Power(b, 1))), Mul(s, x))
            + Mul(Mul(w, Mul(Power(a, 2), Power(b, 2))), Square(x))
  {
    var e := Mul(s, a) - Mul(x, b);
    SquareOfProduct(e, a);
    ExpandSquare(s, a, x, b);
    PowerProducts(a, b);
    Distribute(w, Square(e), Square(s), Mul(s, x), Square(x), Mul(a, a), Mul(a, b), Mul(b, b));
  }

  lemma SquareOfProduct(e: real, a: real)
    ensures Square(Mul(e, a)) == Mul(Mul(a, a), Square(e))
  {
    assert (e * a) * (e * a) == (a * a) * (e * e);
  }

  lemma ExpandSquare(s: real, a: real, x: real, b: real)
    ensures Square(Mul(s, a) - Mul(x, b))
         == Mul(Square(s), Mul(a, a)) - 2.0 * Mul(Mul(s, x), Mul(a, b)) + Mul(Square(x), Mul(b, b))
  {
    var sa, xb := Mul(s, a), Mul(x, b);
    SquareOfDifference(sa, xb);
    FourFactors(s, a, s, a);
    FourFactors(s, a, x, b);
    FourFactors(x, b, x, b);
  }

  lemma SquareOfDifference(p: real, q: real)
    ensures Square(p - q) == Mul(p, p) - 2.0 * Mul(p, q) + Mul(q, q)
  {
  }

  lemma FourFactors(s: real, a: real, x: real, b: real)
    ensures Mul(Mul(s, a), Mul(x, b)) == Mul(Mul(s, x), Mul(a, b))
  {
    assert (s * a) * (x * b) == (s * x) * (a * b);
  }

  lemma PowerProducts(a: real, b: real)
    ensures Power(a, 4) == Mul(Mul(a, a), Mul(a, a))
    ensures Mul(Power(a, 3), Power(b, 1)) == Mul(Mul(a, a), Mul(a, b))
    ensures Mul(Power(a, 2), Power(b, 2)) == Mul(Mul(a, a), Mul(b, b))
  {
    PowersOf(a);
    PowersOf(b);
    assert a * (a * (a * a)) == (a * a) * (a * a);
    assert (a * (a * a)) * b == (a * a) * (a * b);
  }

  lemma Distribute(w: real, e: real, ss: real, sx: real, xx: real, aa: real, ab: real, bb: real)
    requires e == Mul(ss, aa) - 2.0 * Mul(sx, ab) + Mul(xx, bb)
    ensures Mul(w, Mul(aa, e))
         == Mul(Mul(w, Mul(aa, aa)), ss) - 2.0 * Mul(Mul(w, Mul(aa, ab)), sx) + Mul(Mul(w, Mul(aa, bb)), xx)
  {
    var k := w * aa;
    assert Mul(w, Mul(aa, e)) == k * e;
    assert k * e == k * Mul(ss, aa) - 2.0 * (k * Mul(sx, ab)) + k * Mul(xx, bb);
    Regroup(w, aa, ss, aa);
    Regroup(w, aa, sx, ab);
    Regroup(w, aa, xx, bb);
  }

  lemma Regroup(w: real, aa: real, ss: real, bb: real)
    ensures (w * aa) * Mul(ss, bb) == Mul(Mul(w, Mul(aa, bb)), ss)
  {
    assert (w * aa) * (ss * bb) == (w * (aa * bb)) * ss;
  }

  // ----- the forms of the accumulated blocks -----

  ghost function RateTerms(p: Problem, u: Vec): Vec
    requires p.Valid()
  {
    i => if i < 0 then 0.0 else p.RateCost(u, i)
  }

  ghost function JerkTerms(p: Problem, u: Vec): Vec
    requires p.Valid()
  {
    i => if 0 <= i < p.N() then p.JerkCost(u, i) else 0.0
  }

  ghost function AccelerationTerms(p: Problem, u: Vec): Vec
    requires p.Valid()
  {
    i => if i < 0 then 0.0 else p.AccelerationCost(u, i)
  }

  lemma AddRate(p: Problem, M: Mat, k: nat, u: Vec)
    requires p.Valid() && 0 < k < p.N()
    ensures Bilinear(p.N(), MatAdd(M, Block(k - 1, 2, FirstDifference(RateFactor(p)))), u, u)
         == Bilinear(p.N(), M, u, u) + RateTerms(p, u)(k)
  {
    AddFirstDifference(p.N(), M, k - 1, RateFactor(p), u);
    RateTerm(p, u, k);
  }

  lemma AddAcceleration(p: Problem, M: Mat, k: nat, u: Vec)
    requires p.Valid() && 0 < k && k + 1 < p.N()
    ensures Bilinear(p.N(), MatAdd(M, Block(k - 1, 3, SecondDifference(AccelerationFactor(p)))), u, u)
         == Bilinear(p.N(), M, u, u) + AccelerationTerms(p, u)(k + 1)
  {
    AddSecondDifference(p.N(), M, k - 1, AccelerationFactor(p), u);
    AccelerationTerm(p, u, k + 1);
  }

  lemma {:induction false} RateBlocksForm(p: Problem, M: Mat, k: nat, u: Vec)
    requires p.Valid() && k < p.N()
    ensures Bilinear(p.N(), RateBlocks(p, M, k), u, u) + p.RateCost(u, 0)
         == Bilinear(p.N(), M, u, u) + Sum(k + 1, RateTerms(p, u))
  {
    if k > 0 {
      RateBlocksForm(p, M, k - 1, u);
      AddRate(p, RateBlocks(p, M, k - 1), k, u);
    } else {
      assert Sum(1, RateTerms(p, u)) == RateTerms(p, u)(0);
    }
  }

  lemma {:induction false} AccelerationBlocksForm(p: Problem, M: Mat, k: nat, u: Vec)
    requires p.Valid() && k + 1 < p.N()
    ensures Bilinear(p.N(), AccelerationBlocks(p, M, k), u, u) + p.AccelerationCost(u, 0) + p.AccelerationCost(u, 1)
         == Bilinear(p.N(), M, u, u) + Sum(k + 2, AccelerationTerms(p, u))
  {
    if k > 0 {
      AccelerationBlocksForm(p, M, k - 1, u);
      AddAcceleration(p, AccelerationBlocks(p, M, k - 1), k, u);
    } else {
      assert Sum(1, AccelerationTerms(p, u)) == AccelerationTerms(p, u)(0);
      assert Sum(2, AccelerationTerms(p, u)) == Sum(1, AccelerationTerms(p, u)) + AccelerationTerms(p, u)(1);
    }
  }

  /** `addSteerWeightR` adds exactly the weighted sum of squared steering rates and
      accelerations, with zero inputs before the first stage. */
  lemma SteerWeightForm(p: Problem, M: Mat, u: Vec)
    requires p.Valid()
    ensures Bilinear(p.N(), SteerWeighted(p, M), u, u) == Bilinear(p.N(), M, u, u) + p.SmoothnessCost(u)
  {
    if p.N() > 1 {
      var rates := MatAdd(RateBlocks(p, M, p.N() - 1), Block(0, 1, FirstRate(p)));
      RatesForm(p, M, u);
      AccelerationsForm(p, rates, u);
      SumAdd(p.N(), RateTerms(p, u), AccelerationTerms(p, u));
      SumExt(p.N(), i => if i < 0 then 0.0 else p.RateCost(u, i) + p.AccelerationCost(u, i),
             VecAdd(RateTerms(p, u), AccelerationTerms(p, u)));
    }
  }

  lemma RatesForm(p: Problem, M: Mat, u: Vec)
    requires p.Valid() && p.N() > 1
    ensures Bilinear(p.N(), MatAdd(RateBlocks(p, M, p.N() - 1), Block(0, 1, FirstRate(p))), u, u)
         == Bilinear(p.N(), M, u, u) + Sum(p.N(), RateTerms(p, u))
  {
    var first := Block(0, 1, FirstRate(p));
    FirstRateForm(p, u);
    RateBlocksForm(p, M, p.N() - 1, u);
    BilinearMatAdd(p.N(), RateBlocks(p, M, p.N() - 1), first, u, u);
  }

  lemma AccelerationsForm(p: Problem, M: Mat, u: Vec)
    requires p.Valid() && p.N() > 1
    ensures Bilinear(p.N(), MatAdd(AccelerationBlocks(p, M, p.N() - 2), Block(0, 2, StartBlock(p))), u, u)
         == Bilinear(p.N(), M, u, u) + Sum(p.N(), AccelerationTerms(p, u))
  {
    AccelerationBlocksForm(p, M, p.N() - 2, u);
    BilinearMatAdd(p.N(), AccelerationBlocks(p, M, p.N() - 2), Block(0, 2, StartBlock(p)), u, u);
    BlockForm(p.N(), 0, 2, StartBlock(p), u, u);
    BilinearVecExt(2, StartBlock(p), Shift(u, 0), Shift(u, 0), u, u);
    StartForm(p, u);
  }

  lemma FirstRateForm(p: Problem, u: Vec)
    requires p.Valid() && p.N() > 1
    ensures Bilinear(p.N(), Block(0, 1, FirstRate(p)), u, u) == p.RateCost(u, 0)
  {
    var D := FirstRate(p);
    BlockForm(p.N(), 0, 1, D, u, u);
    var s := Shift(u, 0);
    assert Bilinear(1, D, s, s) == Times(s, MatVec(1, D, s))(0);
    assert MatVec(1, D, s)(0) == Times(Row(D, 0), s)(0);
    FirstRateTerm(p, u);
    assert u(0) * (FirstRateFactor(p) * u(0)) == FirstRateFactor(p) * Square(u(0));
  }

  /** The jerk blocks are the lateral-jerk cost. */
  lemma {:induction false} JerkBlocksForm(p: Problem, k: nat, u: Vec)
    requires p.Valid() && (k == 0 || k < p.N())
    ensures Bilinear(p.N(), JerkBlocks(p, k), u, u) == Sum(k, JerkTerms(p, u))
  {
    if k == 0 {
      ZeroForm(p.N(), JerkBlocks(p, 0), u);
    } else {
      JerkBlocksForm(p, k - 1, u);
      JerkBlocksNext(p, k - 1, u);
    }
  }

  lemma JerkBlocksNext(p: Problem, k: nat, u: Vec)
    requires p.Valid() && k + 1 < p.N()
    ensures Bilinear(p.N(), JerkBlocks(p, k + 1), u, u)
         == Bilinear(p.N(), JerkBlocks(p, k), u, u) + JerkTerms(p, u)(k)
  {
    var before, w := JerkBlocks(p, k), p.JerkWeight(k);
    AddFirstDifference(p.N(), before, k, w, u);
    assert JerkBlocks(p, k + 1) == MatAdd(before, Block(k, 2, FirstDifference(w)));
  }

  lemma ZeroForm(n: nat, Z: Mat, u: Vec)
    requires forall i, j | 0 <= i < n && 0 <= j < n :: Z(i, j) == 0.0
    ensures Bilinear(n, Z, u, u) == 0.0
  {
    forall i | 0 <= i < n
      ensures Times(u, MatVec(n, Z, u))(i) == 0.0
    {
      SumZero(n, Times(Row(Z, i), u));
    }
    SumZero(n, Times(u, MatVec(n, Z, u)));
  }
}
