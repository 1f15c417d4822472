/** The quadratic program built from the stacked matrices, and what it minimises. */
module MpcCost {
  import opened LinearAlgebra
  import opened RealArithmetic
  import opened MpcProblem
  import opened MpcCondense

  /** The contents of the stacked matrices, row and column by flat index. */
  datatype Matrices = Matrices(
    aex: Mat, bex: Mat, wex: Vec, cex: Mat, qex: Mat, r1ex: Mat, r2ex: Mat, uref: Vec)

  ghost function OutputWeight(p: Problem, q: nat): real
    requires q < 2 * p.N()
  {
    if q % 2 == 0 then p.LateralWeight(q / 2) else p.HeadingWeight(q / 2)
  }

  /** Row r of block i of Aex, Bex and Wex. */
  ghost predicate ARow(p: Problem, aex: Mat, i: nat, r: nat)
    requires i < p.N()
  {
    forall c | 0 <= c < p.model.dimX :: aex(i * p.model.dimX + r, c) == AColumn(p, i, c)(r)
  }

  ghost predicate BRow(p: Problem, bex: Mat, i: nat, r: nat)
    requires i < p.N()
  {
    forall j | 0 <= j < p.N() :: bex(i * p.model.dimX + r, j) == BColumn(p, i, j)(r)
  }

  ghost predicate WRow(p: Problem, wex: Vec, i: nat, r: nat)
    requires i < p.N()
  {
    wex(i * p.model.dimX + r) == WColumn(p, i)(r)
  }

  ghost predicate DynamicsRow(p: Problem, m: Matrices, i: nat, r: nat)
    requires i < p.N()
  {
    ARow(p, m.aex, i, r) && BRow(p, m.bex, i, r) && WRow(p, m.wex, i, r)
  }

  /** Row 2i + b of Cex: output b of stage i in the column block of stage i. */
  ghost predicate COutput(p: Problem, cex: Mat, i: nat, b: nat)
    requires i < p.N() && b < 2
  {
    var n, q := p.model.dimX, 2 * i + b;
    && (forall r | 0 <= r < n :: cex(q, i * n + r) == p.Step(i).c(b, r))
    && (forall s | 0 <= s < p.N() * n && !(i * n <= s < i * n + n) :: cex(q, s) == 0.0)
  }

  /** Row q of Qex: only the diagonal is nonzero. */
  ghost predicate QRow(p: Problem, qex: Mat, q: nat)
    requires q < 2 * p.N()
  {
    forall s | 0 <= s < 2 * p.N() :: qex(q, s) == if s == q then OutputWeight(p, q) else 0.0
  }

  /** The input matrices weigh the deviation and the jerk as the cost says. */
  ghost predicate InputForms(p: Problem, m: Matrices)
    requires p.Valid()
  {
    && Symmetric(p.N(), m.r1ex) && Symmetric(p.N(), m.r2ex)
    && (forall u: Vec :: Bilinear(p.N(), m.r1ex, u, u) == p.InputCost(u) + p.SmoothnessCost(u))
    && (forall u: Vec :: Bilinear(p.N(), m.r2ex, u, u) == p.TotalJerkCost(u))
    && SameUpTo(p.N(), m.uref, p.ReferenceInputs())
  }

  /** `m` holds the stacked matrices of `p`. */
  ghost predicate Represents(p: Problem, m: Matrices)
    requires p.Valid()
  {
    && (forall i, r | 0 <= i < p.N() && 0 <= r < p.model.dimX :: DynamicsRow(p, m, i, r))
    && (forall i, b | 0 <= i < p.N() && 0 <= b < 2 :: COutput(p, m.cex, i, b))
    && (forall q | 0 <= q < 2 * p.N() :: QRow(p, m.qex, q))
    && InputForms(p, m)
  }

  // ----- the quadratic program (mpc.cpp, executeOptimization) -----

  ghost function CB(p: Problem, m: Matrices): Mat {
    MatMul(p.N() * p.model.dimX, m.cex, m.bex)
  }

  ghost function QCB(p: Problem, m: Matrices): Mat {
    MatMul(2 * p.N(), m.qex, CB(p, m))
  }

  /** The upper triangle is computed, the lower one is its mirror image. */
  ghost function H(p: Problem, m: Matrices): Mat {
    var full := MatAdd(MatMul(2 * p.N(), Transpose(CB(p, m)), QCB(p, m)), MatAdd(m.r1ex, m.r2ex));
    (i, j) => if i <= j then full(i, j) else full(j, i)
  }

  /** Cex * (Aex * x0 + Wex): the outputs without any input. */
  ghost function FreeOutput(p: Problem, m: Matrices, x0: Vec): Vec {
    MatVec(p.N() * p.model.dimX, m.cex, VecAdd(MatVec(p.model.dimX, m.aex, x0), m.wex))
  }

  /** The single row f; `addSteerWeightF` returns at once for one row. */
  ghost function F(p: Problem, m: Matrices, x0: Vec): Vec {
    VecSub(MatVec(2 * p.N(), Transpose(QCB(p, m)), FreeOutput(p, m, x0)),
           MatVec(p.N(), Transpose(m.r1ex), m.uref))
  }

  /** Twice what the solver minimises: u'Hu + 2fu. */
  ghost function Objective(p: Problem, m: Matrices, x0: Vec, u: Vec): real {
    Bilinear(p.N(), H(p, m), u, u) + 2.0 * Dot(p.N(), F(p, m, x0), u)
  }

  // ----- the outputs -----

  lemma BlockFits(n: nat, i: nat, count: nat)
    requires i < count
    ensures i * n + n <= count * n
  {
    assert (i + 1) * n <= count * n;
  }

  /** Aex * x0 + Bex * u + Wex */
  ghost function Prediction(p: Problem, m: Matrices, x0: Vec, u: Vec): Vec {
    VecAdd(VecAdd(MatVec(p.model.dimX, m.aex, x0), m.wex), MatVec(p.N(), m.bex, u))
  }

  /** Row r of block i of the prediction is the simulated state. */
  lemma StackedState(p: Problem, m: Matrices, x0: Vec, u: Vec, i: nat, r: nat)
    requires i < p.N() && r < p.model.dimX && DynamicsRow(p, m, i, r)
    ensures Prediction(p, m, x0, u)(i * p.model.dimX + r) == p.State(x0, u, i + 1)(r)
  {
    var n, s := p.model.dimX, i * p.model.dimX + r;
    DotExt(n, Row(m.aex, s), x0, Row(ABlock(p, i), r), x0);
    DotExt(p.N(), Row(m.bex, s), u, Row(BBlock(p, i), r), u);
    PredictionIsSimulation(p, x0, u, i, r);
  }

  /** The outputs: those without any input and those of the input. */
  ghost function StackedOutputs(p: Problem, m: Matrices, x0: Vec, u: Vec): Vec {
    VecAdd(FreeOutput(p, m, x0), MatVec(p.N(), CB(p, m), u))
  }

  /** Cex times the stacked prediction gives the tracking errors of every stage. */
  lemma StackedOutput(p: Problem, m: Matrices, x0: Vec, u: Vec, i: nat, b: nat, q: nat)
    requires p.Valid() && i < p.N() && b < 2 && q == 2 * i + b && COutput(p, m.cex, i, b)
    requires forall r | 0 <= r < p.model.dimX :: DynamicsRow(p, m, i, r)
    ensures StackedOutputs(p, m, x0, u)(q) == p.Output(x0, u, i)(b)
  {
    OutputOfStack(p, m, x0, u, q);
    StackedBlock(p, m, x0, u, i);
    OutputOfState(p, m, i, b, Prediction(p, m, x0, u), p.State(x0, u, i + 1));
  }

  lemma OutputOfStack(p: Problem, m: Matrices, x0: Vec, u: Vec, q: nat)
    ensures StackedOutputs(p, m, x0, u)(q)
         == Dot(p.N() * p.model.dimX, Row(m.cex, q), Prediction(p, m, x0, u))
  {
    var nn := p.N() * p.model.dimX;
    MatMulVec(nn, p.N(), m.cex, m.bex, u, q);
    DotAddRight(nn, Row(m.cex, q), VecAdd(MatVec(p.model.dimX, m.aex, x0), m.wex), MatVec(p.N(), m.bex, u));
  }

  lemma StackedBlock(p: Problem, m: Matrices, x0: Vec, u: Vec, i: nat)
    requires i < p.N() && forall r | 0 <= r < p.model.dimX :: DynamicsRow(p, m, i, r)
    ensures SameUpTo(p.model.dimX, Shift(Prediction(p, m, x0, u), i * p.model.dimX), p.State(x0, u, i + 1))
  {
    var x, state := Shift(Prediction(p, m, x0, u), i * p.model.dimX), p.State(x0, u, i + 1);
    forall r | 0 <= r < p.model.dimX
      ensures x(r) == state(r)
    {
      StackedState(p, m, x0, u, i, r);
    }
  }

  lemma OutputOfState(p: Problem, m: Matrices, i: nat, b: nat, x: Vec, state: Vec)
    requires p.Valid() && i < p.N() && b < 2 && COutput(p, m.cex, i, b)
    requires SameUpTo(p.model.dimX, Shift(x, i * p.model.dimX), state)
    ensures Dot(p.N() * p.model.dimX, Row(m.cex, 2 * i + b), x) == MatVec(p.model.dimX, p.Step(i).c, state)(b)
  {
    var n := p.model.dimX;
    BlockFits(n, i, p.N());
    WindowDot(p.N() * n, Row(m.cex, 2 * i + b), x, i * n, n, Row(p.Step(i).c, b), state);
  }

  /** Entry q of w is the weighted square of entry q of y. */
  ghost predicate WeightedEntry(p: Problem, y: Vec, w: Vec, q: nat)
    requires q < 2 * p.N()
  {
    w(q) == OutputWeight(p, q) * Square(y(q))
  }

  lemma WeightedOutput(p: Problem, m: Matrices, y: Vec, q: nat)
    requires q < 2 * p.N() && QRow(p, m.qex, q)
    ensures WeightedEntry(p, y, Times(y, MatVec(2 * p.N(), m.qex, y)), q)
  {
    var terms := Times(Row(m.qex, q), y);
    SumSingle(2 * p.N(), terms, q);
    MulSwap(y(q), OutputWeight(p, q), y(q));
  }

  /** Entries 2i and 2i + 1 of y are the two errors of stage i. */
  ghost predicate StageErrors(p: Problem, x0: Vec, u: Vec, y: Vec, i: nat)
    requires i < p.N()
  {
    y(2 * i) == p.Output(x0, u, i)(0) && y(2 * i + 1) == p.Output(x0, u, i)(1)
  }

  lemma WeightsOfStage(p: Problem, i: nat)
    requires i < p.N()
    ensures OutputWeight(p, 2 * i) == p.LateralWeight(i)
    ensures OutputWeight(p, 2 * i + 1) == p.HeadingWeight(i)
  {
  }

  /** The cost of a stage from its weights and its errors, as plain values. */
  lemma StageCost(p: Problem, x0: Vec, u: Vec, i: nat, lateral: real, heading: real)
    requires i < p.N()
    requires p.Output(x0, u, i)(0) == lateral && p.Output(x0, u, i)(1) == heading
    ensures p.TrackingCost(x0, u, i)
         == OutputWeight(p, 2 * i) * Square(lateral) + OutputWeight(p, 2 * i + 1) * Square(heading)
  {
    WeightsOfStage(p, i);
  }

  lemma StageForm(p: Problem, x0: Vec, u: Vec, y: Vec, w: Vec, i: nat)
    requires i < p.N() && StageErrors(p, x0, u, y, i)
    requires WeightedEntry(p, y, w, 2 * i) && WeightedEntry(p, y, w, 2 * i + 1)
    ensures p.TrackingCost(x0, u, i) == w(2 * i) + w(2 * i + 1)
  {
    StageCost(p, x0, u, i, y(2 * i), y(2 * i + 1));
  }

  /** The block-diagonal Qex adds up the tracking costs of the stages. */
  lemma OutputCost(p: Problem, m: Matrices, x0: Vec, u: Vec, y: Vec)
    requires forall q | 0 <= q < 2 * p.N() :: QRow(p, m.qex, q)
    requires forall i | 0 <= i < p.N() :: StageErrors(p, x0, u, y, i)
    ensures Bilinear(2 * p.N(), m.qex, y, y) == p.TotalTrackingCost(x0, u)
  {
    var w := Times(y, MatVec(2 * p.N(), m.qex, y));
    var stages := (i: int) => if 0 <= i < p.N() then p.TrackingCost(x0, u, i) else 0.0;
    forall i | 0 <= i < p.N()
      ensures stages(i) == w(2 * i) + w(2 * i + 1)
    {
      WeightedOutput(p, m, y, 2 * i);
      WeightedOutput(p, m, y, 2 * i + 1);
      StageForm(p, x0, u, y, w, i);
    }
    SumPairs(p.N(), w, stages);
    SumExt(p.N(), stages, i => if 0 <= i < p.N() then p.TrackingCost(x0, u, i) else 0.0);
  }

  lemma StackedErrors(p: Problem, m: Matrices, x0: Vec, u: Vec, i: nat)
    requires p.Valid() && i < p.N() && COutput(p, m.cex, i, 0) && COutput(p, m.cex, i, 1)
    requires forall r | 0 <= r < p.model.dimX :: DynamicsRow(p, m, i, r)
    ensures StageErrors(p, x0, u, StackedOutputs(p, m, x0, u), i)
  {
    StackedOutput(p, m, x0, u, i, 0, 2 * i);
    StackedOutput(p, m, x0, u, i, 1, 2 * i + 1);
  }

  // ----- the quadratic program is the cost -----

  lemma DiagonalIsSymmetric(p: Problem, m: Matrices)
    requires p.Valid() && Represents(p, m)
    ensures Symmetric(2 * p.N(), m.qex)
  {
    forall i, j | 0 <= i < 2 * p.N() && 0 <= j < 2 * p.N()
      ensures m.qex(i, j) == m.qex(j, i)
    {
      assert QRow(p, m.qex, i) && QRow(p, m.qex, j);
    }
  }

  /** Mirroring the upper triangle changes nothing: the full matrix is symmetric. */
  lemma HIsFull(p: Problem, m: Matrices, i: int, j: int)
    requires p.Valid() && Represents(p, m)
    requires 0 <= i < p.N() && 0 <= j < p.N()
    ensures H(p, m)(i, j)
         == MatAdd(MatMul(2 * p.N(), Transpose(CB(p, m)), QCB(p, m)), MatAdd(m.r1ex, m.r2ex))(i, j)
    ensures H(p, m)(i, j) == H(p, m)(j, i)
  {
    var k, cb := 2 * p.N(), CB(p, m);
    DiagonalIsSymmetric(p, m);
    var ci, cj := Row(Transpose(cb), i), Row(Transpose(cb), j);
    BilinearSymmetric(k, m.qex, ci, cj);
    QcbColumn(p, m, i, j);
    QcbColumn(p, m, j, i);
  }

  lemma QcbColumn(p: Problem, m: Matrices, i: int, j: int)
    ensures MatMul(2 * p.N(), Transpose(CB(p, m)), QCB(p, m))(i, j)
         == Bilinear(2 * p.N(), m.qex, Row(Transpose(CB(p, m)), i), Row(Transpose(CB(p, m)), j))
  {
    var k, cb := 2 * p.N(), CB(p, m);
    DotExt(k, Row(Transpose(cb), i), Row(Transpose(QCB(p, m)), j),
           Row(Transpose(cb), i), MatVec(k, m.qex, Row(Transpose(cb), j)));
  }

  /** u'Hu splits into the output, deviation and jerk forms. */
  lemma HForm(p: Problem, m: Matrices, u: Vec)
    requires p.Valid() && Represents(p, m)
    ensures Bilinear(p.N(), H(p, m), u, u)
         == Bilinear(2 * p.N(), m.qex, MatVec(p.N(), CB(p, m), u), MatVec(p.N(), CB(p, m), u))
            + Bilinear(p.N(), m.r1ex, u, u) + Bilinear(p.N(), m.r2ex, u, u)
  {
    var n := p.N();
    var outputs := MatMul(2 * n, Transpose(CB(p, m)), QCB(p, m));
    forall i, j | 0 <= i < n && 0 <= j < n
      ensures H(p, m)(i, j) == MatAdd(outputs, MatAdd(m.r1ex, m.r2ex))(i, j)
    {
      HIsFull(p, m, i, j);
    }
    BilinearExt(n, H(p, m), MatAdd(outputs, MatAdd(m.r1ex, m.r2ex)), u, u);
    BilinearMatAdd(n, outputs, MatAdd(m.r1ex, m.r2ex), u, u);
    BilinearMatAdd(n, m.r1ex, m.r2ex, u, u);
    Congruence(2 * n, n, m.qex, CB(p, m), u, u);
  }

  lemma FForm(p: Problem, m: Matrices, x0: Vec, u: Vec)
    requires p.Valid() && Represents(p, m)
    ensures Dot(p.N(), F(p, m, x0), u)
         == Bilinear(2 * p.N(), m.qex, FreeOutput(p, m, x0), MatVec(p.N(), CB(p, m), u))
            - Bilinear(p.N(), m.r1ex, m.uref, u)
  {
    var n, k, a := p.N(), 2 * p.N(), FreeOutput(p, m, x0);
    var left, right := MatVec(k, Transpose(QCB(p, m)), a), MatVec(n, Transpose(m.r1ex), m.uref);
    DotComm(n, F(p, m, x0), u);
    DotSubRight(n, u, left, right);
    DotComm(n, u, left);
    DotComm(n, u, right);
    DotMatVecSwap(k, n, a, QCB(p, m), u);
    DotMatVecSwap(n, n, m.uref, m.r1ex, u);
    forall q | 0 <= q < k
      ensures MatVec(n, QCB(p, m), u)(q) == MatVec(k, m.qex, MatVec(n, CB(p, m), u))(q)
    {
      MatMulVec(k, n, m.qex, CB(p, m), u, q);
    }
    DotExt(k, a, MatVec(n, QCB(p, m), u), a, MatVec(k, m.qex, MatVec(n, CB(p, m), u)));
  }

  /** The part of the cost no input can change. */
  ghost function FixedCost(p: Problem, m: Matrices, x0: Vec): real {
    var a := FreeOutput(p, m, x0);
    Bilinear(2 * p.N(), m.qex, a, a) + Bilinear(p.N(), m.r1ex, m.uref, m.uref)
  }

  /** For every horizon, start state and input sequence the condensed quadratic is the
      stage-by-stage tracking cost, up to a term free of the inputs. */
  lemma CondensedCostIsTrackingCost(p: Problem, m: Matrices, x0: Vec, u: Vec)
    requires p.Valid() && Represents(p, m)
    ensures p.Cost(x0, u) == Objective(p, m, x0, u) + FixedCost(p, m, x0)
  {
    var n, k := p.N(), 2 * p.N();
    var a, b := FreeOutput(p, m, x0), MatVec(p.N(), CB(p, m), u);
    forall i | 0 <= i < n
      ensures StageErrors(p, x0, u, VecAdd(a, b), i)
    {
      StackedErrors(p, m, x0, u, i);
    }
    OutputCost(p, m, x0, u, VecAdd(a, b));
    DiagonalIsSymmetric(p, m);
    QuadraticOfSum(k, m.qex, a, b);
    QuadraticOfDifference(n, m.r1ex, u, m.uref);
    DeviationCost(p, m, u);
    HForm(p, m, u);
    FForm(p, m, x0, u);
  }

  lemma DeviationCost(p: Problem, m: Matrices, u: Vec)
    requires p.Valid() && Represents(p, m)
    ensures var d := VecSub(u, p.ReferenceInputs());
            Bilinear(p.N(), m.r1ex, VecSub(u, m.uref), VecSub(u, m.uref)) == p.InputCost(d) + p.SmoothnessCost(d)
  {
    var d := VecSub(u, p.ReferenceInputs());
    BilinearVecExt(p.N(), m.r1ex, VecSub(u, m.uref), VecSub(u, m.uref), d, d);
  }

  // ----- convexity and the minimiser -----

  lemma StageWeightsNonNegative(p: Problem, i: nat)
    requires p.Valid() && p.WeightsAdmissible() && i < p.N()
    ensures p.LateralWeight(i) >= 0.0 && p.HeadingWeight(i) >= 0.0
    ensures p.JerkWeight(i) >= 0.0 && p.InputWeight(i) > 0.0
  {
    var v2 := Square(p.reference[i].vx);
    SquareNonNegative(p.reference[i].vx);
    ProductNonNegative(v2, p.StageWeight(i).headingErrorSquaredVel);
    ProductNonNegative(v2, p.StageWeight(i).steeringInputSquaredVel);
    ProductNonNegative(v2, p.StageWeight(i).latJerk);
    SquareNonNegative(p.dt);
    QuotientNonNegative(v2 * p.StageWeight(i).latJerk, Square(p.dt));
  }

  /** The smoothness and jerk forms never decrease the cost. */
  lemma FormsNonNegative(p: Problem, u: Vec)
    requires p.Valid() && p.WeightsAdmissible()
    ensures p.SmoothnessCost(u) >= 0.0 && p.TotalJerkCost(u) >= 0.0
  {
    var smooth := (i: int) => if i < 0 then 0.0 else p.RateCost(u, i) + p.AccelerationCost(u, i);
    forall i | 0 <= i < p.N()
      ensures smooth(i) >= 0.0
    {
      StageSmoothnessNonNegative(p, u, i);
    }
    SumNonNegative(p.N(), smooth);
    SumExt(p.N(), smooth, i => if i < 0 then 0.0 else p.RateCost(u, i) + p.AccelerationCost(u, i));
    JerkNonNegative(p, u);
  }

  lemma JerkNonNegative(p: Problem, u: Vec)
    requires p.Valid() && p.WeightsAdmissible()
    ensures p.TotalJerkCost(u) >= 0.0
  {
    var last := if p.N() == 0 then 0 else p.N() - 1;
    var jerk := (i: int) => if 0 <= i < p.N() then p.JerkCost(u, i) else 0.0;
    forall i | 0 <= i < last
      ensures jerk(i) >= 0.0
    {
      StageWeightsNonNegative(p, i);
      SquareNonNegative(u(i + 1) - u(i));
      ProductNonNegative(p.JerkWeight(i), Square(u(i + 1) - u(i)));
    }
    SumNonNegative(last, jerk);
    SumExt(last, jerk, i => if 0 <= i < p.N() then p.JerkCost(u, i) else 0.0);
  }

  lemma StageSmoothnessNonNegative(p: Problem, u: Vec, i: nat)
    requires p.Valid() && p.WeightsAdmissible()
    ensures p.RateCost(u, i) >= 0.0 && p.AccelerationCost(u, i) >= 0.0
  {
    SquareNonNegative(p.SteerRate(u, i));
    SquareNonNegative(p.SteerAcceleration(u, i));
    ProductNonNegative(p.param.steerRate, Square(p.SteerRate(u, i)));
    ProductNonNegative(p.param.steerAcc, Square(p.SteerAcceleration(u, i)));
  }

  lemma OutputFormNonNegative(p: Problem, m: Matrices, y: Vec)
    requires p.Valid() && Represents(p, m) && p.WeightsAdmissible()
    ensures Bilinear(2 * p.N(), m.qex, y, y) >= 0.0
  {
    var w := Times(y, MatVec(2 * p.N(), m.qex, y));
    forall q | 0 <= q < 2 * p.N()
      ensures w(q) >= 0.0
    {
      assert QRow(p, m.qex, q);
      WeightedOutput(p, m, y, q);
      StageWeightsNonNegative(p, q / 2);
      SquareNonNegative(y(q));
      ProductNonNegative(OutputWeight(p, q), Square(y(q)));
    }
    SumNonNegative(2 * p.N(), w);
  }

  /** With admissible weights H is symmetric and positive definite. */
  lemma HPositiveDefinite(p: Problem, m: Matrices, u: Vec)
    requires p.Valid() && Represents(p, m) && p.WeightsAdmissible()
    ensures Symmetric(p.N(), H(p, m))
    ensures Bilinear(p.N(), H(p, m), u, u) >= 0.0
    ensures (exists k :: 0 <= k < p.N() && u(k) != 0.0) ==> Bilinear(p.N(), H(p, m), u, u) > 0.0
  {
    forall i, j | 0 <= i < p.N() && 0 <= j < p.N()
      ensures H(p, m)(i, j) == H(p, m)(j, i)
    {
      HIsFull(p, m, i, j);
    }
    HForm(p, m, u);
    FormsNonNegative(p, u);
    OutputFormNonNegative(p, m, MatVec(p.N(), CB(p, m), u));
    InputCostPositive(p, u);
  }

  lemma InputCostPositive(p: Problem, u: Vec)
    requires p.Valid() && p.WeightsAdmissible()
    ensures p.InputCost(u) >= 0.0
    ensures (exists k :: 0 <= k < p.N() && u(k) != 0.0) ==> p.InputCost(u) > 0.0
  {
    var f := (i: int) => if 0 <= i < p.N() then p.InputWeight(i) * Square(u(i)) else 0.0;
    SumExt(p.N(), f, i => if 0 <= i < p.N() then p.InputWeight(i) * Square(u(i)) else 0.0);
    forall i | 0 <= i < p.N()
      ensures f(i) >= 0.0 && (u(i) != 0.0 ==> f(i) > 0.0)
    {
      StageWeightsNonNegative(p, i);
      SquareNonNegative(u(i));
    }
    SumNonNegative(p.N(), f);
    if k :| 0 <= k < p.N() && u(k) != 0.0 {
      SumAtLeast(p.N(), f, k);
    }
  }

  /** What a successful solve returns: u = -H^-1 f. */
  ghost predicate Solves(p: Problem, m: Matrices, x0: Vec, u: Vec) {
    forall i | 0 <= i < p.N() :: MatVec(p.N(), H(p, m), u)(i) == -F(p, m, x0)(i)
  }

  lemma ObjectiveGap(p: Problem, m: Matrices, x0: Vec, u: Vec, v: Vec)
    requires p.Valid() && Represents(p, m) && p.WeightsAdmissible()
    requires Solves(p, m, x0, u)
    ensures Objective(p, m, x0, v) - Objective(p, m, x0, u)
         == Bilinear(p.N(), H(p, m), VecSub(v, u), VecSub(v, u))
  {
    var n, h, f := p.N(), H(p, m), F(p, m, x0);
    HPositiveDefinite(p, m, u);
    QuadraticOfDifference(n, h, v, u);
    BilinearSymmetric(n, h, u, v);
    SolvedForm(p, m, x0, u, v);
    SolvedForm(p, m, x0, u, u);
  }

  lemma SolvedForm(p: Problem, m: Matrices, x0: Vec, u: Vec, v: Vec)
    requires Solves(p, m, x0, u)
    ensures Bilinear(p.N(), H(p, m), v, u) == -Dot(p.N(), F(p, m, x0), v)
  {
    var n, f := p.N(), F(p, m, x0);
    DotExt(n, v, MatVec(n, H(p, m), u), v, Scaled(-1.0, f));
    DotScaleRight(n, -1.0, v, f);
    DotComm(n, v, f);
  }

  /** A u with H u = -f is the unique minimiser of the tracking cost. */
  lemma SolutionIsUniqueMinimiser(p: Problem, m: Matrices, x0: Vec, u: Vec, v: Vec)
    requires p.Valid() && Represents(p, m) && p.WeightsAdmissible()
    requires Solves(p, m, x0, u)
    ensures p.Cost(x0, u) <= p.Cost(x0, v)
    ensures p.Cost(x0, v) == p.Cost(x0, u) <==> SameUpTo(p.N(), u, v)
  {
    CostGap(p, m, x0, u, v);
    GapDecides(p, m, u, v);
  }

  lemma CostGap(p: Problem, m: Matrices, x0: Vec, u: Vec, v: Vec)
    requires p.Valid() && Represents(p, m) && p.WeightsAdmissible()
    requires Solves(p, m, x0, u)
    ensures p.Cost(x0, v) == p.Cost(x0, u) + Bilinear(p.N(), H(p, m), VecSub(v, u), VecSub(v, u))
  {
    CondensedCostIsTrackingCost(p, m, x0, u);
    CondensedCostIsTrackingCost(p, m, x0, v);
    ObjectiveGap(p, m, x0, u, v);
  }

  lemma GapDecides(p: Problem, m: Matrices, u: Vec, v: Vec)
    requires p.Valid() && Represents(p, m) && p.WeightsAdmissible()
    ensures Bilinear(p.N(), H(p, m), VecSub(v, u), VecSub(v, u)) >= 0.0
    ensures Bilinear(p.N(), H(p, m), VecSub(v, u), VecSub(v, u)) == 0.0 <==> SameUpTo(p.N(), u, v)
  {
    var d := VecSub(v, u);
    HPositiveDefinite(p, m, d);
    if SameUpTo(p.N(), u, v) {
      NullForm(p.N(), H(p, m), d);
    } else {
      var k :| 0 <= k < p.N() && u(k) != v(k);
      assert d(k) != 0.0;
    }
  }

  lemma NullForm(n: nat, M: Mat, d: Vec)
    requires forall i | 0 <= i < n :: d(i) == 0.0
    ensures Bilinear(n, M, d, d) == 0.0
  {
    SumZero(n, Times(d, MatVec(n, M, d)));
  }
}
