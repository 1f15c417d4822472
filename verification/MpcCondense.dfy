/** The condensed form of the tracking problem: what the blocks of Aex, Bex and Wex
    mean, and why Aex * x0 + Bex * U + Wex is the simulated trajectory. */
module MpcCondense {
  import opened LinearAlgebra
  import opened MpcProblem

  /** Column c of row block i of Aex: the response of the state to x0(c). */
  ghost function AColumn(p: Problem, i: nat, c: int): Vec
    requires i < p.N()
  {
    if i == 0 then Row(Transpose(p.Step(0).a), c)
    else MatVec(p.model.dimX, p.Step(i).a, AColumn(p, i - 1, c))
  }

  /** Row block i of column j of Bex: the response of the state to input j. */
  ghost function BColumn(p: Problem, i: nat, j: int): Vec
    requires i < p.N()
  {
    if j == i then p.Step(i).b
    else if j < i && 0 < i then MatVec(p.model.dimX, p.Step(i).a, BColumn(p, i - 1, j))
    else r => 0.0
  }

  /** Row block i of Wex: the response of the state to the disturbances. */
  ghost function WColumn(p: Problem, i: nat): Vec
    requires i < p.N()
  {
    if i == 0 then p.Step(0).w
    else VecAdd(MatVec(p.model.dimX, p.Step(i).a, WColumn(p, i - 1)), p.Step(i).w)
  }

  ghost function ABlock(p: Problem, i: nat): Mat
    requires i < p.N()
  {
    (r, c) => AColumn(p, i, c)(r)
  }

  ghost function BBlock(p: Problem, i: nat): Mat
    requires i < p.N()
  {
    (r, j) => BColumn(p, i, j)(r)
  }

  ghost function Predicted(p: Problem, x0: Vec, u: Vec, i: nat): Vec
    requires i < p.N()
  {
    VecAdd(VecAdd(MatVec(p.model.dimX, ABlock(p, i), x0), MatVec(p.N(), BBlock(p, i), u)), WColumn(p, i))
  }

  lemma AFirst(p: Problem, c: int, r: int)
    requires 0 < p.N()
    ensures AColumn(p, 0, c)(r) == p.Step(0).a(r, c)
  {
  }

  lemma AEntry(p: Problem, i: nat, c: int, r: int)
    requires 0 < i < p.N()
    ensures AColumn(p, i, c)(r) == MatMul(p.model.dimX, p.Step(i).a, ABlock(p, i - 1))(r, c)
  {
    var row := Row(p.Step(i).a, r);
    DotExt(p.model.dimX, row, AColumn(p, i - 1, c), row, Row(Transpose(ABlock(p, i - 1)), c));
  }

  lemma BLater(p: Problem, i: nat, j: int, r: int)
    requires i < p.N() && i < j
    ensures BColumn(p, i, j)(r) == 0.0
  {
  }

  lemma {:induction false} ABlockStep(p: Problem, x0: Vec, i: nat, r: int)
    requires 0 < i < p.N()
    ensures MatVec(p.model.dimX, ABlock(p, i), x0)(r)
         == MatVec(p.model.dimX, p.Step(i).a, MatVec(p.model.dimX, ABlock(p, i - 1), x0))(r)
  {
    var n := p.model.dimX;
    MatMulVec(n, n, p.Step(i).a, ABlock(p, i - 1), x0, r);
    forall c | 0 <= c < n
      ensures Row(ABlock(p, i), r)(c) == Row(MatMul(n, p.Step(i).a, ABlock(p, i - 1)), r)(c)
    {
      AEntry(p, i, c, r);
    }
    DotExt(n, Row(ABlock(p, i), r), x0, Row(MatMul(n, p.Step(i).a, ABlock(p, i - 1)), r), x0);
  }

  /** The new input enters through its own column; every older column is propagated. */
  lemma BBlockStep(p: Problem, u: Vec, i: nat, r: int)
    requires 0 < i < p.N()
    ensures MatVec(p.N(), BBlock(p, i), u)(r)
         == MatVec(p.model.dimX, p.Step(i).a, MatVec(p.N(), BBlock(p, i - 1), u))(r) + u(i) * p.Step(i).b(r)
  {
    var n, m := p.model.dimX, p.N();
    var AB := MatMul(n, p.Step(i).a, BBlock(p, i - 1));
    MatMulVec(n, m, p.Step(i).a, BBlock(p, i - 1), u, r);
    var entering := (j: int) => if j == i then u(i) * p.Step(i).b(r) else 0.0;
    forall j | 0 <= j < m
      ensures Times(Row(BBlock(p, i), r), u)(j) == VecAdd(Times(Row(AB, r), u), entering)(j)
    {
      BEntry(p, i, j, r);
    }
    SumExt(m, Times(Row(BBlock(p, i), r), u), VecAdd(Times(Row(AB, r), u), entering));
    SumAdd(m, Times(Row(AB, r), u), entering);
    SumSingle(m, entering, i);
  }

  lemma BEntry(p: Problem, i: nat, j: nat, r: int)
    requires 0 < i < p.N()
    ensures BColumn(p, i, j)(r)
         == MatMul(p.model.dimX, p.Step(i).a, BBlock(p, i - 1))(r, j) + (if j == i then p.Step(i).b(r) else 0.0)
  {
    var n := p.model.dimX;
    var row, column := Row(p.Step(i).a, r), Row(Transpose(BBlock(p, i - 1)), j);
    if j < i {
      DotExt(n, row, BColumn(p, i - 1, j), row, column);
    } else {
      forall k | 0 <= k < n
        ensures Times(row, column)(k) == 0.0
      {
        BLater(p, i - 1, j, k);
      }
      SumZero(n, Times(row, column));
    }
  }

  lemma BBlockFirst(p: Problem, u: Vec, r: int)
    requires 0 < p.N()
    ensures MatVec(p.N(), BBlock(p, 0), u)(r) == u(0) * p.Step(0).b(r)
  {
    var terms := Times(Row(BBlock(p, 0), r), u);
    forall j | 0 <= j < p.N() && j != 0
      ensures terms(j) == 0.0
    {
      BLater(p, 0, j, r);
    }
    assert terms(0) == BColumn(p, 0, 0)(r) * u(0);
    SumSingle(p.N(), terms, 0);
  }

  lemma FirstPrediction(p: Problem, x0: Vec, u: Vec, r: int)
    requires 0 < p.N()
    ensures Predicted(p, x0, u, 0)(r) == p.State(x0, u, 1)(r)
  {
    var n := p.model.dimX;
    BBlockFirst(p, u, r);
    forall c | 0 <= c < n
      ensures Row(ABlock(p, 0), r)(c) == Row(p.Step(0).a, r)(c)
    {
      AFirst(p, c, r);
    }
    DotExt(n, Row(ABlock(p, 0), r), x0, Row(p.Step(0).a, r), x0);
  }

  /** The prediction equation: for every horizon, start state and input sequence, row block
      i of Aex * x0 + Bex * U + Wex is the state after i + 1 simulated steps. */
  lemma {:induction false} PredictionIsSimulation(p: Problem, x0: Vec, u: Vec, i: nat, r: int)
    requires i < p.N()
    ensures Predicted(p, x0, u, i)(r) == p.State(x0, u, i + 1)(r)
  {
    var n := p.model.dimX;
    if i == 0 {
      FirstPrediction(p, x0, u, r);
    } else {
      forall k | 0 <= k < n
        ensures p.State(x0, u, i)(k) == Predicted(p, x0, u, i - 1)(k)
      {
        PredictionIsSimulation(p, x0, u, i - 1, k);
      }
      PredictionStep(p, x0, u, i, r);
      DotExt(n, Row(p.Step(i).a, r), p.State(x0, u, i), Row(p.Step(i).a, r), Predicted(p, x0, u, i - 1));
    }
  }

  /** The condensed prediction obeys the model from one stage to the next. */
  lemma PredictionStep(p: Problem, x0: Vec, u: Vec, i: nat, r: int)
    requires 0 < i < p.N()
    ensures Predicted(p, x0, u, i)(r)
         == MatVec(p.model.dimX, p.Step(i).a, Predicted(p, x0, u, i - 1))(r) + u(i) * p.Step(i).b(r) + p.Step(i).w(r)
  {
    var n, row := p.model.dimX, Row(p.Step(i).a, r);
    var ax, bu := MatVec(n, ABlock(p, i - 1), x0), MatVec(p.N(), BBlock(p, i - 1), u);
    ABlockStep(p, x0, i, r);
    BBlockStep(p, u, i, r);
    DotAddRight(n, row, VecAdd(ax, bu), WColumn(p, i - 1));
    DotAddRight(n, row, ax, bu);
  }
}
