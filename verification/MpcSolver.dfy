/** qp_solver_unconstraint_fast.cpp: the solver refuses a matrix of tiny determinant and otherwise
    solves Hu = -f. */
module MpcSolver {
  import opened Options
  import opened LinearAlgebra
  import opened RealArithmetic
  import opened MpcProblem
  import opened MpcCost
  import opened PositiveDefinite

  const TINY := 0.000000001

  lemma HIsPosDef(p: Problem, m: Matrices)
    requires p.Valid() && Represents(p, m) && p.WeightsAdmissible()
    ensures PosDef(p.N(), H(p, m))
  {
    HPositiveDefinite(p, m, i => 0.0);
    forall u: Vec | NonZero(p.N(), u)
      ensures Bilinear(p.N(), H(p, m), u, u) > 0.0
    {
      HPositiveDefinite(p, m, u);
    }
  }

  /** `solve`: false, or a u from the factorisation. */
  ghost predicate Answers(p: Problem, m: Matrices, x0: Vec, answer: Option<Vec>)
    requires p.Valid() && Represents(p, m) && p.WeightsAdmissible()
  {
    HIsPosDef(p, m);
    if Abs(Determinant(p.N(), H(p, m))) < TINY then answer.None? else answer.Some? && Solves(p, m, x0, answer.value)
  }

  /** There always is a minimiser: Hu = -f has a solution. */
  lemma MinimiserExists(p: Problem, m: Matrices, x0: Vec) returns (u: Vec)
    requires p.Valid() && Represents(p, m) && p.WeightsAdmissible()
    ensures Solves(p, m, x0, u)
  {
    HIsPosDef(p, m);
    u := Solvable(p.N(), H(p, m), i => -F(p, m, x0)(i));
  }

  lemma AnswerExists(p: Problem, m: Matrices, x0: Vec) returns (answer: Option<Vec>)
    requires p.Valid() && Represents(p, m) && p.WeightsAdmissible()
    ensures Answers(p, m, x0, answer)
  {
    HIsPosDef(p, m);
    var u := MinimiserExists(p, m, x0);
    answer := if Abs(Determinant(p.N(), H(p, m))) < TINY then None else Some(u);
  }

  /** The solver refuses exactly when the determinant, which is positive, is below its threshold; any
      other answer is the one minimiser of the stage cost. */
  lemma AnswerIsMinimiser(p: Problem, m: Matrices, x0: Vec, answer: Option<Vec>, v: Vec)
    requires p.Valid() && Represents(p, m) && p.WeightsAdmissible() && Answers(p, m, x0, answer)
    ensures PosDef(p.N(), H(p, m)) && (answer.None? <==> Determinant(p.N(), H(p, m)) < TINY)
    ensures answer.Some? ==>
              && p.Cost(x0, answer.value) <= p.Cost(x0, v)
              && (p.Cost(x0, v) == p.Cost(x0, answer.value) <==> SameUpTo(p.N(), answer.value, v))
  {
    HIsPosDef(p, m);
    if answer.Some? {
      SolutionIsUniqueMinimiser(p, m, x0, answer.value, v);
    }
  }
}
