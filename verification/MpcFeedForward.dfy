/** What the steering-rate and steering-acceleration weights penalise. The comments beside them speak
    of the rates of the input; the code adds them to the matrix that weighs its deviation from the
    feed-forward input. Exactly when this is the same. */
module MpcFeedForward {
  import opened LinearAlgebra
  import opened RealArithmetic
  import opened MpcProblem
  import opened MpcCost

  /** The cost with the rates and accelerations of the input itself. */
  ghost function InputRateCost(p: Problem, x0: Vec, u: Vec): real
    requires p.Valid()
  {
    p.TotalTrackingCost(x0, u) + p.InputCost(VecSub(u, p.ReferenceInputs())) + p.SmoothnessCost(u) + p.TotalJerkCost(u)
  }

  ghost predicate Exceeds(p: Problem, m: Matrices, x0: Vec, c: real)
    requires p.Valid()
  {
    forall u: Vec :: InputRateCost(p, x0, u) == Objective(p, m, x0, u) + c
  }

  /** The condensed objective is that cost, up to a constant free of the input. */
  ghost predicate PenalisesInputRates(p: Problem, m: Matrices, x0: Vec)
    requires p.Valid()
  {
    exists c :: Exceeds(p, m, x0, c)
  }

  /** One stage at most, no feed-forward at all, or no weight on rates. */
  predicate NothingToConfuse(p: Problem) {
    p.N() <= 1 || (forall i | 0 <= i < p.N() :: p.ReferenceInput(i) == 0.0)
    || (p.param.steerRate == 0.0 && p.param.steerAcc == 0.0)
  }

  // ----- the smoothness cost -----

  ghost function Smoothness(p: Problem, u: Vec): Vec
    requires p.Valid()
  {
    i => if i < 0 then 0.0 else p.RateCost(u, i) + p.AccelerationCost(u, i)
  }

  lemma SmoothnessIsSum(p: Problem, u: Vec)
    requires p.Valid() && p.N() > 1
    ensures p.SmoothnessCost(u) == Sum(p.N(), Smoothness(p, u))
  {
    SumExt(p.N(), Smoothness(p, u), i => if i < 0 then 0.0 else p.RateCost(u, i) + p.AccelerationCost(u, i));
  }

  lemma RateExt(p: Problem, u: Vec, v: Vec, i: nat)
    requires p.Valid() && SameUpTo(p.N(), u, v) && i < p.N()
    ensures p.SteerRate(u, i) == p.SteerRate(v, i)
  {
  }

  lemma AccelerationExt(p: Problem, u: Vec, v: Vec, i: nat)
    requires p.Valid() && p.SteerRate(u, i) == p.SteerRate(v, i)
    requires i > 0 ==> p.SteerRate(u, i - 1) == p.SteerRate(v, i - 1)
    ensures Smoothness(p, u)(i) == Smoothness(p, v)(i)
  {
    assert p.SteerAcceleration(u, i) == p.SteerAcceleration(v, i);
  }

  lemma StageExt(p: Problem, u: Vec, v: Vec, i: nat)
    requires p.Valid() && SameUpTo(p.N(), u, v) && i < p.N()
    ensures Smoothness(p, u)(i) == Smoothness(p, v)(i)
  {
    RateExt(p, u, v, i);
    if i > 0 {
      RateExt(p, u, v, i - 1);
    }
    AccelerationExt(p, u, v, i);
  }

  /** It depends on the inputs of the stages only. */
  lemma SmoothnessExt(p: Problem, u: Vec, v: Vec)
    requires p.Valid() && SameUpTo(p.N(), u, v)
    ensures p.SmoothnessCost(u) == p.SmoothnessCost(v)
  {
    if p.N() > 1 {
      var a, b := Smoothness(p, u), Smoothness(p, v);
      forall i | 0 <= i < p.N()
        ensures a(i) == b(i)
      {
        StageExt(p, u, v, i);
      }
      SumExt(p.N(), a, b);
      SmoothnessIsSum(p, u);
      SmoothnessIsSum(p, v);
    }
  }

  lemma OppositeQuotient(x: real, y: real)
    requires y != 0.0
    ensures Quotient(-x, y) == -Quotient(x, y)
  {
  }

  lemma OppositeSquare(x: real)
    ensures Square(-x) == Square(x)
  {
  }

  lemma OppositeRate(p: Problem, u: Vec, v: Vec, i: nat)
    requires p.Valid() && forall k :: v(k) == -u(k)
    ensures p.SteerRate(v, i) == -p.SteerRate(u, i)
  {
    if i == 0 {
      OppositeQuotient(u(0), p.param.ctrlPeriod);
    } else {
      assert v(i) - v(i - 1) == -(u(i) - u(i - 1));
      OppositeQuotient(u(i) - u(i - 1), p.dt);
    }
  }

  lemma OppositeAcceleration(p: Problem, u: Vec, v: Vec, i: nat)
    requires p.Valid() && forall k :: v(k) == -u(k)
    ensures p.SteerAcceleration(v, i) == -p.SteerAcceleration(u, i)
  {
    OppositeRate(p, u, v, i);
    if i == 0 {
      OppositeQuotient(p.SteerRate(u, 0), p.param.ctrlPeriod);
    } else {
      OppositeRate(p, u, v, i - 1);
      assert p.SteerRate(v, i) - p.SteerRate(v, i - 1) == -(p.SteerRate(u, i) - p.SteerRate(u, i - 1));
      OppositeQuotient(p.SteerRate(u, i) - p.SteerRate(u, i - 1), p.dt);
    }
  }

  /** Steering the other way costs the same. */
  lemma OppositeSmoothness(p: Problem, u: Vec, v: Vec)
    requires p.Valid() && forall k :: v(k) == -u(k)
    ensures p.SmoothnessCost(v) == p.SmoothnessCost(u)
  {
    if p.N() > 1 {
      forall i | 0 <= i < p.N()
        ensures Smoothness(p, v)(i) == Smoothness(p, u)(i)
      {
        OppositeRate(p, u, v, i);
        OppositeAcceleration(p, u, v, i);
        OppositeSquare(p.SteerRate(u, i));
        OppositeSquare(p.SteerAcceleration(u, i));
      }
      SumExt(p.N(), Smoothness(p, v), Smoothness(p, u));
      SmoothnessIsSum(p, u);
      SmoothnessIsSum(p, v);
    }
  }

  lemma ZeroQuotient(y: real)
    requires y != 0.0
    ensures Quotient(0.0, y) == 0.0
  {
  }

  lemma NoSteeringIsFree(p: Problem, z: Vec)
    requires p.Valid() && forall k :: z(k) == 0.0
    ensures p.SmoothnessCost(z) == 0.0
  {
    if p.N() > 1 {
      forall i | 0 <= i < p.N()
        ensures Smoothness(p, z)(i) == 0.0
      {
        ZeroQuotient(p.dt);
        ZeroQuotient(p.param.ctrlPeriod);
        ZeroSquare(p.param.steerRate);
        ZeroSquare(p.param.steerAcc);
      }
      SumZero(p.N(), Smoothness(p, z));
      SmoothnessIsSum(p, z);
    }
  }

  lemma ZeroSquare(w: real)
    ensures w * Square(0.0) == 0.0
  {
  }

  lemma NoWeightIsFree(p: Problem, u: Vec)
    requires p.Valid() && p.param.steerRate == 0.0 && p.param.steerAcc == 0.0
    ensures p.SmoothnessCost(u) == 0.0
  {
    if p.N() > 1 {
      SumZero(p.N(), Smoothness(p, u));
      SmoothnessIsSum(p, u);
    }
  }

  lemma FactorIsZero(w: real, x: real)
    requires w > 0.0 && w * Square(x) == 0.0
    ensures x == 0.0
  {
    SquareNonNegative(x);
    if x != 0.0 {
      ProductPositive(w, Square(x));
    }
  }

  lemma QuotientIsZero(x: real, y: real)
    requires y > 0.0 && Quotient(x, y) == 0.0
    ensures x == 0.0
  {
    QuotientTimes(x, y);
    assert Mul(0.0, y) == 0.0;
  }

  lemma StageIsFree(p: Problem, u: Vec, i: nat)
    requires p.Valid() && p.N() > 1 && i < p.N() && p.SmoothnessCost(u) == 0.0
    requires p.param.steerRate >= 0.0 && p.param.steerAcc >= 0.0
    ensures p.RateCost(u, i) == 0.0 && p.AccelerationCost(u, i) == 0.0
  {
    forall k: nat | k < p.N()
      ensures p.RateCost(u, k) >= 0.0 && p.AccelerationCost(u, k) >= 0.0
    {
      SquareNonNegative(p.SteerRate(u, k));
      SquareNonNegative(p.SteerAcceleration(u, k));
      ProductNonNegative(p.param.steerRate, Square(p.SteerRate(u, k)));
      ProductNonNegative(p.param.steerAcc, Square(p.SteerAcceleration(u, k)));
    }
    SmoothnessIsSum(p, u);
    SumAtLeast(p.N(), Smoothness(p, u), i);
  }

  lemma {:induction false} RateIsZero(p: Problem, u: Vec, i: nat)
    requires p.Valid() && p.N() > 1 && i < p.N() && p.SmoothnessCost(u) == 0.0
    requires p.param.steerRate >= 0.0 && p.param.steerAcc >= 0.0
    requires p.param.steerRate > 0.0 || p.param.steerAcc > 0.0
    ensures p.SteerRate(u, i) == 0.0
  {
    StageIsFree(p, u, i);
    if p.param.steerRate > 0.0 {
      FactorIsZero(p.param.steerRate, p.SteerRate(u, i));
    } else {
      FactorIsZero(p.param.steerAcc, p.SteerAcceleration(u, i));
      if i == 0 {
        QuotientIsZero(p.SteerRate(u, 0), p.param.ctrlPeriod);
      } else {
        RateIsZero(p, u, i - 1);
        QuotientIsZero(p.SteerRate(u, i) - p.SteerRate(u, i - 1), p.dt);
      }
    }
  }

  /** With a positive weight only the zero input has no rate and no acceleration. */
  lemma {:induction false} FreeIsZero(p: Problem, u: Vec, i: nat)
    requires p.Valid() && p.N() > 1 && i < p.N() && p.SmoothnessCost(u) == 0.0
    requires p.param.steerRate >= 0.0 && p.param.steerAcc >= 0.0
    requires p.param.steerRate > 0.0 || p.param.steerAcc > 0.0
    ensures u(i) == 0.0
  {
    RateIsZero(p, u, i);
    if i == 0 {
      QuotientIsZero(u(0), p.param.ctrlPeriod);
    } else {
      FreeIsZero(p, u, i - 1);
      QuotientIsZero(u(i) - u(i - 1), p.dt);
    }
  }

  // ----- the exact condition -----

  lemma CostsDifferBySmoothness(p: Problem, m: Matrices, x0: Vec, u: Vec)
    requires p.Valid() && Represents(p, m)
    ensures InputRateCost(p, x0, u) - Objective(p, m, x0, u)
         == FixedCost(p, m, x0) + p.SmoothnessCost(u) - p.SmoothnessCost(VecSub(u, p.ReferenceInputs()))
  {
    CondensedCostIsTrackingCost(p, m, x0, u);
  }

  lemma SmoothnessGap(p: Problem, m: Matrices, x0: Vec, c: real, u: Vec)
    requires p.Valid() && Represents(p, m) && Exceeds(p, m, x0, c)
    ensures p.SmoothnessCost(u) - p.SmoothnessCost(VecSub(u, p.ReferenceInputs())) == c - FixedCost(p, m, x0)
  {
    assert InputRateCost(p, x0, u) == Objective(p, m, x0, u) + c;
    CostsDifferBySmoothness(p, m, x0, u);
  }

  lemma GapsAtBothEnds(p: Problem, r: Vec, z: Vec)
    requires p.Valid() && forall k :: z(k) == 0.0
    ensures p.SmoothnessCost(z) - p.SmoothnessCost(VecSub(z, r)) == -p.SmoothnessCost(r)
    ensures p.SmoothnessCost(r) - p.SmoothnessCost(VecSub(r, r)) == p.SmoothnessCost(r)
  {
    NoSteeringIsFree(p, z);
    NoSteeringIsFree(p, VecSub(r, r));
    OppositeSmoothness(p, r, VecSub(z, r));
  }

  lemma ConstantForcesFree(p: Problem, m: Matrices, x0: Vec, c: real)
    requires p.Valid() && Represents(p, m) && Exceeds(p, m, x0, c)
    ensures p.SmoothnessCost(p.ReferenceInputs()) == 0.0
  {
    var r: Vec := p.ReferenceInputs();
    var z: Vec := i => 0.0;
    SmoothnessGap(p, m, x0, c, z);
    SmoothnessGap(p, m, x0, c, r);
    GapsAtBothEnds(p, r, z);
  }

  lemma NothingShifts(p: Problem, u: Vec)
    requires p.Valid() && NothingToConfuse(p)
    ensures p.SmoothnessCost(VecSub(u, p.ReferenceInputs())) == p.SmoothnessCost(u)
  {
    var d := VecSub(u, p.ReferenceInputs());
    if p.N() > 1 {
      if p.param.steerRate == 0.0 && p.param.steerAcc == 0.0 {
        NoWeightIsFree(p, u);
        NoWeightIsFree(p, d);
      } else {
        SmoothnessExt(p, d, u);
      }
    }
  }

  /** The condensed objective penalises the rates of the input, up to a constant, if and only if there
      is at most one stage, or no feed-forward input, or no weight on rates. */
  lemma PenalisesInputRatesIff(p: Problem, m: Matrices, x0: Vec)
    requires p.Valid() && Represents(p, m) && p.param.steerRate >= 0.0 && p.param.steerAcc >= 0.0
    ensures PenalisesInputRates(p, m, x0) <==> NothingToConfuse(p)
  {
    var r := p.ReferenceInputs();
    if PenalisesInputRates(p, m, x0) {
      var c :| Exceeds(p, m, x0, c);
      ConstantForcesFree(p, m, x0, c);
      if p.N() > 1 && (p.param.steerRate > 0.0 || p.param.steerAcc > 0.0) {
        forall i | 0 <= i < p.N()
          ensures p.ReferenceInput(i) == 0.0
        {
          FreeIsZero(p, r, i);
        }
      }
    }
    if NothingToConfuse(p) {
      forall u: Vec
        ensures InputRateCost(p, x0, u) == Objective(p, m, x0, u) + FixedCost(p, m, x0)
      {
        CostsDifferBySmoothness(p, m, x0, u);
        NothingShifts(p, u);
      }
      assert Exceeds(p, m, x0, FixedCost(p, m, x0));
    }
  }

  // ----- a curve -----

  const EVEN := Weight(1.0, 1.0, 0.0, 1.0, 0.0, 0.0)

  /** Two stages of a curve of constant curvature, with a weight on the steering rate and a dead zone
      of half a degree for the feed-forward steering. */
  function Curve(model: VehicleModel, k: real): Problem {
    Problem(Param(EVEN, EVEN, 0.0, 1.0, 1.0, 1.0, 0.0, 0.0087, 0.1), model,
            [Point(1.0, k, k), Point(1.0, k, k)], 0.1, true)
  }

  /** There the code penalises something else for every vehicle model that answers the curvature with
      a steering outside the dead zone, whatever the vehicle's state. */
  lemma CurveIsConfused(model: VehicleModel, k: real, m: Matrices, x0: Vec)
    requires model.dimX > 0 && Abs(model.referenceInput(k)) >= 0.0087
    requires Represents(Curve(model, k), m)
    ensures Curve(model, k).Valid() && Curve(model, k).WeightsAdmissible()
    ensures !PenalisesInputRates(Curve(model, k), m, x0)
  {
    var p := Curve(model, k);
    assert p.reference[0].smoothK * p.Sign() == k;
    assert p.ReferenceInput(0) == model.referenceInput(k);
    PenalisesInputRatesIff(p, m, x0);
  }
}
