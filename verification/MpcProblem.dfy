/** The lateral tracking problem of `mpc.cpp`, stage by stage: the discrete vehicle
    model, the weights and the feed-forward input of every stage, the simulation of
    the vehicle over the horizon and the cost of a trajectory. Nothing here is condensed.

    Every vehicle model of the repository has one input (steering) and two outputs
    (lateral and heading error); the number of states is a parameter. */
module MpcProblem {
  import opened LinearAlgebra
  import opened RealArithmetic

  /** x' = a * x + b * u + w and y = c * x. */
  datatype Discrete = Discrete(a: Mat, b: Vec, c: Mat, w: Vec)

  /** The trigonometric linearisation is a parameter of the model. */
  datatype VehicleModel = VehicleModel(
    dimX: nat,
    discretise: (real, real, real) -> Discrete,  // velocity, curvature, dt
    referenceInput: real -> real)                // curvature

  datatype Weight = Weight(
    latError: real,
    headingError: real,
    headingErrorSquaredVel: real,
    steeringInput: real,
    steeringInputSquaredVel: real,
    latJerk: real)

  datatype Param = Param(
    nominal: Weight,
    lowCurvature: Weight,
    lowCurvatureThreshold: real,
    terminalLatError: real,
    terminalHeadingError: real,
    steerRate: real,
    steerAcc: real,
    zeroFeedForward: real,  // rad
    ctrlPeriod: real)

  datatype Point = Point(vx: real, k: real, smoothK: real)

  datatype Problem = Problem(
    param: Param,
    model: VehicleModel,
    reference: seq<Point>,  // one point per stage
    dt: real,
    forward: bool)
  {
    ghost predicate Valid() {
      model.dimX > 0 && dt > 0.0 && param.ctrlPeriod > 0.0
    }

    /** The prediction horizon. */
    function N(): nat {
      |reference|
    }

    function Sign(): real {
      if forward then 1.0 else -1.0
    }

    function Curvature(i: nat): real
      requires i < N()
    {
      reference[i].k * Sign()
    }

    function Step(i: nat): Discrete
      requires i < N()
    {
      model.discretise(reference[i].vx, Curvature(i), dt)
    }

    function StageWeight(i: nat): Weight
      requires i < N()
    {
      if Abs(Curvature(i)) < param.lowCurvatureThreshold then param.lowCurvature else param.nominal
    }

    function LateralWeight(i: nat): real
      requires i < N()
    {
      if i == N() - 1 then param.terminalLatError else StageWeight(i).latError
    }

    function HeadingWeight(i: nat): real
      requires i < N()
    {
      (if i == N() - 1 then param.terminalHeadingError else StageWeight(i).headingError)
      + Square(reference[i].vx) * StageWeight(i).headingErrorSquaredVel
    }

    function InputWeight(i: nat): real
      requires i < N()
    {
      StageWeight(i).steeringInput
      + Square(reference[i].vx) * StageWeight(i).steeringInputSquaredVel
    }

    function JerkWeight(i: nat): real
      requires i < N()
      requires dt > 0.0
    {
      SquareNonNegative(dt);
      Square(reference[i].vx) * StageWeight(i).latJerk / Square(dt)
    }

    /** The feed-forward steering of stage i; curvature noise is ignored. */
    function ReferenceInput(i: nat): real
      requires i < N()
    {
      var u := model.referenceInput(reference[i].smoothK * Sign());
      if Abs(u) < param.zeroFeedForward then 0.0 else u
    }

    ghost function ReferenceInputs(): Vec {
      j => if 0 <= j < N() then ReferenceInput(j) else 0.0
    }

    // ----- simulation -----

    /** The state after i steps from x0 under the inputs u. */
    ghost function State(x0: Vec, u: Vec, i: nat): Vec
      requires i <= N()
    {
      if i == 0 then x0
      else
        var s := Step(i - 1);
        VecAdd(VecAdd(MatVec(model.dimX, s.a, State(x0, u, i - 1)), Scaled(u(i - 1), s.b)), s.w)
    }

    /** The two tracking errors of stage i, measured after its step. */
    ghost function Output(x0: Vec, u: Vec, i: nat): Vec
      requires i < N()
    {
      MatVec(model.dimX, Step(i).c, State(x0, u, i + 1))
    }

    // ----- cost -----

    ghost function TrackingCost(x0: Vec, u: Vec, i: nat): real
      requires i < N()
    {
      var y := Output(x0, u, i);
      LateralWeight(i) * Square(y(0)) + HeadingWeight(i) * Square(y(1))
    }

    /** Lateral jerk between stages i and i + 1. */
    ghost function JerkCost(u: Vec, i: nat): real
      requires i < N()
      requires Valid()
    {
      JerkWeight(i) * Square(u(i + 1) - u(i))
    }

    /** Steering rate entering stage i; the input one control period before stage 0 is zero. */
    ghost function SteerRate(u: Vec, i: nat): real
      requires Valid()
    {
      if i == 0 then Quotient(u(0), param.ctrlPeriod) else Quotient(u(i) - u(i - 1), dt)
    }

    /** Change of the steering rate per unit of time, starting from rate zero. */
    ghost function SteerAcceleration(u: Vec, i: nat): real
      requires Valid()
    {
      if i == 0 then Quotient(SteerRate(u, 0), param.ctrlPeriod)
      else Quotient(SteerRate(u, i) - SteerRate(u, i - 1), dt)
    }

    ghost function RateCost(u: Vec, i: nat): real
      requires Valid()
    {
      param.steerRate * Square(SteerRate(u, i))
    }

    ghost function AccelerationCost(u: Vec, i: nat): real
      requires Valid()
    {
      param.steerAcc * Square(SteerAcceleration(u, i))
    }

    /** A horizon of one stage has no steering-rate and no steering-acceleration cost. */
    ghost function SmoothnessCost(u: Vec): real
      requires Valid()
    {
      if N() <= 1 then 0.0
      else Sum(N(), i => if i < 0 then 0.0 else RateCost(u, i) + AccelerationCost(u, i))
    }

    ghost function InputCost(u: Vec): real {
      Sum(N(), i => if 0 <= i < N() then InputWeight(i) * Square(u(i)) else 0.0)
    }

    ghost function TotalJerkCost(u: Vec): real
      requires Valid()
    {
      Sum(if N() == 0 then 0 else N() - 1,
          i => if 0 <= i < N() then JerkCost(u, i) else 0.0)
    }

    ghost function TotalTrackingCost(x0: Vec, u: Vec): real {
      Sum(N(), i => if 0 <= i < N() then TrackingCost(x0, u, i) else 0.0)
    }

    /** The cost the optimiser minimises. The input weight and the two smoothness terms act
        on the deviation from the feed-forward input, because the code adds the smoothness
        weights to the very matrix that weighs that deviation; `MpcFeedForward` says when
        this penalises the rates of the input itself. */
    ghost function Cost(x0: Vec, u: Vec): real
      requires Valid()
    {
      var deviation := VecSub(u, ReferenceInputs());
      TotalTrackingCost(x0, u) + InputCost(deviation) + SmoothnessCost(deviation) + TotalJerkCost(u)
    }

    /** All weights are nonnegative and the steering input has positive weight. */
    ghost predicate WeightsAdmissible() {
      && param.steerRate >= 0.0 && param.steerAcc >= 0.0
      && param.terminalLatError >= 0.0 && param.terminalHeadingError >= 0.0
      && Admissible(param.nominal) && Admissible(param.lowCurvature)
    }
  }

  ghost predicate Admissible(w: Weight) {
    && w.latError >= 0.0 && w.headingError >= 0.0 && w.headingErrorSquaredVel >= 0.0
    && w.steeringInput > 0.0 && w.steeringInputSquaredVel >= 0.0 && w.latJerk >= 0.0
  }
}
