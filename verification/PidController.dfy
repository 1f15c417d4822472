/** pid.cpp and the difference limiter of longitudinal_controller_utils.cpp. */
module PidController {
  import opened RealArithmetic

  // ----- applyDiffLimitFilter -----

  /** `min(max(x, lo), hi)`. */
  function Limit(x: real, lo: real, hi: real): real {
    Min(Max(x, lo), hi)
  }

  /** Follows the input with a rate inside [minVal, maxVal]. */
  function DiffLimited(input: real, prev: real, dt: real, maxVal: real, minVal: real): real
    requires dt > 0.0
  {
    prev + Mul(Limit(Quotient(input - prev, dt), minVal, maxVal), dt)
  }

  /** With zero inside the rate limits the result lies between the previous value and the input, its
      rate is inside the limits, and it is the input itself whenever the limits allow. */
  lemma DiffLimitBounds(input: real, prev: real, dt: real, maxVal: real, minVal: real)
    requires dt > 0.0 && minVal <= 0.0 <= maxVal
    ensures var r := DiffLimited(input, prev, dt, maxVal, minVal);
            && (prev <= r <= input || input <= r <= prev)
            && Mul(minVal, dt) <= r - prev <= Mul(maxVal, dt)
            && (Mul(minVal, dt) <= input - prev <= Mul(maxVal, dt) ==> r == input)
  {
    var q := Quotient(input - prev, dt);
    var l := Limit(q, minVal, maxVal);
    QuotientTimes(input - prev, dt);
    ProductMonotone(dt, minVal, l);
    ProductMonotone(dt, l, maxVal);
    assert Mul(dt, minVal) == Mul(minVal, dt) && Mul(dt, maxVal) == Mul(maxVal, dt) && Mul(dt, l) == Mul(l, dt);
    assert Mul(0.0, dt) == 0.0;
    if input >= prev {
      QuotientOrder(0.0, input - prev, dt);
      assert Quotient(0.0, dt) == 0.0;
      ProductMonotone(dt, l, q);
      ProductMonotone(dt, 0.0, l);
    } else {
      QuotientOrder(input - prev, 0.0, dt);
      assert Quotient(0.0, dt) == 0.0;
      ProductMonotone(dt, q, l);
      ProductMonotone(dt, l, 0.0);
    }
    assert Mul(dt, q) == Mul(q, dt) && Mul(dt, 0.0) == 0.0;
    if Mul(minVal, dt) <= input - prev <= Mul(maxVal, dt) {
      QuotientBetween(input - prev, dt, minVal, maxVal);
    }
  }

  /** With symmetric rates the limiter clamps its input to a band around the previous value. */
  lemma DiffLimitIsClamp(input: real, prev: real, dt: real, rate: real)
    requires dt > 0.0 && rate >= 0.0
    ensures Mul(rate, dt) >= 0.0
    ensures DiffLimited(input, prev, dt, rate, -rate) == Clamp(input, prev - Mul(rate, dt), prev + Mul(rate, dt))
  {
    var band := Mul(rate, dt);
    ProductNonNegative(rate, dt);
    DiffLimitBounds(input, prev, dt, rate, -rate);
    assert Mul(-rate, dt) == -band;
    QuotientOfProduct(rate, dt);
    QuotientOfProduct(-rate, dt);
    if input - prev > band {
      QuotientOrder(band, input - prev, dt);
    } else if input - prev < -band {
      QuotientOrder(input - prev, -band, dt);
    }
  }

  // ----- PIDController -----

  datatype Params = Params(
    kp: real, ki: real, kd: real, maxRet: real, minRet: real, maxP: real, minP: real,
    maxI: real, minI: real, maxD: real, minD: real)

  datatype Memory = Memory(integral: real, prevError: real, first: bool)

  const RESET := Memory(0.0, 0.0, true)

  /** The limits divided by the gain are numbers, or infinities that limit nothing; zero by zero is neither. */
  predicate LimitsDefined(p: Params) {
    p.ki != 0.0 || p.minI < 0.0 < p.maxI
  }

  function LimitedIntegral(p: Params, x: real): real
    requires LimitsDefined(p)
  {
    if p.ki == 0.0 then x else Limit(x, Quotient(p.minI, p.ki), Quotient(p.maxI, p.ki))
  }

  function Integrated(p: Params, m: Memory, error: real, dt: real, enable: bool): real
    requires LimitsDefined(p)
  {
    if enable then LimitedIntegral(p, m.integral + Mul(error, dt)) else m.integral
  }

  /** The integral contribution stays inside its limits. */
  predicate IntegralBounded(p: Params, m: Memory) {
    p.minI <= Mul(p.ki, m.integral) <= p.maxI
  }

  class Pid {
    const p: Params
    var integral: real
    var prevError: real
    var first: bool

    ghost function View(): Memory
      reads this
    {
      Memory(integral, prevError, first)
    }

    constructor (p: Params)
      ensures View() == RESET && this.p == p
    {
      this.p := p;
      integral, prevError, first := 0.0, 0.0, true;
    }

    method Reset()
      modifies this
      ensures View() == RESET
    {
      integral := 0.0;
      prevError := 0.0;
      first := true;
    }

    /** The sum of the three limited contributions, itself limited; the integral moves only when
        integration is enabled. */
    method Calculate(error: real, dt: real, enable: bool) returns (ret: real, contributions: seq<real>)
      requires LimitsDefined(p) && dt > 0.0
      modifies this
      ensures View() == Memory(Integrated(p, old(View()), error, dt, enable), error, false)
      ensures |contributions| == 3
      ensures contributions[0] == Limit(Mul(p.kp, error), p.minP, p.maxP)
      ensures contributions[1] == Mul(p.ki, integral)
      ensures contributions[2] == if old(first) then Limit(0.0, p.minD, p.maxD)
                                  else Limit(Mul(p.kd, Quotient(error - old(prevError), dt)), p.minD, p.maxD)
      ensures ret == Limit(contributions[0] + contributions[1] + contributions[2], p.minRet, p.maxRet)
    {
      var retP := Mul(p.kp, error);
      retP := Min(Max(retP, p.minP), p.maxP);
      if enable {
        integral := integral + Mul(error, dt);
        if p.ki != 0.0 {
          integral := Min(Max(integral, Quotient(p.minI, p.ki)), Quotient(p.maxI, p.ki));
        }
      }
      var retI := Mul(p.ki, integral);
      var differential := 0.0;
      if first {
        first := false;
      } else {
        differential := Quotient(error - prevError, dt);
      }
      var retD := Mul(p.kd, differential);
      assert differential == 0.0 ==> retD == 0.0;
      retD := Min(Max(retD, p.minD), p.maxD);
      prevError := error;
      contributions := [retP, retI, retD];
      ret := retP + retI + retD;
      ret := Min(Max(ret, p.minRet), p.maxRet);
    }
  }

  /** The integral contribution stays inside its limits, whatever the error and the sign of the gain. */
  lemma IntegralKept(p: Params, m: Memory, error: real, dt: real, enable: bool)
    requires LimitsDefined(p) && p.minI <= p.maxI && IntegralBounded(p, m)
    ensures IntegralBounded(p, m.(integral := Integrated(p, m, error, dt, enable)))
  {
    if enable {
      ContributionBounded(p, m.integral + Mul(error, dt));
    }
  }

  lemma ContributionBounded(p: Params, x: real)
    requires LimitsDefined(p) && p.minI <= p.maxI
    ensures p.minI <= Mul(p.ki, LimitedIntegral(p, x)) <= p.maxI
    ensures p.ki < 0.0 ==> Mul(p.ki, LimitedIntegral(p, x)) == p.maxI
  {
    if p.ki == 0.0 {
      assert Mul(0.0, x) == 0.0;
    } else {
      var lo, hi, y := Quotient(p.minI, p.ki), Quotient(p.maxI, p.ki), LimitedIntegral(p, x);
      QuotientTimes(p.minI, p.ki);
      QuotientTimes(p.maxI, p.ki);
      assert Mul(p.ki, lo) == Mul(lo, p.ki) && Mul(p.ki, hi) == Mul(hi, p.ki);
      if p.ki > 0.0 {
        QuotientOrder(p.minI, p.maxI, p.ki);
        ProductMonotone(p.ki, lo, y);
        ProductMonotone(p.ki, y, hi);
      } else {
        NegativeGainSwaps(p, lo, hi);
      }
    }
  }

  /** A negative gain turns the limits round, and the upper one then always wins. */
  lemma NegativeGainSwaps(p: Params, lo: real, hi: real)
    requires p.ki < 0.0 && p.minI <= p.maxI && Mul(p.ki, lo) == p.minI && Mul(p.ki, hi) == p.maxI
    ensures hi <= lo
  {
    assert Mul(-p.ki, hi - lo) == Mul(p.ki, lo) - Mul(p.ki, hi);
    if lo < hi {
      ProductPositive(-p.ki, hi - lo);
    }
  }

  datatype Call = Calculate(error: real, dt: real, enable: bool) | ResetCall

  function After(p: Params, m: Memory, calls: seq<Call>): Memory
    requires LimitsDefined(p)
    decreases |calls|
  {
    if calls == [] then m
    else
      match calls[0]
      case Calculate(error, dt, enable) => After(p, Memory(Integrated(p, m, error, dt, enable), error, false),
            calls[1..])
      case ResetCall => After(p, RESET, calls[1..])
  }

  /** In every run of calculations and resets. */
  lemma {:induction false} IntegralBoundedAlways(p: Params, m: Memory, calls: seq<Call>)
    requires LimitsDefined(p) && p.minI <= 0.0 <= p.maxI && IntegralBounded(p, m)
    ensures IntegralBounded(p, After(p, m, calls))
    decreases |calls|
  {
    if calls != [] {
      match calls[0]
      case Calculate(error, dt, enable) =>
        IntegralKept(p, m, error, dt, enable);
        IntegralBoundedAlways(p, Memory(Integrated(p, m, error, dt, enable), error, false), calls[1..]);
      case ResetCall =>
        assert Mul(p.ki, 0.0) == 0.0;
        IntegralBoundedAlways(p, RESET, calls[1..]);
    }
  }
}
