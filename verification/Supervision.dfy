/** supervision_latch.hpp and supervision.hpp: freshness, the fault latch, the re-enable
    request, the stop ramp, the envelope and the stop command. */
module Supervision {
  import opened Options
  import opened CanCodec
  import opened RealArithmetic

  // ----- freshness -----

  /** A timeout may be infinite. */
  datatype Timeout = Never | After(seconds: real)

  /** The last arrival; -1 marks a source never seen. */
  datatype SourceWatch = SourceWatch(last: real)
  {
    predicate Ever() {
      last >= 0.0
    }

    predicate Stale(now: real, timeout: Timeout) {
      last >= 0.0 && timeout.After? && now - last > timeout.seconds
    }

    /** Seen, and not older than its timeout. */
    predicate Live(now: real, timeout: Timeout) {
      Ever() && !Stale(now, timeout)
    }

    function Note(now: real): SourceWatch {
      SourceWatch(now)
    }
  }

  const UNSEEN_SOURCE := SourceWatch(-1.0)

  // ----- latch and request -----

  const FAULT_IDS := 0x1_0000_0000

  datatype Latch = Latch(latched: bool, faultId: nat, reason: string)
  {
    function Trip(why: string): Latch {
      Latch(true, if latched then faultId else (faultId + 1) % FAULT_IDS, why)
    }

    /** Whether this tick must stop, and what is left of the latch and the request. */
    function StopThisTick(request: Request, allFresh: bool): (bool, Latch, Request) {
      if !latched then (false, this, request)
      else if request.pending && allFresh then (false, Latch(false, faultId, ""), request.Clear())
      else (true, this, request)
    }
  }

  datatype Request = Request(pending: bool, requestedAt: real)
  {
    function Press(now: real): Request {
      Request(true, now)
    }

    function Clear(): Request {
      Request(false, requestedAt)
    }

    predicate Expired(now: real, window: real) {
      pending && now - requestedAt > window
    }

    function ExpireIfOld(now: real, window: real): Request {
      if Expired(now, window) then Clear() else this
    }
  }

  // ----- stop ramp -----

  function StopRampVelocity(v0: Float, decel: real, elapsed: real, maxV0: real): real {
    if v0.NonFinite? || v0.r > maxV0 then 0.0
    else if v0.r - decel * elapsed > 0.0 then v0.r - decel * elapsed
    else 0.0
  }

  datatype StopRamp = StopRamp(v0: Float, startedAt: real)
  {
    function Velocity(decel: real, maxV0: real, now: real): real {
      StopRampVelocity(v0, decel, now - startedAt, maxV0)
    }
  }

  function StartRamp(egoVelocity: Float, odometry: SourceWatch, now: real, timeout: Timeout, steady: real): StopRamp {
    StopRamp(if odometry.Live(now, timeout) then egoVelocity else Finite(0.0), steady)
  }

  /** The target never exceeds the captured speed nor the limit, never turns negative, never
      rises again, and reaches zero. */
  lemma RampIsBounded(v0: Float, decel: real, e1: real, e2: real, maxV0: real)
    requires decel >= 0.0 && 0.0 <= e1 <= e2 && maxV0 >= 0.0
    ensures var v1, v2 := StopRampVelocity(v0, decel, e1, maxV0), StopRampVelocity(v0, decel, e2, maxV0);
            && 0.0 <= v2 <= v1 <= maxV0
            && (v1 > 0.0 ==> v0.Finite? && v1 <= v0.r)
            && (v0.Finite? && decel * e2 >= v0.r ==> v2 == 0.0)
            && (v1 > 0.0 && v2 > 0.0 ==> v1 - v2 == decel * (e2 - e1))
  {
    ProductMonotone(decel, e1, e2);
    ProductNonNegative(decel, e1);
  }

  /** Only a fresh odometry sample can make a stop start from a positive speed. */
  lemma StaleOdometryStopsAtOnce(ego: Float, odometry: SourceWatch, now: real, timeout: Timeout, steady: real,
                                 decel: real, maxV0: real, later: real)
    requires decel >= 0.0 && later >= steady && !odometry.Live(now, timeout)
    ensures StartRamp(ego, odometry, now, timeout, steady).Velocity(decel, maxV0, later) == 0.0
  {
    ProductNonNegative(decel, later - steady);
  }

  // ----- commands -----

  datatype Lateral = Lateral(angle: Float, rate: Float, rateDefined: bool)

  datatype Longitudinal = Longitudinal(velocity: Float, acceleration: Float, jerk: Float,
                                       accelerationDefined: bool, jerkDefined: bool)

  datatype Control = Control(lateral: Lateral, longitudinal: Longitudinal)

  const ZERO_LATERAL := Lateral(Finite(0.0), Finite(0.0), false)

  /** Keeps the steering of the given command, and brakes to a standstill. */
  function StopControl(known: Option<Control>, stopAccel: real): Control {
    Control(if known.Some? then known.value.lateral else ZERO_LATERAL,
            Longitudinal(Finite(0.0), Finite(-stopAccel), Finite(0.0), true, false))
  }

  predicate Within(x: Float, limit: real) {
    x.Finite? && Abs(x.r) <= limit
  }

  datatype Envelope = Envelope(maxSteering: real, maxVelocity: real, maxAcceleration: real)

  /** Why a command is outside the envelope. A value that is not a number fails every comparison. */
  function EnvelopeViolation(steering: Float, velocity: Float, acceleration: Float,
        limits: Envelope): (r: Option<string>)
    ensures r.None? <==> Within(steering, limits.maxSteering) && Within(velocity, limits.maxVelocity)
                         && Within(acceleration, limits.maxAcceleration)
  {
    if !Within(steering, limits.maxSteering) then Some("steering out of range")
    else if !Within(velocity, limits.maxVelocity) then Some("speed out of range")
    else if !Within(acceleration, limits.maxAcceleration) then Some("accel out of range")
    else None
  }
}
