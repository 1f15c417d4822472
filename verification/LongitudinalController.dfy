/** pid_longitudinal_controller.cpp: the control-state machine and the rate-limited command of one
    cycle. The velocity feedback, the smooth-stop answer, the filtered acceleration feedback and
    the slope term are inputs of a cycle, of any value. */
module LongitudinalController {
  import opened Options
  import opened RealArithmetic
  import opened PidController

  datatype ControlState = DRIVE | STOPPING | STOPPED | EMERGENCY

  datatype Shift = Forward | Reverse

  datatype Motion = Motion(vel: real, acc: real)

  datatype Config = Config(
    period: real, minAcc: real, maxAcc: real, minJerk: real, maxJerk: real, maxCmdDiff: real,
    emergencyVel: real, emergencyAcc: real, emergencyJerk: real, stoppedVel: real, stoppedAcc: real,
    driveStopDist: real, driveOffsetStopDist: real, stoppingStopDist: real,
    stoppedEntryVel: real, stoppedEntryDuration: real, overshootStopDist: real,
    overshootEmergency: bool, smoothStop: bool, keepStopped: bool, largeErrorEmergency: bool)
  {
    /** What the code cannot do without: a period, and a range to clamp to. */
    predicate Usable() {
      period > 0.0 && minAcc <= maxAcc
    }

    /** What the bounds on the acceleration need: zero inside its limits and those of the jerk. */
    predicate Valid() {
      Usable() && minAcc <= 0.0 <= maxAcc && minJerk <= 0.0 <= maxJerk
    }

    /** The largest of the jerk limits. */
    function JerkBound(): real {
      Max(Max(-minJerk, maxJerk), Abs(emergencyJerk))
    }
  }

  /** One cycle's inputs. The clock is read before and after computing dt and around the stop timer. */
  datatype Cycle = Cycle(
    dtNow: real, dtStore: real, runNow: real, stopNow: real, far: bool,
    vel: real, acc: real, stopDist: real, shift: Shift, target: Motion, nearestVel: real,
    underControl: bool, steerConverged: bool,
    driveAcc: real, stoppingAcc: real, accFeedback: real, slope: real)

  datatype State = State(
    control: ControlState, prevRaw: Motion, prevCmd: Motion, prevKeepStopped: Option<bool>,
    lastRunning: real, prevTime: real)

  const VEL_EPSILON := 0.001

  // ----- one cycle -----

  /** `getDt`: a time of zero means no cycle yet. */
  function CycleDt(s: State, c: Cycle, config: Config): real {
    var dt := if s.prevTime == 0.0 then config.period else c.dtNow - s.prevTime;
    Max(Min(dt, config.period * 2.0), config.period * 0.5)
  }

  lemma DtBounded(s: State, c: Cycle, config: Config)
    requires config.Usable()
    ensures 0.0 < config.period * 0.5 <= CycleDt(s, c, config) <= config.period * 2.0
  {
  }

  predicate NotRunning(c: Cycle, config: Config) {
    Abs(c.vel) < config.stoppedEntryVel || (if c.shift.Forward? then c.vel < 0.0 else 0.0 < c.vel)
  }

  function LastRunning(s: State, c: Cycle, config: Config): real {
    if NotRunning(c, config) then s.lastRunning else c.runNow
  }

  predicate StoppedLongEnough(s: State, c: Cycle, config: Config) {
    LastRunning(s, c, config) != 0.0 && c.stopNow - LastRunning(s, c, config) > config.stoppedEntryDuration
  }

  predicate EmergencyCondition(c: Cycle, config: Config) {
    config.overshootEmergency && c.stopDist < -config.overshootStopDist && Abs(c.nearestVel) < VEL_EPSILON
  }

  /** The vehicle stands and its steering has not converged. */
  predicate KeepStopped(c: Cycle) {
    Abs(c.vel) < VEL_EPSILON && !c.steerConverged
  }

  /** `updateControlState`. */
  function Updated(s: State, c: Cycle, config: Config): State {
    var u := s.(lastRunning := LastRunning(s, c, config),
                prevKeepStopped := if s.control.STOPPED? then s.prevKeepStopped else None);
    match s.control
    case DRIVE =>
      if EmergencyCondition(c, config) then u.(control := EMERGENCY)
      else if !c.underControl && StoppedLongEnough(s, c, config) then u.(control := STOPPED)
      else if config.smoothStop then
        if c.stopDist < config.stoppingStopDist then u.(control := STOPPING) else u
      else if StoppedLongEnough(s, c, config) && !(c.stopDist > config.driveStopDist) then u.(control := STOPPED)
      else u
    case STOPPING =>
      if EmergencyCondition(c, config) then u.(control := EMERGENCY)
      else if StoppedLongEnough(s, c, config) then u.(control := STOPPED)
      else if c.stopDist > config.driveStopDist + config.driveOffsetStopDist then
        u.(control := DRIVE, prevCmd := Motion(s.prevCmd.vel, Max(0.0, s.prevRaw.acc)))
      else u
    case STOPPED =>
      if !(c.stopDist > config.driveStopDist) then u
      else
        var keep := s.prevKeepStopped.None? || KeepStopped(c) || s.prevKeepStopped.value;
        var w := u.(prevKeepStopped := Some(KeepStopped(c)));
        if config.keepStopped && keep then w else w.(control := DRIVE)
    case EMERGENCY =>
      if StoppedLongEnough(s, c, config) then u.(control := STOPPED)
      else if !EmergencyCondition(c, config) && !c.underControl then u.(control := DRIVE)
      else u
  }

  /** `calcEmergencyCtrlCmd`. */
  function EmergencyCommand(s: State, dt: real, config: Config): Motion
    requires dt > 0.0 && config.Usable()
  {
    Motion(DiffLimited(config.emergencyVel, s.prevRaw.vel, dt, Abs(config.emergencyAcc), -Abs(config.emergencyAcc)),
           DiffLimited(Clamp(config.emergencyAcc, config.minAcc, config.maxAcc), s.prevRaw.acc, dt,
                       Abs(config.emergencyJerk), -Abs(config.emergencyJerk)))
  }

  function Demand(s: State, c: Cycle, config: Config): Motion {
    if s.control.DRIVE? then Motion(c.target.vel, c.driveAcc) else Motion(config.stoppedVel, c.stoppingAcc)
  }

  /** The stored raw command of a cycle in a given state. */
  function RawCommand(s: State, c: Cycle, dt: real, config: Config): Motion
    requires dt > 0.0 && config.Usable()
  {
    match s.control
    case STOPPED => Motion(0.0, 0.0)
    case EMERGENCY => EmergencyCommand(s, dt, config)
    case _ =>
      Motion(Demand(s, c, config).vel,
             DiffLimited(Clamp(Demand(s, c, config).acc, config.minAcc, config.maxAcc), s.prevRaw.acc, dt,
                         config.maxJerk, config.minJerk))
  }

  function Unlimited(s: State, c: Cycle, raw: Motion, config: Config): Motion {
    if s.control.STOPPED? then Motion(config.stoppedVel, config.stoppedAcc)
    else Motion(raw.vel, raw.acc - c.accFeedback + c.slope)
  }

  /** `calcCtrlCmd`: the raw command and the published one. */
  function Commands(s: State, c: Cycle, dt: real, config: Config): (Motion, Motion)
    requires dt > 0.0 && config.Usable()
  {
    var raw := RawCommand(s, c, dt, config);
    var out := Unlimited(s, c, raw, config);
    (raw, out.(acc := DiffLimited(out.acc, s.prevCmd.acc, dt, Abs(config.maxCmdDiff), -Abs(config.maxCmdDiff))))
  }

  /** `run`: the state after a cycle; the published command is its `prevCmd`. */
  function RunCycle(s: State, c: Cycle, config: Config): State
    requires config.Usable()
  {
    DtBounded(s, c, config);
    var dt := CycleDt(s, c, config);
    var t := s.(prevTime := c.dtStore);
    if c.far then
      var u := if config.largeErrorEmergency then t.(control := EMERGENCY) else t;
      var raw := EmergencyCommand(u, dt, config);
      u.(prevRaw := raw, prevCmd := raw)
    else
      var u := Updated(t, c, config);
      var (raw, out) := Commands(u, c, dt, config);
      u.(prevRaw := raw, prevCmd := out)
  }

  // ----- the class -----

  class PidLongitudinalController {
    const config: Config
    var control: ControlState
    var prevRaw: Motion
    var prevCmd: Motion
    var prevKeepStopped: Option<bool>
    var lastRunning: real
    var prevTime: real

    ghost function View(): State
      reads this
    {
      State(control, prevRaw, prevCmd, prevKeepStopped, lastRunning, prevTime)
    }

    constructor (config: Config, now: real)
      ensures this.config == config
      ensures View() == State(STOPPED, Motion(0.0, 0.0), Motion(0.0, 0.0), None, now, 0.0)
    {
      this.config := config;
      control, prevRaw, prevCmd := STOPPED, Motion(0.0, 0.0), Motion(0.0, 0.0);
      prevKeepStopped, lastRunning, prevTime := None, now, 0.0;
    }

    method GetDt(c: Cycle) returns (dt: real)
      requires config.Usable()
      modifies this`prevTime
      ensures dt == CycleDt(old(View()), c, config) && prevTime == c.dtStore
    {
      if prevTime == 0.0 {
        dt := config.period;
        prevTime := c.dtStore;
      } else {
        dt := c.dtNow - prevTime;
        prevTime := c.dtStore;
      }
      var maxDt := config.period * 2.0;
      var minDt := config.period * 0.5;
      dt := Max(Min(dt, maxDt), minDt);
    }

    method UpdateControlState(c: Cycle)
      modifies this`control, this`prevCmd, this`prevKeepStopped, this`lastRunning
      ensures View() == Updated(old(View()), c, config)
    {
      var departFromStopping := c.stopDist > config.driveStopDist + config.driveOffsetStopDist;
      var departFromStopped := c.stopDist > config.driveStopDist;
      var stoppingCondition := c.stopDist < config.stoppingStopDist;
      if !NotRunning(c, config) {
        lastRunning := c.runNow;
      }
      var stoppedCondition := lastRunning != 0.0 && c.stopNow - lastRunning > config.stoppedEntryDuration;
      var emergency := EmergencyCondition(c, config);
      if control != STOPPED {
        prevKeepStopped := None;
      }
      match control {
        case DRIVE =>
          if emergency {
            control := EMERGENCY;
          } else if !c.underControl && stoppedCondition {
            control := STOPPED;
          } else if config.smoothStop {
            if stoppingCondition {
              control := STOPPING;
            }
          } else if stoppedCondition && !departFromStopped {
            control := STOPPED;
          }
        case STOPPING =>
          if emergency {
            control := EMERGENCY;
          } else if stoppedCondition {
            control := STOPPED;
          } else if departFromStopping {
            prevCmd := Motion(prevCmd.vel, Max(0.0, prevRaw.acc));
            control := DRIVE;
          }
        case STOPPED =>
          if departFromStopped {
            var current := Abs(c.vel) < VEL_EPSILON && !c.steerConverged;
            var keep := prevKeepStopped.None? || current || prevKeepStopped.value;
            prevKeepStopped := Some(current);
            if !(config.keepStopped && keep) {
              control := DRIVE;
            }
          }
        case EMERGENCY =>
          if stoppedCondition {
            control := STOPPED;
          } else if !emergency {
            if !c.underControl {
              control := DRIVE;
            }
          }
      }
    }

    method CalcEmergencyCtrlCmd(dt: real) returns (raw: Motion)
      requires config.Usable() && dt > 0.0
      ensures raw == EmergencyCommand(View(), dt, config)
    {
      var vel := DiffLimited(config.emergencyVel, prevRaw.vel, dt, Abs(config.emergencyAcc), -Abs(config.emergencyAcc));
      var acc := Clamp(config.emergencyAcc, config.minAcc, config.maxAcc);
      acc := DiffLimited(acc, prevRaw.acc, dt, Abs(config.emergencyJerk), -Abs(config.emergencyJerk));
      return Motion(vel, acc);
    }

    method CalcCtrlCmd(c: Cycle, dt: real) returns (out: Motion)
      requires config.Usable() && dt > 0.0
      modifies this`prevRaw
      ensures (prevRaw, out) == Commands(old(View()), c, dt, config)
    {
      out := c.target;
      if control == STOPPED {
        out := Motion(config.stoppedVel, config.stoppedAcc);
        prevRaw := Motion(0.0, 0.0);
      } else {
        var raw := c.target;
        if control == EMERGENCY {
          raw := CalcEmergencyCtrlCmd(dt);
        } else {
          if control == DRIVE {
            raw := Motion(c.target.vel, c.driveAcc);
          } else if control == STOPPING {
            raw := Motion(config.stoppedVel, c.stoppingAcc);
          }
          var acc := Clamp(raw.acc, config.minAcc, config.maxAcc);
          raw := Motion(raw.vel, DiffLimited(acc, prevRaw.acc, dt, config.maxJerk, config.minJerk));
        }
        prevRaw := raw;
        var accCmd := raw.acc - c.accFeedback;
        out := Motion(raw.vel, accCmd + c.slope);
      }
      out := Motion(out.vel, DiffLimited(out.acc, prevCmd.acc, dt, Abs(config.maxCmdDiff), -Abs(config.maxCmdDiff)));
    }

    method Run(c: Cycle) returns (cmd: Motion)
      requires config.Usable()
      modifies this
      ensures View() == RunCycle(old(View()), c, config) && cmd == prevCmd
    {
      DtBounded(View(), c, config);
      var dt := GetDt(c);
      if c.far {
        if config.largeErrorEmergency {
          control := EMERGENCY;
        }
        var raw := CalcEmergencyCtrlCmd(dt);
        prevRaw := raw;
        prevCmd := raw;
        return raw;
      }
      UpdateControlState(c);
      cmd := CalcCtrlCmd(c, dt);
      prevCmd := cmd;
    }
  }

  // ----- what every cycle keeps -----

  predicate RawBounded(s: State, config: Config) {
    config.minAcc <= s.prevRaw.acc <= config.maxAcc
  }

  lemma RatesScale(minVal: real, maxVal: real, bound: real, dt: real)
    requires dt > 0.0 && -bound <= minVal && maxVal <= bound
    ensures -Mul(bound, dt) <= Mul(minVal, dt) && Mul(maxVal, dt) <= Mul(bound, dt)
  {
    ProductMonotone(dt, -bound, minVal);
    ProductMonotone(dt, maxVal, bound);
    assert dt * (-bound) == -(bound * dt);
  }

  lemma EmergencyBounded(s: State, dt: real, config: Config)
    requires config.Valid() && dt > 0.0 && RawBounded(s, config)
    ensures var r := EmergencyCommand(s, dt, config);
            config.minAcc <= r.acc <= config.maxAcc && Abs(r.acc - s.prevRaw.acc) <= Mul(config.JerkBound(), dt)
  {
    var j := Abs(config.emergencyJerk);
    DiffLimitBounds(Clamp(config.emergencyAcc, config.minAcc, config.maxAcc), s.prevRaw.acc, dt, j, -j);
    RatesScale(-j, j, config.JerkBound(), dt);
  }

  /** In every state but STOPPED the raw acceleration stays in its limits and its rate inside the
      jerk limits; STOPPED stores zero. */
  lemma RawCommandBounded(s: State, c: Cycle, dt: real, config: Config)
    requires config.Valid() && dt > 0.0 && RawBounded(s, config)
    ensures var r := RawCommand(s, c, dt, config);
            && config.minAcc <= r.acc <= config.maxAcc
            && (if s.control.STOPPED? then r.acc == 0.0 else Abs(r.acc - s.prevRaw.acc) <= Mul(config.JerkBound(), dt))
  {
    match s.control
    case STOPPED =>
    case EMERGENCY => EmergencyBounded(s, dt, config);
    case _ =>
      DiffLimitBounds(Clamp(Demand(s, c, config).acc, config.minAcc, config.maxAcc), s.prevRaw.acc, dt,
                      config.maxJerk, config.minJerk);
      RatesScale(config.minJerk, config.maxJerk, config.JerkBound(), dt);
  }

  lemma UpdateKeepsRaw(s: State, c: Cycle, config: Config)
    ensures Updated(s, c, config).prevRaw == s.prevRaw
  {
  }

  /** One cycle, on the trajectory or far from it. */
  lemma CycleBounded(s: State, c: Cycle, config: Config)
    requires config.Valid() && RawBounded(s, config)
    ensures var r := RunCycle(s, c, config);
            && RawBounded(r, config)
            && (Abs(r.prevRaw.acc - s.prevRaw.acc) <= Mul(config.JerkBound(), CycleDt(s, c, config))
                || (r.control.STOPPED? && !c.far && r.prevRaw.acc == 0.0))
  {
    DtBounded(s, c, config);
    var t := s.(prevTime := c.dtStore);
    if c.far {
      EmergencyBounded(if config.largeErrorEmergency then t.(control := EMERGENCY) else t, CycleDt(s, c, config),
            config);
    } else {
      UpdateKeepsRaw(t, c, config);
      RawCommandBounded(Updated(t, c, config), c, CycleDt(s, c, config), config);
    }
  }

  /** The published acceleration moves by at most the difference limit per cycle, counted from what the
      controller held when it computed it. */
  lemma CommandRateBounded(s: State, c: Cycle, config: Config)
    requires config.Usable() && !c.far
    ensures Abs(RunCycle(s, c, config).prevCmd.acc - Updated(s, c, config).prevCmd.acc)
         <= Mul(Abs(config.maxCmdDiff), CycleDt(s, c, config))
  {
    DtBounded(s, c, config);
    var dt, d := CycleDt(s, c, config), Abs(config.maxCmdDiff);
    var u := Updated(s.(prevTime := c.dtStore), c, config);
    var raw := RawCommand(u, c, dt, config);
    DiffLimitBounds(Unlimited(u, c, raw, config).acc, u.prevCmd.acc, dt, d, -d);
    RatesScale(-d, d, d, dt);
  }

  /** The step from STOPPING to DRIVE, which resets what the limiter counts from. */
  predicate Departs(s: State, c: Cycle, config: Config) {
    !c.far && s.control.STOPPING? && Updated(s, c, config).control.DRIVE?
  }

  /** How far the published acceleration may move in a cycle. */
  function CommandBand(s: State, c: Cycle, config: Config): real {
    Mul(Abs(config.maxCmdDiff), CycleDt(s, c, config))
  }

  /** The acceleration a cycle on the trajectory would publish without the limiter. */
  function Target(s: State, c: Cycle, config: Config): real
    requires config.Usable()
  {
    DtPositive(s, c, config);
    var u := Updated(s.(prevTime := c.dtStore), c, config);
    Unlimited(u, c, RawCommand(u, c, CycleDt(s, c, config), config), config).acc
  }

  /** The emergency acceleration, inside the limits, before its jerk is limited. */
  function EmergencyTarget(config: Config): real
    requires config.Usable()
  {
    Clamp(config.emergencyAcc, config.minAcc, config.maxAcc)
  }

  /** How far an emergency command may move from the last raw one. */
  function EmergencyReach(s: State, c: Cycle, config: Config): real {
    Mul(Abs(config.emergencyJerk), CycleDt(s, c, config))
  }

  lemma DtPositive(s: State, c: Cycle, config: Config)
    requires config.Usable()
    ensures CycleDt(s, c, config) > 0.0
  {
    DtBounded(s, c, config);
  }

  /** What a cycle publishes, with both limiters as clamps: on the trajectory around what was published
      or the reset value, far from it around the last raw acceleration. */
  lemma PublishedAcceleration(s: State, c: Cycle, config: Config)
    requires config.Usable()
    ensures CommandBand(s, c, config) >= 0.0 && EmergencyReach(s, c, config) >= 0.0
    ensures var band, reach := CommandBand(s, c, config), EmergencyReach(s, c, config);
            var from := if Departs(s, c, config) then Max(0.0, s.prevRaw.acc) else s.prevCmd.acc;
            RunCycle(s, c, config).prevCmd.acc
            == if c.far then Clamp(EmergencyTarget(config), s.prevRaw.acc - reach, s.prevRaw.acc + reach)
               else Clamp(Target(s, c, config), from - band, from + band)
  {
    DtPositive(s, c, config);
    var dt, t := CycleDt(s, c, config), s.(prevTime := c.dtStore);
    var u := Updated(t, c, config);
    DiffLimitIsClamp(Target(s, c, config), u.prevCmd.acc, dt, Abs(config.maxCmdDiff));
    DiffLimitIsClamp(EmergencyTarget(config), s.prevRaw.acc, dt, Abs(config.emergencyJerk));
    if !c.far {
      UpdatedBaseline(t, c, config);
    }
  }

  lemma UpdatedBaseline(s: State, c: Cycle, config: Config)
    requires !c.far
    ensures Updated(s, c, config).prevCmd.acc
         == if Departs(s, c, config) then Max(0.0, s.prevRaw.acc) else s.prevCmd.acc
  {
  }

  /** A value within `reach` of `from` that tends to `target` must leave the band around `prev`: because
      all it can reach lies outside, or because the target and part of what it can reach do. */
  predicate Escapes(target: real, from: real, reach: real, prev: real, band: real) {
    || from - reach > prev + band || (target > prev + band && from + reach > prev + band)
    || from + reach < prev - band || (target < prev - band && from - reach < prev - band)
  }

  lemma EscapesIff(target: real, from: real, reach: real, prev: real, band: real)
    requires band >= 0.0 && reach >= 0.0
    ensures Abs(Clamp(target, from - reach, from + reach) - prev) > band <==> Escapes(target, from, reach, prev, band)
  {
  }

  /** Between two published commands the acceleration jumps past its limit exactly when the vehicle is
      far from the trajectory and the emergency target draws the last raw acceleration out of the band;
      or when it departs and the target draws the reset value out of it. */
  predicate CanJump(s: State, c: Cycle, config: Config)
    requires config.Usable()
  {
    var prev, band := s.prevCmd.acc, CommandBand(s, c, config);
    if c.far then Escapes(EmergencyTarget(config), s.prevRaw.acc, EmergencyReach(s, c, config), prev, band)
    else Departs(s, c, config) && Escapes(Target(s, c, config), Max(0.0, s.prevRaw.acc), band, prev, band)
  }

  lemma CommandJumpsIff(s: State, c: Cycle, config: Config)
    requires config.Usable()
    ensures Abs(RunCycle(s, c, config).prevCmd.acc - s.prevCmd.acc) > CommandBand(s, c, config)
       <==> CanJump(s, c, config)
  {
    var band := CommandBand(s, c, config);
    PublishedAcceleration(s, c, config);
    if c.far {
      EscapesIff(EmergencyTarget(config), s.prevRaw.acc, EmergencyReach(s, c, config), s.prevCmd.acc, band);
    } else {
      EscapesIff(Target(s, c, config), if Departs(s, c, config) then Max(0.0, s.prevRaw.acc) else s.prevCmd.acc, band,
                 s.prevCmd.acc, band);
    }
  }

  // ----- whole runs -----

  /** The state before cycle k. */
  function StateAt(s: State, cycles: seq<Cycle>, k: nat, config: Config): State
    requires config.Usable() && k <= |cycles|
  {
    if k == 0 then s else RunCycle(StateAt(s, cycles, k - 1, config), cycles[k - 1], config)
  }

  /** In every run the stored raw acceleration stays in [minAcc, maxAcc], and each cycle changes it by
      at most the largest jerk limit times that cycle's dt, or stores zero on being STOPPED. */
  lemma {:induction false} RawBoundedAlways(s: State, cycles: seq<Cycle>, k: nat, config: Config)
    requires config.Valid() && k <= |cycles| && RawBounded(s, config)
    ensures RawBounded(StateAt(s, cycles, k, config), config)
    ensures forall n | n == k - 1 && 0 <= n ::
              var before, after := StateAt(s, cycles, n, config), StateAt(s, cycles, k, config);
              Abs(after.prevRaw.acc - before.prevRaw.acc) <= Mul(config.JerkBound(), CycleDt(before, cycles[n], config))
              || (after.control.STOPPED? && after.prevRaw.acc == 0.0)
  {
    if k > 0 {
      RawBoundedAlways(s, cycles, k - 1, config);
      CycleBounded(StateAt(s, cycles, k - 1, config), cycles[k - 1], config);
    }
  }

  /** In every run: the commands published by cycles k - 1 and k. */
  lemma PublishedJumpsIff(s: State, cycles: seq<Cycle>, k: nat, config: Config)
    requires config.Usable() && 0 < k < |cycles|
    ensures var before, after := StateAt(s, cycles, k, config), StateAt(s, cycles, k + 1, config);
            Abs(after.prevCmd.acc - before.prevCmd.acc) > CommandBand(before, cycles[k], config)
            <==> CanJump(before, cycles[k], config)
  {
    CommandJumpsIff(StateAt(s, cycles, k, config), cycles[k], config);
  }

  // Both exceptions are real: two runs from the state a new controller is in.

  const JUMPY := Config(1.0, -3.0, 2.0, -10.0, 10.0, 1.0, 0.0, -3.0, 10.0, 0.0, -3.0, 1.0, 0.0, 0.5, 0.01, 0.1, 1.0,
                        true, true, false, true)
  const NEW_CONTROLLER := State(STOPPED, Motion(0.0, 0.0), Motion(0.0, 0.0), None, 1.0, 0.0)

  /** A cycle at time t: the vehicle moves, the smooth stop asks for full braking. */
  function JumpyCycle(t: real, far: bool, stopDist: real, driveAcc: real): Cycle {
    Cycle(t, t, t, t, far, 1.0, 0.0, stopDist, Forward, Motion(1.0, 0.0), 1.0, true, true, driveAcc, -3.0, 0.0, 0.0)
  }

  function AtSecond(n: nat, control: ControlState, raw: Motion, cmd: Motion, keep: Option<bool>): State {
    State(control, raw, cmd, keep, n as real, n as real)
  }

  lemma JumpyLimits(input: real, prev: real)
    ensures DiffLimited(input, prev, 1.0, 10.0, -10.0) == Clamp(input, prev - 10.0, prev + 10.0)
    ensures DiffLimited(input, prev, 1.0, 1.0, -1.0) == Clamp(input, prev - 1.0, prev + 1.0)
  {
    DiffLimitIsClamp(input, prev, 1.0, 10.0);
    DiffLimitIsClamp(input, prev, 1.0, 1.0);
    assert Mul(10.0, 1.0) == 10.0 && Mul(1.0, 1.0) == 1.0;
  }

  /** A new controller holds the vehicle: it publishes -1 on its way to -3. */
  lemma Holds()
    ensures JUMPY.Valid()
    ensures RunCycle(NEW_CONTROLLER, JumpyCycle(1.0, false, 0.0, 0.0), JUMPY)
         == AtSecond(1, STOPPED, Motion(0.0, 0.0), Motion(0.0, -1.0), None)
  {
    JumpyLimits(-3.0, 0.0);
  }

  lemma Emergency()
    ensures RunCycle(AtSecond(1, STOPPED, Motion(0.0, 0.0), Motion(0.0, -1.0), None), JumpyCycle(2.0, true, 0.0, 0.0),
                     JUMPY).prevCmd.acc == -3.0
  {
    JumpyLimits(-3.0, 0.0);
  }

  /** Far from the trajectory in its second cycle, it publishes -3 right after -1. */
  lemma EmergencyJumps()
    ensures var cycles := [JumpyCycle(1.0, false, 0.0, 0.0), JumpyCycle(2.0, true, 0.0, 0.0)];
            var before := StateAt(NEW_CONTROLLER, cycles, 1, JUMPY);
            && before.prevCmd.acc == -1.0 && StateAt(NEW_CONTROLLER, cycles, 2, JUMPY).prevCmd.acc == -3.0
            && CommandBand(before, cycles[1], JUMPY) == 1.0 && CanJump(before, cycles[1], JUMPY)
  {
    var cycles := [JumpyCycle(1.0, false, 0.0, 0.0), JumpyCycle(2.0, true, 0.0, 0.0)];
    Holds();
    Emergency();
    var before := AtSecond(1, STOPPED, Motion(0.0, 0.0), Motion(0.0, -1.0), None);
    assert StateAt(NEW_CONTROLLER, cycles, 0, JUMPY) == NEW_CONTROLLER;
    assert StateAt(NEW_CONTROLLER, cycles, 1, JUMPY) == before;
    JumpyBand(before, cycles[1]);
    CommandJumpsIff(before, cycles[1], JUMPY);
  }

  lemma JumpyBand(s: State, c: Cycle)
    requires s.prevTime != 0.0 && c.dtNow == s.prevTime + 1.0
    ensures CommandBand(s, c, JUMPY) == 1.0
  {
    assert Mul(1.0, 1.0) == 1.0;
  }

  /** One cycle on the trajectory, in its three parts. */
  lemma CycleInParts(s: State, c: Cycle, u: State, raw: Motion, out: Motion)
    requires !c.far && CycleDt(s, c, JUMPY) == 1.0 && u == Updated(s.(prevTime := c.dtStore), c, JUMPY)
    requires (raw, out) == Commands(u, c, 1.0, JUMPY)
    ensures RunCycle(s, c, JUMPY) == u.(prevRaw := raw, prevCmd := out)
  {
  }

  /** What it publishes while driving or stopping, in terms of the clamps. */
  lemma MovingCommands(s: State, c: Cycle, demand: Motion, raw: real)
    requires (s.control.DRIVE? || s.control.STOPPING?) && demand == Demand(s, c, JUMPY)
    requires c.accFeedback == 0.0 && c.slope == 0.0
    requires raw == Clamp(Clamp(demand.acc, -3.0, 2.0), s.prevRaw.acc - 10.0, s.prevRaw.acc + 10.0)
    ensures Commands(s, c, 1.0, JUMPY)
         == (Motion(demand.vel, raw), Motion(demand.vel, Clamp(raw, s.prevCmd.acc - 1.0, s.prevCmd.acc + 1.0)))
  {
    JumpyLimits(Clamp(demand.acc, -3.0, 2.0), s.prevRaw.acc);
    JumpyLimits(raw, s.prevCmd.acc);
    assert raw - c.accFeedback + c.slope == raw;
  }

  lemma DriveUpdate(c: Cycle)
    requires c == JumpyCycle(1.0, false, 5.0, 0.0)
    ensures Updated(NEW_CONTROLLER.(prevTime := 1.0), c, JUMPY)
         == AtSecond(1, DRIVE, Motion(0.0, 0.0), Motion(0.0, 0.0), Some(false))
    ensures CycleDt(NEW_CONTROLLER, c, JUMPY) == 1.0
  {
  }

  /** It drives off ... */
  lemma Drives()
    ensures RunCycle(NEW_CONTROLLER, JumpyCycle(1.0, false, 5.0, 0.0), JUMPY)
         == AtSecond(1, DRIVE, Motion(1.0, 0.0), Motion(1.0, 0.0), Some(false))
  {
    var c := JumpyCycle(1.0, false, 5.0, 0.0);
    var u := AtSecond(1, DRIVE, Motion(0.0, 0.0), Motion(0.0, 0.0), Some(false));
    DriveUpdate(c);
    MovingCommands(u, c, Motion(1.0, 0.0), 0.0);
    CycleInParts(NEW_CONTROLLER, c, u, Motion(1.0, 0.0), Motion(1.0, 0.0));
  }

  lemma BrakeUpdate(s: State, c: Cycle)
    requires s == AtSecond(1, DRIVE, Motion(1.0, 0.0), Motion(1.0, 0.0), Some(false))
    requires c == JumpyCycle(2.0, false, 0.4, 0.0)
    ensures Updated(s.(prevTime := 2.0), c, JUMPY) == AtSecond(2, STOPPING, Motion(1.0, 0.0), Motion(1.0, 0.0), None)
    ensures CycleDt(s, c, JUMPY) == 1.0
  {
  }

  /** ... brakes for a stop point ... */
  lemma Brakes(s: State, c: Cycle)
    requires s == AtSecond(1, DRIVE, Motion(1.0, 0.0), Motion(1.0, 0.0), Some(false))
    requires c == JumpyCycle(2.0, false, 0.4, 0.0)
    ensures RunCycle(s, c, JUMPY) == AtSecond(2, STOPPING, Motion(0.0, -3.0), Motion(0.0, -1.0), None)
  {
    var u := AtSecond(2, STOPPING, Motion(1.0, 0.0), Motion(1.0, 0.0), None);
    BrakeUpdate(s, c);
    MovingCommands(u, c, Motion(0.0, -3.0), -3.0);
    CycleInParts(s, c, u, Motion(0.0, -3.0), Motion(0.0, -1.0));
  }

  lemma DepartUpdate(s: State, c: Cycle)
    requires s == AtSecond(2, STOPPING, Motion(0.0, -3.0), Motion(0.0, -1.0), None)
    requires c == JumpyCycle(3.0, false, 5.0, 2.0)
    ensures Updated(s.(prevTime := 3.0), c, JUMPY) == AtSecond(3, DRIVE, Motion(0.0, -3.0), Motion(0.0, 0.0), None)
    ensures CycleDt(s, c, JUMPY) == 1.0
  {
  }

  /** ... and departs when that is gone. */
  lemma DepartsAgain(s: State, c: Cycle)
    requires s == AtSecond(2, STOPPING, Motion(0.0, -3.0), Motion(0.0, -1.0), None)
    requires c == JumpyCycle(3.0, false, 5.0, 2.0)
    ensures RunCycle(s, c, JUMPY) == AtSecond(3, DRIVE, Motion(1.0, 2.0), Motion(1.0, 1.0), None)
  {
    var u := AtSecond(3, DRIVE, Motion(0.0, -3.0), Motion(0.0, 0.0), None);
    DepartUpdate(s, c);
    MovingCommands(u, c, Motion(1.0, 2.0), 2.0);
    CycleInParts(s, c, u, Motion(1.0, 2.0), Motion(1.0, 1.0));
  }

  function DepartingCycles(): seq<Cycle> {
    [JumpyCycle(1.0, false, 5.0, 0.0), JumpyCycle(2.0, false, 0.4, 0.0), JumpyCycle(3.0, false, 5.0, 2.0)]
  }

  lemma AfterDriving()
    ensures StateAt(NEW_CONTROLLER, DepartingCycles(), 1, JUMPY)
         == AtSecond(1, DRIVE, Motion(1.0, 0.0), Motion(1.0, 0.0), Some(false))
  {
    Drives();
    assert StateAt(NEW_CONTROLLER, DepartingCycles(), 0, JUMPY) == NEW_CONTROLLER;
  }

  lemma AfterBraking()
    ensures StateAt(NEW_CONTROLLER, DepartingCycles(), 2, JUMPY)
         == AtSecond(2, STOPPING, Motion(0.0, -3.0), Motion(0.0, -1.0), None)
  {
    AfterDriving();
    Brakes(StateAt(NEW_CONTROLLER, DepartingCycles(), 1, JUMPY), DepartingCycles()[1]);
  }

  lemma AfterDeparting()
    ensures StateAt(NEW_CONTROLLER, DepartingCycles(), 3, JUMPY)
         == AtSecond(3, DRIVE, Motion(1.0, 2.0), Motion(1.0, 1.0), None)
  {
    AfterBraking();
    DepartsAgain(StateAt(NEW_CONTROLLER, DepartingCycles(), 2, JUMPY), DepartingCycles()[2]);
  }

  /** In this run the third cycle publishes 1 right after -1. */
  lemma DepartureJumps()
    ensures var cycles, before := DepartingCycles(), StateAt(NEW_CONTROLLER, DepartingCycles(), 2, JUMPY);
            && before.prevCmd.acc == -1.0 && StateAt(NEW_CONTROLLER, cycles, 3, JUMPY).prevCmd.acc == 1.0
            && CommandBand(before, cycles[2], JUMPY) == 1.0 && CanJump(before, cycles[2], JUMPY)
  {
    AfterBraking();
    AfterDeparting();
    JumpyBand(StateAt(NEW_CONTROLLER, DepartingCycles(), 2, JUMPY), DepartingCycles()[2]);
    PublishedJumpsIff(NEW_CONTROLLER, DepartingCycles(), 2, JUMPY);
  }

  // ----- leaving STOPPED -----

  /** Cycle k evaluates the departure condition from STOPPED and finds it met. */
  predicate Evaluates(before: State, c: Cycle, config: Config) {
    !c.far && before.control.STOPPED? && c.stopDist > config.driveStopDist
  }

  lemma StepFromStopped(s: State, c: Cycle, config: Config)
    requires config.Usable()
    ensures var r := RunCycle(s, c, config);
            && (Evaluates(s, c, config) ==> r.prevKeepStopped == Some(KeepStopped(c)))
            && (s.control.STOPPED? && !Evaluates(s, c, config) ==>
                  r.prevKeepStopped == s.prevKeepStopped && !r.control.DRIVE?)
            && (!s.control.STOPPED? && r.control.STOPPED? ==> r.prevKeepStopped.None?)
            && (s.control.STOPPED? ==>
                  (r.control.DRIVE? <==>
                     Evaluates(s, c, config)
                     && (config.keepStopped ==> !KeepStopped(c) && s.prevKeepStopped == Some(false))))
  {
  }

  predicate StoppedAt(s: State, cycles: seq<Cycle>, k: nat, config: Config)
    requires config.Usable() && k <= |cycles|
  {
    StateAt(s, cycles, k, config).control.STOPPED?
  }

  predicate EvaluatesAt(s: State, cycles: seq<Cycle>, k: nat, config: Config)
    requires config.Usable() && k < |cycles|
  {
    Evaluates(StateAt(s, cycles, k, config), cycles[k], config)
  }

  /** Cycle j is the latest evaluation before k in one stay in STOPPED. */
  ghost predicate LastEvaluation(s: State, cycles: seq<Cycle>, j: nat, k: nat, config: Config)
    requires config.Usable() && k <= |cycles|
  {
    && j < k && EvaluatesAt(s, cycles, j, config)
    && (forall m | j <= m <= k :: StoppedAt(s, cycles, m, config))
    && (forall m | j < m < k :: !EvaluatesAt(s, cycles, m, config))
  }

  /** What cycle k does to the memory of the last evaluation, on the states of a run. */
  lemma StepOfRun(s: State, cycles: seq<Cycle>, k: nat, config: Config)
    requires config.Usable() && k < |cycles|
    ensures var before, after := StateAt(s, cycles, k, config), StateAt(s, cycles, k + 1, config);
            && (Evaluates(before, cycles[k], config) ==> after.prevKeepStopped == Some(KeepStopped(cycles[k])))
            && (after.control.STOPPED? && after.prevKeepStopped.Some? && !Evaluates(before, cycles[k], config) ==>
                  before.control.STOPPED? && before.prevKeepStopped == after.prevKeepStopped)
  {
    StepFromStopped(StateAt(s, cycles, k, config), cycles[k], config);
  }

  lemma StayContinues(s: State, cycles: seq<Cycle>, j: nat, k: nat, config: Config)
    requires config.Usable() && k < |cycles| && LastEvaluation(s, cycles, j, k, config)
    requires !EvaluatesAt(s, cycles, k, config) && StoppedAt(s, cycles, k + 1, config)
    ensures LastEvaluation(s, cycles, j, k + 1, config)
  {
    forall m | j <= m <= k + 1
      ensures StoppedAt(s, cycles, m, config)
    {
    }
    forall m | j < m < k + 1
      ensures !EvaluatesAt(s, cycles, m, config)
    {
    }
  }

  lemma {:induction false} MemoryIsLastEvaluation(s: State, cycles: seq<Cycle>, k: nat, config: Config) returns (j: nat)
    requires config.Usable() && k <= |cycles| && s.prevKeepStopped.None?
    requires StateAt(s, cycles, k, config).control.STOPPED? && StateAt(s, cycles, k, config).prevKeepStopped.Some?
    ensures LastEvaluation(s, cycles, j, k, config)
    ensures StateAt(s, cycles, k, config).prevKeepStopped == Some(KeepStopped(cycles[j]))
  {
    StepOfRun(s, cycles, k - 1, config);
    assert StoppedAt(s, cycles, k, config);
    if EvaluatesAt(s, cycles, k - 1, config) {
      j := k - 1;
    } else {
      j := MemoryIsLastEvaluation(s, cycles, k - 1, config);
      StayContinues(s, cycles, j, k - 1, config);
    }
  }

  /** With keep-stopped enabled the controller goes from STOPPED to DRIVE only at the second of two
      successive evaluations of the departure condition in the same stay, each finding the vehicle
      moving or the steering converged. */
  lemma DepartsAfterTwoEvaluations(s: State, cycles: seq<Cycle>, k: nat, config: Config) returns (j: nat)
    requires config.Usable() && config.keepStopped && k < |cycles| && s.prevKeepStopped.None?
    requires StateAt(s, cycles, k, config).control.STOPPED? && StateAt(s, cycles, k + 1, config).control.DRIVE?
    ensures LastEvaluation(s, cycles, j, k, config) && EvaluatesAt(s, cycles, k, config)
    ensures !KeepStopped(cycles[j]) && !KeepStopped(cycles[k])
  {
    StepFromStopped(StateAt(s, cycles, k, config), cycles[k], config);
    j := MemoryIsLastEvaluation(s, cycles, k, config);
  }
}
