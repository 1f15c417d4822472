/** controller_node.cpp as functions on the supervisor's state: callbacks, the control timer
    and the single publishing gate. Trajectory contents and the follower's control laws are
    inputs; clock readings are inputs too. */
module ControllerState {
  import opened Options
  import opened CanCodec
  import opened RealArithmetic
  import opened Supervision
  import opened CandidateIdentity
  import opened SiChannel

  datatype Mode = SiControl | VpControl

  datatype TrajectorySource = FromVp | FromAutoware

  datatype Decision = NORMAL | SI_STOP | HOLD

  datatype SelectedSource = FOLLOWER | VP_COMMAND

  datatype Config = Config(
    mode: Mode, trajectorySource: TrajectorySource, siFaultInput: bool,
    candidateTimeout: Timeout, egoTimeout: Timeout, steeringTimeout: Timeout,
    opmodeTimeout: Timeout, heartbeatTimeout: Timeout,
    maxSteering: real, followerMaxSteer: real, maxVelocity: real, maxAcceleration: real,
    stopDecel: real, reenableWindow: real)
  {
    function Source(): SelectedSource {
      if mode.VpControl? then VP_COMMAND else FOLLOWER
    }

    function FollowerEnvelope(): Envelope {
      Envelope(followerMaxSteer + 0.001, maxVelocity, maxAcceleration)
    }

    function VpEnvelope(): Envelope {
      Envelope(maxSteering, maxVelocity, maxAcceleration)
    }
  }

  datatype VpCommand = VpCommand(valid: bool, hasStamp: bool, candidate: Candidate,
                                 steering: Float, speed: Float, acceleration: Float)

  /** Readings of the arrival clock and of the steady clock during one callback. */
  datatype Clocks = Clocks(now: real, latchNow: real, latchSteady: real, stopSteady: real)

  /** What the two controllers answer on a tick. */
  datatype Follower = NotReady | Proposes(control: Control)

  datatype ApprovedRequest = ApprovedRequest(sequence: nat, decision: Decision, source: SelectedSource,
                             sourceSession: nat, sourceCycle: nat, faultId: nat, control: Control)

  /** Messages of the vehicle and of VisionPilot's heartbeat. */
  datatype Report =
    | Odometry(velocity: Float)
    | Acceleration
    | SteeringReport(angle: Float)
    | OperationMode
    | Heartbeat

  /** Messages of the sources that may drive. The checks on trajectory contents are inputs. */
  datatype Offer =
    | Trajectory(wellFormed: bool, finite: bool, stamp: SourceStamp)
    | Reference(wellFormed: bool, usable: bool, finite: bool, candidate: Candidate, placed: bool)
    | DrivingCommand(command: VpCommand)

  datatype Verdict = Ignored | Rejected(why: string) | Accepted

  datatype Event =
    | Reported(c: Clocks, report: Report)
    | Offered(c: Clocks, offer: Offer)
    | Reenable(c: Clocks, pressed: bool)
    | FaultMessage(data: string)
    | Tick(c: Clocks, follower: Follower)
  {
    /** Arrival clocks count from an epoch; the sentinel of a watch is below it. */
    predicate Timed() {
      FaultMessage? || c.now >= 0.0
    }
  }

  /** What a tick makes of its candidates. */
  datatype Choice = KeepStopped | NothingToDo | Refuse(why: string) | Approve(control: Control)
  {
    function Decision(): Decision {
      match this
      case KeepStopped => SI_STOP
      case NothingToDo => HOLD
      case Refuse(_) => SI_STOP
      case Approve(_) => NORMAL
    }
  }

  // ----- the state -----

  /** Feedback from the vehicle and the heartbeat: arrivals and the last samples. */
  datatype Feedback = Feedback(
    odometryWatch: SourceWatch, accelWatch: SourceWatch, steeringWatch: SourceWatch,
    opmodeWatch: SourceWatch, heartbeatWatch: SourceWatch,
    hasOdometry: bool, velocity: Float, hasAccel: bool, hasSteering: bool, steeringAngle: Float, hasOpmode: bool)
  {
    /** The first feedback source that is too old. */
    function StaleReason(now: real, config: Config): Option<string> {
      if odometryWatch.Stale(now, config.egoTimeout) then Some("odometry")
      else if accelWatch.Stale(now, config.egoTimeout) then Some("acceleration")
      else if steeringWatch.Stale(now, config.steeringTimeout) then Some("steering report")
      else if opmodeWatch.Stale(now, config.opmodeTimeout) then Some("operation mode")
      else if heartbeatWatch.Stale(now, config.heartbeatTimeout) then Some("vp heartbeat")
      else None
    }

    predicate Fresh(now: real, config: Config) {
      && odometryWatch.Live(now, config.egoTimeout) && accelWatch.Live(now, config.egoTimeout)
      && steeringWatch.Live(now, config.steeringTimeout) && opmodeWatch.Live(now, config.opmodeTimeout)
      && !heartbeatWatch.Stale(now, config.heartbeatTimeout)
    }

    predicate Seen() {
      odometryWatch.Ever() && accelWatch.Ever() && steeringWatch.Ever() && opmodeWatch.Ever()
    }

    function Receive(c: Clocks, report: Report): Feedback {
      match report
      case Odometry(v) => this.(hasOdometry := true, velocity := v, odometryWatch := odometryWatch.Note(c.now))
      case Acceleration => this.(hasAccel := true, accelWatch := accelWatch.Note(c.now))
      case SteeringReport(a) => this.(hasSteering := true, steeringAngle := a,
            steeringWatch := steeringWatch.Note(c.now))
      case OperationMode => this.(hasOpmode := true, opmodeWatch := opmodeWatch.Note(c.now))
      case Heartbeat => this.(heartbeatWatch := heartbeatWatch.Note(c.now))
    }

    /** The ramp of a stop that starts now. */
    function NewRamp(c: Clocks, config: Config): StopRamp {
      StartRamp(if hasOdometry then velocity else Finite(0.0), odometryWatch, c.latchNow, config.egoTimeout,
            c.latchSteady)
    }
  }

  /** The sources that may drive: trajectories in SI_CONTROL, VisionPilot commands in VP_CONTROL. */
  datatype Driving = Driving(
    candidateWatch: SourceWatch, vpWatch: SourceWatch, hasTrajectory: bool, hasVpCommand: bool, vpCommand: VpCommand,
    vpIdentity: Identity, trajectoryIdentity: StampIdentity)
  {
    function Selected(mode: Mode): SourceWatch {
      if mode.VpControl? then vpWatch else candidateWatch
    }

    function StaleReason(now: real, config: Config): Option<string> {
      if !Selected(config.mode).Stale(now, config.candidateTimeout) then None
      else if config.mode.VpControl? then Some("vp command")
      else Some("trajectory")
    }

    /** The three driving callbacks: what is ignored, what is a fault, what is taken. */
    function Judge(offer: Offer, config: Config): Verdict
      requires vpIdentity.Valid()
    {
      match offer
      case Trajectory(wellFormed, finite, stamp) =>
        if !config.mode.SiControl? || !config.trajectorySource.FromAutoware? then Ignored
        else if !wellFormed then Rejected("invalid autoware trajectory")
        else if !finite then Rejected("non-finite autoware trajectory")
        else OfCheck(trajectoryIdentity.Check(stamp), "autoware trajectory stamp regression or invalid stamp")
      case Reference(wellFormed, usable, finite, candidate, placed) =>
        if !config.mode.SiControl? || !config.trajectorySource.FromVp? then Ignored
        else if !wellFormed then Rejected("invalid vp driving reference")
        else if !usable then Ignored
        else if !finite then Rejected("non-finite vp driving reference")
        else
          var verdict := OfCheck(vpIdentity.Check(candidate), "vp driving reference regression or invalid stamp");
          if verdict.Accepted? && !placed then Ignored else verdict
      case DrivingCommand(m) =>
        if !config.mode.VpControl? || !m.valid || !m.hasStamp then Ignored
        else
          var verdict := OfCheck(vpIdentity.Check(m.candidate), "vp command regression or invalid stamp");
          if verdict.Accepted? && CommandFault(m, config).Some? then Rejected(CommandFault(m, config).value)
          else verdict
    }

    function Take(c: Clocks, offer: Offer): (r: Driving)
      requires vpIdentity.Valid()
      ensures r.vpIdentity.Valid()
    {
      match offer
      case Trajectory(_, _, stamp) =>
        this.(hasTrajectory := true, candidateWatch := candidateWatch.Note(c.now),
              trajectoryIdentity := trajectoryIdentity.Note(stamp))
      case Reference(_, _, _, candidate, _) =>
        this.(hasTrajectory := true, candidateWatch := candidateWatch.Note(c.now),
              vpIdentity := vpIdentity.Note(candidate))
      case DrivingCommand(m) =>
        this.(vpIdentity := vpIdentity.Note(m.candidate), vpCommand := m, hasVpCommand := true,
              vpWatch := vpWatch.Note(c.now))
    }
  }

  /** A repeated sample is not fresh; any other refusal is a fault. */
  function OfCheck(check: CandidateCheck, why: string): Verdict {
    match check
    case DUPLICATE => Ignored
    case ACCEPT => Accepted
    case _ => Rejected(why)
  }

  datatype Fault = Fault(latch: Latch, request: Request, ramp: StopRamp)
  {
    /** `latchFault`: an edge starts a new ramp, another reason replaces the reason, and both drop
        a pending press; the same reason again changes nothing. */
    function Raise(why: string, newRamp: StopRamp): Fault {
      if !latch.latched then Fault(latch.Trip(why), request.Clear(), newRamp)
      else if latch.reason != why then Fault(Latch(true, latch.faultId, why), request.Clear(), ramp)
      else this
    }

    function RaiseIf(why: Option<string>, newRamp: StopRamp): Fault {
      if why.Some? then Raise(why.value, newRamp) else this
    }

    /** Expiry of a press and the latch decision. The boolean says that the tick stops. */
    function Decide(now: real, window: real, allFresh: bool): (bool, Fault) {
      if !latch.latched then (false, this)
      else
        var live := request.ExpireIfOld(now, window);
        var (stops, latch', request') := latch.StopThisTick(live, live.pending && allFresh);
        (stops, Fault(latch', request', ramp))
    }
  }

  /** What the publishing gate remembers. */
  datatype Gate = Gate(sourceSession: nat, sourceCycle: nat, hasApproved: bool, lastApproved: Control, outSeq: nat)
  {
    function Known(feedback: Feedback): Option<Control> {
      if hasApproved then Some(lastApproved)
      else if feedback.hasSteering then
        Some(ZERO_CONTROL.(lateral := Lateral(feedback.steeringAngle, Finite(0.0), false)))
      else None
    }

    function Publish(decision: Decision, control: Control, config: Config, latch: Latch): (Gate, ApprovedRequest) {
      (Gate(sourceSession, sourceCycle, hasApproved || decision.NORMAL?,
            if decision.NORMAL? then control else lastApproved, outSeq + 1),
       ApprovedRequest(outSeq + 1, decision, config.Source(), sourceSession, sourceCycle,
                       if latch.latched then latch.faultId else 0, control))
    }
  }

  datatype State = State(
    config: Config, feedback: Feedback, driving: Driving, fault: Fault,
    channel: Channel, eventsSeen: nat, gate: Gate)
  {
    function StaleReason(now: real): Option<string> {
      var reason := feedback.StaleReason(now, config);
      if reason.Some? then reason else driving.StaleReason(now, config)
    }

    predicate FaultHeld() {
      config.siFaultInput && channel.fault
    }

    predicate AllSourcesFresh(now: real) {
      && feedback.Fresh(now, config) && !FaultHeld()
      && driving.Selected(config.mode).Live(now, config.candidateTimeout)
    }

    predicate InputsSeen() {
      && feedback.hasAccel && feedback.hasSteering && driving.hasTrajectory
      && feedback.hasOdometry && feedback.hasOpmode
    }

    predicate NewInputEdges() {
      config.siFaultInput && channel.events != eventsSeen
    }

    function Raise(why: string, c: Clocks): State {
      this.(fault := fault.Raise(why, feedback.NewRamp(c, config)))
    }

    // ----- the control timer -----

    /** Step 1 of the tick: stale sources first, then new edges of the fault input. */
    function CheckedFault(c: Clocks): Fault {
      fault.RaiseIf(StaleReason(c.now), feedback.NewRamp(c, config))
           .RaiseIf(if NewInputEdges() then Some("si fault input") else None, feedback.NewRamp(c, config))
    }

    /** Step 2: the latch decision. */
    function DecidedFault(c: Clocks): (bool, Fault) {
      CheckedFault(c).Decide(c.now, config.reenableWindow, AllSourcesFresh(c.now))
    }

    function VpControlPayload(): Control {
      Control(Lateral(driving.vpCommand.steering, Finite(0.0), false),
              Longitudinal(driving.vpCommand.speed, driving.vpCommand.acceleration, Finite(0.0), true, false))
    }

    function FollowerViolation(out: Control): Option<string> {
      EnvelopeViolation(out.lateral.angle, out.longitudinal.velocity, out.longitudinal.acceleration,
                        config.FollowerEnvelope())
    }

    /** Steps 3 to 8: what a tick that does not stop may approve. */
    function Choose(follower: Follower): Choice {
      if config.mode.VpControl? then
        if driving.hasVpCommand && feedback.Seen() then Approve(VpControlPayload()) else NothingToDo
      else if !InputsSeen() || follower.NotReady? then NothingToDo
      else
        var why := FollowerViolation(follower.control);
        if why.Some? then Refuse("follower " + why.value) else Approve(follower.control)
    }

    function TickChoice(c: Clocks, follower: Follower): Choice {
      if DecidedFault(c).0 then KeepStopped else Choose(follower)
    }

    function TickFault(c: Clocks, follower: Follower): Fault {
      var choice := TickChoice(c, follower);
      if choice.Refuse? then DecidedFault(c).1.Raise(choice.why, feedback.NewRamp(c, config)) else DecidedFault(c).1
    }

    /** Steering as last approved or, before any approval, as reported; standstill or stop ramp. */
    function StoppedPayload(f: Fault, c: Clocks): Control {
      var out := StopControl(gate.Known(feedback), config.stopDecel);
      if f.latch.latched then
        out.(longitudinal := out.longitudinal.(velocity :=
               Finite(f.ramp.Velocity(config.stopDecel, config.maxVelocity, c.stopSteady))))
      else out
    }

    function TickControl(c: Clocks, follower: Follower): Control {
      var choice := TickChoice(c, follower);
      if choice.Approve? then choice.control else StoppedPayload(TickFault(c, follower), c)
    }

    function TickGate(c: Clocks, follower: Follower): (Gate, ApprovedRequest) {
      var choice := TickChoice(c, follower);
      var candidate := driving.vpCommand.candidate;
      var from := if choice.Approve? && config.mode.VpControl?
                  then gate.(sourceSession := candidate.session, sourceCycle := candidate.cycle) else gate;
      from.Publish(choice.Decision(), TickControl(c, follower), config, TickFault(c, follower).latch)
    }

    function OnTick(c: Clocks, follower: Follower): State {
      State(config, feedback, driving, TickFault(c, follower), channel,
            if config.siFaultInput then channel.events else eventsSeen, TickGate(c, follower).0)
    }

    // ----- callbacks -----

    function OnOffer(c: Clocks, offer: Offer): State
      requires driving.vpIdentity.Valid()
    {
      match driving.Judge(offer, config)
      case Ignored => this
      case Rejected(why) => Raise(why, c)
      case Accepted =>
        this.(driving := driving.Take(c, offer),
              gate := if offer.Reference?
                      then gate.(sourceSession := offer.candidate.session, sourceCycle := offer.candidate.cycle)
                      else gate)
    }

    /** One event: a callback, a message on the fault channel, or a control tick. */
    function Step(e: Event): State
      requires driving.vpIdentity.Valid()
    {
      match e
      case Reported(c, report) => this.(feedback := feedback.Receive(c, report))
      case Offered(c, offer) => OnOffer(c, offer)
      case Reenable(c, pressed) =>
        if pressed then this.(fault := fault.(request := fault.request.Press(c.now))) else this
      case FaultMessage(data) => this.(channel := channel.Receive(data))
      case Tick(c, follower) => OnTick(c, follower)
    }

    /** What an event publishes. */
    function Output(e: Event): seq<ApprovedRequest> {
      if e.Tick? then [TickGate(e.c, e.follower).1] else []
    }
  }

  /** Why a VisionPilot command cannot be actuated. */
  function CommandFault(m: VpCommand, config: Config): Option<string> {
    if m.steering.NonFinite? || m.speed.NonFinite? || m.acceleration.NonFinite? then Some("vp command not finite")
    else if Abs(m.steering.r) > config.maxSteering then Some("vp steering out of range")
    else if m.speed.r < 0.0 || m.speed.r > config.maxVelocity then Some("vp speed out of range")
    else if Abs(m.acceleration.r) > config.maxAcceleration then Some("vp accel out of range")
    else None
  }

  const NO_CANDIDATE := Candidate(0, 0, SourceStamp(0, 0))
  const NO_VP_COMMAND := VpCommand(false, false, NO_CANDIDATE, Finite(0.0), Finite(0.0), Finite(0.0))
  const ZERO_CONTROL := Control(ZERO_LATERAL, Longitudinal(Finite(0.0), Finite(0.0), Finite(0.0), false, false))

  /** A new node; the fault channel may already have received messages. */
  function Initial(config: Config, channel: Channel): State {
    State(config,
          Feedback(UNSEEN_SOURCE, UNSEEN_SOURCE, UNSEEN_SOURCE, UNSEEN_SOURCE, UNSEEN_SOURCE,
                   false, Finite(0.0), false, false, Finite(0.0), false),
          Driving(UNSEEN_SOURCE, UNSEEN_SOURCE, false, false, NO_VP_COMMAND, UNSEEN, StampIdentity(None)),
          Fault(Latch(false, 0, ""), Request(false, 0.0), StopRamp(Finite(0.0), 0.0)),
          channel, 0, Gate(0, 0, false, ZERO_CONTROL, 0))
  }
}
