/** controller_node.cpp: the node's callbacks and control timer, proved against the functions
    of ControllerState. */
module Controller {
  import opened Options
  import opened CanCodec
  import opened RealArithmetic
  import opened Supervision
  import opened CandidateIdentity
  import opened SiChannel
  import opened ControllerState

  /** One row of the freshness tables. */
  datatype Check = Check(watch: SourceWatch, timeout: Timeout, name: string)

  class ControllerNode {
    const config: Config
    const channel: SiChannelState

    var feedback: Feedback
    var driving: Driving
    var fault: Fault
    var gate: Gate
    var eventsSeen: nat

    ghost function View(): State
      reads this, channel
    {
      State(config, feedback, driving, fault, channel.View(), eventsSeen, gate)
    }

    ghost predicate Valid()
      reads this
    {
      driving.vpIdentity.Valid()
    }

    constructor (config: Config, channel: SiChannelState)
      ensures Valid() && View() == Initial(config, channel.View()) && this.channel == channel
    {
      this.config := config;
      this.channel := channel;
      feedback := Initial(config, SILENT).feedback;
      driving := Initial(config, SILENT).driving;
      fault := Initial(config, SILENT).fault;
      gate := Initial(config, SILENT).gate;
      eventsSeen := 0;
    }

    // ----- feedback callbacks -----

    method CallbackOdometry(c: Clocks, sample: Float)
      requires Valid()
      modifies this
      ensures Valid() && View() == old(View()).Step(Reported(c, Odometry(sample)))
    {
      feedback := feedback.(velocity := sample);
      feedback := feedback.(hasOdometry := true);
      feedback := feedback.(odometryWatch := feedback.odometryWatch.Note(c.now));
    }

    method CallbackAcceleration(c: Clocks)
      requires Valid()
      modifies this
      ensures Valid() && View() == old(View()).Step(Reported(c, Acceleration))
    {
      feedback := feedback.(hasAccel := true);
      feedback := feedback.(accelWatch := feedback.accelWatch.Note(c.now));
    }

    method CallbackSteeringStatus(c: Clocks, angle: Float)
      requires Valid()
      modifies this
      ensures Valid() && View() == old(View()).Step(Reported(c, SteeringReport(angle)))
    {
      feedback := feedback.(steeringAngle := angle);
      feedback := feedback.(hasSteering := true);
      feedback := feedback.(steeringWatch := feedback.steeringWatch.Note(c.now));
    }

    method CallbackOperationModeState(c: Clocks)
      requires Valid()
      modifies this
      ensures Valid() && View() == old(View()).Step(Reported(c, OperationMode))
    {
      feedback := feedback.(hasOpmode := true);
      feedback := feedback.(opmodeWatch := feedback.opmodeWatch.Note(c.now));
    }

    method CallbackHeartbeat(c: Clocks)
      requires Valid()
      modifies this
      ensures Valid() && View() == old(View()).Step(Reported(c, Heartbeat))
    {
      feedback := feedback.(heartbeatWatch := feedback.heartbeatWatch.Note(c.now));
    }

    method CallbackReenable(c: Clocks, pressed: bool)
      requires Valid()
      modifies this
      ensures Valid() && View() == old(View()).Step(Reenable(c, pressed))
    {
      if pressed {
        fault := fault.(request := fault.request.Press(c.now));
      }
    }

    // ----- faults -----

    method LatchFault(why: string, c: Clocks)
      modifies this`fault
      ensures fault == old(fault).Raise(why, feedback.NewRamp(c, config))
    {
      if !fault.latch.latched {
        fault := fault.(latch := fault.latch.Trip(why));
        var ego := if feedback.hasOdometry then feedback.velocity else Finite(0.0);
        fault := fault.(ramp := StartRamp(ego, feedback.odometryWatch, c.latchNow, config.egoTimeout, c.latchSteady));
        fault := fault.(request := fault.request.Clear());
      } else if fault.latch.reason != why {
        fault := fault.(latch := Latch(true, fault.latch.faultId, why));
        fault := fault.(request := fault.request.Clear());
      }
    }

    // ----- driving callbacks -----

    method CheckTrajectory(wellFormed: bool, finite: bool, stamp: SourceStamp) returns (v: Verdict)
      requires Valid()
      ensures v == driving.Judge(Trajectory(wellFormed, finite, stamp), config)
    {
      if !config.mode.SiControl? || !config.trajectorySource.FromAutoware? {
        return Ignored;
      }
      if !wellFormed {
        return Rejected("invalid autoware trajectory");
      }
      if !finite {
        return Rejected("non-finite autoware trajectory");
      }
      var check := driving.trajectoryIdentity.Check(stamp);
      if check == DUPLICATE {
        return Ignored;
      }
      if check != ACCEPT {
        return Rejected("autoware trajectory stamp regression or invalid stamp");
      }
      return Accepted;
    }

    method CallbackTrajectory(c: Clocks, wellFormed: bool, finite: bool, stamp: SourceStamp)
      requires Valid()
      modifies this
      ensures Valid() && View() == old(View()).OnOffer(c, Trajectory(wellFormed, finite, stamp))
    {
      var verdict := CheckTrajectory(wellFormed, finite, stamp);
      if verdict.Rejected? {
        LatchFault(verdict.why, c);
      } else if verdict.Accepted? {
        driving := driving.(hasTrajectory := true);
        driving := driving.(trajectoryIdentity := driving.trajectoryIdentity.Note(stamp));
        driving := driving.(candidateWatch := driving.candidateWatch.Note(c.now));
      }
    }

    method CheckReference(wellFormed: bool, usable: bool, finite: bool, candidate: Candidate,
          placed: bool) returns (v: Verdict)
      requires Valid()
      ensures v == driving.Judge(Reference(wellFormed, usable, finite, candidate, placed), config)
    {
      if !config.mode.SiControl? || !config.trajectorySource.FromVp? {
        return Ignored;
      }
      if !wellFormed {
        return Rejected("invalid vp driving reference");
      }
      if !usable {
        return Ignored;
      }
      if !finite {
        return Rejected("non-finite vp driving reference");
      }
      var check := driving.vpIdentity.Check(candidate);
      if check == DUPLICATE {
        return Ignored;
      }
      if check != ACCEPT {
        return Rejected("vp driving reference regression or invalid stamp");
      }
      if !placed {
        return Ignored;
      }
      return Accepted;
    }

    method CallbackDrivingReference(c: Clocks, wellFormed: bool, usable: bool, finite: bool, candidate: Candidate,
          placed: bool)
      requires Valid()
      modifies this
      ensures Valid()
      ensures View() == old(View()).OnOffer(c, Reference(wellFormed, usable, finite, candidate, placed))
    {
      var verdict := CheckReference(wellFormed, usable, finite, candidate, placed);
      if verdict.Rejected? {
        LatchFault(verdict.why, c);
      } else if verdict.Accepted? {
        driving := driving.(hasTrajectory := true);
        driving := driving.(vpIdentity := driving.vpIdentity.Note(candidate));
        gate := gate.(sourceSession := candidate.session);
        gate := gate.(sourceCycle := candidate.cycle);
        driving := driving.(candidateWatch := driving.candidateWatch.Note(c.now));
      }
    }

    method CheckCommand(m: VpCommand) returns (v: Verdict)
      requires Valid() && config.mode.VpControl?
      ensures v == driving.Judge(DrivingCommand(m), config)
    {
      if !m.valid {
        return Ignored;
      }
      if !m.hasStamp {
        return Ignored;
      }
      var check := driving.vpIdentity.Check(m.candidate);
      if check == DUPLICATE {
        return Ignored;
      }
      if check != ACCEPT {
        return Rejected("vp command regression or invalid stamp");
      }
      if m.steering.NonFinite? || m.speed.NonFinite? || m.acceleration.NonFinite? {
        return Rejected("vp command not finite");
      }
      if Abs(m.steering.r) > config.maxSteering {
        return Rejected("vp steering out of range");
      }
      if m.speed.r < 0.0 || m.speed.r > config.maxVelocity {
        return Rejected("vp speed out of range");
      }
      if Abs(m.acceleration.r) > config.maxAcceleration {
        return Rejected("vp accel out of range");
      }
      return Accepted;
    }

    /** Subscribed only in VP_CONTROL. */
    method CallbackDrivingCommand(c: Clocks, m: VpCommand)
      requires Valid() && config.mode.VpControl?
      modifies this
      ensures Valid() && View() == old(View()).OnOffer(c, DrivingCommand(m))
    {
      var verdict := CheckCommand(m);
      if verdict.Rejected? {
        LatchFault(verdict.why, c);
      } else if verdict.Accepted? {
        driving := driving.(vpIdentity := driving.vpIdentity.Note(m.candidate));
        driving := driving.(vpCommand := m);
        driving := driving.(hasVpCommand := true);
        driving := driving.(vpWatch := driving.vpWatch.Note(c.now));
      }
    }

    // ----- supervision -----

    method SupervisorStaleReason(now: real) returns (reason: Option<string>)
      ensures reason == View().StaleReason(now)
    {
      var checks := [
        Check(feedback.odometryWatch, config.egoTimeout, "odometry"),
        Check(feedback.accelWatch, config.egoTimeout, "acceleration"),
        Check(feedback.steeringWatch, config.steeringTimeout, "steering report"),
        Check(feedback.opmodeWatch, config.opmodeTimeout, "operation mode"),
        Check(feedback.heartbeatWatch, config.heartbeatTimeout, "vp heartbeat")];
      for i := 0 to |checks|
        invariant forall k | 0 <= k < i :: !checks[k].watch.Stale(now, checks[k].timeout)
      {
        if checks[i].watch.Stale(now, checks[i].timeout) {
          assert i == 0 || i == 1 || i == 2 || i == 3 || i == 4;
          assert i > 0 ==> !feedback.odometryWatch.Stale(now, checks[0].timeout);
          assert i > 1 ==> !feedback.accelWatch.Stale(now, checks[1].timeout);
          assert i > 2 ==> !feedback.steeringWatch.Stale(now, checks[2].timeout);
          assert i > 3 ==> !feedback.opmodeWatch.Stale(now, checks[3].timeout);
          return Some(checks[i].name);
        }
      }
      assert !checks[0].watch.Stale(now, config.egoTimeout) && !checks[1].watch.Stale(now, config.egoTimeout);
      assert !checks[2].watch.Stale(now, config.steeringTimeout) && !checks[3].watch.Stale(now, config.opmodeTimeout);
      assert !checks[4].watch.Stale(now, config.heartbeatTimeout);
      if config.mode.VpControl? {
        if driving.vpWatch.Stale(now, config.candidateTimeout) {
          return Some("vp command");
        }
      } else {
        if driving.candidateWatch.Stale(now, config.candidateTimeout) {
          return Some("trajectory");
        }
      }
      return None;
    }

    method AllSourcesFresh(now: real) returns (allFresh: bool)
      ensures allFresh == View().AllSourcesFresh(now)
    {
      var checks := [
        Check(feedback.odometryWatch, config.egoTimeout, ""),
        Check(feedback.accelWatch, config.egoTimeout, ""),
        Check(feedback.steeringWatch, config.steeringTimeout, ""),
        Check(feedback.opmodeWatch, config.opmodeTimeout, "")];
      for i := 0 to |checks|
        invariant forall k | 0 <= k < i :: checks[k].watch.Live(now, checks[k].timeout)
      {
        if !checks[i].watch.Ever() || checks[i].watch.Stale(now, checks[i].timeout) {
          assert i == 0 || i == 1 || i == 2 || i == 3;
          return false;
        }
      }
      assert checks[0].watch.Live(now, config.egoTimeout) && checks[1].watch.Live(now, config.egoTimeout);
      assert checks[2].watch.Live(now, config.steeringTimeout) && checks[3].watch.Live(now, config.opmodeTimeout);
      if feedback.heartbeatWatch.Stale(now, config.heartbeatTimeout) {
        return false;
      }
      if config.siFaultInput && channel.fault {
        return false;
      }
      var selected := if config.mode.VpControl? then driving.vpWatch else driving.candidateWatch;
      if !selected.Ever() || selected.Stale(now, config.candidateTimeout) {
        return false;
      }
      return true;
    }

    /** Steps 1 and 2 of the tick. */
    method Supervise(c: Clocks) returns (stops: bool)
      modifies this`fault, this`eventsSeen
      ensures (stops, fault) == old(View()).DecidedFault(c)
      ensures eventsSeen == if config.siFaultInput then channel.faultEvents else old(eventsSeen)
    {
      var reason := SupervisorStaleReason(c.now);
      if reason.Some? {
        LatchFault(reason.value, c);
      }
      if config.siFaultInput && channel.faultEvents != eventsSeen {
        eventsSeen := channel.faultEvents;
        LatchFault("si fault input", c);
      }
      assert fault == old(View()).CheckedFault(c);
      if !fault.latch.latched {
        return false;
      }
      fault := fault.(request := fault.request.ExpireIfOld(c.now, config.reenableWindow));
      var allFresh := AllSourcesFresh(c.now);
      var latch, request;
      stops, latch, request := StopThisTick(fault.request.pending && allFresh);
      fault := fault.(latch := latch, request := request);
    }

    /** `stopThisTick` of the latch, on the pending request. */
    method StopThisTick(allFresh: bool) returns (stops: bool, latch': Latch, request': Request)
      ensures (stops, latch', request') == fault.latch.StopThisTick(fault.request, allFresh)
    {
      if !fault.latch.latched {
        return false, fault.latch, fault.request;
      }
      if fault.request.pending && allFresh {
        return false, Latch(false, fault.latch.faultId, ""), fault.request.Clear();
      }
      return true, fault.latch, fault.request;
    }

    // ----- publishing -----

    method PublishApprovedRequest(decision: Decision, control: Control) returns (out: ApprovedRequest)
      modifies this`gate
      ensures (gate, out) == old(gate).Publish(decision, control, config, fault.latch)
    {
      if decision.NORMAL? {
        gate := gate.(lastApproved := control);
        gate := gate.(hasApproved := true);
      }
      gate := gate.(outSeq := gate.outSeq + 1);
      out := ApprovedRequest(gate.outSeq, decision, config.Source(), gate.sourceSession, gate.sourceCycle,
                             if fault.latch.latched then fault.latch.faultId else 0, control);
    }

    method StoppedPayload(c: Clocks) returns (out: Control)
      ensures out == View().StoppedPayload(fault, c)
    {
      var known := None;
      if gate.hasApproved {
        known := Some(gate.lastApproved);
      } else if feedback.hasSteering {
        known := Some(ZERO_CONTROL.(lateral := Lateral(feedback.steeringAngle, Finite(0.0), false)));
      }
      out := StopControl(known, config.stopDecel);
      if fault.latch.latched {
        out := out.(longitudinal := out.longitudinal.(velocity :=
                      Finite(fault.ramp.Velocity(config.stopDecel, config.maxVelocity, c.stopSteady))));
      }
    }

    // ----- the control timer -----

    /** One tick of the control timer: exactly one request is published. */
    method CallbackTimerControl(c: Clocks, follower: Follower) returns (out: ApprovedRequest)
      requires Valid()
      modifies this
      ensures feedback == old(feedback) && driving == old(driving)
      ensures fault == old(View()).TickFault(c, follower)
      ensures (gate, out) == old(View()).TickGate(c, follower)
      ensures Valid() && View() == old(View()).OnTick(c, follower)
    {
      var stops := Supervise(c);
      if stops {
        var control := StoppedPayload(c);
        out := PublishApprovedRequest(SI_STOP, control);
      } else if config.mode.VpControl? {
        out := VpTick(c);
      } else {
        out := FollowerTick(c, follower);
      }
    }

    method VpTick(c: Clocks) returns (out: ApprovedRequest)
      requires config.mode.VpControl?
      modifies this`gate
      ensures var s := old(View());
              var candidate := s.driving.vpCommand.candidate;
              var choice := s.Choose(NotReady);
              (gate, out) ==
              if choice.Approve?
              then s.gate.(sourceSession := candidate.session, sourceCycle := candidate.cycle)
                    .Publish(NORMAL, choice.control, config, fault.latch)
              else s.gate.Publish(HOLD, s.StoppedPayload(s.fault, c), config, fault.latch)
    {
      if !driving.hasVpCommand {
        var control := StoppedPayload(c);
        out := PublishApprovedRequest(HOLD, control);
        return;
      }
      if !feedback.Seen() {
        var control := StoppedPayload(c);
        out := PublishApprovedRequest(HOLD, control);
        return;
      }
      gate := gate.(sourceSession := driving.vpCommand.candidate.session);
      gate := gate.(sourceCycle := driving.vpCommand.candidate.cycle);
      var command := driving.vpCommand;
      var approved := Control(Lateral(command.steering, Finite(0.0), false),
                              Longitudinal(command.speed, command.acceleration, Finite(0.0), true, false));
      out := PublishApprovedRequest(NORMAL, approved);
    }

    method FollowerTick(c: Clocks, follower: Follower) returns (out: ApprovedRequest)
      requires config.mode.SiControl?
      modifies this`fault, this`gate
      ensures var s := old(View());
              var choice := s.Choose(follower);
              && fault == (if choice.Refuse? then s.fault.Raise(choice.why, s.feedback.NewRamp(c, config)) else s.fault)
              && (gate, out) ==
                 s.gate.Publish(choice.Decision(), if choice.Approve? then choice.control else s.StoppedPayload(fault,
                       c),
                                config, fault.latch)
    {
      var ready := feedback.hasAccel && feedback.hasSteering && driving.hasTrajectory && feedback.hasOdometry
                   && feedback.hasOpmode;
      if !ready || follower.NotReady? {
        var control := StoppedPayload(c);
        out := PublishApprovedRequest(HOLD, control);
        return;
      }
      var proposed := follower.control;
      var why := EnvelopeViolation(proposed.lateral.angle, proposed.longitudinal.velocity,
                                   proposed.longitudinal.acceleration, config.FollowerEnvelope());
      if why.Some? {
        LatchFault("follower " + why.value, c);
        var control := StoppedPayload(c);
        out := PublishApprovedRequest(SI_STOP, control);
        return;
      }
      out := PublishApprovedRequest(NORMAL, proposed);
    }
  }
}
