/** The fault input over whole runs: a held level stops the vehicle as long as its counter is read in
    time, and the two ways past it, each as a run from a new node. */
module FaultInputRun {
  import opened CanCodec
  import opened Supervision
  import opened CandidateIdentity
  import opened SiChannel
  import opened ControllerState
  import opened ControllerRun

  // ----- a held level -----

  /** Where the counter was last read before event k: after the latest tick, or at the start. */
  function LastRead(es: seq<Event>, k: nat): (i: nat)
    requires k <= |es|
    ensures i <= k && NoTick(es, i, k) && (i > 0 ==> es[i - 1].Tick?)
  {
    if k == 0 || es[k - 1].Tick? then k else LastRead(es, k - 1)
  }

  /** The rising edges before event k that no tick has read; `earlier` is what the channel received
      before the node was made. */
  function Unread(r: Run, earlier: seq<string>, k: nat): nat
    requires k <= |r.events| < |r.states|
  {
    var i := LastRead(r.events, k);
    if i == 0 then RisingEdges(false, earlier + Messages(r.events, 0, k)) else EdgesBetween(r, i, k)
  }

  /** Tick k finds the counter back where it was, after some edges. */
  predicate Wraps(r: Run, earlier: seq<string>, k: nat)
    requires k < |r.events| < |r.states|
  {
    r.events[k].Tick? && Unread(r, earlier, k) > 0 && Unread(r, earlier, k) % U32 == 0
  }

  ghost predicate ReadInTime(r: Run, earlier: seq<string>, k: nat)
    requires k < |r.events| < |r.states|
  {
    forall j | 0 <= j <= k :: !Wraps(r, earlier, j)
  }

  /** A run of a new node that listens to the fault input. */
  ghost predicate Listening(r: Run, earlier: seq<string>) {
    && r.Valid() && r.states[0].config.siFaultInput
    && r.states[0].eventsSeen == 0 && r.states[0].channel == SILENT.ReceiveAll(earlier)
  }

  lemma {:induction false} NoRiseKeepsLevel(start: bool, messages: seq<string>)
    requires RisingEdges(start, messages) == 0 && Level(start, messages)
    ensures start
    decreases |messages|
  {
    if messages != [] {
      EdgeOfLast(start, messages);
      NoRiseKeepsLevel(start, messages[..|messages| - 1]);
    }
  }

  lemma OnlyTicksResume(s: State, e: Event)
    requires s.driving.vpIdentity.Valid() && s.fault.latch.latched && !e.Tick?
    ensures s.Step(e).fault.latch.latched
  {
  }

  lemma {:induction false} LatchedThrough(r: Run, i: nat, k: nat)
    requires r.Valid() && i <= k <= |r.events| && NoTick(r.events, i, k) && r.states[i].fault.latch.latched
    ensures r.states[k].fault.latch.latched
    decreases k - i
  {
    if i < k {
      LatchedThrough(r, i, k - 1);
      assert r.Follows(k - 1);
      OnlyTicksResume(r.states[k - 1], r.events[k - 1]);
    }
  }

  lemma HeldTick(s: State, e: Event)
    requires e.Tick? && s.driving.vpIdentity.Valid() && s.FaultHeld()
    requires s.fault.latch.latched || s.NewInputEdges()
    ensures |s.Output(e)| == 1 && s.Output(e)[0].decision.SI_STOP? && s.Step(e).fault.latch.latched
  {
    assert s.CheckedFault(e.c).latch.latched && !s.AllSourcesFresh(e.c.now);
    assert s.DecidedFault(e.c).0 && s.DecidedFault(e.c).1.latch.latched;
  }

  /** What the counter and the level are at k, from the messages since it was last read. */
  lemma UnreadIsSeen(r: Run, earlier: seq<string>, k: nat)
    requires Listening(r, earlier) && k <= |r.events|
    ensures r.states[k].NewInputEdges() <==> Unread(r, earlier, k) % U32 != 0
    ensures var i := LastRead(r.events, k);
            Unread(r, earlier, k) == 0 && r.states[k].channel.fault ==> i > 0 && r.states[i].channel.fault
  {
    var i := LastRead(r.events, k);
    ConfigFixed(r, k);
    if i == 0 {
      EdgesSince(r, 0, k, SILENT, earlier);
      if Unread(r, earlier, k) == 0 && r.states[k].channel.fault {
        NoRiseKeepsLevel(false, earlier + Messages(r.events, 0, k));
      }
    } else {
      UnreadSinceTick(r, earlier, i, k);
    }
  }

  lemma UnreadSinceTick(r: Run, earlier: seq<string>, i: nat, k: nat)
    requires Listening(r, earlier) && 0 < i <= k <= |r.events| && r.events[i - 1].Tick? && NoTick(r.events, i, k)
    ensures r.states[k].NewInputEdges() <==> EdgesBetween(r, i, k) % U32 != 0
    ensures EdgesBetween(r, i, k) == 0 && r.states[k].channel.fault ==> r.states[i].channel.fault
  {
    var c, messages := r.states[i].channel, Messages(r.events, i, k);
    ConfigFixed(r, i - 1);
    ConfigFixed(r, i);
    CounterCountsEdges(SILENT, earlier);
    ChannelStaysValid(r, i);
    TickReadsCounter(r, i - 1);
    assert [] + messages == messages;
    EdgesSince(r, i, k, c, []);
    if EdgesBetween(r, i, k) == 0 && r.states[k].channel.fault {
      NoRiseKeepsLevel(c.fault, messages);
    }
  }

  lemma TickKeepsChannel(r: Run, k: nat)
    requires r.Valid() && k < |r.events| && r.events[k].Tick?
    ensures r.states[k + 1].channel == r.states[k].channel
  {
    assert r.Follows(k);
    StepFrame(r.states[k], r.events[k]);
  }

  /** A held level stops at k: the counter moved, or a stop has been on since it was read at i. */
  lemma HeldEvent(r: Run, i: nat, k: nat)
    requires r.Valid() && i <= k < |r.events| && NoTick(r.events, i, k)
    requires r.events[k].Tick? && r.states[k].FaultHeld()
    requires r.states[k].NewInputEdges() || r.states[i].fault.latch.latched
    ensures |r.outputs[k]| == 1 && r.outputs[k][0].decision.SI_STOP? && r.states[k + 1].fault.latch.latched
  {
    if !r.states[k].NewInputEdges() {
      LatchedThrough(r, i, k);
    }
    assert r.Follows(k);
    HeldTick(r.states[k], r.events[k]);
  }

  lemma ReadInTimeBefore(r: Run, earlier: seq<string>, j: nat, k: nat)
    requires j <= k < |r.events| < |r.states| && ReadInTime(r, earlier, k)
    ensures ReadInTime(r, earlier, j)
  {
  }

  /** With the counter read in time, a held level moved it or was already held when it was read. */
  lemma HeldIsSeen(r: Run, earlier: seq<string>, k: nat)
    requires Listening(r, earlier) && k < |r.events| && r.events[k].Tick? && ReadInTime(r, earlier, k)
    requires r.states[k].channel.fault
    ensures var i := LastRead(r.events, k);
            r.states[k].NewInputEdges() || (i > 0 && r.states[i].channel.fault)
  {
    UnreadIsSeen(r, earlier, k);
    assert !Wraps(r, earlier, k);
  }

  /** Every tick that finds the fault level held publishes SI_STOP, whatever was pressed and whatever is
      fresh, as long as no tick so far came a positive multiple of 2^32 edges after the reading before it. */
  lemma {:induction false} HeldFaultStops(r: Run, earlier: seq<string>, k: nat)
    requires Listening(r, earlier) && k < |r.events| && r.events[k].Tick? && ReadInTime(r, earlier, k)
    requires r.states[k].channel.fault
    ensures |r.outputs[k]| == 1 && r.outputs[k][0].decision.SI_STOP? && r.states[k + 1].fault.latch.latched
    decreases k
  {
    var i := LastRead(r.events, k);
    HeldIsSeen(r, earlier, k);
    ConfigFixed(r, k);
    if !r.states[k].NewInputEdges() {
      TickKeepsChannel(r, i - 1);
      ReadInTimeBefore(r, earlier, i - 1, k);
      HeldFaultStops(r, earlier, i - 1);
    }
    HeldEvent(r, i, k);
  }

  // ----- a vehicle that drives -----

  /** VP_CONTROL with a fault input; no limit excludes a standing vehicle. */
  predicate Ordinary(config: Config) {
    && config.siFaultInput && config.mode.VpControl? && config.reenableWindow >= 0.0
    && config.maxSteering >= 0.0 && config.maxVelocity >= 0.0 && config.maxAcceleration >= 0.0
    && Positive(config.egoTimeout) && Positive(config.steeringTimeout) && Positive(config.opmodeTimeout)
    && Positive(config.candidateTimeout)
  }

  predicate Positive(timeout: Timeout) {
    timeout.After? ==> timeout.seconds > 0.0
  }

  const STAND := VpCommand(true, true, Candidate(1, 1, SourceStamp(1, 0)), Finite(0.0), Finite(0.0), Finite(0.0))

  /** One report of every kind and one command. */
  function Preparation(c: Clocks): seq<Event> {
    [Reported(c, Odometry(Finite(0.0))), Reported(c, Acceleration), Reported(c, SteeringReport(Finite(0.0))),
     Reported(c, OperationMode), Offered(c, DrivingCommand(STAND))]
  }

  /** Nothing keeps the next tick at this time from approving the command, except the fault input. */
  predicate Drivable(s: State, now: real) {
    && s.config.siFaultInput && s.config.mode.VpControl? && s.driving.vpIdentity.Valid()
    && s.driving.hasVpCommand && s.feedback.Seen() && s.feedback.Fresh(now, s.config)
    && s.driving.vpWatch.Live(now, s.config.candidateTimeout)
  }

  /** The feedback after the four reports. */
  function Informed(f: Feedback, c: Clocks): Feedback {
    f.Receive(c, Odometry(Finite(0.0))).Receive(c, Acceleration).Receive(c, SteeringReport(Finite(0.0)))
     .Receive(c, OperationMode)
  }

  lemma InformedIsFresh(config: Config, channel: Channel, c: Clocks)
    requires Ordinary(config) && c.now >= 0.0
    ensures var f := Informed(Initial(config, channel).feedback, c);
            f.Seen() && f.Fresh(c.now, config)
  {
  }

  lemma StandIsTaken(config: Config, channel: Channel, c: Clocks)
    requires Ordinary(config) && c.now >= 0.0
    ensures var d := Initial(config, channel).driving;
            && d.Judge(DrivingCommand(STAND), config).Accepted?
            && d.Take(c, DrivingCommand(STAND)).hasVpCommand
            && d.Take(c, DrivingCommand(STAND)).vpWatch == SourceWatch(c.now)
  {
  }

  lemma EventStep(r: Run, k: nat, e: Event)
    requires r.Valid() && k < |r.events| && r.events[k] == e
    ensures r.states[k].driving.vpIdentity.Valid()
    ensures r.states[k + 1] == r.states[k].Step(e) && r.outputs[k] == r.states[k].Output(e)
  {
    assert r.Follows(k);
  }

  lemma FourReports(r: Run, c: Clocks)
    requires r.Valid() && |r.events| >= 5 && r.events[..5] == Preparation(c)
    ensures r.states[4] == r.states[0].(feedback := Informed(r.states[0].feedback, c))
    ensures r.events[4] == Offered(c, DrivingCommand(STAND))
  {
    assert forall k | 0 <= k < 5 :: r.events[k] == r.events[..5][k];
    EventStep(r, 0, Reported(c, Odometry(Finite(0.0))));
    EventStep(r, 1, Reported(c, Acceleration));
    EventStep(r, 2, Reported(c, SteeringReport(Finite(0.0))));
    EventStep(r, 3, Reported(c, OperationMode));
  }

  /** After the preparation a new node can drive, and nothing else has changed. */
  lemma PreparedRun(r: Run, config: Config, channel: Channel, c: Clocks)
    requires r.Valid() && Ordinary(config) && r.states[0] == Initial(config, channel)
    requires c.now >= 0.0 && |r.events| >= 5 && r.events[..5] == Preparation(c)
    ensures Drivable(r.states[5], c.now) && r.states[5].config == config
    ensures r.states[5].fault == r.states[0].fault && r.states[5].channel == channel && r.states[5].eventsSeen == 0
  {
    FourReports(r, c);
    InformedIsFresh(config, channel, c);
    StandIsTaken(config, channel, c);
    EventStep(r, 4, Offered(c, DrivingCommand(STAND)));
    StepFrame(r.states[4], r.events[4]);
  }

  lemma DrivableTick(s: State, c: Clocks, follower: Follower)
    requires Drivable(s, c.now)
    ensures s.Output(Event.Tick(c, follower))[0].decision
         == if s.DecidedFault(c).0 then SI_STOP else NORMAL
  {
  }

  // ----- 2^32 edges -----

  lemma DrivableDecision(s: State, c: Clocks)
    requires Drivable(s, c.now) && !s.fault.latch.latched
    ensures s.DecidedFault(c).0 <==> s.NewInputEdges()
  {
  }

  /** A fault level that was raised before the node was made and is still held: the node's first tick
      approves a driving command if and only if the channel counted a multiple of 2^32 edges. */
  lemma HeldFaultDrivesIff(config: Config, earlier: seq<string>, c: Clocks, follower: Follower) returns (r: Run)
    requires Ordinary(config) && c.now >= 0.0 && Level(false, earlier)
    ensures Listening(r, earlier) && r.states[0] == Initial(config, SILENT.ReceiveAll(earlier))
    ensures r.events == Preparation(c) + [Event.Tick(c, follower)] && r.states[5].FaultHeld() && |r.outputs[5]| == 1
    ensures r.outputs[5][0].decision == if RisingEdges(false, earlier) % U32 == 0 then NORMAL else SI_STOP
  {
    var channel, tick := SILENT.ReceiveAll(earlier), Event.Tick(c, follower);
    r := RunExists(Initial(config, channel), Preparation(c) + [tick]);
    PreparedRun(r, config, channel, c);
    CounterCountsEdges(SILENT, earlier);
    CountNonzero(0, RisingEdges(false, earlier));
    DrivableDecision(r.states[5], c);
    DrivableTick(r.states[5], c, follower);
    EventStep(r, 5, tick);
  }

  /** Such a history: 2^32 edges, the last one held. */
  lemma HeldFaultIsMissed(config: Config, c: Clocks, follower: Follower) returns (earlier: seq<string>, r: Run)
    requires Ordinary(config) && c.now >= 0.0
    ensures Level(false, earlier) && RisingEdges(false, earlier) == U32
    ensures Listening(r, earlier) && |r.outputs| == 6 && |r.outputs[5]| == 1
    ensures r.states[5].FaultHeld() && r.outputs[5][0].decision.NORMAL?
  {
    var pulses := PulseMessages(U32 - 1);
    EdgesOfPulses(U32 - 1);
    earlier := pulses + ["fault=1"];
    assert earlier[..|earlier| - 1] == pulses;
    EdgeOfLast(false, earlier);
    r := HeldFaultDrivesIff(config, earlier, c, follower);
  }

  // ----- an edge after the press -----

  /** A fault, its stop, the press that answers it, and a second fault that is over before the tick. */
  function SecondFault(c: Clocks, follower: Follower): seq<Event> {
    [FaultMessage("fault=1"), Event.Tick(c, follower), FaultMessage("fault=0"), Reenable(c, true),
     FaultMessage("fault=1"), FaultMessage("fault=0"), Event.Tick(c, follower)]
  }

  lemma FirstFault(s: State, c: Clocks, follower: Follower)
    requires Drivable(s, c.now) && !s.fault.latch.latched && s.NewInputEdges()
    ensures var next := s.Step(Event.Tick(c, follower));
            && Drivable(next, c.now) && next.eventsSeen == s.channel.events && next.channel == s.channel
            && next.fault.latch.latched && next.fault.latch.reason == "si fault input"
    ensures s.Output(Event.Tick(c, follower))[0].decision.SI_STOP?
  {
    DrivableDecision(s, c);
    DrivableTick(s, c, follower);
  }

  lemma PressedTick(s: State, c: Clocks, follower: Follower)
    requires Drivable(s, c.now) && !s.channel.fault && s.config.reenableWindow >= 0.0
    requires s.fault.latch.latched && s.fault.latch.reason == "si fault input"
    requires s.fault.request == Request(true, c.now)
    ensures s.Output(Event.Tick(c, follower))[0].decision.NORMAL?
  {
    ResumesIff(s, c);
    DrivableTick(s, c, follower);
  }

  /** Up to the stop for the first fault. */
  lemma FirstStop(r: Run, c: Clocks, follower: Follower)
    requires r.Valid() && |r.events| == 12 && r.events[5..] == SecondFault(c, follower)
    requires Drivable(r.states[5], c.now) && !r.states[5].fault.latch.latched
    requires r.states[5].channel == SILENT && r.states[5].eventsSeen == 0
    ensures |r.outputs[6]| == 1 && r.outputs[6][0].decision.SI_STOP?
    ensures Drivable(r.states[7], c.now) && r.states[7].channel.fault && r.states[7].config == r.states[5].config
    ensures r.states[7].fault.latch.latched && r.states[7].fault.latch.reason == "si fault input"
  {
    assert r.events[5] == r.events[5..][0] && r.events[6] == r.events[5..][1];
    EventStep(r, 5, FaultMessage("fault=1"));
    assert r.states[6] == r.states[5].(channel := SILENT.Receive("fault=1"));
    FirstFault(r.states[6], c, follower);
    EventStep(r, 6, Event.Tick(c, follower));
  }

  /** From there, the level falls and the operator presses. */
  lemma PressAfterFault(r: Run, c: Clocks)
    requires r.Valid() && |r.events| == 12 && Drivable(r.states[7], c.now)
    requires r.events[7] == FaultMessage("fault=0") && r.events[8] == Reenable(c, true)
    ensures r.states[9] == r.states[7].(channel := r.states[7].channel.Receive("fault=0"),
                                        fault := r.states[7].fault.(request := Request(true, c.now)))
    ensures Drivable(r.states[9], c.now) && !r.states[9].channel.fault
  {
    EventStep(r, 7, FaultMessage("fault=0"));
    EventStep(r, 8, Reenable(c, true));
  }

  /** The second fault, and the tick that resumes. */
  lemma SecondTick(r: Run, c: Clocks, follower: Follower)
    requires r.Valid() && |r.events| == 12 && Drivable(r.states[9], c.now) && r.states[9].config.reenableWindow >= 0.0
    requires r.events[9] == FaultMessage("fault=1") && r.events[10] == FaultMessage("fault=0")
    requires r.events[11] == Event.Tick(c, follower) && r.states[9].fault.request == Request(true, c.now)
    requires r.states[9].fault.latch.latched && r.states[9].fault.latch.reason == "si fault input"
    ensures |r.outputs[11]| == 1 && r.outputs[11][0].decision.NORMAL?
  {
    EventStep(r, 9, FaultMessage("fault=1"));
    EventStep(r, 10, FaultMessage("fault=0"));
    assert r.states[11] == r.states[9].(channel := r.states[11].channel) && !r.states[11].channel.fault;
    PressedTick(r.states[11], c, follower);
    EventStep(r, 11, Event.Tick(c, follower));
  }

  /** The exception for a stop that is already on is real, in a run of a new node: a fault stops the
      vehicle, its level falls, the operator presses, and a second fault rises and falls before the
      tick. The press still resumes - it answers a fault it predates. */
  lemma EdgeAfterPressIsForgotten(config: Config, c: Clocks, follower: Follower) returns (r: Run)
    requires Ordinary(config) && c.now >= 0.0
    ensures r.Valid() && r.states[0] == Initial(config, SILENT)
    ensures r.events == Preparation(c) + SecondFault(c, follower)
    ensures |r.outputs[6]| == 1 && r.outputs[6][0].decision.SI_STOP?
    ensures Press(r.events[8]) && EdgesBetween(r, 9, 11) == 1
    ensures |r.outputs[11]| == 1 && r.outputs[11][0].decision.NORMAL?
  {
    var events := Preparation(c) + SecondFault(c, follower);
    assert events[..5] == Preparation(c) && events[5..] == SecondFault(c, follower);
    r := RunExists(Initial(config, SILENT), events);
    PreparedRun(r, config, SILENT, c);
    FirstStop(r, c, follower);
    assert forall k | 7 <= k < 12 :: r.events[k] == r.events[5..][k - 5];
    PressAfterFault(r, c);
    SecondTick(r, c, follower);
    OnePulse(r, c, follower);
  }

  lemma OnePulse(r: Run, c: Clocks, follower: Follower)
    requires |r.events| == 12 < |r.states| && r.events[5..] == SecondFault(c, follower) && !r.states[9].channel.fault
    ensures Press(r.events[8]) && EdgesBetween(r, 9, 11) == 1
  {
    assert forall k | 8 <= k < 11 :: r.events[k] == r.events[5..][k - 5];
    assert Messages(r.events, 9, 10) == ["fault=1"];
    assert Messages(r.events, 9, 11) == ["fault=1"] + ["fault=0"] == PulseMessages(1);
    EdgesOfPulses(1);
  }
}
