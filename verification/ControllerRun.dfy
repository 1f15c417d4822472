/** What the supervisor keeps over whole runs: any callbacks, fault messages and control ticks
    in any order, with any clock readings. */
module ControllerRun {
  import opened Options
  import opened CanCodec
  import opened RealArithmetic
  import opened Supervision
  import opened CandidateIdentity
  import opened SiChannel
  import opened ControllerState
  import Timer

  // ----- runs -----

  /** `states[k]` is the state before event k, `outputs[k]` what event k publishes. */
  datatype Run = Run(states: seq<State>, events: seq<Event>, outputs: seq<seq<ApprovedRequest>>)
  {
    ghost predicate Valid() {
      && |states| == |events| + 1 && |outputs| == |events|
      && forall k | 0 <= k < |events| :: Follows(k)
    }

    ghost predicate Follows(k: nat)
      requires k < |events| == |outputs| && |states| == |events| + 1
    {
      && states[k].driving.vpIdentity.Valid()
      && states[k + 1] == states[k].Step(events[k])
      && outputs[k] == states[k].Output(events[k])
    }

    ghost predicate Timed() {
      forall e | e in events :: e.Timed()
    }

    /** Everything published before event k. */
    function Published(k: nat): seq<ApprovedRequest>
      requires k <= |outputs|
    {
      if k == 0 then [] else Published(k - 1) + outputs[k - 1]
    }
  }

  lemma IdentityStaysValid(s: State, e: Event)
    requires s.driving.vpIdentity.Valid()
    ensures s.Step(e).driving.vpIdentity.Valid()
  {
  }

  /** A run continued by one more event. */
  ghost function Continued(r: Run, e: Event): Run
    requires |r.states| == |r.events| + 1 == |r.outputs| + 1 && r.states[|r.events|].driving.vpIdentity.Valid()
  {
    var last := r.states[|r.events|];
    Run(r.states + [last.Step(e)], r.events + [e], r.outputs + [last.Output(e)])
  }

  lemma ContinuedIsValid(r: Run, e: Event, next: State, out: seq<ApprovedRequest>)
    requires r.Valid() && r.states[|r.events|].driving.vpIdentity.Valid()
    requires next == r.states[|r.events|].Step(e) && out == r.states[|r.events|].Output(e)
    ensures Continued(r, e) == Run(r.states + [next], r.events + [e], r.outputs + [out]) && Continued(r, e).Valid()
  {
    var c := Run(r.states + [next], r.events + [e], r.outputs + [out]);
    forall k | 0 <= k < |c.events|
      ensures c.Follows(k)
    {
      if k < |r.events| {
        assert r.Follows(k);
      }
    }
  }

  /** Every sequence of events from every sound start has a run. */
  lemma {:induction false} RunExists(s: State, events: seq<Event>) returns (r: Run)
    requires s.driving.vpIdentity.Valid()
    ensures r.Valid() && r.states[0] == s && r.events == events && r.states[|events|].driving.vpIdentity.Valid()
    decreases |events|
  {
    if events == [] {
      r := Run([s], [], []);
    } else {
      var e := events[|events| - 1];
      var before := RunExists(s, events[..|events| - 1]);
      var last := before.states[|events| - 1];
      ContinuedIsValid(before, e, last.Step(e), last.Output(e));
      IdentityStaysValid(last, e);
      r := Continued(before, e);
    }
  }

  // ----- NORMAL only with live sources -----

  /** A source's data flag implies that its watch has an arrival. */
  predicate FeedbackInv(f: Feedback) {
    && (f.hasOdometry ==> f.odometryWatch.Ever()) && (f.hasAccel ==> f.accelWatch.Ever())
    && (f.hasSteering ==> f.steeringWatch.Ever()) && (f.hasOpmode ==> f.opmodeWatch.Ever())
  }

  /** The same for driving sources; a stored VP command is one that can be actuated. */
  predicate DrivingInv(d: Driving, config: Config) {
    && d.vpIdentity.Valid()
    && (d.hasTrajectory ==> d.candidateWatch.Ever())
    && (d.hasVpCommand ==> d.vpWatch.Ever() && CommandFault(d.vpCommand, config).None?)
  }

  predicate Inv(s: State) {
    FeedbackInv(s.feedback) && DrivingInv(s.driving, s.config)
  }

  lemma FeedbackKept(f: Feedback, c: Clocks, report: Report)
    requires FeedbackInv(f) && c.now >= 0.0
    ensures FeedbackInv(f.Receive(c, report))
  {
  }

  lemma DrivingKept(d: Driving, config: Config, c: Clocks, offer: Offer)
    requires DrivingInv(d, config) && c.now >= 0.0 && d.Judge(offer, config).Accepted?
    ensures DrivingInv(d.Take(c, offer), config)
  {
  }

  /** Which parts an event can touch. */
  lemma StepFrame(s: State, e: Event)
    requires s.driving.vpIdentity.Valid()
    ensures s.Step(e).config == s.config
    ensures s.Step(e).feedback == if e.Reported? then s.feedback.Receive(e.c, e.report) else s.feedback
    ensures s.Step(e).driving == if e.Offered? && s.driving.Judge(e.offer, s.config).Accepted?
                                 then s.driving.Take(e.c, e.offer) else s.driving
    ensures s.Step(e).channel == if e.FaultMessage? then s.channel.Receive(e.data) else s.channel
    ensures s.Step(e).eventsSeen == if e.Tick? && s.config.siFaultInput then s.channel.events else s.eventsSeen
  {
  }

  lemma InvNext(r: Run, k: nat)
    requires r.Valid() && k < |r.events| && Inv(r.states[k]) && r.events[k].Timed()
    ensures Inv(r.states[k + 1])
  {
    var s, e := r.states[k], r.events[k];
    assert r.Follows(k);
    StepFrame(s, e);
    if e.Reported? {
      FeedbackKept(s.feedback, e.c, e.report);
    }
    if e.Offered? && s.driving.Judge(e.offer, s.config).Accepted? {
      DrivingKept(s.driving, s.config, e.c, e.offer);
    }
  }

  lemma {:induction false} InvAlways(r: Run, k: nat)
    requires r.Valid() && r.Timed() && k <= |r.events| && Inv(r.states[0])
    ensures Inv(r.states[k]) && r.states[k].config == r.states[0].config
  {
    if k > 0 {
      InvAlways(r, k - 1);
      InvNext(r, k - 1);
      ConfigFixed(r, k);
    }
  }

  lemma {:induction false} ConfigFixed(r: Run, k: nat)
    requires r.Valid() && k <= |r.events|
    ensures r.states[k].config == r.states[0].config
  {
    if k > 0 {
      ConfigFixed(r, k - 1);
      assert r.Follows(k - 1);
      StepFrame(r.states[k - 1], r.events[k - 1]);
    }
  }

  /** All feedback and the selected source have arrived and are within their timeouts, as is
      the heartbeat if it was ever seen. */
  predicate SourcesLive(s: State, now: real) {
    && s.feedback.odometryWatch.Live(now, s.config.egoTimeout)
    && s.feedback.accelWatch.Live(now, s.config.egoTimeout)
    && s.feedback.steeringWatch.Live(now, s.config.steeringTimeout)
    && s.feedback.opmodeWatch.Live(now, s.config.opmodeTimeout)
    && s.driving.Selected(s.config.mode).Live(now, s.config.candidateTimeout)
    && (s.feedback.heartbeatWatch.Ever() ==> s.feedback.heartbeatWatch.Live(now, s.config.heartbeatTimeout))
  }

  predicate InsideEnvelope(control: Control, limits: Envelope) {
    && Within(control.lateral.angle, limits.maxSteering) && Within(control.longitudinal.velocity, limits.maxVelocity)
    && Within(control.longitudinal.acceleration, limits.maxAcceleration)
  }

  function ModeEnvelope(config: Config): Envelope {
    if config.mode.VpControl? then config.VpEnvelope() else config.FollowerEnvelope()
  }

  /** A stale source latches, and a latch survives the decision unless everything is fresh. */
  lemma UnlatchedMeansNotStale(s: State, c: Clocks)
    requires !s.DecidedFault(c).0
    ensures s.StaleReason(c.now).None? && !s.DecidedFault(c).1.latch.latched
  {
  }

  lemma NormalTick(s: State, c: Clocks, follower: Follower)
    requires Inv(s) && s.TickGate(c, follower).1.decision.NORMAL?
    ensures !s.TickFault(c, follower).latch.latched
    ensures SourcesLive(s, c.now)
    ensures InsideEnvelope(s.TickGate(c, follower).1.control, ModeEnvelope(s.config))
  {
    assert s.TickChoice(c, follower) == s.Choose(follower) && s.Choose(follower).Approve?;
    UnlatchedMeansNotStale(s, c);
  }

  lemma NormalEvent(s: State, e: Event, request: ApprovedRequest)
    requires Inv(s) && request in s.Output(e) && request.decision.NORMAL?
    ensures e.Tick? && !s.Step(e).fault.latch.latched
    ensures SourcesLive(s, e.c.now) && InsideEnvelope(request.control, ModeEnvelope(s.config))
  {
    NormalTick(s, e.c, e.follower);
  }

  /** In every run a NORMAL request is published only at a tick where the latch is off and every
      source is live at that tick's time, and its payload is inside the actuation envelope. */
  lemma NormalIsSupervised(r: Run, k: nat, request: ApprovedRequest)
    requires r.Valid() && r.Timed() && Inv(r.states[0]) && k < |r.events|
    requires request in r.outputs[k] && request.decision.NORMAL?
    ensures r.events[k].Tick? && !r.states[k + 1].fault.latch.latched
    ensures SourcesLive(r.states[k], r.events[k].c.now)
    ensures InsideEnvelope(request.control, ModeEnvelope(r.states[0].config))
  {
    InvAlways(r, k);
    assert r.Follows(k);
    NormalEvent(r.states[k], r.events[k], request);
  }

  // ----- resuming after a stop -----

  /** A latched tick resumes exactly when a press is pending and in its window, every source is
      fresh, no fault input is held, and no new input edge arrived that changes the reason. */
  lemma ResumesIff(s: State, c: Clocks)
    requires s.fault.latch.latched
    ensures !s.DecidedFault(c).0 <==>
            && s.fault.request.pending && c.now - s.fault.request.requestedAt <= s.config.reenableWindow
            && s.AllSourcesFresh(c.now)
            && (s.NewInputEdges() ==> s.fault.latch.reason == "si fault input")
  {
    if s.AllSourcesFresh(c.now) {
      assert s.StaleReason(c.now).None?;
    }
  }

  predicate Press(e: Event) {
    e.Reenable? && e.pressed
  }

  /** A request that is pending after an event other than a press was pending before, and the
      latch record - on or off, fault number, reason - did not change. */
  lemma PendingKept(s: State, e: Event)
    requires s.driving.vpIdentity.Valid()
    ensures var f := s.Step(e).fault;
            if Press(e) then f == Fault(s.fault.latch, Request(true, e.c.now), s.fault.ramp)
            else f.request.pending ==> f.request == s.fault.request && f.latch == s.fault.latch
  {
    if e.Tick? {
      PendingThroughTick(s, e.c, e.follower);
    }
  }

  lemma PendingThroughTick(s: State, c: Clocks, follower: Follower)
    ensures var f := s.TickFault(c, follower);
            f.request.pending ==> f.request == s.fault.request && f.latch == s.fault.latch
  {
    var checked := s.CheckedFault(c);
    assert checked.request.pending ==> checked == s.fault;
    var decided := s.DecidedFault(c).1;
    assert decided.request.pending ==> decided.request == checked.request && decided.latch == checked.latch;
  }

  /** Event i is the press that is pending at k: the latch record is the same at every moment
      since, and the request carries that press's time. */
  ghost predicate PressedAt(r: Run, k: nat, i: nat)
    requires r.Valid() && k <= |r.events|
  {
    && i < k && Press(r.events[i])
    && r.states[k].fault.request.requestedAt == r.events[i].c.now
    && forall m | i <= m <= k :: r.states[m].fault.latch == r.states[k].fault.latch
  }

  lemma {:induction false} PendingMeansPressed(r: Run, k: nat) returns (i: nat)
    requires r.Valid() && k <= |r.events| && !r.states[0].fault.request.pending
    requires r.states[k].fault.request.pending
    ensures PressedAt(r, k, i)
  {
    PendingNext(r, k - 1);
    if Press(r.events[k - 1]) {
      i := k - 1;
    } else {
      i := PendingMeansPressed(r, k - 1);
    }
  }

  lemma PendingNext(r: Run, k: nat)
    requires r.Valid() && k < |r.events| && r.states[k + 1].fault.request.pending
    ensures r.states[k + 1].fault.latch == r.states[k].fault.latch
    ensures if Press(r.events[k]) then r.states[k + 1].fault.request.requestedAt == r.events[k].c.now
            else r.states[k + 1].fault.request == r.states[k].fault.request
  {
    assert r.Follows(k);
    PendingKept(r.states[k], r.events[k]);
  }

  lemma NoStopMeansResumed(s: State, e: Event)
    requires e.Tick? && s.fault.latch.latched && (forall request | request in s.Output(e) :: !request.decision.SI_STOP?)
    ensures s.fault.request.pending && e.c.now - s.fault.request.requestedAt <= s.config.reenableWindow
    ensures s.AllSourcesFresh(e.c.now)
  {
    ResumesIff(s, e.c);
    assert s.TickGate(e.c, e.follower).1 in s.Output(e);
  }

  /** Once latched, every tick publishes SI_STOP until a tick that has a press newer than the
      latch edge and than the last change of the fault reason, still in its window, with every
      source fresh. */
  lemma StopsUntilPressed(r: Run, k: nat) returns (i: nat)
    requires r.Valid() && !r.states[0].fault.request.pending && k < |r.events| && r.events[k].Tick?
    requires r.states[k].fault.latch.latched
    requires forall request | request in r.outputs[k] :: !request.decision.SI_STOP?
    ensures PressedAt(r, k, i)
    ensures r.events[k].c.now - r.events[i].c.now <= r.states[k].config.reenableWindow
    ensures r.states[k].AllSourcesFresh(r.events[k].c.now)
  {
    assert r.Follows(k);
    NoStopMeansResumed(r.states[k], r.events[k]);
    i := PendingMeansPressed(r, k);
  }

  // ----- fault input edges -----

  /** The fault messages among the events from i up to k. */
  function Messages(es: seq<Event>, i: nat, k: nat): seq<string>
    requires i <= k <= |es|
    decreases k - i
  {
    if i == k then []
    else Messages(es, i, k - 1) + (if es[k - 1].FaultMessage? then [es[k - 1].data] else [])
  }

  predicate NoTick(es: seq<Event>, i: nat, k: nat)
    requires i <= k <= |es|
  {
    forall j | i <= j < k :: !es[j].Tick?
  }

  lemma MessageAppended(c: Channel, messages: seq<string>, last: string)
    ensures c.ReceiveAll(messages + [last]) == c.ReceiveAll(messages).Receive(last)
  {
    ReceiveSplit(c, messages, [last]);
    var d := c.ReceiveAll(messages);
    assert d.ReceiveAll([last]) == d.Receive(last).ReceiveAll([]);
  }

  lemma {:induction false} ChannelFollowsMessages(r: Run, i: nat, k: nat)
    requires r.Valid() && i <= k <= |r.events|
    ensures r.states[k].channel == r.states[i].channel.ReceiveAll(Messages(r.events, i, k))
    ensures NoTick(r.events, i, k) ==> r.states[k].eventsSeen == r.states[i].eventsSeen
    decreases k - i
  {
    if i < k {
      ChannelFollowsMessages(r, i, k - 1);
      assert r.Follows(k - 1);
      StepFrame(r.states[k - 1], r.events[k - 1]);
      if r.events[k - 1].FaultMessage? {
        MessageAppended(r.states[i].channel, Messages(r.events, i, k - 1), r.events[k - 1].data);
      } else {
        assert Messages(r.events, i, k) == Messages(r.events, i, k - 1);
      }
    }
  }

  lemma CountNonzero(start: nat, edges: nat)
    requires start < U32
    ensures Count(start, edges) != start <==> edges % U32 != 0
  {
  }

  /** The rising edges of the fault input among the events from i up to k. */
  function EdgesBetween(r: Run, i: nat, k: nat): nat
    requires i <= k <= |r.events| < |r.states|
  {
    RisingEdges(r.states[i].channel.fault, Messages(r.events, i, k))
  }

  /** The counter was read when the channel was `read`; since then it received `earlier` and then what
      the events from i up to k bring. */
  lemma EdgesSince(r: Run, i: nat, k: nat, read: Channel, earlier: seq<string>)
    requires r.Valid() && i <= k <= |r.events| && NoTick(r.events, i, k)
    requires read.Valid() && r.states[i].config.siFaultInput
    requires r.states[i].channel == read.ReceiveAll(earlier) && r.states[i].eventsSeen == read.events
    ensures var messages := earlier + Messages(r.events, i, k);
            && (r.states[k].NewInputEdges() <==> RisingEdges(read.fault, messages) % U32 != 0)
            && r.states[k].channel.fault == Level(read.fault, messages)
  {
    var later := Messages(r.events, i, k);
    ChannelFollowsMessages(r, i, k);
    ConfigFixed(r, i);
    ConfigFixed(r, k);
    ReceiveSplit(read, earlier, later);
    CounterCountsEdges(read, earlier + later);
    CountNonzero(read.events, RisingEdges(read.fault, earlier + later));
  }

  /** As long as no tick reads it, the input counter has moved exactly when the number of rising edges
      since it was read is not a multiple of 2^32. */
  lemma EdgesSeen(r: Run, i: nat, k: nat)
    requires r.Valid() && i <= k <= |r.events| && NoTick(r.events, i, k)
    requires r.states[i].channel.Valid() && r.states[i].config.siFaultInput
    requires r.states[i].eventsSeen == r.states[i].channel.events
    ensures r.states[k].NewInputEdges() <==> EdgesBetween(r, i, k) % U32 != 0
  {
    EdgesSince(r, i, k, r.states[i].channel, []);
    assert [] + Messages(r.events, i, k) == Messages(r.events, i, k);
  }

  lemma ChannelStaysValid(r: Run, k: nat)
    requires r.Valid() && k <= |r.events| && r.states[0].channel.Valid()
    ensures r.states[k].channel.Valid()
  {
    ChannelFollowsMessages(r, 0, k);
    CounterCountsEdges(r.states[0].channel, Messages(r.events, 0, k));
  }

  /** A tick brings the seen counter up to date. */
  lemma TickReadsCounter(r: Run, k: nat)
    requires r.Valid() && k < |r.events| && r.events[k].Tick? && r.states[k].config.siFaultInput
    ensures r.states[k + 1].eventsSeen == r.states[k + 1].channel.events
  {
    assert r.Follows(k);
    StepFrame(r.states[k], r.events[k]);
  }

  lemma EdgeStops(s: State, e: Event)
    requires e.Tick? && s.NewInputEdges() && (!s.fault.latch.latched || s.fault.latch.reason != "si fault input")
    ensures |s.Output(e)| == 1 && s.Output(e)[0].decision.SI_STOP?
  {
    var checked := s.CheckedFault(e.c);
    assert checked.latch.latched && !checked.request.pending;
  }

  /** A tick for whose fault input no stop is on yet. */
  predicate OpenToInput(r: Run, k: nat)
    requires k < |r.events| < |r.states|
  {
    r.events[k].Tick? && (!r.states[k].fault.latch.latched || r.states[k].fault.latch.reason != "si fault input")
  }

  lemma UnreadEdgeStops(r: Run, k: nat)
    requires r.Valid() && k < |r.events| && OpenToInput(r, k) && r.states[k].NewInputEdges()
    ensures |r.outputs[k]| == 1 && r.outputs[k][0].decision.SI_STOP?
  {
    assert r.Follows(k);
    EdgeStops(r.states[k], r.events[k]);
  }

  /** In every run, a rising edge of the fault input between two successive ticks i and k makes tick k
      publish SI_STOP, even when the level has fallen again - unless a stop for that same reason was
      already on. */
  lemma EdgeStopsNextTick(r: Run, i: nat, k: nat)
    requires r.Valid() && r.states[0].channel.Valid() && r.states[0].config.siFaultInput
    requires i < k < |r.events| && r.events[i].Tick? && NoTick(r.events, i + 1, k) && OpenToInput(r, k)
    requires EdgesBetween(r, i + 1, k) % U32 != 0
    ensures |r.outputs[k]| == 1 && r.outputs[k][0].decision.SI_STOP?
  {
    ConfigFixed(r, i);
    ConfigFixed(r, i + 1);
    ChannelStaysValid(r, i + 1);
    TickReadsCounter(r, i);
    EdgesSeen(r, i + 1, k);
    UnreadEdgeStops(r, k);
  }

  /** The same for the first tick of a new node, for the edges of all messages the channel ever received,
      also those from before the node was made. */
  lemma EdgeStopsFirstTick(r: Run, k: nat, earlier: seq<string>)
    requires r.Valid() && r.states[0].channel == SILENT.ReceiveAll(earlier) && r.states[0].config.siFaultInput
    requires r.states[0].eventsSeen == 0 && k < |r.events| && NoTick(r.events, 0, k) && OpenToInput(r, k)
    requires RisingEdges(false, earlier + Messages(r.events, 0, k)) % U32 != 0
    ensures |r.outputs[k]| == 1 && r.outputs[k][0].decision.SI_STOP?
  {
    EdgesSince(r, 0, k, SILENT, earlier);
    UnreadEdgeStops(r, k);
  }

  // ----- edges that go unseen -----

  /** The input raised and lowered n times. */
  function Pulses(n: nat): seq<Event> {
    if n == 0 then [] else Pulses(n - 1) + [FaultMessage("fault=1"), FaultMessage("fault=0")]
  }

  function PulseMessages(n: nat): seq<string> {
    if n == 0 then [] else PulseMessages(n - 1) + ["fault=1"] + ["fault=0"]
  }

  lemma MessagesAppended(es: seq<Event>, more: seq<Event>, k: nat)
    requires k <= |es|
    ensures Messages(es + more, 0, k) == Messages(es, 0, k)
  {
  }

  lemma {:induction false} MessagesOfPulses(n: nat)
    ensures |Pulses(n)| == 2 * n && NoTick(Pulses(n), 0, 2 * n)
    ensures Messages(Pulses(n), 0, 2 * n) == PulseMessages(n)
  {
    if n > 0 {
      var before, pulse := Pulses(n - 1), [FaultMessage("fault=1"), FaultMessage("fault=0")];
      MessagesOfPulses(n - 1);
      MessagesAppended(before, pulse, 2 * n - 2);
      assert Messages(before + pulse, 0, 2 * n - 1) == PulseMessages(n - 1) + ["fault=1"];
      assert Messages(before + pulse, 0, 2 * n) == Messages(before + pulse, 0, 2 * n - 1) + ["fault=0"];
    }
  }

  /** Every pulse is one rising edge. */
  lemma {:induction false} EdgesOfPulses(n: nat)
    ensures RisingEdges(false, PulseMessages(n)) == n && !Level(false, PulseMessages(n))
  {
    if n > 0 {
      EdgesOfPulses(n - 1);
      var raised := PulseMessages(n - 1) + ["fault=1"];
      assert raised[..|raised| - 1] == PulseMessages(n - 1);
      EdgeOfLast(false, raised);
      assert PulseMessages(n)[..|PulseMessages(n)| - 1] == raised;
      EdgeOfLast(false, PulseMessages(n));
    }
  }

  /** The counter must be read in time: n pulses before a tick go unseen exactly when n is a multiple of
      2^32, and then the tick sees no edge although there were n. */
  lemma PulsesGoUnseen(config: Config, n: nat) returns (r: Run)
    requires config.siFaultInput
    ensures r.Valid() && r.states[0] == Initial(config, SILENT) && r.events == Pulses(n) && |r.events| == 2 * n
    ensures EdgesBetween(r, 0, 2 * n) == n && (r.states[2 * n].NewInputEdges() <==> n % U32 != 0)
  {
    InitialIsSound(config, SILENT);
    MessagesOfPulses(n);
    EdgesOfPulses(n);
    r := RunExists(Initial(config, SILENT), Pulses(n));
    EdgesSeen(r, 0, 2 * n);
  }

  // ----- one output per tick -----

  function Ticks(es: seq<Event>, k: nat): nat
    requires k <= |es|
  {
    if k == 0 then 0 else Ticks(es, k - 1) + (if es[k - 1].Tick? then 1 else 0)
  }

  lemma PublishStep(s: State, e: Event)
    requires s.driving.vpIdentity.Valid()
    ensures |s.Output(e)| == (if e.Tick? then 1 else 0)
    ensures s.Step(e).gate.outSeq == s.gate.outSeq + |s.Output(e)|
    ensures e.Tick? ==> s.Output(e)[0].sequence == s.gate.outSeq + 1
  {
  }

  /** Every tick publishes exactly one request, nothing else publishes, and the n-th request
      carries number n. */
  lemma {:induction false} OnePerTick(r: Run, k: nat)
    requires r.Valid() && k <= |r.events|
    ensures |r.Published(k)| == Ticks(r.events, k)
    ensures r.states[k].gate.outSeq == r.states[0].gate.outSeq + Ticks(r.events, k)
    ensures forall n | 0 <= n < Ticks(r.events, k) :: r.Published(k)[n].sequence == r.states[0].gate.outSeq + n + 1
  {
    if k > 0 {
      OnePerTick(r, k - 1);
      assert r.Follows(k - 1);
      PublishStep(r.states[k - 1], r.events[k - 1]);
    }
  }

  /** From a fresh start, one tick for each callback of the periodic timer: the sequence number is the
      number of callbacks and never exceeds the elapsed time over the period, however late the polls. */
  lemma SequenceWithinElapsed(r: Run, start: real, period: real, polls: seq<Timer.Poll>)
    requires r.Valid() && r.states[0].gate.outSeq == 0
    requires period > 0.0 && Timer.Nondecreasing(start, polls)
    requires Ticks(r.events, |r.events|) == Timer.RunTimer(start, period, polls).1
    ensures var sequence := r.states[|r.events|].gate.outSeq;
            && sequence == Timer.RunTimer(start, period, polls).1
            && sequence as real <= Quotient(Timer.End(start, polls) - start, period)
  {
    OnePerTick(r, |r.events|);
    Timer.CallbacksWithinElapsed(start, period, polls);
  }

  // ----- steering of stops and holds -----

  function LastNormal(outs: seq<ApprovedRequest>): Option<Control> {
    if outs == [] then None
    else if outs[|outs| - 1].decision.NORMAL? then Some(outs[|outs| - 1].control)
    else LastNormal(outs[..|outs| - 1])
  }

  predicate Steers(e: Event) {
    e.Reported? && e.report.SteeringReport?
  }

  function LastReport(es: seq<Event>, k: nat): Option<Float>
    requires k <= |es|
  {
    if k == 0 then None
    else if Steers(es[k - 1]) then Some(es[k - 1].report.angle)
    else LastReport(es, k - 1)
  }

  /** The steering a stop must keep after what was published and reported so far. */
  function HeldSteering(normal: Option<Control>, report: Option<Float>): Lateral {
    if normal.Some? then normal.value.lateral
    else if report.Some? then Lateral(report.value, Finite(0.0), false)
    else ZERO_LATERAL
  }

  predicate Remembers(s: State, normal: Option<Control>, report: Option<Float>) {
    && s.gate.hasApproved == normal.Some? && (normal.Some? ==> s.gate.lastApproved == normal.value)
    && s.feedback.hasSteering == report.Some? && (report.Some? ==> s.feedback.steeringAngle == report.value)
  }

  /** A stop or hold: the held steering, and the stop deceleration as demand. */
  predicate Stopping(control: Control, steering: Lateral, decel: real) {
    && control.lateral == steering && control.longitudinal.acceleration == Finite(-decel)
    && control.longitudinal.accelerationDefined
  }

  lemma TickHoldsSteering(s: State, e: Event, normal: Option<Control>, report: Option<Float>)
    requires s.driving.vpIdentity.Valid() && e.Tick? && Remembers(s, normal, report)
    ensures var out := s.Output(e)[0];
            if out.decision.NORMAL? then Remembers(s.Step(e), Some(out.control), report)
            else Remembers(s.Step(e), normal, report)
                 && Stopping(out.control, HeldSteering(normal, report), s.config.stopDecel)
  {
  }

  lemma CallbackRemembers(s: State, e: Event, normal: Option<Control>, report: Option<Float>)
    requires s.driving.vpIdentity.Valid() && Remembers(s, normal, report) && !e.Tick?
    ensures Remembers(s.Step(e), normal, if Steers(e) then Some(e.report.angle) else report)
  {
  }

  lemma LastOfExtended(outs: seq<ApprovedRequest>, out: ApprovedRequest)
    ensures LastNormal(outs + [out]) == if out.decision.NORMAL? then Some(out.control) else LastNormal(outs)
  {
    assert (outs + [out])[..|outs|] == outs;
  }

  lemma RememberNext(r: Run, k: nat, outs: seq<ApprovedRequest>, report: Option<Float>)
    requires r.Valid() && k < |r.events| && Remembers(r.states[k], LastNormal(outs), report)
    ensures Remembers(r.states[k + 1], LastNormal(outs + r.outputs[k]),
                      if Steers(r.events[k]) then Some(r.events[k].report.angle) else report)
    ensures forall out | out in r.outputs[k] && !out.decision.NORMAL? ::
              Stopping(out.control, HeldSteering(LastNormal(outs), report), r.states[k].config.stopDecel)
  {
    var s, e := r.states[k], r.events[k];
    assert r.Follows(k);
    if e.Tick? {
      TickHoldsSteering(s, e, LastNormal(outs), report);
      LastOfExtended(outs, r.outputs[k][0]);
      assert r.outputs[k] == [r.outputs[k][0]];
    } else {
      CallbackRemembers(s, e, LastNormal(outs), report);
      assert outs + r.outputs[k] == outs;
    }
  }

  lemma {:induction false} HistoryRemembered(r: Run, k: nat)
    requires r.Valid() && k <= |r.events| && Remembers(r.states[0], None, None)
    ensures Remembers(r.states[k], LastNormal(r.Published(k)), LastReport(r.events, k))
  {
    if k > 0 {
      HistoryRemembered(r, k - 1);
      RememberNext(r, k - 1, r.Published(k - 1), LastReport(r.events, k - 1));
    }
  }

  /** Every SI_STOP or HOLD keeps the steering of the most recent NORMAL request, or before any
      the latest steering report, and demands the stop deceleration. */
  lemma StopsKeepSteering(r: Run, k: nat)
    requires r.Valid() && k < |r.events| && Remembers(r.states[0], None, None)
    ensures forall out | out in r.outputs[k] && !out.decision.NORMAL? ::
              Stopping(out.control, HeldSteering(LastNormal(r.Published(k)), LastReport(r.events, k)),
                       r.states[0].config.stopDecel)
  {
    HistoryRemembered(r, k);
    ConfigFixed(r, k);
    RememberNext(r, k, r.Published(k), LastReport(r.events, k));
  }

  // ----- the stop ramp -----

  lemma NextIdDiffers(id: nat)
    ensures (id + 1) % FAULT_IDS != id
  {
  }

  /** One fault keeps one ramp. */
  lemma RampKept(s: State, e: Event)
    requires s.driving.vpIdentity.Valid() && s.fault.latch.latched
    ensures var f := s.Step(e).fault;
            f.latch.latched && f.latch.faultId == s.fault.latch.faultId ==> f.ramp == s.fault.ramp
  {
    NextIdDiffers(s.fault.latch.faultId);
  }

  /** The same fault is on at every moment from i to j. */
  ghost predicate OneFault(r: Run, i: nat, j: nat)
    requires r.Valid() && i <= j <= |r.events|
  {
    forall m | i <= m <= j :: r.states[m].fault.latch.latched
                              && r.states[m].fault.latch.faultId == r.states[i].fault.latch.faultId
  }

  lemma {:induction false} RampKeptThrough(r: Run, i: nat, j: nat)
    requires r.Valid() && i <= j <= |r.events| && OneFault(r, i, j)
    ensures r.states[j].fault.ramp == r.states[i].fault.ramp
    decreases j - i
  {
    if i < j {
      RampKeptThrough(r, i, j - 1);
      assert r.Follows(j - 1);
      RampKept(r.states[j - 1], r.events[j - 1]);
    }
  }

  /** A tick that ends latched commands the ramp's speed. */
  lemma StoppedTickVelocity(r: Run, k: nat)
    requires r.Valid() && k < |r.events| && r.events[k].Tick? && r.states[k + 1].fault.latch.latched
    ensures |r.outputs[k]| == 1
    ensures r.outputs[k][0].control.longitudinal.velocity
         == Finite(r.states[k + 1].fault.ramp.Velocity(r.states[k].config.stopDecel, r.states[k].config.maxVelocity,
                                                       r.events[k].c.stopSteady))
  {
    assert r.Follows(k);
    LatchedTickVelocity(r.states[k], r.events[k].c, r.events[k].follower);
  }

  lemma LatchedTickVelocity(s: State, c: Clocks, follower: Follower)
    requires s.TickFault(c, follower).latch.latched
    ensures s.TickGate(c, follower).1.control.longitudinal.velocity
         == Finite(s.TickFault(c, follower).ramp.Velocity(s.config.stopDecel, s.config.maxVelocity, c.stopSteady))
  {
    if s.TickChoice(c, follower).Approve? {
      UnlatchedMeansNotStale(s, c);
    }
  }

  predicate NoFaster(later: Float, earlier: Float, limit: real) {
    later.Finite? && earlier.Finite? && 0.0 <= later.r <= earlier.r <= limit
  }

  /** During one stop the commanded speed never rises, stays within the limit and above zero. */
  lemma StopNeverSpeedsUp(r: Run, i: nat, j: nat)
    requires r.Valid() && i < j < |r.events| && r.events[i].Tick? && r.events[j].Tick?
    requires r.states[0].config.stopDecel >= 0.0 && r.states[0].config.maxVelocity >= 0.0
    requires OneFault(r, i + 1, j + 1)
    requires r.states[i + 1].fault.ramp.startedAt <= r.events[i].c.stopSteady <= r.events[j].c.stopSteady
    ensures |r.outputs[i]| == 1 == |r.outputs[j]|
    ensures NoFaster(r.outputs[j][0].control.longitudinal.velocity, r.outputs[i][0].control.longitudinal.velocity,
                     r.states[0].config.maxVelocity)
  {
    var ramp, config := r.states[i + 1].fault.ramp, r.states[0].config;
    ConfigFixed(r, i);
    ConfigFixed(r, j);
    RampKeptThrough(r, i + 1, j + 1);
    StoppedTickVelocity(r, i);
    StoppedTickVelocity(r, j);
    RampIsBounded(ramp.v0, config.stopDecel, r.events[i].c.stopSteady - ramp.startedAt,
                  r.events[j].c.stopSteady - ramp.startedAt, config.maxVelocity);
  }

  // ----- a sample refreshes its watchdog once -----

  predicate StampsValid(identity: Identity) {
    identity.Valid() && (identity.last.Some? ==> identity.last.value.stamp.Valid())
  }

  function LastStamp(d: Driving): int {
    if d.vpIdentity.last.None? then -1 else d.vpIdentity.last.value.stamp.Total()
  }

  lemma NoteLater(identity: Identity, c: Candidate)
    requires StampsValid(identity) && identity.Check(c) == ACCEPT
    ensures var r := identity.Note(c);
            && StampsValid(r) && r.last == Some(c) && c.stamp.Total() >= 0
            && (identity.last.Some? ==> c.stamp.Total() > identity.last.value.stamp.Total())
  {
    AcceptedIffAdvances(identity, c);
  }

  /** A VisionPilot watchdog is refreshed only together with a later stamp. */
  predicate Refreshed(before: Driving, after: Driving, source: TrajectorySource) {
    && LastStamp(after) >= LastStamp(before)
    && (after.vpWatch != before.vpWatch ==> LastStamp(after) > LastStamp(before))
    && (after.candidateWatch != before.candidateWatch && source.FromVp? ==> LastStamp(after) > LastStamp(before))
  }

  lemma TakeRefreshes(d: Driving, config: Config, c: Clocks, offer: Offer)
    requires StampsValid(d.vpIdentity) && d.Judge(offer, config).Accepted?
    ensures StampsValid(d.Take(c, offer).vpIdentity) && Refreshed(d, d.Take(c, offer), config.trajectorySource)
  {
    match offer
    case Trajectory(_, _, _) =>
    case Reference(_, _, _, candidate, _) => NoteLater(d.vpIdentity, candidate);
    case DrivingCommand(m) => NoteLater(d.vpIdentity, m.candidate);
  }

  /** Each refresh comes with a stamp later than the one noted before it. */
  lemma RefreshNeedsLaterStamp(r: Run, k: nat)
    requires r.Valid() && k < |r.events| && StampsValid(r.states[k].driving.vpIdentity)
    ensures StampsValid(r.states[k + 1].driving.vpIdentity)
    ensures Refreshed(r.states[k].driving, r.states[k + 1].driving, r.states[k].config.trajectorySource)
  {
    var s, e := r.states[k], r.events[k];
    assert r.Follows(k);
    StepFrame(s, e);
    if e.Offered? && s.driving.Judge(e.offer, s.config).Accepted? {
      TakeRefreshes(s.driving, s.config, e.c, e.offer);
    }
  }

  lemma {:induction false} StampsIncrease(r: Run, i: nat, j: nat)
    requires r.Valid() && i <= j <= |r.events| && StampsValid(r.states[i].driving.vpIdentity)
    ensures StampsValid(r.states[j].driving.vpIdentity)
    ensures LastStamp(r.states[i].driving) <= LastStamp(r.states[j].driving)
    decreases j - i
  {
    if i < j {
      StampsIncrease(r, i, j - 1);
      RefreshNeedsLaterStamp(r, j - 1);
    }
  }

  /** Event k refreshes the watchdog of a VisionPilot source. */
  predicate RefreshesAt(r: Run, k: nat)
    requires k < |r.events| < |r.states|
  {
    var before, after := r.states[k].driving, r.states[k + 1].driving;
    after.vpWatch != before.vpWatch
    || (after.candidateWatch != before.candidateWatch && r.states[k].config.trajectorySource.FromVp?)
  }

  /** The stamp of the sample that event k notes. */
  function StampOf(r: Run, k: nat): int
    requires k < |r.events| < |r.states|
  {
    LastStamp(r.states[k + 1].driving)
  }

  /** No sample refreshes a VisionPilot watchdog twice: of two refreshes in a run the later one has the
      strictly later stamp. */
  lemma RefreshesAdvance(r: Run, i: nat, j: nat)
    requires r.Valid() && i < j < |r.events| && StampsValid(r.states[0].driving.vpIdentity)
    requires RefreshesAt(r, i) && RefreshesAt(r, j)
    ensures StampOf(r, i) < StampOf(r, j)
  {
    StampsIncrease(r, 0, i + 1);
    StampsIncrease(r, i + 1, j);
    RefreshNeedsLaterStamp(r, j);
  }

  // ----- the initial state -----

  /** A fresh controller satisfies what the run theorems ask of the start, whatever the fault channel
      received before it. */
  lemma InitialIsSound(config: Config, channel: Channel)
    requires channel.Valid()
    ensures var s := Initial(config, channel);
            && Inv(s) && StampsValid(s.driving.vpIdentity) && !s.fault.request.pending && Remembers(s, None, None)
            && s.channel.Valid() && s.eventsSeen == 0 && s.gate.outSeq == 0 && !s.fault.latch.latched
  {
  }
}
