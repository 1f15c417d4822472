/** Whole runs over the UDP tunnel: datagrams are lost, duplicated and reordered, and the
    gateway's injection may stop after any frame. */
module CanTunnelRun {
  import opened Options
  import opened CanCodec
  import opened CanDecoder
  import opened CanSender
  import opened CanTunnel
  import opened CanRun

  const M := 0x1_0000
  const HALF := 32768

  // ----- the sender's datagrams -----

  /** A command whose send succeeded. */
  datatype Outgoing = Outgoing(m: ControlMsg, mode: OutputMode)

  function Log(s: Sender, attempts: seq<Attempt>): seq<Outgoing>
    requires s.Valid()
    decreases |attempts|
  {
    if attempts == [] then []
    else
      var a := attempts[0];
      (if Sent(s, a) == [] then [] else [Outgoing(a.m, a.mode)])
      + Log(s.Send(a.m, a.mode, a.writes).0, attempts[1..])
  }

  /** Everything the sender hands to the network. */
  function Output(s: Sender, attempts: seq<Attempt>): seq<Wire>
    requires s.Valid()
    decreases |attempts|
  {
    if attempts == [] then []
    else
      var (s1, _, wire) := s.Send(attempts[0].m, attempts[0].mode, attempts[0].writes);
      wire + Output(s1, attempts[1..])
  }

  predicate Sendable(o: Outgoing) {
    o.mode.UsesCan() && Encodable(o.m)
  }

  /** The k-th datagram of a log that starts with number s0. */
  function LogDatagram(log: seq<Outgoing>, s0: int, k: nat): seq<Byte>
    requires k < |log| && Sendable(log[k])
  {
    CommandBatchValid(log[k].m, log[k].mode, Number(s0, k));
    Datagram(Batch(Number(s0, k), CommandFrames(log[k].m, log[k].mode, Number(s0, k))))
  }

  lemma TunnelAttempt(s: Sender, a: Attempt)
    requires s.Valid() && s.transport.UdpTunnel?
    ensures var (s1, _, wire) := s.Send(a.m, a.mode, a.writes);
            && s1.transport.UdpTunnel?
            && if Sent(s, a) == [] then wire == [] && s1.sequence == s.sequence
               else Sendable(Outgoing(a.m, a.mode)) && s1.sequence == Number(s.sequence, 1)
                    && wire == [Udp(LogDatagram([Outgoing(a.m, a.mode)], s.sequence, 0))]
  {
    WrapNext(s.sequence, 0);
    if a.mode.UsesCan() && s.initialized && Encodable(a.m) && a.writes == 0 {
      assert s.Requested(a.m, a.mode)[..0] == [];
    }
  }

  /** One attempt adds nothing, or one datagram to the output and one entry to the log. */
  lemma OneAttempt(s: Sender, attempts: seq<Attempt>)
    requires s.Valid() && s.transport.UdpTunnel? && attempts != []
    ensures var a, rest := attempts[0], attempts[1..];
            var s1 := s.Send(a.m, a.mode, a.writes).0;
            var o := Outgoing(a.m, a.mode);
            && s1.transport.UdpTunnel?
            && if Sent(s, a) == []
               then s1.sequence == s.sequence && Output(s, attempts) == Output(s1, rest)
                    && Log(s, attempts) == Log(s1, rest)
               else Sendable(o) && s1.sequence == Number(s.sequence, 1)
                    && Output(s, attempts) == [Udp(LogDatagram([o], s.sequence, 0))] + Output(s1, rest)
                    && Log(s, attempts) == [o] + Log(s1, rest)
  {
    TunnelAttempt(s, attempts[0]);
  }

  /** Entry k of an output is the datagram of entry k of the log. */
  predicate Matches(output: seq<Wire>, log: seq<Outgoing>, s0: int, k: nat) {
    |output| == |log|
    && (k < |log| ==> Sendable(log[k]) && output[k] == Udp(LogDatagram(log, s0, k)))
  }

  lemma MatchesLonger(o: Outgoing, output: seq<Wire>, log: seq<Outgoing>, s0: int, s1: int, k: nat)
    requires Sendable(o) && s1 == Number(s0, 1) && Matches(output, log, s1, if k > 0 then k - 1 else 0)
    ensures Matches([Udp(LogDatagram([o], s0, 0))] + output, [o] + log, s0, k)
  {
    if k > 0 {
      WrapNext(s0, k - 1);
      assert ([o] + log)[1..] == log;
    }
  }

  /** The network gets one datagram per successful send and nothing else: the k-th holds the
      k-th command under number s0 + k, wrapped to 16 bits. */
  lemma {:induction false} OutputIsLog(s: Sender, attempts: seq<Attempt>, k: nat)
    requires s.Valid() && s.transport.UdpTunnel?
    ensures Matches(Output(s, attempts), Log(s, attempts), s.sequence, k)
    decreases |attempts|
  {
    if attempts != [] {
      var a, rest := attempts[0], attempts[1..];
      var s1 := s.Send(a.m, a.mode, a.writes).0;
      OneAttempt(s, attempts);
      if Sent(s, a) == [] {
        OutputIsLog(s1, rest, k);
      } else {
        OutputIsLog(s1, rest, if k > 0 then k - 1 else 0);
        MatchesLonger(Outgoing(a.m, a.mode), Output(s1, rest), Log(s1, rest), s.sequence, s1.sequence, k);
      }
    }
  }

  // ----- the gateway -----

  function BatchWire(f: seq<CanFrame>): (r: seq<Wire>)
    requires |f| == 3
    ensures |r| == 3
  {
    [Classic(f[0]), Classic(f[1]), Classic(f[2])]
  }

  /** The frames put on the bus for one datagram when `injected` sends succeed. */
  function Gateway(payload: seq<Byte>, injected: nat): seq<Wire> {
    if HeaderValid(payload) && ValidBatch(ReadBatch(payload)) then
      BatchWire(ReadBatch(payload).frames)[..if injected < 3 then injected else 3]
    else []
  }

  /** One turn of the gateway's receive loop. */
  method Forward(payload: seq<Byte>, injected: nat) returns (wire: seq<Wire>)
    ensures wire == Gateway(payload, injected)
  {
    AcceptedIffDatagram(payload);
    wire := [];
    var batch := Unpack(payload);
    if batch.Error? {
      return;
    }
    UnpackPack(ToBatch(batch.value));
    for i := 0 to 3
      invariant i <= injected
      invariant wire == Gateway(payload, i)
    {
      if i >= injected {
        return;
      }
      var frame := batch.value.frames[i];
      assert TunnelFrameValid(frame, i);
      wire := wire + [Classic(CanFrame(frame.canId, |frame.data|, false, frame.data))];
    }
  }

  // ----- the channel -----

  /** The network hands over datagram k; `injected` of its frames reach the bus. */
  datatype Delivery = Delivery(k: nat, injected: nat, first: Arrival, second: Arrival, third: Arrival)
  {
    function Arrivals(): seq<Arrival> {
      [first, second, third]
    }

    predicate Complete() {
      injected >= 3
    }
  }

  predicate FromLog(log: seq<Outgoing>, deliveries: seq<Delivery>) {
    && (forall o | o in log :: Sendable(o))
    && (forall v | v in deliveries :: v.k < |log|)
  }

  function Arrive(d: State, log: seq<Outgoing>, s0: int, v: Delivery): (State, seq<Command>)
    requires v.k < |log| && Sendable(log[v.k])
  {
    Bus(d, Gateway(LogDatagram(log, s0, v.k), v.injected), v.Arrivals())
  }

  function ArriveAll(d: State, log: seq<Outgoing>, s0: int, deliveries: seq<Delivery>): (State, seq<Command>)
    requires FromLog(log, deliveries)
    decreases |deliveries|
  {
    if deliveries == [] then (d, [])
    else
      var (d1, here) := Arrive(d, log, s0, deliveries[0]);
      var (d2, later) := ArriveAll(d1, log, s0, deliveries[1..]);
      (d2, here + later)
  }

  /** No poll of the watchdog reports a stop while the datagram is received. */
  predicate Quiet(d: State, wire: seq<Wire>, arrivals: seq<Arrival>)
    requires |wire| <= |arrivals|
    decreases |wire|
  {
    wire == [] ||
    (!StopFires(d, arrivals[0].polls) && Quiet(Receive(d, wire[0], arrivals[0]).0, wire[1..], arrivals[1..]))
  }

  predicate AllQuiet(d: State, log: seq<Outgoing>, s0: int, deliveries: seq<Delivery>)
    requires FromLog(log, deliveries)
    decreases |deliveries|
  {
    deliveries == [] ||
    (var v := deliveries[0];
     Quiet(d, Gateway(LogDatagram(log, s0, v.k), v.injected), v.Arrivals())
     && AllQuiet(Arrive(d, log, s0, v).0, log, s0, deliveries[1..]))
  }

  /** Whether a stop fires before the first frame of a datagram, and whether one fires later in it. */
  datatype Stop = Stop(before: bool, inside: bool)

  function StopOf(d: State, wire: seq<Wire>, arrivals: seq<Arrival>): Stop
    requires |wire| <= |arrivals|
  {
    if wire == [] then Stop(false, false)
    else Stop(StopFires(d, arrivals[0].polls), !Quiet(Receive(d, wire[0], arrivals[0]).0, wire[1..], arrivals[1..]))
  }

  function StopAt(d: State, log: seq<Outgoing>, s0: int, v: Delivery): Stop
    requires v.k < |log| && Sendable(log[v.k])
  {
    StopOf(d, Gateway(LogDatagram(log, s0, v.k), v.injected), v.Arrivals())
  }

  /** The stops of a run, one record for each delivery. */
  function StopsIn(d: State, log: seq<Outgoing>, s0: int, deliveries: seq<Delivery>): (stops: seq<Stop>)
    requires FromLog(log, deliveries)
    ensures |stops| == |deliveries|
    decreases |deliveries|
  {
    if deliveries == [] then []
    else
      var v := deliveries[0];
      [StopAt(d, log, s0, v)] + StopsIn(Arrive(d, log, s0, v).0, log, s0, deliveries[1..])
  }

  // ----- the numeric model -----

  /** Serial-number comparison of the wrapped numbers, on unwrapped indices. */
  predicate Takes(next: Option<nat>, k: nat) {
    next.None? || (k - next.value) % M < HALF
  }

  function After(next: Option<nat>, v: Delivery): Option<nat> {
    if v.Complete() && Takes(next, v.k) then Some(v.k + 1) else next
  }

  /** The indices accepted in a run; `next` is the index after the last accepted one. */
  function Accepted(next: Option<nat>, deliveries: seq<Delivery>): seq<nat>
    decreases |deliveries|
  {
    if deliveries == [] then []
    else (if deliveries[0].Complete() && Takes(next, deliveries[0].k) then [deliveries[0].k] else [])
         + Accepted(After(next, deliveries[0]), deliveries[1..])
  }

  /** What the receiver waits for once the stop before a datagram has been seen. */
  function Expected(next: Option<nat>, s: Stop): Option<nat> {
    if s.before then None else next
  }

  /** A stop inside a datagram throws its halves away. */
  predicate Admits(next: Option<nat>, v: Delivery, s: Stop) {
    v.Complete() && !s.inside && Takes(Expected(next, s), v.k)
  }

  function AfterStop(next: Option<nat>, v: Delivery, s: Stop): Option<nat> {
    if s.inside then None else After(Expected(next, s), v)
  }

  /** The indices accepted in a run with stops. */
  function AcceptedWith(next: Option<nat>, deliveries: seq<Delivery>, stops: seq<Stop>): seq<nat>
    requires |stops| == |deliveries|
    decreases |deliveries|
  {
    if deliveries == [] then []
    else (if Admits(next, deliveries[0], stops[0]) then [deliveries[0].k] else [])
         + AcceptedWith(AfterStop(next, deliveries[0], stops[0]), deliveries[1..], stops[1..])
  }

  predicate Tracks(d: State, s0: int, next: Option<nat>) {
    d.expected == if next.None? then None else Some(Number(s0, next.value))
  }

  /** Comparing wrapped numbers compares indices modulo 2^16. */
  lemma DeltaOfIndices(s0: int, k: nat, e: nat)
    ensures SeqDelta(Number(s0, k), Number(s0, e)) == (k - e + HALF) % M - HALF
    ensures SeqDelta(Number(s0, k), Number(s0, e)) >= 0 <==> (k - e) % M < HALF
    ensures SeqDelta(Number(s0, k), Number(s0, e)) == k - e <==> -HALF <= k - e < HALF
  {
    WrappedDifference(s0 + k, s0 + e);
    HalfWindow(k - e);
  }

  lemma WrappedDifference(x: int, y: int)
    ensures (x % M - y % M + HALF) % M == (x - y + HALF) % M
  {
    var qx, qy := x / M, y / M;
    assert x % M - y % M + HALF == x - y + HALF - M * (qx - qy);
  }

  lemma HalfWindow(d: int)
    ensures (d + HALF) % M - HALF >= 0 <==> d % M < HALF
    ensures (d + HALF) % M - HALF == d <==> -HALF <= d < HALF
  {
  }

  // ----- refinement -----

  lemma GatewayOfLog(log: seq<Outgoing>, s0: int, k: nat, injected: nat)
    requires k < |log| && Sendable(log[k])
    ensures var f := CommandFrames(log[k].m, log[k].mode, Number(s0, k));
            Gateway(LogDatagram(log, s0, k), injected)
            == if injected < 3 then BatchWire(f)[..injected] else BatchWire(f)
  {
    var n := Number(s0, k);
    CommandBatchValid(log[k].m, log[k].mode, n);
    UnpackPack(Batch(n, CommandFrames(log[k].m, log[k].mode, n)));
  }

  function ExpectedNumber(d: State, s: Stop): Option<int> {
    if s.before then None else d.expected
  }

  lemma QuietOne(d: State, wire: seq<Wire>, arrivals: seq<Arrival>)
    requires |wire| == 1 <= |arrivals|
    ensures Quiet(d, wire, arrivals) <==> !StopFires(d, arrivals[0].polls)
  {
    assert wire[1..] == [];
  }

  lemma QuietTwo(d: State, wire: seq<Wire>, arrivals: seq<Arrival>)
    requires |wire| == 2 <= |arrivals|
    ensures Quiet(d, wire, arrivals)
       <==> !StopFires(d, arrivals[0].polls) && !StopFires(Receive(d, wire[0], arrivals[0]).0, arrivals[1].polls)
  {
    QuietOne(Receive(d, wire[0], arrivals[0]).0, wire[1..], arrivals[1..]);
  }

  /** A batch cut short accepts nothing and does not move the expected number, which a stop drops. */
  lemma PartialBatch(d: State, f: seq<CanFrame>, count: nat, arrivals: seq<Arrival>)
    requires |f| == 3 == |arrivals| && count < 3
    requires f[0].id == LATERAL_ID && f[0].dlc == 8 && !f[0].extended
    requires f[1].id == LONGITUDINAL_ID && f[1].dlc == 8 && !f[1].extended
    ensures var s := StopOf(d, BatchWire(f)[..count], arrivals);
            var (d', commands) := Bus(d, BatchWire(f)[..count], arrivals);
            commands == [] && d'.expected == if s.inside then None else ExpectedNumber(d, s)
  {
    var wire := BatchWire(f)[..count];
    if count > 0 {
      var d1 := Receive(d, wire[0], arrivals[0]).0;
      LateralEffect(d, f[0], arrivals[0]);
      PollEffect(d, arrivals[0].polls);
      if count > 1 {
        LongitudinalEffect(d1, f[1], arrivals[1]);
        PollEffect(d1, arrivals[1].polls);
        assert wire[1..][0] == Classic(f[1]);
        QuietOne(d1, wire[1..], arrivals[1..]);
        BusOfTwo(d, wire, arrivals);
      } else {
        assert wire[1..] == [];
        BusOfOne(d, wire, arrivals);
      }
    }
  }

  lemma StopInside(d: State, wire: seq<Wire>, arrivals: seq<Arrival>)
    requires |wire| == 3 == |arrivals|
    ensures var d1 := Receive(d, wire[0], arrivals[0]).0;
            var d2 := Receive(d1, wire[1], arrivals[1]).0;
            StopOf(d, wire, arrivals).inside <==> StopFires(d1, arrivals[1].polls) || StopFires(d2, arrivals[2].polls)
  {
    QuietTwo(Receive(d, wire[0], arrivals[0]).0, wire[1..], arrivals[1..]);
  }

  /** A complete batch is judged by its own number and decoded from its own frames, whatever earlier
      batches left pending and whatever the watchdog does; a stop inside it leaves nothing. */
  lemma CompleteBatch(d: State, f: seq<CanFrame>, arrivals: seq<Arrival>)
    requires |f| == 3 == |arrivals|
    requires f[0].id == LATERAL_ID && f[0].dlc == 8 && !f[0].extended
    requires f[1].id == LONGITUDINAL_ID && f[1].dlc == 8 && !f[1].extended
    requires f[2].id == STATUS_ID && f[2].dlc == 8 && !f[2].extended
    ensures var s := StopOf(d, BatchWire(f), arrivals);
            var (d', commands) := Bus(d, BatchWire(f), arrivals);
            var n, e := ReadU16(f[2].data, 2), ExpectedNumber(d, s);
            if s.inside then commands == [] && d'.expected == None
            else if e.Some? && SeqDelta(n, e.value) < 0 then commands == [] && d'.expected == e
            else commands == [Decode(f[0].data, f[1].data, f[2].data)] && d'.expected == Some((n + 1) % M)
  {
    var wire := BatchWire(f);
    var d1 := Receive(d, wire[0], arrivals[0]).0;
    var d2 := Receive(d1, wire[1], arrivals[1]).0;
    StopInside(d, wire, arrivals);
    BusOfThree(d, wire, arrivals);
    LateralEffect(d, f[0], arrivals[0]);
    LongitudinalEffect(d1, f[1], arrivals[1]);
    HalvesPending(d, f[0], f[1], arrivals);
    StatusEffect(d2, f[2], arrivals[2]);
  }

  /** The numeric test of the decoder is the model's. */
  lemma NumberTest(e: Option<int>, s0: int, k: nat, next: Option<nat>)
    requires e == if next.None? then None else Some(Number(s0, next.value))
    ensures (e.Some? && SeqDelta(Number(s0, k), e.value) < 0) <==> !Takes(next, k)
  {
    if next.Some? {
      DeltaOfIndices(s0, k, next.value);
    }
  }

  /** The command of the k-th datagram. */
  function CommandAt(log: seq<Outgoing>, s0: int, k: nat): Command
    requires k < |log| && Sendable(log[k])
  {
    Intended(log[k].m, log[k].mode, Number(s0, k))
  }

  lemma NumberSteps(s0: int, k: nat)
    ensures (Number(s0, k) + 1) % M == Number(s0, k + 1)
  {
  }

  lemma CompleteStep(d: State, f: seq<CanFrame>, s0: int, v: Delivery, next: Option<nat>)
    requires |f| == 3 && v.Complete() && Tracks(d, s0, next)
    requires f[0].id == LATERAL_ID && f[0].dlc == 8 && !f[0].extended
    requires f[1].id == LONGITUDINAL_ID && f[1].dlc == 8 && !f[1].extended
    requires f[2].id == STATUS_ID && f[2].dlc == 8 && !f[2].extended
    requires ReadU16(f[2].data, 2) == Number(s0, v.k)
    ensures var s := StopOf(d, BatchWire(f), v.Arrivals());
            var (d', commands) := Bus(d, BatchWire(f), v.Arrivals());
            && Tracks(d', s0, AfterStop(next, v, s))
            && commands == if Admits(next, v, s) then [Decode(f[0].data, f[1].data, f[2].data)] else []
  {
    var s := StopOf(d, BatchWire(f), v.Arrivals());
    NumberTest(ExpectedNumber(d, s), s0, v.k, Expected(next, s));
    CompleteBatch(d, f, v.Arrivals());
    NumberSteps(s0, v.k);
  }

  lemma PartialStep(d: State, f: seq<CanFrame>, s0: int, v: Delivery, next: Option<nat>)
    requires |f| == 3 && !v.Complete() && Tracks(d, s0, next)
    requires f[0].id == LATERAL_ID && f[0].dlc == 8 && !f[0].extended
    requires f[1].id == LONGITUDINAL_ID && f[1].dlc == 8 && !f[1].extended
    ensures var wire := BatchWire(f)[..v.injected];
            Tracks(Bus(d, wire, v.Arrivals()).0, s0, AfterStop(next, v, StopOf(d, wire, v.Arrivals())))
            && Bus(d, wire, v.Arrivals()).1 == []
  {
    PartialBatch(d, f, v.injected, v.Arrivals());
  }

  lemma ArriveStep(d: State, log: seq<Outgoing>, s0: int, v: Delivery, next: Option<nat>)
    requires v.k < |log| && Sendable(log[v.k]) && Tracks(d, s0, next)
    ensures var s := StopAt(d, log, s0, v);
            && Tracks(Arrive(d, log, s0, v).0, s0, AfterStop(next, v, s))
            && Arrive(d, log, s0, v).1 == if Admits(next, v, s) then [CommandAt(log, s0, v.k)] else []
  {
    var o := log[v.k];
    GatewayOfLog(log, s0, v.k, v.injected);
    StatusNumber(o.m, o.mode, Number(s0, v.k));
    if v.Complete() {
      CompleteStep(d, CommandFrames(o.m, o.mode, Number(s0, v.k)), s0, v, next);
    } else {
      PartialStep(d, CommandFrames(o.m, o.mode, Number(s0, v.k)), s0, v, next);
    }
  }

  predicate Logged(log: seq<Outgoing>, indices: seq<nat>) {
    forall i | 0 <= i < |indices| :: indices[i] < |log| && Sendable(log[indices[i]])
  }

  function CommandsAt(log: seq<Outgoing>, s0: int, indices: seq<nat>): seq<Command>
    requires Logged(log, indices)
    decreases |indices|
  {
    if indices == [] then [] else [CommandAt(log, s0, indices[0])] + CommandsAt(log, s0, indices[1..])
  }

  lemma {:induction false} AcceptedFromLog(log: seq<Outgoing>, deliveries: seq<Delivery>, stops: seq<Stop>,
                                           next: Option<nat>)
    requires FromLog(log, deliveries) && |stops| == |deliveries|
    ensures Logged(log, AcceptedWith(next, deliveries, stops))
    decreases |deliveries|
  {
    if deliveries != [] {
      AcceptedFromLog(log, deliveries[1..], stops[1..], AfterStop(next, deliveries[0], stops[0]));
    }
  }

  /** Byte-level sending, packing, unpacking, injecting and decoding refines the numeric model, whatever
      the watchdog does: every accepted command is one sent datagram's command, rebuilt from its own
      frames, and the accepted ones are those the model accepts. */
  lemma {:induction false} RunWithStopsRefines(d: State, log: seq<Outgoing>, s0: int, deliveries: seq<Delivery>,
                                               next: Option<nat>)
    requires FromLog(log, deliveries) && Tracks(d, s0, next)
    ensures var indices := AcceptedWith(next, deliveries, StopsIn(d, log, s0, deliveries));
            Logged(log, indices) && ArriveAll(d, log, s0, deliveries).1 == CommandsAt(log, s0, indices)
    decreases |deliveries|
  {
    AcceptedFromLog(log, deliveries, StopsIn(d, log, s0, deliveries), next);
    if deliveries != [] {
      var v := deliveries[0];
      var d1, s := Arrive(d, log, s0, v).0, StopAt(d, log, s0, v);
      var stops := StopsIn(d1, log, s0, deliveries[1..]);
      assert StopsIn(d, log, s0, deliveries)[1..] == stops;
      var later := AcceptedWith(AfterStop(next, v, s), deliveries[1..], stops);
      ArriveStep(d, log, s0, v, next);
      RunWithStopsRefines(d1, log, s0, deliveries[1..], AfterStop(next, v, s));
      AcceptedFromLog(log, deliveries[1..], stops, AfterStop(next, v, s));
      CommandsOfStep(log, s0, v, Admits(next, v, s), later);
    }
  }

  lemma CommandsOfStep(log: seq<Outgoing>, s0: int, v: Delivery, admitted: bool, later: seq<nat>)
    requires v.k < |log| && Sendable(log[v.k]) && Logged(log, later)
    ensures var indices := (if admitted then [v.k] else []) + later;
            Logged(log, indices)
            && CommandsAt(log, s0, indices)
               == (if admitted then [CommandAt(log, s0, v.k)] else []) + CommandsAt(log, s0, later)
  {
    if admitted {
      assert ([v.k] + later)[1..] == later;
    } else {
      assert [] + later == later;
    }
  }

  lemma QuietStop(d: State, log: seq<Outgoing>, s0: int, v: Delivery)
    requires v.k < |log| && Sendable(log[v.k])
    requires Quiet(d, Gateway(LogDatagram(log, s0, v.k), v.injected), v.Arrivals())
    ensures StopAt(d, log, s0, v) == Stop(false, false)
  {
  }

  lemma {:induction false} QuietRunHasNoStops(d: State, log: seq<Outgoing>, s0: int, deliveries: seq<Delivery>)
    requires FromLog(log, deliveries) && AllQuiet(d, log, s0, deliveries)
    ensures forall stop | stop in StopsIn(d, log, s0, deliveries) :: stop == Stop(false, false)
    decreases |deliveries|
  {
    if deliveries != [] {
      var v := deliveries[0];
      QuietStop(d, log, s0, v);
      QuietRunHasNoStops(Arrive(d, log, s0, v).0, log, s0, deliveries[1..]);
    }
  }

  lemma {:induction false} AcceptedWithoutStops(next: Option<nat>, deliveries: seq<Delivery>, stops: seq<Stop>)
    requires |stops| == |deliveries| && forall stop | stop in stops :: stop == Stop(false, false)
    ensures AcceptedWith(next, deliveries, stops) == Accepted(next, deliveries)
    decreases |deliveries|
  {
    if deliveries != [] {
      assert stops[0] in stops && forall stop | stop in stops[1..] :: stop in stops;
      AcceptedWithoutStops(After(next, deliveries[0]), deliveries[1..], stops[1..]);
    }
  }

  /** While the watchdog is quiet the model needs no stops. */
  lemma TunnelRunRefines(d: State, log: seq<Outgoing>, s0: int, deliveries: seq<Delivery>, next: Option<nat>)
    requires FromLog(log, deliveries) && Tracks(d, s0, next) && AllQuiet(d, log, s0, deliveries)
    ensures Logged(log, Accepted(next, deliveries))
    ensures ArriveAll(d, log, s0, deliveries).1 == CommandsAt(log, s0, Accepted(next, deliveries))
  {
    RunWithStopsRefines(d, log, s0, deliveries, next);
    QuietRunHasNoStops(d, log, s0, deliveries);
    AcceptedWithoutStops(next, deliveries, StopsIn(d, log, s0, deliveries));
  }

  // ----- at most once, in order -----

  /** An old datagram arrives so late that its number looks new again. */
  predicate LooksNew(next: Option<nat>, v: Delivery) {
    v.Complete() && next.Some? && v.k < next.value && (next.value - 1 - v.k) % M >= HALF
  }

  predicate NeverLooksNew(next: Option<nat>, deliveries: seq<Delivery>)
    decreases |deliveries|
  {
    deliveries == [] || (!LooksNew(next, deliveries[0]) && NeverLooksNew(After(next, deliveries[0]), deliveries[1..]))
  }

  /** Strictly increasing, and past everything accepted before. */
  predicate Increasing(next: Option<nat>, indices: seq<nat>)
    decreases |indices|
  {
    indices == [] || ((next.Some? ==> indices[0] >= next.value) && Increasing(Some(indices[0] + 1), indices[1..]))
  }

  lemma OldTaken(e: nat, k: nat)
    requires k < e
    ensures (k - e) % M < HALF <==> (e - 1 - k) % M >= HALF
  {
  }

  /** Accepted indices strictly increase - at most once and in order, across the wrap - exactly
      when no datagram is so late that its number looks new again. */
  lemma {:induction false} InOrderIffNeverLooksNew(next: Option<nat>, deliveries: seq<Delivery>)
    ensures Increasing(next, Accepted(next, deliveries)) <==> NeverLooksNew(next, deliveries)
    decreases |deliveries|
  {
    if deliveries != [] {
      var v := deliveries[0];
      var later := Accepted(After(next, v), deliveries[1..]);
      if next.Some? && v.k < next.value {
        OldTaken(next.value, v.k);
      }
      InOrderIffNeverLooksNew(After(next, v), deliveries[1..]);
      if v.Complete() && Takes(next, v.k) {
        assert Accepted(next, deliveries) == [v.k] + later;
        assert ([v.k] + later)[1..] == later;
      } else {
        assert Accepted(next, deliveries) == later;
      }
    }
  }

  /** An old datagram gets in again: it is complete and no stop falls inside it, and either a stop has
      made the receiver forget its number, before it or earlier, or its number looks new. `high` is the
      index after the last accepted one, `next` what the receiver still knows of it. */
  predicate Readmits(high: Option<nat>, next: Option<nat>, v: Delivery, s: Stop) {
    && v.Complete() && !s.inside && high.Some? && v.k < high.value
    && (next.None? || s.before || (high.value - 1 - v.k) % M >= HALF)
  }

  predicate NeverReadmits(high: Option<nat>, next: Option<nat>, deliveries: seq<Delivery>, stops: seq<Stop>)
    requires |stops| == |deliveries|
    decreases |deliveries|
  {
    deliveries == [] ||
    (var v, s := deliveries[0], stops[0];
     !Readmits(high, next, v, s)
     && NeverReadmits(if Admits(next, v, s) then Some(v.k + 1) else high, AfterStop(next, v, s), deliveries[1..],
                      stops[1..]))
  }

  /** With stops, accepted indices strictly increase exactly when no old datagram is let in by a stop or
      by its number. */
  lemma {:induction false} InOrderIffNeverReadmits(high: Option<nat>, next: Option<nat>, deliveries: seq<Delivery>,
                                                   stops: seq<Stop>)
    requires |stops| == |deliveries| && (next.None? || next == high)
    ensures Increasing(high, AcceptedWith(next, deliveries, stops)) <==> NeverReadmits(high, next, deliveries, stops)
    decreases |deliveries|
  {
    if deliveries != [] {
      var v, s := deliveries[0], stops[0];
      var next' := AfterStop(next, v, s);
      var later := AcceptedWith(next', deliveries[1..], stops[1..]);
      if high.Some? && v.k < high.value {
        OldTaken(high.value, v.k);
      }
      if Admits(next, v, s) {
        InOrderIffNeverReadmits(Some(v.k + 1), next', deliveries[1..], stops[1..]);
        assert AcceptedWith(next, deliveries, stops) == [v.k] + later && ([v.k] + later)[1..] == later;
      } else {
        InOrderIffNeverReadmits(high, next', deliveries[1..], stops[1..]);
        assert AcceptedWith(next, deliveries, stops) == later;
      }
    }
  }

  const AT_ZERO := Arrival([], 0.0)
  const AT_ONE := Arrival([], 1.0)
  const STOPPED_AT_ONE := Arrival([Poll(1.0, 0.5)], 1.0)

  /** The same datagram twice; a second passes before the copy and the watchdog gives up after half. */
  const COPY_AFTER_STOP := [Delivery(0, 3, AT_ZERO, AT_ZERO, AT_ZERO), Delivery(0, 3, STOPPED_AT_ONE, AT_ONE, AT_ONE)]

  /** A complete datagram whose later frames come without a poll. */
  lemma StopOfComplete(d: State, log: seq<Outgoing>, s0: int, v: Delivery)
    requires v.k < |log| && Sendable(log[v.k]) && v.Complete() && v.second.polls == [] && v.third.polls == []
    ensures StopAt(d, log, s0, v) == Stop(StopFires(d, v.first.polls), false)
  {
    GatewayOfLog(log, s0, v.k, v.injected);
    StopInside(d, Gateway(LogDatagram(log, s0, v.k), v.injected), v.Arrivals());
  }

  /** A decoder that waits for no number takes a batch without stops, and sets its anchor. */
  lemma BatchAnchors(d: State, f: seq<CanFrame>, a: Arrival)
    requires |f| == 3 && a.polls == [] && d.expected.None?
    requires f[0].id == LATERAL_ID && f[0].dlc == 8 && !f[0].extended
    requires f[1].id == LONGITUDINAL_ID && f[1].dlc == 8 && !f[1].extended
    requires f[2].id == STATUS_ID && f[2].dlc == 8 && !f[2].extended
    ensures var d' := Bus(d, BatchWire(f), [a, a, a]).0; !d'.inSafeStop && d'.anchor == Some(a.now)
  {
    var d1 := Receive(d, Classic(f[0]), a).0;
    var d2 := Receive(d1, Classic(f[1]), a).0;
    BusOfThree(d, BatchWire(f), [a, a, a]);
    LateralEffect(d, f[0], a);
    LongitudinalEffect(d1, f[1], a);
    StatusAnchors(d2, f[2], a);
  }

  lemma AnchorOfComplete(o: Outgoing, s0: int)
    requires Sendable(o)
    ensures var d := Arrive(INITIAL, [o], s0, COPY_AFTER_STOP[0]).0; !d.inSafeStop && d.anchor == Some(0.0)
  {
    GatewayOfLog([o], s0, 0, 3);
    BatchAnchors(INITIAL, CommandFrames(o.m, o.mode, Number(s0, 0)), AT_ZERO);
  }

  lemma WatchdogFires(d: State)
    requires !d.inSafeStop && d.anchor == Some(0.0)
    ensures StopFires(d, STOPPED_AT_ONE.polls)
  {
    var polls := STOPPED_AT_ONE.polls;
    assert polls[1..] == [];
    assert PollAll(d, polls) == PollAll(d.PollWatchdog(1.0, 0.5).0, polls[1..]);
  }

  lemma StopsOfCopy(o: Outgoing, s0: int)
    requires Sendable(o)
    ensures FromLog([o], COPY_AFTER_STOP)
    ensures StopsIn(INITIAL, [o], s0, COPY_AFTER_STOP) == [Stop(false, false), Stop(true, false)]
  {
    var first, copy := COPY_AFTER_STOP[0], COPY_AFTER_STOP[1];
    var d := Arrive(INITIAL, [o], s0, first).0;
    StopOfComplete(INITIAL, [o], s0, first);
    AnchorOfComplete(o, s0);
    WatchdogFires(d);
    StopOfComplete(d, [o], s0, copy);
    assert COPY_AFTER_STOP[1..] == [copy] && [copy][1..] == [];
    assert StopsIn(d, [o], s0, [copy]) == [Stop(true, false)];
  }

  lemma CopyIsAccepted()
    ensures AcceptedWith(None, COPY_AFTER_STOP, [Stop(false, false), Stop(true, false)]) == [0, 0]
  {
    var stops := [Stop(false, false), Stop(true, false)];
    assert AcceptedWith(Some(1), COPY_AFTER_STOP[1..], stops[1..]) == [0];
  }

  lemma CommandsOfCopy(o: Outgoing, s0: int)
    requires Sendable(o)
    ensures CommandsAt([o], s0, [0, 0]) == [CommandAt([o], s0, 0), CommandAt([o], s0, 0)]
  {
    var one: seq<nat> := [0];
    assert [0, 0][1..] == [0] && [0][1..] == [];
    assert CommandsAt([o], s0, one) == [CommandAt([o], s0, 0)];
  }

  /** One stop is enough: the datagram just accepted is accepted again right after it, whatever it carries. */
  lemma StopReadmits(o: Outgoing, s0: int)
    requires Sendable(o)
    ensures FromLog([o], COPY_AFTER_STOP)
    ensures ArriveAll(INITIAL, [o], s0, COPY_AFTER_STOP).1 == [CommandAt([o], s0, 0), CommandAt([o], s0, 0)]
  {
    StopsOfCopy(o, s0);
    RunWithStopsRefines(INITIAL, [o], s0, COPY_AFTER_STOP, None);
    CopyIsAccepted();
    CommandsOfCopy(o, s0);
  }

  /** Every arrival is within half the number range of the expected index. */
  predicate InWindow(next: Option<nat>, deliveries: seq<Delivery>)
    decreases |deliveries|
  {
    deliveries == [] ||
    ((next.Some? && deliveries[0].Complete() ==> -HALF <= deliveries[0].k - next.value < HALF)
     && InWindow(After(next, deliveries[0]), deliveries[1..]))
  }

  /** A receiver with unbounded numbers: accept what is past everything accepted so far. */
  function Fresh(next: Option<nat>, deliveries: seq<Delivery>): seq<nat>
    decreases |deliveries|
  {
    if deliveries == [] then []
    else
      var v := deliveries[0];
      if v.Complete() && (next.Some? ==> v.k >= next.value) then [v.k] + Fresh(Some(v.k + 1), deliveries[1..])
      else Fresh(next, deliveries[1..])
  }

  /** Inside the window the 16-bit receiver accepts exactly what an unbounded one would. */
  lemma {:induction false} WindowMakesExact(next: Option<nat>, deliveries: seq<Delivery>)
    requires InWindow(next, deliveries)
    ensures Accepted(next, deliveries) == Fresh(next, deliveries)
    ensures NeverLooksNew(next, deliveries)
    decreases |deliveries|
  {
    if deliveries != [] {
      WindowMakesExact(After(next, deliveries[0]), deliveries[1..]);
    }
  }

  /** Outside it replay is possible: after datagram 39999 a duplicate of datagram 0 is accepted again. */
  lemma ReplayOutsideWindow(a: Arrival)
    ensures var late := [Delivery(0, 3, a, a, a), Delivery(20000, 3, a, a, a), Delivery(39999, 3, a, a, a),
        Delivery(0, 3, a, a, a)];
            Accepted(None, late) == [0, 20000, 39999, 0]
  {
    var late := [Delivery(0, 3, a, a, a), Delivery(20000, 3, a, a, a), Delivery(39999, 3, a, a, a), Delivery(0, 3, a,
          a, a)];
    assert Accepted(Some(40000), late[3..]) == [0];
    assert late[2..][1..] == late[3..] && Accepted(Some(20001), late[2..]) == [39999] + [0];
    assert late[1..][1..] == late[2..] && Accepted(Some(1), late[1..]) == [20000] + [39999, 0];
  }
}
