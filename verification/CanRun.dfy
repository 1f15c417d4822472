/** Whole runs over a lossless, ordered CAN bus: any commands, any mode, any write failing
    at any frame, and the watchdog polled at any time between any two frames. */
module CanRun {
  import opened Options
  import opened CanCodec
  import opened CanDecoder
  import opened CanSender
  import opened RealArithmetic

  datatype Poll = Poll(now: real, timeout: real)

  /** The polls that run before a frame arrives, and its time. */
  datatype Arrival = Arrival(polls: seq<Poll>, now: real)

  /** One call of `send` and the arrival of its frames. */
  datatype Attempt = Attempt(m: ControlMsg, mode: OutputMode, writes: nat, first: Arrival, second: Arrival,
        third: Arrival)
  {
    function Arrivals(): seq<Arrival> {
      [first, second, third]
    }
  }

  datatype World = World(sender: Sender, decoder: State)

  function PollAll(d: State, polls: seq<Poll>): State
    decreases |polls|
  {
    if polls == [] then d
    else PollAll(d.PollWatchdog(polls[0].now, polls[0].timeout).0, polls[1..])
  }

  function FeedWire(d: State, w: Wire, now: real): (State, Event) {
    match w
    case Classic(f) => d.Feed(f.id, f.data, f.dlc, f.extended, now)
    case FdWire(f) => d.FeedFd(f.id, f.data, f.length, false, now)
    case Udp(_) => (d, Ignored)
  }

  function Receive(d: State, w: Wire, a: Arrival): (State, seq<Command>) {
    var (d', event) := FeedWire(PollAll(d, a.polls), w, a.now);
    (d', if event.Accepted? then [d'.command] else [])
  }

  /** The decoder after a sequence of frames, and the commands it accepted. */
  function Bus(d: State, wire: seq<Wire>, arrivals: seq<Arrival>): (State, seq<Command>)
    requires |wire| <= |arrivals|
    decreases |wire|
  {
    if wire == [] then (d, [])
    else
      var (d1, here) := Receive(d, wire[0], arrivals[0]);
      var (d2, later) := Bus(d1, wire[1..], arrivals[1..]);
      (d2, here + later)
  }

  function Step(w: World, a: Attempt): (World, seq<Command>)
    requires w.sender.Valid()
  {
    var (sender, _, wire) := w.sender.Send(a.m, a.mode, a.writes);
    var (decoder, commands) := Bus(w.decoder, wire, a.Arrivals());
    (World(sender, decoder), commands)
  }

  function Run(w: World, attempts: seq<Attempt>): (World, seq<Command>)
    requires w.sender.Valid()
    decreases |attempts|
  {
    if attempts == [] then (w, [])
    else
      var (w1, here) := Step(w, attempts[0]);
      var (w2, later) := Run(w1, attempts[1..]);
      (w2, here + later)
  }

  // ----- what was sent -----

  /** The command rebuilt from the three payloads of one send. */
  function Intended(m: ControlMsg, mode: OutputMode, sequence: int): Command
    requires Encodable(m)
  {
    Decode(LateralPayload(m), LongitudinalPayload(m), StatusPayload(m, mode, sequence))
  }

  /** The command of a send that succeeded on CAN. */
  function Sent(s: Sender, a: Attempt): seq<Command>
    requires s.Valid()
  {
    if a.mode.UsesCan() && s.Send(a.m, a.mode, a.writes).1 then [Intended(a.m, a.mode, s.sequence)] else []
  }

  function AllSent(s: Sender, attempts: seq<Attempt>): seq<Command>
    requires s.Valid()
    decreases |attempts|
  {
    if attempts == [] then []
    else Sent(s, attempts[0]) + AllSent(s.Send(attempts[0].m, attempts[0].mode, attempts[0].writes).0, attempts[1..])
  }

  // ----- watchdog stops -----

  predicate StopFires(d: State, polls: seq<Poll>) {
    !d.inSafeStop && PollAll(d, polls).inSafeStop
  }

  /** A stop throws away what is pending and the expected number; without one nothing but
      the time anchor changes. */
  lemma {:induction false} PollEffect(d: State, polls: seq<Poll>)
    ensures var d' := PollAll(d, polls);
            if StopFires(d, polls) then d'.lateral.None? && d'.longitudinal.None? && d'.expected.None?
            else d'.lateral == d.lateral && d'.longitudinal == d.longitudinal && d'.expected == d.expected
                 && d'.inSafeStop == d.inSafeStop
    decreases |polls|
  {
    if polls != [] {
      var d1 := d.PollWatchdog(polls[0].now, polls[0].timeout).0;
      PollEffect(d1, polls[1..]);
      if d1.inSafeStop {
        SafeStopStays(d1, polls[1..]);
      }
    }
  }

  lemma {:induction false} SafeStopStays(d: State, polls: seq<Poll>)
    requires d.inSafeStop
    ensures PollAll(d, polls).inSafeStop
    decreases |polls|
  {
    if polls != [] {
      SafeStopStays(d.PollWatchdog(polls[0].now, polls[0].timeout).0, polls[1..]);
    }
  }

  /** A stop fires between the first and the last frame of this attempt. A CAN-FD command
      is one frame, so nothing can fall in between. */
  predicate Interrupted(w: World, a: Attempt)
    requires w.sender.Valid() && Encodable(a.m)
  {
    w.sender.transport.SocketCan? &&
    var wire := w.sender.Requested(a.m, a.mode);
    var d1 := Receive(w.decoder, wire[0], a.first).0;
    var d2 := Receive(d1, wire[1], a.second).0;
    StopFires(d1, a.second.polls) || StopFires(d2, a.third.polls)
  }

  /** The number the decoder waits for, if any, is the number the sender will use. */
  predicate InStep(w: World) {
    && w.sender.Valid() && w.sender.initialized && !w.sender.transport.UdpTunnel?
    && (w.decoder.expected.Some? ==> w.decoder.expected.value == w.sender.sequence)
  }

  /** The commands a step must deliver: the one it sent, unless a stop interrupted it. */
  function Delivered(w: World, a: Attempt): seq<Command>
    requires w.sender.Valid()
  {
    if Sent(w.sender, a) == [] || Interrupted(w, a) then [] else Sent(w.sender, a)
  }

  function AllDelivered(w: World, attempts: seq<Attempt>): seq<Command>
    requires w.sender.Valid()
    decreases |attempts|
  {
    if attempts == [] then [] else Delivered(w, attempts[0]) + AllDelivered(Step(w, attempts[0]).0, attempts[1..])
  }

  // ----- one step -----

  lemma LateralEffect(d: State, f: CanFrame, a: Arrival)
    requires f.id == LATERAL_ID && f.dlc == 8 && !f.extended
    ensures var (d', commands) := Receive(d, Classic(f), a);
            && commands == [] && d'.lateral == Some(f.data)
            && d'.longitudinal == PollAll(d, a.polls).longitudinal
            && d'.expected == PollAll(d, a.polls).expected
  {
    assert f.data[..8] == f.data;
  }

  lemma LongitudinalEffect(d: State, f: CanFrame, a: Arrival)
    requires f.id == LONGITUDINAL_ID && f.dlc == 8 && !f.extended
    ensures var (d', commands) := Receive(d, Classic(f), a);
            && commands == [] && d'.longitudinal == Some(f.data)
            && d'.lateral == PollAll(d, a.polls).lateral
            && d'.expected == PollAll(d, a.polls).expected
            && d'.inSafeStop == PollAll(d, a.polls).inSafeStop
  {
    assert f.data[..8] == f.data;
  }

  lemma StatusEffect(d: State, f: CanFrame, a: Arrival)
    requires f.id == STATUS_ID && f.dlc == 8 && !f.extended
    ensures var p := PollAll(d, a.polls);
            var (d', commands) := Receive(d, Classic(f), a);
            if p.Commits(f.data)
            then commands == [Decode(p.lateral.value, p.longitudinal.value, f.data)]
                 && d'.expected == Some((ReadU16(f.data, 2) + 1) % 0x1_0000)
            else commands == [] && d'.expected == p.expected
    ensures Receive(d, Classic(f), a).0.lateral.None? && Receive(d, Classic(f), a).0.longitudinal.None?
  {
    assert f.data[..8] == f.data;
  }

  /** An accepted status frame ends a stop and sets the time anchor. */
  lemma StatusAnchors(d: State, f: CanFrame, a: Arrival)
    requires f.id == STATUS_ID && f.dlc == 8 && !f.extended && PollAll(d, a.polls).Commits(f.data)
    ensures var d' := Receive(d, Classic(f), a).0; !d'.inSafeStop && d'.anchor == Some(a.now)
  {
    assert f.data[..8] == f.data;
  }

  lemma StatusNumber(m: ControlMsg, mode: OutputMode, sequence: int)
    requires IsU16(sequence)
    ensures ReadU16(StatusPayload(m, mode, sequence), 2) == sequence
  {
    assert StatusPayload(m, mode, sequence)[2..4] == U16Bytes(sequence);
    U16RoundTrip(sequence, StatusPayload(m, mode, sequence), 2);
  }

  /** The two halves when the status frame is due: both there unless a stop fell between the frames. */
  lemma HalvesPending(d: State, lateral: CanFrame, longitudinal: CanFrame, arrivals: seq<Arrival>)
    requires |arrivals| == 3
    requires lateral.id == LATERAL_ID && lateral.dlc == 8 && !lateral.extended
    requires longitudinal.id == LONGITUDINAL_ID && longitudinal.dlc == 8 && !longitudinal.extended
    ensures var d1 := Receive(d, Classic(lateral), arrivals[0]).0;
            var d2 := Receive(d1, Classic(longitudinal), arrivals[1]).0;
            var p := PollAll(d2, arrivals[2].polls);
            var stopped := StopFires(d1, arrivals[1].polls) || StopFires(d2, arrivals[2].polls);
            && (if stopped then p.lateral.None? else p.lateral == Some(lateral.data))
            && (!stopped ==> p.longitudinal == Some(longitudinal.data))
            && p.expected == (if stopped || StopFires(d, arrivals[0].polls) then None else d.expected)
  {
    var d1 := Receive(d, Classic(lateral), arrivals[0]).0;
    var d2 := Receive(d1, Classic(longitudinal), arrivals[1]).0;
    LateralEffect(d, lateral, arrivals[0]);
    LongitudinalEffect(d1, longitudinal, arrivals[1]);
    PollEffect(d, arrivals[0].polls);
    PollEffect(d1, arrivals[1].polls);
    PollEffect(d2, arrivals[2].polls);
  }

  lemma StatusAccepted(d: State, f: CanFrame, a: Arrival, lateral: Payload, longitudinal: Payload, n: int)
    requires f.id == STATUS_ID && f.dlc == 8 && !f.extended && n == ReadU16(f.data, 2)
    requires var p := PollAll(d, a.polls);
             p.lateral == Some(lateral) && p.longitudinal == Some(longitudinal)
             && (p.expected.Some? ==> p.expected.value == n)
    ensures var (d', commands) := Receive(d, Classic(f), a);
            commands == [Decode(lateral, longitudinal, f.data)] && d'.expected == Some((n + 1) % 0x1_0000)
  {
    StatusEffect(d, f, a);
  }

  lemma StatusRejected(d: State, f: CanFrame, a: Arrival)
    requires f.id == STATUS_ID && f.dlc == 8 && !f.extended && PollAll(d, a.polls).lateral.None?
    ensures var (d', commands) := Receive(d, Classic(f), a);
            commands == [] && d'.expected == PollAll(d, a.polls).expected
  {
    StatusEffect(d, f, a);
  }

  /** Three frames in their order: what they carry is accepted when no stop falls between them and the
      number is the expected one. */
  lemma ThreeFrames(d: State, f: seq<CanFrame>, wire: seq<Wire>, arrivals: seq<Arrival>, n: int)
    requires |f| == 3 == |arrivals| && wire == [Classic(f[0]), Classic(f[1]), Classic(f[2])]
    requires f[0].id == LATERAL_ID && f[0].dlc == 8 && !f[0].extended
    requires f[1].id == LONGITUDINAL_ID && f[1].dlc == 8 && !f[1].extended
    requires f[2].id == STATUS_ID && f[2].dlc == 8 && !f[2].extended
    requires n == ReadU16(f[2].data, 2) && (d.expected.Some? ==> d.expected.value == n)
    ensures var d1 := Receive(d, wire[0], arrivals[0]).0;
            var d2 := Receive(d1, wire[1], arrivals[1]).0;
            var stopped := StopFires(d1, arrivals[1].polls) || StopFires(d2, arrivals[2].polls);
            var (d', commands) := Bus(d, wire, arrivals);
            && commands == (if stopped then [] else [Decode(f[0].data, f[1].data, f[2].data)])
            && (d'.expected.Some? ==> d'.expected.value == (n + 1) % 0x1_0000)
  {
    var d1 := Receive(d, wire[0], arrivals[0]).0;
    var d2 := Receive(d1, wire[1], arrivals[1]).0;
    BusOfThree(d, wire, arrivals);
    LateralEffect(d, f[0], arrivals[0]);
    LongitudinalEffect(d1, f[1], arrivals[1]);
    HalvesPending(d, f[0], f[1], arrivals);
    if StopFires(d1, arrivals[1].polls) || StopFires(d2, arrivals[2].polls) {
      StatusRejected(d2, f[2], arrivals[2]);
    } else {
      StatusAccepted(d2, f[2], arrivals[2], f[0].data, f[1].data, n);
    }
  }

  /** All three frames arrive: the command is accepted exactly when no stop interrupts it. */
  lemma FullClassicStep(w: World, a: Attempt)
    requires InStep(w) && w.sender.transport.SocketCan? && Encodable(a.m) && a.mode.UsesCan()
    ensures var wire := w.sender.Requested(a.m, a.mode);
            var (d', commands) := Bus(w.decoder, wire, a.Arrivals());
            && commands == (if Interrupted(w, a) then [] else [Intended(a.m, a.mode, w.sender.sequence)])
            && (d'.expected.Some? ==> d'.expected.value == (w.sender.sequence + 1) % 0x1_0000)
  {
    StatusNumber(a.m, a.mode, w.sender.sequence);
    var f := CommandFrames(a.m, a.mode, w.sender.sequence);
    ThreeFrames(w.decoder, f, w.sender.Requested(a.m, a.mode), a.Arrivals(), w.sender.sequence);
  }

  lemma BusOfOne(d: State, wire: seq<Wire>, arrivals: seq<Arrival>)
    requires |wire| == 1 <= |arrivals|
    ensures Bus(d, wire, arrivals) == Receive(d, wire[0], arrivals[0])
  {
    var (d1, c1) := Receive(d, wire[0], arrivals[0]);
    assert wire[1..] == [] && c1 + [] == c1;
  }

  lemma BusOfTwo(d: State, wire: seq<Wire>, arrivals: seq<Arrival>)
    requires |wire| == 2 <= |arrivals|
    ensures var (d1, c1) := Receive(d, wire[0], arrivals[0]);
            var (d2, c2) := Receive(d1, wire[1], arrivals[1]);
            Bus(d, wire, arrivals) == (d2, c1 + c2)
  {
    BusOfOne(Receive(d, wire[0], arrivals[0]).0, wire[1..], arrivals[1..]);
  }

  lemma BusOfThree(d: State, wire: seq<Wire>, arrivals: seq<Arrival>)
    requires |wire| == 3 <= |arrivals|
    ensures var (d1, c1) := Receive(d, wire[0], arrivals[0]);
            var (d2, c2) := Receive(d1, wire[1], arrivals[1]);
            var (d3, c3) := Receive(d2, wire[2], arrivals[2]);
            Bus(d, wire, arrivals) == (d3, c1 + c2 + c3)
  {
    var (d1, c1) := Receive(d, wire[0], arrivals[0]);
    var (d2, c2) := Receive(d1, wire[1], arrivals[1]);
    var (d3, c3) := Receive(d2, wire[2], arrivals[2]);
    BusOfTwo(d1, wire[1..], arrivals[1..]);
    assert c1 + (c2 + c3) == c1 + c2 + c3;
  }

  /** The status frame is missing: nothing is accepted and the expectation is not advanced. */
  lemma PartialClassicStep(w: World, a: Attempt)
    requires InStep(w) && w.sender.transport.SocketCan? && Encodable(a.m) && a.mode.UsesCan() && a.writes < 3
    ensures var wire := w.sender.Requested(a.m, a.mode)[..a.writes];
            var (d', commands) := Bus(w.decoder, wire, a.Arrivals());
            && commands == []
            && (d'.expected.Some? ==> d'.expected.value == w.sender.sequence)
  {
    var f := CommandFrames(a.m, a.mode, w.sender.sequence);
    var wire := w.sender.Requested(a.m, a.mode)[..a.writes];
    if a.writes > 0 {
      var d1 := Receive(w.decoder, wire[0], a.first).0;
      LateralEffect(w.decoder, f[0], a.first);
      PollEffect(w.decoder, a.first.polls);
      if a.writes > 1 {
        LongitudinalEffect(d1, f[1], a.second);
        PollEffect(d1, a.second.polls);
        BusOfTwo(w.decoder, wire, a.Arrivals());
      } else {
        BusOfOne(w.decoder, wire, a.Arrivals());
      }
    }
  }

  /** One CAN-FD frame sets both halves and commits them in one go. */
  lemma FdEffect(d: State, fd: FdFrame, lateral: Payload, longitudinal: Payload, status: Payload, now: real)
    requires fd.id == FD_COMMAND_ID && fd.length == FD_PAYLOAD_LENGTH && |fd.data| >= FD_PAYLOAD_LENGTH
    requires fd.data[0..8] == lateral && fd.data[8..16] == longitudinal && fd.data[16..24] == status
    requires d.expected.Some? ==> SeqDelta(ReadU16(status, 2), d.expected.value) >= 0
    ensures var (d', event) := FeedWire(d, FdWire(fd), now);
            && event == Accepted && d'.command == Decode(lateral, longitudinal, status)
            && d'.expected == Some((ReadU16(status, 2) + 1) % 0x1_0000)
  {
    assert lateral[..8] == lateral && longitudinal[..8] == longitudinal && status[..8] == status;
  }

  lemma FdSlices(m: ControlMsg, mode: OutputMode, sequence: int)
    requires Encodable(m)
    ensures var data := CommandFdFrame(m, mode, sequence).data;
            && |data| == FD_CAPACITY && data[0..8] == LateralPayload(m)
            && data[8..16] == LongitudinalPayload(m) && data[16..24] == StatusPayload(m, mode, sequence)
  {
  }

  lemma FdCommand(d: State, m: ControlMsg, mode: OutputMode, sequence: int, now: real)
    requires Encodable(m) && IsU16(sequence) && (d.expected.Some? ==> d.expected.value == sequence)
    ensures var (d', event) := FeedWire(d, FdWire(CommandFdFrame(m, mode, sequence)), now);
            && event == Accepted && d'.command == Intended(m, mode, sequence)
            && d'.expected == Some((sequence + 1) % 0x1_0000)
  {
    StatusNumber(m, mode, sequence);
    FdSlices(m, mode, sequence);
    FdEffect(d, CommandFdFrame(m, mode, sequence), LateralPayload(m), LongitudinalPayload(m),
             StatusPayload(m, mode, sequence), now);
  }

  /** One CAN-FD frame carries the whole command and is always accepted. */
  lemma FdStep(w: World, a: Attempt)
    requires InStep(w) && w.sender.transport.SocketCanFd? && Encodable(a.m) && a.mode.UsesCan()
    ensures var (d', commands) := Bus(w.decoder, w.sender.Requested(a.m, a.mode), a.Arrivals());
            && commands == [Intended(a.m, a.mode, w.sender.sequence)]
            && d'.expected == Some((w.sender.sequence + 1) % 0x1_0000)
  {
    PollEffect(w.decoder, a.first.polls);
    FdCommand(PollAll(w.decoder, a.first.polls), a.m, a.mode, w.sender.sequence, a.first.now);
    BusOfOne(w.decoder, w.sender.Requested(a.m, a.mode), a.Arrivals());
  }

  lemma StepDelivers(w: World, a: Attempt)
    requires InStep(w)
    ensures InStep(Step(w, a).0)
    ensures Step(w, a).1 == Delivered(w, a)
  {
    if a.mode.UsesCan() && Encodable(a.m) {
      var all := w.sender.Requested(a.m, a.mode);
      if w.sender.transport.SocketCanFd? {
        FdStep(w, a);
        if a.writes < 1 {
          assert all[..a.writes] == [];
        }
      } else if a.writes < 3 {
        PartialClassicStep(w, a);
      } else {
        FullClassicStep(w, a);
      }
    }
  }

  // ----- runs -----

  /** In every run the decoder accepts exactly the commands whose send succeeded and whose
      frames no watchdog stop separated, in order, each rebuilt from its own frames. */
  lemma {:induction false} RunDelivers(w: World, attempts: seq<Attempt>)
    requires InStep(w)
    ensures InStep(Run(w, attempts).0)
    ensures Run(w, attempts).1 == AllDelivered(w, attempts)
    decreases |attempts|
  {
    if attempts != [] {
      StepDelivers(w, attempts[0]);
      RunDelivers(Step(w, attempts[0]).0, attempts[1..]);
    }
  }

  /** `a` is `b` with some elements left out. */
  predicate Subsequence<T(==)>(a: seq<T>, b: seq<T>) {
    if a == [] then true
    else if b == [] then false
    else (a[0] == b[0] && Subsequence(a[1..], b[1..])) || Subsequence(a, b[1..])
  }

  lemma {:induction false} DeliveredWasSent(w: World, attempts: seq<Attempt>)
    requires InStep(w)
    ensures Subsequence(AllDelivered(w, attempts), AllSent(w.sender, attempts))
    decreases |attempts|
  {
    if attempts != [] {
      var w1 := Step(w, attempts[0]).0;
      StepDelivers(w, attempts[0]);
      DeliveredWasSent(w1, attempts[1..]);
      var d, later := Delivered(w, attempts[0]), AllDelivered(w1, attempts[1..]);
      var s, sentLater := Sent(w.sender, attempts[0]), AllSent(w1.sender, attempts[1..]);
      if s == [] {
        assert d + later == later && s + sentLater == sentLater;
      } else {
        assert (s + sentLater)[1..] == sentLater;
        if d == [] {
          assert d + later == later;
        } else {
          assert (d + later)[1..] == later;
        }
      }
    }
  }

  /** No torn command, none twice, none out of order, whatever the watchdog does. */
  lemma AcceptedWasSent(w: World, attempts: seq<Attempt>)
    requires InStep(w)
    ensures Subsequence(Run(w, attempts).1, AllSent(w.sender, attempts))
  {
    RunDelivers(w, attempts);
    DeliveredWasSent(w, attempts);
  }

  predicate NeverInterrupted(w: World, attempts: seq<Attempt>)
    requires w.sender.Valid()
    decreases |attempts|
  {
    attempts == [] ||
    ((Encodable(attempts[0].m) ==> !Interrupted(w, attempts[0]))
     && NeverInterrupted(Step(w, attempts[0]).0, attempts[1..]))
  }

  /** Without a stop between the frames of a command, exactly the successful sends are accepted. */
  lemma {:induction false} UninterruptedRun(w: World, attempts: seq<Attempt>)
    requires InStep(w) && NeverInterrupted(w, attempts)
    ensures Run(w, attempts).1 == AllSent(w.sender, attempts)
    decreases |attempts|
  {
    if attempts != [] {
      StepDelivers(w, attempts[0]);
      UninterruptedRun(Step(w, attempts[0]).0, attempts[1..]);
    }
  }

  /** The 16-bit counter after k successful sends. */
  function Number(start: int, k: nat): int {
    (start + k) % 0x1_0000
  }

  /** What one attempt adds to the list, and the number it leaves behind. */
  lemma SentNumber(s: Sender, a: Attempt)
    requires s.Valid()
    ensures var s1 := s.Send(a.m, a.mode, a.writes).0;
            if Sent(s, a) == [] then s1.sequence == s.sequence
            else |Sent(s, a)| == 1 && Sent(s, a)[0].sequence == s.sequence
                 && s1.sequence == Number(s.sequence, 1)
  {
    if Sent(s, a) != [] {
      StatusNumber(a.m, a.mode, s.sequence);
    }
  }

  /** The k-th successful command carries number s0 + k, wrapped to 16 bits. */
  lemma {:induction false} SentNumbers(s: Sender, attempts: seq<Attempt>, k: nat)
    requires s.Valid() && k < |AllSent(s, attempts)|
    ensures AllSent(s, attempts)[k].sequence == Number(s.sequence, k)
    decreases |attempts|
  {
    var here := Sent(s, attempts[0]);
    var s1 := s.Send(attempts[0].m, attempts[0].mode, attempts[0].writes).0;
    var later := AllSent(s1, attempts[1..]);
    assert AllSent(s, attempts) == here + later;
    SentNumber(s, attempts[0]);
    WrapNext(s.sequence, 0);
    if here == [] {
      assert here + later == later;
      SentNumbers(s1, attempts[1..], k);
    } else if k > 0 {
      assert (here + later)[k] == later[k - 1];
      SentNumbers(s1, attempts[1..], k - 1);
      WrapNext(s.sequence, k - 1);
    } else {
      assert (here + later)[0] == here[0];
    }
  }

  lemma WrapNext(s: int, k: nat)
    ensures Number(Number(s, 1), k) == Number(s, k + 1)
    ensures IsU16(s) ==> Number(s, 0) == s
  {
  }

  // ----- meaning of a decoded command -----

  predicate FieldClose(decoded: real, value: real, scale: real) {
    Abs(Mul(decoded - value, scale)) <= 0.5
  }

  /** A value decoded from its wire form is off by at most half a unit. */
  lemma HalfUnit(value: real, scale: real)
    requires scale > 0.0
    ensures FieldClose(Quotient(Scaled(value, scale) as real, scale), value, scale)
  {
    RoundingIsNearest(value * scale);
    QuotientTimes(Scaled(value, scale) as real, scale);
    var q := Quotient(Scaled(value, scale) as real, scale);
    assert Mul(q - value, scale) == Mul(q, scale) - value * scale;
  }

  lemma FieldIsClose(value: real, scale: real, wire: int, d: seq<Byte>, offset: nat)
    requires scale > 0.0 && wire == Scaled(value, scale) && IsI32(wire)
    requires offset + 4 <= |d| && d[offset..offset + 4] == I32Bytes(wire)
    ensures FieldClose(Quotient(ReadI32(d, offset) as real, scale), value, scale)
  {
    I32RoundTrip(wire, d, offset);
    HalfUnit(value, scale);
  }

  lemma FlagBits(m: ControlMsg)
    ensures var flags := ValidityFlags(m);
            && Bit(flags, 0) == m.rateDefined && Bit(flags, 1) == m.accelerationDefined
            && Bit(flags, 2) == m.jerkDefined
  {
  }

  /** Each field of a decoded command is within half a unit of the command that was sent,
      and the flags, the mode and the number arrive unchanged. */
  lemma DecodedIsClose(m: ControlMsg, mode: OutputMode, sequence: int)
    requires Encodable(m) && IsU16(sequence)
    ensures var c := Intended(m, mode, sequence);
            && FieldClose(c.steeringAngle, m.steeringAngle.r, STEERING_SCALE)
            && FieldClose(c.steeringRate, m.steeringRate.r, STEERING_SCALE)
            && FieldClose(c.velocity, m.velocity.r, SPEED_SCALE)
            && FieldClose(c.acceleration, m.acceleration.r, SPEED_SCALE)
            && c.rateDefined == m.rateDefined && c.accelerationDefined == m.accelerationDefined
            && c.jerkDefined == m.jerkDefined
            && c.sequence == sequence && c.outputMode == mode.Code()
  {
    var lateral, longitudinal := LateralPayload(m), LongitudinalPayload(m);
    assert lateral[0..4] == I32Bytes(Scaled(m.steeringAngle.r, STEERING_SCALE));
    assert lateral[4..8] == I32Bytes(Scaled(m.steeringRate.r, STEERING_SCALE));
    assert longitudinal[0..4] == I32Bytes(Scaled(m.velocity.r, SPEED_SCALE));
    assert longitudinal[4..8] == I32Bytes(Scaled(m.acceleration.r, SPEED_SCALE));
    FieldIsClose(m.steeringAngle.r, STEERING_SCALE, Scaled(m.steeringAngle.r, STEERING_SCALE), lateral, 0);
    FieldIsClose(m.steeringRate.r, STEERING_SCALE, Scaled(m.steeringRate.r, STEERING_SCALE), lateral, 4);
    FieldIsClose(m.velocity.r, SPEED_SCALE, Scaled(m.velocity.r, SPEED_SCALE), longitudinal, 0);
    FieldIsClose(m.acceleration.r, SPEED_SCALE, Scaled(m.acceleration.r, SPEED_SCALE), longitudinal, 4);
    FlagBits(m);
    StatusNumber(m, mode, sequence);
  }
}
