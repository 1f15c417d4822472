/** Whole runs over the UDP tunnel and the classic bus behind the gateway: datagrams are lost, repeated
    and reordered, injection stops after any frame, and the bus loses any frame. Exactly when every
    accepted command is one that was sent. */
module CanTunnelLoss {
  import opened Options
  import opened CanCodec
  import opened CanDecoder
  import opened CanSender
  import opened CanTunnel
  import opened CanRun
  import opened CanTunnelRun
  import opened CanHalves

  /** A delivery and, for each frame the gateway injects, whether the bus keeps it. */
  datatype LossyDelivery = LossyDelivery(v: Delivery, lateralKept: bool, longitudinalKept: bool, statusKept: bool)
  {
    predicate Keeps(n: nat) {
      if n == 0 then lateralKept else if n == 1 then longitudinalKept else statusKept
    }
  }

  predicate Logs(log: seq<Outgoing>, deliveries: seq<LossyDelivery>) {
    (forall o | o in log :: Sendable(o)) && (forall x | x in deliveries :: x.v.k < |log|)
  }

  // ----- the bytes -----

  /** Frame n behind the gateway, or only the polls before it. */
  function WireSlot(d: State, wire: seq<Wire>, x: LossyDelivery, n: nat): (State, seq<Command>)
    requires n < 3
  {
    if n < |wire| && x.Keeps(n) then Receive(d, wire[n], x.v.Arrivals()[n])
    else (PollAll(d, x.v.Arrivals()[n].polls), [])
  }

  function WireBefore(d: State, wire: seq<Wire>, x: LossyDelivery, n: nat): State
    requires n <= 3
  {
    if n == 0 then d else WireSlot(WireBefore(d, wire, x, n - 1), wire, x, n - 1).0
  }

  /** The decoder and what it accepts when the network hands over one datagram of the log. */
  function LossyArrive(d: State, log: seq<Outgoing>, s0: int, x: LossyDelivery): (State, seq<Command>)
    requires x.v.k < |log| && Sendable(log[x.v.k])
  {
    var wire := Gateway(LogDatagram(log, s0, x.v.k), x.v.injected);
    (WireBefore(d, wire, x, 3),
     WireSlot(d, wire, x, 0).1 + WireSlot(WireBefore(d, wire, x, 1), wire, x, 1).1
     + WireSlot(WireBefore(d, wire, x, 2), wire, x, 2).1)
  }

  /** What the network hands over, and what becomes of it: `states[i]` is the decoder before delivery i,
      `accepted[i]` what that delivery has accepted. */
  datatype Run = Run(log: seq<Outgoing>, s0: int, deliveries: seq<LossyDelivery>,
                     states: seq<State>, accepted: seq<seq<Command>>)
  {
    ghost predicate Valid() {
      && Logs(log, deliveries) && |states| == |deliveries| + 1 && |accepted| == |deliveries|
      && HoldsNothing(states[0]) && forall i | 0 <= i < |deliveries| :: Follows(i)
    }

    ghost predicate Follows(i: nat)
      requires Logs(log, deliveries) && i < |deliveries| == |accepted| && |states| == |deliveries| + 1
    {
      (states[i + 1], accepted[i]) == LossyArrive(states[i], log, s0, deliveries[i])
    }

    function AllAccepted(): seq<Command> {
      Joined(accepted, |accepted|)
    }
  }

  predicate HoldsNothing(d: State) {
    d.lateral.None? && d.longitudinal.None?
  }

  function Extended(r: Run, x: LossyDelivery, next: State, here: seq<Command>): Run {
    Run(r.log, r.s0, r.deliveries + [x], r.states + [next], r.accepted + [here])
  }

  lemma SameStep(r: Run, e: Run, i: nat)
    requires Logs(r.log, r.deliveries) && i < |r.deliveries| == |r.accepted| && |r.states| == |r.deliveries| + 1
    requires Logs(e.log, e.deliveries) && i < |e.deliveries| == |e.accepted| && |e.states| == |e.deliveries| + 1
    requires (r.log, r.s0, r.deliveries[i], r.states[i], r.states[i + 1], r.accepted[i])
          == (e.log, e.s0, e.deliveries[i], e.states[i], e.states[i + 1], e.accepted[i])
    ensures r.Follows(i) ==> e.Follows(i)
  {
  }

  lemma LastStep(r: Run, d: State, x: LossyDelivery)
    requires Logs(r.log, r.deliveries) && 0 < |r.deliveries| == |r.accepted| && |r.states| == |r.deliveries| + 1
    requires var n := |r.deliveries| - 1;
             r.deliveries[n] == x && r.states[n] == d && x.v.k < |r.log| && Sendable(r.log[x.v.k])
             && (r.states[n + 1], r.accepted[n]) == LossyArrive(d, r.log, r.s0, x)
    ensures r.Follows(|r.deliveries| - 1)
  {
  }

  /** A run continued by one more delivery. */
  lemma Continued(r: Run, x: LossyDelivery) returns (e: Run)
    requires r.Valid() && Logs(r.log, r.deliveries + [x])
    ensures e.Valid() && e.log == r.log && e.s0 == r.s0 && e.deliveries == r.deliveries + [x]
    ensures e.states[0] == r.states[0]
  {
    var n := |r.deliveries|;
    assert (r.deliveries + [x])[n] in r.deliveries + [x];
    var (next, here) := LossyArrive(r.states[n], r.log, r.s0, x);
    e := Extended(r, x, next, here);
    LastStep(e, r.states[n], x);
    forall i | 0 <= i < n + 1
      ensures e.Follows(i)
    {
      if i < n {
        assert r.Follows(i);
        SameStep(r, e, i);
      }
    }
  }

  /** Every list of deliveries has a run. */
  lemma {:induction false} RunExists(d: State, log: seq<Outgoing>, s0: int, deliveries: seq<LossyDelivery>)
    returns (r: Run)
    requires Logs(log, deliveries) && HoldsNothing(d)
    ensures r.Valid() && r.log == log && r.s0 == s0 && r.deliveries == deliveries && r.states[0] == d
    decreases |deliveries|
  {
    if deliveries == [] {
      r := Run(log, s0, deliveries, [d], []);
    } else {
      var n := |deliveries| - 1;
      var before := RunExists(d, log, s0, deliveries[..n]);
      assert deliveries == deliveries[..n] + [deliveries[n]];
      r := Continued(before, deliveries[n]);
    }
  }

  // ----- the passes over the bus -----

  function EntryOf(log: seq<Outgoing>, s0: int, k: nat): Entry
    requires k < |log|
  {
    Entry(log[k].m, log[k].mode, Number(s0, k))
  }

  function FeedOf(x: LossyDelivery): Feed {
    Feed(x.v.k, 0 < x.v.injected && x.lateralKept, 1 < x.v.injected && x.longitudinalKept,
         2 < x.v.injected && x.statusKept, x.v.first, x.v.second, x.v.third)
  }

  function TrafficOf(d: State, log: seq<Outgoing>, s0: int, deliveries: seq<LossyDelivery>): (b: Traffic)
    ensures |b.log| == |log| && |b.feeds| == |deliveries|
  {
    Traffic(d, seq(|log|, k requires 0 <= k < |log| => EntryOf(log, s0, k)),
            seq(|deliveries|, i requires 0 <= i < |deliveries| => FeedOf(deliveries[i])))
  }

  lemma TrafficIsValid(d: State, log: seq<Outgoing>, s0: int, deliveries: seq<LossyDelivery>)
    requires Logs(log, deliveries) && HoldsNothing(d)
    ensures TrafficOf(d, log, s0, deliveries).Valid()
  {
  }

  lemma SlotIsFrame(d: State, log: seq<Outgoing>, s0: int, x: LossyDelivery, n: nat)
    requires x.v.k < |log| && Sendable(log[x.v.k]) && n < 3
    ensures WireSlot(d, Gateway(LogDatagram(log, s0, x.v.k), x.v.injected), x, n)
         == Slot(d, FrameOf(EntryOf(log, s0, x.v.k), FeedOf(x), n), FeedOf(x).Arrivals()[n])
  {
    GatewayOfLog(log, s0, x.v.k, x.v.injected);
  }

  lemma {:induction false} BeforeIsBefore(d: State, log: seq<Outgoing>, s0: int, x: LossyDelivery, n: nat)
    requires x.v.k < |log| && Sendable(log[x.v.k]) && n <= 3
    ensures WireBefore(d, Gateway(LogDatagram(log, s0, x.v.k), x.v.injected), x, n)
         == Before(d, EntryOf(log, s0, x.v.k), FeedOf(x), n)
  {
    if n > 0 {
      BeforeIsBefore(d, log, s0, x, n - 1);
      SlotIsFrame(Before(d, EntryOf(log, s0, x.v.k), FeedOf(x), n - 1), log, s0, x, n - 1);
    }
  }

  /** Byte by byte, one delivery is one pass over the bus. */
  lemma ArriveIsPass(d: State, log: seq<Outgoing>, s0: int, x: LossyDelivery)
    requires x.v.k < |log| && Sendable(log[x.v.k])
    ensures var e, f := EntryOf(log, s0, x.v.k), FeedOf(x);
            LossyArrive(d, log, s0, x) == (Before(d, e, f, 3), Yield(d, e, f))
  {
    var e, f := EntryOf(log, s0, x.v.k), FeedOf(x);
    BeforeIsBefore(d, log, s0, x, 1);
    BeforeIsBefore(d, log, s0, x, 2);
    BeforeIsBefore(d, log, s0, x, 3);
    SlotIsFrame(d, log, s0, x, 0);
    SlotIsFrame(Before(d, e, f, 1), log, s0, x, 1);
    SlotIsFrame(Before(d, e, f, 2), log, s0, x, 2);
  }

  function Passes(r: Run): Traffic
    requires r.states != []
  {
    TrafficOf(r.states[0], r.log, r.s0, r.deliveries)
  }

  lemma PassesAreValid(r: Run)
    requires r.Valid()
    ensures Passes(r).Valid() && LogMatches(Passes(r), r.log, r.s0)
  {
    TrafficIsValid(r.states[0], r.log, r.s0, r.deliveries);
  }

  lemma PassAt(r: Run, b: Traffic, i: nat)
    requires r.Valid() && b == Passes(r) && b.Valid() && i < |r.deliveries| && r.states[i] == b.DecoderAt(i)
    ensures r.states[i + 1] == b.DecoderAt(i + 1) && r.accepted[i] == b.AcceptedIn(i)
  {
    assert r.Follows(i);
    ArriveIsPass(r.states[i], r.log, r.s0, r.deliveries[i]);
  }

  predicate StateAgrees(r: Run, b: Traffic, i: nat)
    requires b.Valid() && i < |r.states| && i <= |b.feeds|
  {
    r.states[i] == b.DecoderAt(i)
  }

  lemma {:induction false} AgreementSpreads(r: Run, b: Traffic, i: nat)
    requires b.Valid() && i < |r.states| && i <= |b.feeds| && StateAgrees(r, b, 0)
    requires forall k, l | 0 <= k < i && l == k + 1 && StateAgrees(r, b, k) :: StateAgrees(r, b, l)
    ensures StateAgrees(r, b, i)
  {
    if i > 0 {
      AgreementSpreads(r, b, i - 1);
      var k := i - 1;
      assert StateAgrees(r, b, k);
    }
  }

  lemma StatesAgree(r: Run, b: Traffic, i: nat)
    requires r.Valid() && b == Passes(r) && b.Valid() && i <= |r.deliveries|
    ensures StateAgrees(r, b, i)
  {
    assert b.DecoderAt(0) == b.start;
    forall k, l | 0 <= k < i && l == k + 1 && StateAgrees(r, b, k)
      ensures StateAgrees(r, b, l)
    {
      PassAt(r, b, k);
    }
    AgreementSpreads(r, b, i);
  }

  lemma AcceptedAgree(r: Run, b: Traffic)
    requires r.Valid() && b == Passes(r) && b.Valid()
    ensures r.accepted == b.AcceptedParts() && r.AllAccepted() == b.AllAccepted()
  {
    forall i | 0 <= i < |r.deliveries|
      ensures r.accepted[i] == b.AcceptedParts()[i]
    {
      StatesAgree(r, b, i);
      PassAt(r, b, i);
    }
  }

  // ----- the exact condition -----

  predicate Accepts(r: Run, i: nat)
    requires r.states != [] && Passes(r).Valid() && i < |r.deliveries|
  {
    Passes(r).Accepts(i)
  }

  /** Frame n of delivery i is injected and kept. */
  predicate GetsThrough(r: Run, i: nat, n: nat)
    requires i < |r.deliveries|
  {
    n < r.deliveries[i].v.injected && r.deliveries[i].Keeps(n)
  }

  /** Each half gets through with this delivery, or the one held from before came with another copy of
      the same datagram. */
  predicate OwnHalves(r: Run, i: nat)
    requires r.states != [] && Passes(r).Valid() && i < |r.deliveries|
  {
    var held, k := Passes(r).HeldAt(i), r.deliveries[i].v.k;
    (GetsThrough(r, i, 0) || held.lateral == Some(k)) && (GetsThrough(r, i, 1) || held.longitudinal == Some(k))
  }

  predicate AllOwnHalves(r: Run)
    requires r.states != [] && Passes(r).Valid()
  {
    forall i: nat | i < |r.deliveries| && Accepts(r, i) :: OwnHalves(r, i)
  }

  predicate DistinctPayloads(log: seq<Outgoing>) {
    forall i, j | 0 <= i < j < |log| :: Differ(log[i].m, log[j].m)
  }

  predicate IsCommandOf(log: seq<Outgoing>, s0: int, c: Command)
    requires forall o | o in log :: Sendable(o)
  {
    exists k: nat :: k < |log| && Sendable(log[k]) && c == CommandAt(log, s0, k)
  }

  /** Every accepted command is that of a sent datagram. */
  ghost predicate OnlySent(r: Run)
    requires r.Valid()
  {
    forall c | c in r.AllAccepted() :: IsCommandOf(r.log, r.s0, c)
  }

  function UpTo(n: nat): (ids: set<nat>)
    ensures forall k: nat :: k in ids <==> k < n
  {
    if n == 0 then {} else UpTo(n - 1) + {n - 1}
  }

  function AllIds(log: seq<Outgoing>): set<nat> {
    UpTo(|log|)
  }

  lemma HalvesAgree(r: Run, i: nat)
    requires r.Valid() && Passes(r).Valid() && i < |r.deliveries|
    ensures Passes(r).OwnHalves(i) <==> OwnHalves(r, i)
  {
    assert r.deliveries[i] in r.deliveries && Sendable(r.log[r.deliveries[i].v.k]);
  }

  lemma AllHalvesAgree(r: Run)
    requires r.Valid() && Passes(r).Valid()
    ensures Passes(r).AllOwnHalves() <==> AllOwnHalves(r)
  {
    forall i: nat | i < |r.deliveries|
      ensures Passes(r).OwnHalves(i) <==> OwnHalves(r, i)
    {
      HalvesAgree(r, i);
    }
  }

  /** The passes are over this log. */
  predicate LogMatches(b: Traffic, log: seq<Outgoing>, s0: int) {
    |b.log| == |log| && forall k | 0 <= k < |log| :: Sendable(log[k]) && b.log[k] == EntryOf(log, s0, k)
  }

  lemma IdsAreSent(b: Traffic, log: seq<Outgoing>, s0: int)
    requires LogMatches(b, log, s0)
    ensures SentOf(b.log, AllIds(log))
  {
  }

  lemma OneCommand(b: Traffic, log: seq<Outgoing>, s0: int, c: Command)
    requires LogMatches(b, log, s0) && SentOf(b.log, AllIds(log)) && forall o | o in log :: Sendable(o)
    ensures IsCommandOf(log, s0, c) <==> IsOneOf(b.log, AllIds(log), c)
  {
    if k: nat :| k < |log| && Sendable(log[k]) && c == CommandAt(log, s0, k) {
      assert k in AllIds(log) && c == b.log[k].Own();
    }
    if x :| x in AllIds(log) && c == b.log[x].Own() {
      assert Sendable(log[x]) && c == CommandAt(log, s0, x);
    }
  }

  lemma SentAgree(r: Run, b: Traffic)
    requires r.Valid() && b == Passes(r) && b.Valid() && LogMatches(b, r.log, r.s0)
    ensures SentOf(b.log, AllIds(r.log)) && (OnlySent(r) <==> CanHalves.OnlySent(b, AllIds(r.log)))
  {
    AcceptedAgree(r, b);
    IdsAreSent(b, r.log, r.s0);
    forall c | c in b.AllAccepted()
      ensures IsCommandOf(r.log, r.s0, c) <==> IsOneOf(b.log, AllIds(r.log), c)
    {
      OneCommand(b, r.log, r.s0, c);
    }
  }

  lemma IndicesApart(s0: int, x: nat, y: nat)
    requires x < M && y < M && Number(s0, x) == Number(s0, y)
    ensures x == y
  {
  }

  lemma NumbersApart(b: Traffic, log: seq<Outgoing>, s0: int)
    requires LogMatches(b, log, s0) && SentOf(b.log, AllIds(log)) && |log| <= M
    ensures NumbersDiffer(b.log, AllIds(log))
  {
    forall x, y | x in AllIds(log) && y in AllIds(log) && b.log[x].number == b.log[y].number
      ensures x == y
    {
      IndicesApart(s0, x, y);
    }
  }

  lemma MatchedTrafficIff(b: Traffic, log: seq<Outgoing>, s0: int)
    requires b.Valid() && LogMatches(b, log, s0) && DistinctPayloads(log) && |log| <= M
    ensures SentOf(b.log, AllIds(log)) && (CanHalves.OnlySent(b, AllIds(log)) <==> b.AllOwnHalves())
  {
    IdsAreSent(b, log, s0);
    NumbersApart(b, log, s0);
    forall i: nat | i < |b.feeds| && b.Accepts(i)
      ensures b.feeds[i].id in AllIds(log)
    {
      assert b.feeds[i] in b.feeds;
    }
    assert Distinct(b.log) by {
      forall i, j | 0 <= i < j < |b.log|
        ensures Differ(b.log[i].m, b.log[j].m)
      {
        assert Differ(log[i].m, log[j].m);
      }
    }
    CanHalves.NoTornCommandIff(b, AllIds(log));
  }

  /** With at most 2^16 datagrams, whatever the network, the gateway, the bus and the watchdog do, only
      sent commands are accepted if and only if no accepted status frame meets a half of another
      datagram in place of its own. */
  lemma NoTornCommandIff(r: Run)
    requires r.Valid() && DistinctPayloads(r.log) && |r.log| <= M
    ensures Passes(r).Valid() && (OnlySent(r) <==> AllOwnHalves(r))
  {
    PassesAreValid(r);
    SentAgree(r, Passes(r));
    AllHalvesAgree(r);
    MatchedTrafficIff(Passes(r), r.log, r.s0);
  }

  /** The bus keeps every frame it is given. */
  predicate BusKeeps(deliveries: seq<LossyDelivery>) {
    forall x | x in deliveries :: x.lateralKept && x.longitudinalKept && x.statusKept
  }

  /** On a bus that loses nothing that condition always holds: the status frame is injected last. */
  lemma KeptBusNeverTears(r: Run)
    requires r.Valid() && BusKeeps(r.deliveries)
    ensures Passes(r).Valid() && AllOwnHalves(r)
  {
    PassesAreValid(r);
    forall i: nat | i < |r.deliveries| && Accepts(r, i)
      ensures OwnHalves(r, i)
    {
      assert r.deliveries[i] in r.deliveries && Arrives(Passes(r).At(i), Passes(r).feeds[i], 2);
    }
  }

  // ----- the witness -----

  const TWO := [Outgoing(CREEP, CanOnly), Outgoing(TURN, CanOnly)]

  /** Injection of the first datagram stops after its lateral frame; of the second the bus loses it. */
  function CutThenLose(a: Arrival): seq<LossyDelivery> {
    [LossyDelivery(Delivery(0, 1, a, a, a), true, true, true),
     LossyDelivery(Delivery(1, 3, a, a, a), false, true, true)]
  }

  lemma WitnessPasses(r: Run, now: real)
    requires r.Valid() && r.log == TWO && r.deliveries == CutThenLose(Arrival([], now)) && r.states[0] == INITIAL
    ensures Encodable(CREEP) && Encodable(TURN) && Passes(r).Valid() && HalfThenRest(Passes(r))
    ensures Passes(r).log == [EntryOf(TWO, r.s0, 0), EntryOf(TWO, r.s0, 1)]
  {
    WitnessIsEncodable();
    PassesAreValid(r);
  }

  /** Then the decoder accepts a command that is neither. */
  lemma CutAndLostTears(s0: int, now: real) returns (r: Run)
    ensures Encodable(CREEP) && Encodable(TURN)
    ensures r.Valid() && r.log == TWO && r.s0 == s0 && r.deliveries == CutThenLose(Arrival([], now))
    ensures r.states[0] == INITIAL
    ensures r.accepted[1] == [Decode(LateralPayload(CREEP), LongitudinalPayload(TURN),
                                     StatusPayload(TURN, CanOnly, Number(s0, 1)))]
    ensures r.accepted[1] != [CommandAt(TWO, s0, 0)] && r.accepted[1] != [CommandAt(TWO, s0, 1)]
  {
    WitnessIsEncodable();
    r := RunExists(INITIAL, TWO, s0, CutThenLose(Arrival([], now)));
    WitnessPasses(r, now);
    AcceptedAgree(r, Passes(r));
    HalfThenRestTears(Passes(r));
  }
}
