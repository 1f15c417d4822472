/** The decoder fed with classic frames of which any may be missing: which commands its pending halves
    come from, and exactly when every accepted command is one that was sent. */
module CanHalves {
  import opened Options
  import opened CanCodec
  import opened CanDecoder
  import opened CanSender
  import opened CanRun

  /** A command with the number its status frame carries. */
  datatype Entry = Entry(m: ControlMsg, mode: OutputMode, number: int)
  {
    /** The command its own three frames decode to. */
    function Own(): Command
      requires Encodable(m)
    {
      Intended(m, mode, number)
    }
  }

  /** One pass of command `id` over the bus: which of its three frames arrive. The watchdog is polled
      before each frame, also before one that does not arrive. */
  datatype Feed = Feed(id: nat, lateral: bool, longitudinal: bool, status: bool,
                       first: Arrival, second: Arrival, third: Arrival)
  {
    predicate Has(n: nat) {
      if n == 0 then lateral else if n == 1 then longitudinal else status
    }

    function Arrivals(): seq<Arrival> {
      [first, second, third]
    }
  }

  predicate Arrives(e: Entry, f: Feed, n: nat) {
    Encodable(e.m) && f.Has(n)
  }

  function FrameOf(e: Entry, f: Feed, n: nat): Option<CanFrame>
    requires n < 3
  {
    if Arrives(e, f, n) then Some(CommandFrames(e.m, e.mode, e.number)[n]) else None
  }

  function Slot(d: State, frame: Option<CanFrame>, a: Arrival): (State, seq<Command>) {
    match frame
    case None => (PollAll(d, a.polls), [])
    case Some(f) => Receive(d, Classic(f), a)
  }

  /** The decoder before frame n of a pass. */
  function Before(d: State, e: Entry, f: Feed, n: nat): State
    requires n <= 3
  {
    if n == 0 then d else Slot(Before(d, e, f, n - 1), FrameOf(e, f, n - 1), f.Arrivals()[n - 1]).0
  }

  /** What a pass has accepted. */
  function Yield(d: State, e: Entry, f: Feed): seq<Command> {
    Slot(d, FrameOf(e, f, 0), f.first).1 + Slot(Before(d, e, f, 1), FrameOf(e, f, 1), f.second).1
    + Slot(Before(d, e, f, 2), FrameOf(e, f, 2), f.third).1
  }

  // ----- which commands the pending halves come from -----

  datatype Held = Held(lateral: Option<nat>, longitudinal: Option<nat>)

  const NOTHING := Held(None, None)

  function AfterPolls(h: Held, d: State, a: Arrival): Held {
    if StopFires(d, a.polls) then NOTHING else h
  }

  /** What is held before frame n of a pass. */
  function HeldBefore(h: Held, d: State, e: Entry, f: Feed, n: nat): Held
    requires n <= 3
  {
    if n == 0 then h
    else
      var p := AfterPolls(HeldBefore(h, d, e, f, n - 1), Before(d, e, f, n - 1), f.Arrivals()[n - 1]);
      if !Arrives(e, f, n - 1) then p
      else if n == 1 then p.(lateral := Some(f.id))
      else if n == 2 then p.(longitudinal := Some(f.id))
      else NOTHING
  }

  /** Passes over the bus, into a decoder that holds nothing at first. */
  datatype Traffic = Traffic(start: State, log: seq<Entry>, feeds: seq<Feed>)
  {
    predicate Valid() {
      && start.lateral.None? && start.longitudinal.None?
      && (forall e | e in log :: IsU16(e.number)) && (forall f | f in feeds :: f.id < |log|)
    }

    /** The command of pass i. */
    function At(i: nat): Entry
      requires Valid() && i < |feeds|
    {
      log[feeds[i].id]
    }

    function DecoderAt(i: nat): State
      requires Valid() && i <= |feeds|
    {
      if i == 0 then start else Before(DecoderAt(i - 1), At(i - 1), feeds[i - 1], 3)
    }

    function HeldAt(i: nat): Held
      requires Valid() && i <= |feeds|
    {
      if i == 0 then NOTHING else HeldBefore(HeldAt(i - 1), DecoderAt(i - 1), At(i - 1), feeds[i - 1], 3)
    }

    /** The decoder and what it holds when the status frame of pass i is due. */
    function DueState(i: nat): State
      requires Valid() && i < |feeds|
    {
      PollAll(Before(DecoderAt(i), At(i), feeds[i], 2), feeds[i].third.polls)
    }

    function DueHeld(i: nat): Held
      requires Valid() && i < |feeds|
    {
      AfterPolls(HeldBefore(HeldAt(i), DecoderAt(i), At(i), feeds[i], 2), Before(DecoderAt(i), At(i), feeds[i], 2),
                 feeds[i].third)
    }

    /** The status frame of pass i arrives, finds two halves, and passes the number test. */
    predicate Accepts(i: nat)
      requires Valid() && i < |feeds|
    {
      && Arrives(At(i), feeds[i], 2) && DueHeld(i).lateral.Some? && DueHeld(i).longitudinal.Some?
      && (DueState(i).expected.Some? ==> SeqDelta(At(i).number, DueState(i).expected.value) >= 0)
    }

    /** Each half arrived in this pass, or the one held from before is of the same command: none is an
        older command's in place of a missing one. */
    predicate OwnHalves(i: nat)
      requires Valid() && i < |feeds|
    {
      && (Arrives(At(i), feeds[i], 0) || HeldAt(i).lateral == Some(feeds[i].id))
      && (Arrives(At(i), feeds[i], 1) || HeldAt(i).longitudinal == Some(feeds[i].id))
    }

    predicate AllOwnHalves()
      requires Valid()
    {
      forall i: nat | i < |feeds| && Accepts(i) :: OwnHalves(i)
    }

    function AcceptedIn(i: nat): seq<Command>
      requires Valid() && i < |feeds|
    {
      Yield(DecoderAt(i), At(i), feeds[i])
    }

    function AcceptedParts(): (parts: seq<seq<Command>>)
      requires Valid()
      ensures |parts| == |feeds|
    {
      seq(|feeds|, i requires 0 <= i < |feeds| => AcceptedIn(i))
    }

    function AllAccepted(): seq<Command>
      requires Valid()
    {
      Joined(AcceptedParts(), |feeds|)
    }
  }

  function Joined(parts: seq<seq<Command>>, k: nat): seq<Command>
    requires k <= |parts|
  {
    if k == 0 then [] else Joined(parts, k - 1) + parts[k - 1]
  }

  lemma {:induction false} JoinedMembers(parts: seq<seq<Command>>, k: nat, c: Command)
    requires k <= |parts|
    ensures c in Joined(parts, k) <==> exists x: nat :: x < k && c in parts[x]
  {
    if k > 0 {
      JoinedMembers(parts, k - 1, c);
    }
  }

  // ----- the decoder holds what the tags say -----

  predicate Names(log: seq<Entry>, tag: nat) {
    tag < |log| && Encodable(log[tag].m)
  }

  predicate Holds(d: State, h: Held, log: seq<Entry>) {
    && (d.lateral.Some? <==> h.lateral.Some?) && (d.longitudinal.Some? <==> h.longitudinal.Some?)
    && (h.lateral.Some? ==> Names(log, h.lateral.value)
                            && d.lateral.value == LateralPayload(log[h.lateral.value].m))
    && (h.longitudinal.Some? ==> Names(log, h.longitudinal.value)
                                 && d.longitudinal.value == LongitudinalPayload(log[h.longitudinal.value].m))
  }

  lemma PollsHold(d: State, h: Held, log: seq<Entry>, a: Arrival)
    requires Holds(d, h, log)
    ensures Holds(PollAll(d, a.polls), AfterPolls(h, d, a), log)
  {
    PollEffect(d, a.polls);
  }

  lemma LateralHolds(d: State, h: Held, log: seq<Entry>, f: Feed)
    requires f.id < |log| && Holds(d, h, log)
    ensures var e := log[f.id];
            Holds(Before(d, e, f, 1), HeldBefore(h, d, e, f, 1), log) && Slot(d, FrameOf(e, f, 0), f.first).1 == []
  {
    var e := log[f.id];
    PollsHold(d, h, log, f.first);
    if Arrives(e, f, 0) {
      LateralEffect(d, CommandFrames(e.m, e.mode, e.number)[0], f.first);
    }
  }

  lemma LongitudinalHolds(d: State, h: Held, log: seq<Entry>, f: Feed)
    requires f.id < |log| && Holds(Before(d, log[f.id], f, 1), HeldBefore(h, d, log[f.id], f, 1), log)
    ensures var e := log[f.id];
            Holds(Before(d, e, f, 2), HeldBefore(h, d, e, f, 2), log)
            && Slot(Before(d, e, f, 1), FrameOf(e, f, 1), f.second).1 == []
  {
    var e := log[f.id];
    var d1 := Before(d, e, f, 1);
    PollsHold(d1, HeldBefore(h, d, e, f, 1), log, f.second);
    if Arrives(e, f, 1) {
      LongitudinalEffect(d1, CommandFrames(e.m, e.mode, e.number)[1], f.second);
    }
  }

  lemma StatusHolds(d: State, h: Held, log: seq<Entry>, f: Feed)
    requires f.id < |log| && Holds(Before(d, log[f.id], f, 2), HeldBefore(h, d, log[f.id], f, 2), log)
    ensures Holds(Before(d, log[f.id], f, 3), HeldBefore(h, d, log[f.id], f, 3), log)
  {
    var e := log[f.id];
    var d2 := Before(d, e, f, 2);
    PollsHold(d2, HeldBefore(h, d, e, f, 2), log, f.third);
    if Arrives(e, f, 2) {
      StatusEffect(d2, CommandFrames(e.m, e.mode, e.number)[2], f.third);
    }
  }

  lemma PassHolds(d: State, h: Held, log: seq<Entry>, f: Feed)
    requires f.id < |log| && Holds(d, h, log)
    ensures Holds(Before(d, log[f.id], f, 3), HeldBefore(h, d, log[f.id], f, 3), log)
  {
    LateralHolds(d, h, log, f);
    LongitudinalHolds(d, h, log, f);
    StatusHolds(d, h, log, f);
  }

  lemma {:induction false} HoldsAt(b: Traffic, i: nat)
    requires b.Valid() && i <= |b.feeds|
    ensures Holds(b.DecoderAt(i), b.HeldAt(i), b.log)
  {
    if i > 0 {
      HoldsAt(b, i - 1);
      PassHolds(b.DecoderAt(i - 1), b.HeldAt(i - 1), b.log, b.feeds[i - 1]);
    }
  }

  // ----- what an accepted status frame yields -----

  lemma DueHolds(b: Traffic, i: nat)
    requires b.Valid() && i < |b.feeds|
    ensures Holds(b.DueState(i), b.DueHeld(i), b.log)
    ensures b.AcceptedIn(i)
         == Slot(Before(b.DecoderAt(i), b.At(i), b.feeds[i], 2), FrameOf(b.At(i), b.feeds[i], 2), b.feeds[i].third).1
  {
    var d, h, f := b.DecoderAt(i), b.HeldAt(i), b.feeds[i];
    HoldsAt(b, i);
    LateralHolds(d, h, b.log, f);
    LongitudinalHolds(d, h, b.log, f);
    PollsHold(Before(d, b.At(i), f, 2), HeldBefore(h, d, b.At(i), f, 2), b.log, f.third);
  }

  /** The command rebuilt from the halves held and the status frame of pass i. */
  function Rebuilt(b: Traffic, i: nat): Command
    requires b.Valid() && i < |b.feeds| && b.Accepts(i)
  {
    DueHolds(b, i);
    var h, e := b.DueHeld(i), b.At(i);
    Decode(LateralPayload(b.log[h.lateral.value].m), LongitudinalPayload(b.log[h.longitudinal.value].m),
           StatusPayload(e.m, e.mode, e.number))
  }

  /** A pass has an accepted command exactly when its status frame arrives, finds two halves and passes
      the number test; the command is then made of those halves. */
  lemma AcceptedIsRebuilt(b: Traffic, i: nat)
    requires b.Valid() && i < |b.feeds|
    ensures b.AcceptedIn(i) == if b.Accepts(i) then [Rebuilt(b, i)] else []
  {
    DueHolds(b, i);
    var e, f := b.At(i), b.feeds[i];
    if Arrives(e, f, 2) {
      assert e in b.log;
      StatusEffect(Before(b.DecoderAt(i), e, f, 2), CommandFrames(e.m, e.mode, e.number)[2], f.third);
      StatusNumber(e.m, e.mode, e.number);
    }
  }

  lemma TagsOfPass(h: Held, d: State, e: Entry, f: Feed)
    ensures var due := AfterPolls(HeldBefore(h, d, e, f, 2), Before(d, e, f, 2), f.third);
            due.lateral.Some? && due.longitudinal.Some? ==>
              && due.lateral == (if Arrives(e, f, 0) then Some(f.id) else h.lateral)
              && due.longitudinal == (if Arrives(e, f, 1) then Some(f.id) else h.longitudinal)
  {
    var p1 := AfterPolls(h, d, f.first);
    var h1 := HeldBefore(h, d, e, f, 1);
    assert HeldBefore(h, d, e, f, 0) == h && Before(d, e, f, 0) == d;
    assert h1 == if Arrives(e, f, 0) then p1.(lateral := Some(f.id)) else p1;
    var p2 := AfterPolls(h1, Before(d, e, f, 1), f.second);
    assert HeldBefore(h, d, e, f, 2) == if Arrives(e, f, 1) then p2.(longitudinal := Some(f.id)) else p2;
  }

  /** Each half is the pass's own when its frame arrived, and otherwise the one held from before: a
      stop in between leaves nothing to accept. */
  lemma HalvesAre(b: Traffic, i: nat)
    requires b.Valid() && i < |b.feeds| && b.Accepts(i)
    ensures b.DueHeld(i).lateral == if Arrives(b.At(i), b.feeds[i], 0) then Some(b.feeds[i].id) else b.HeldAt(i).lateral
    ensures b.DueHeld(i).longitudinal
         == if Arrives(b.At(i), b.feeds[i], 1) then Some(b.feeds[i].id) else b.HeldAt(i).longitudinal
    ensures b.OwnHalves(i) <==> b.DueHeld(i) == Held(Some(b.feeds[i].id), Some(b.feeds[i].id))
  {
    TagsOfPass(b.HeldAt(i), b.DecoderAt(i), b.At(i), b.feeds[i]);
  }

  predicate Below(h: Held, k: nat) {
    (h.lateral.Some? ==> h.lateral.value < k) && (h.longitudinal.Some? ==> h.longitudinal.value < k)
  }

  lemma {:induction false} PassBelow(h: Held, d: State, e: Entry, f: Feed, n: nat)
    requires n <= 3 && Below(h, f.id)
    ensures Below(HeldBefore(h, d, e, f, n), f.id + 1)
  {
    if n > 0 {
      PassBelow(h, d, e, f, n - 1);
    }
  }

  /** When every command passes once and in order, what is held from before is older. */
  lemma {:induction false} HeldBelow(b: Traffic, k: nat)
    requires b.Valid() && k <= |b.feeds| && forall i | 0 <= i < |b.feeds| :: b.feeds[i].id == i
    ensures Below(b.HeldAt(k), k)
  {
    if k > 0 {
      HeldBelow(b, k - 1);
      PassBelow(b.HeldAt(k - 1), b.DecoderAt(k - 1), b.At(k - 1), b.feeds[k - 1], 3);
    }
  }

  // ----- distinct payloads -----

  function Steering(m: ControlMsg): (int, int)
    requires Encodable(m)
  {
    (Scaled(m.steeringAngle.r, STEERING_SCALE), Scaled(m.steeringRate.r, STEERING_SCALE))
  }

  function Drive(m: ControlMsg): (int, int)
    requires Encodable(m)
  {
    (Scaled(m.velocity.r, SPEED_SCALE), Scaled(m.acceleration.r, SPEED_SCALE))
  }

  predicate Differ(a: ControlMsg, b: ControlMsg) {
    Encodable(a) && Encodable(b) ==> Steering(a) != Steering(b) && Drive(a) != Drive(b)
  }

  /** No two commands have the same lateral or the same longitudinal payload. */
  predicate Distinct(log: seq<Entry>) {
    forall i, j | 0 <= i < j < |log| :: Differ(log[i].m, log[j].m)
  }

  lemma DistinctNames(log: seq<Entry>, i: nat, j: nat)
    requires Distinct(log) && Names(log, i) && Names(log, j)
    ensures Steering(log[i].m) == Steering(log[j].m) <==> i == j
    ensures Drive(log[i].m) == Drive(log[j].m) <==> i == j
  {
    if i != j {
      var low, high := if i < j then i else j, if i < j then j else i;
      assert Differ(log[low].m, log[high].m);
    }
  }

  lemma PayloadFields(m: ControlMsg)
    requires Encodable(m)
    ensures (ReadI32(LateralPayload(m), 0), ReadI32(LateralPayload(m), 4)) == Steering(m)
    ensures (ReadI32(LongitudinalPayload(m), 0), ReadI32(LongitudinalPayload(m), 4)) == Drive(m)
  {
    var lateral, longitudinal := LateralPayload(m), LongitudinalPayload(m);
    I32RoundTrip(Steering(m).0, lateral, 0);
    I32RoundTrip(Steering(m).1, lateral, 4);
    I32RoundTrip(Drive(m).0, longitudinal, 0);
    I32RoundTrip(Drive(m).1, longitudinal, 4);
  }

  /** A decoded command determines the fields of both halves. */
  lemma DecodeDetermines(a: ControlMsg, b: ControlMsg, c: ControlMsg, status: Payload, own: Payload)
    requires Encodable(a) && Encodable(b) && Encodable(c)
    requires Decode(LateralPayload(a), LongitudinalPayload(b), status)
          == Decode(LateralPayload(c), LongitudinalPayload(c), own)
    ensures Steering(a) == Steering(c) && Drive(b) == Drive(c)
  {
    PayloadFields(a);
    PayloadFields(b);
    PayloadFields(c);
  }

  // ----- the exact condition, pass by pass -----

  /** An accepted status frame yields its own command if and only if neither half is an older one. */
  lemma OwnCommandIff(b: Traffic, i: nat)
    requires b.Valid() && i < |b.feeds| && Distinct(b.log) && b.Accepts(i)
    ensures b.AcceptedIn(i) == [b.At(i).Own()] <==> b.OwnHalves(i)
  {
    AcceptedIsRebuilt(b, i);
    HalvesAre(b, i);
    DueHolds(b, i);
    var h, e := b.DueHeld(i), b.At(i);
    var status := StatusPayload(e.m, e.mode, e.number);
    if b.AcceptedIn(i) == [e.Own()] {
      DecodeDetermines(b.log[h.lateral.value].m, b.log[h.longitudinal.value].m, e.m, status, status);
      DistinctNames(b.log, h.lateral.value, b.feeds[i].id);
      DistinctNames(b.log, h.longitudinal.value, b.feeds[i].id);
    }
  }

  // ----- the exact condition, against a set of sent commands -----

  /** The status frames of two commands carry the same number, mode and validity flags. */
  predicate SameStatus(a: Entry, b: Entry) {
    a.number == b.number && a.mode == b.mode && ValidityFlags(a.m) == ValidityFlags(b.m)
  }

  /** The part of a decoded command that the status frame determines. */
  function StatusPart(c: Command): (bool, bool, bool, int, Byte) {
    (c.rateDefined, c.accelerationDefined, c.jerkDefined, c.sequence, c.outputMode)
  }

  lemma StatusPartIff(a: Entry, b: Entry, lateral: Payload, longitudinal: Payload)
    requires IsU16(a.number) && IsU16(b.number) && Encodable(a.m)
    ensures var c := Decode(lateral, longitudinal, StatusPayload(b.m, b.mode, b.number));
            StatusPart(c) == StatusPart(a.Own()) <==> SameStatus(a, b)
  {
    StatusNumber(a.m, a.mode, a.number);
    StatusNumber(b.m, b.mode, b.number);
    FlagBits(a.m);
    FlagBits(b.m);
  }

  lemma RebuiltIs(b: Traffic, i: nat, x: nat)
    requires b.Valid() && i < |b.feeds| && Distinct(b.log) && b.Accepts(i) && Names(b.log, x)
    ensures Rebuilt(b, i) == b.log[x].Own() <==>
              b.DueHeld(i) == Held(Some(x), Some(x)) && SameStatus(b.log[x], b.At(i))
  {
    DueHolds(b, i);
    var h, e, a := b.DueHeld(i), b.At(i), b.log[x];
    var j, k := h.lateral.value, h.longitudinal.value;
    assert e in b.log && a in b.log;
    StatusPartIff(a, e, LateralPayload(b.log[j].m), LongitudinalPayload(b.log[k].m));
    if Rebuilt(b, i) == a.Own() {
      DecodeDetermines(b.log[j].m, b.log[k].m, a.m, StatusPayload(e.m, e.mode, e.number),
                       StatusPayload(a.m, a.mode, a.number));
      DistinctNames(b.log, j, x);
      DistinctNames(b.log, k, x);
    }
  }

  /** The commands that were really sent. */
  predicate SentOf(log: seq<Entry>, sent: set<nat>) {
    forall x | x in sent :: Names(log, x)
  }

  predicate IsOneOf(log: seq<Entry>, sent: set<nat>, c: Command)
    requires SentOf(log, sent)
  {
    exists x :: x in sent && c == log[x].Own()
  }

  /** Both halves come from one sent command whose status frame reads like this one: only then does a
      command with foreign halves still equal a sent one. */
  predicate ReadsAsSent(b: Traffic, sent: set<nat>, i: nat)
    requires b.Valid() && SentOf(b.log, sent) && i < |b.feeds|
  {
    exists x :: x in sent && b.DueHeld(i) == Held(Some(x), Some(x)) && SameStatus(b.log[x], b.At(i))
  }

  lemma RebuiltIsOneOf(b: Traffic, sent: set<nat>, i: nat)
    requires b.Valid() && SentOf(b.log, sent) && i < |b.feeds| && Distinct(b.log) && b.Accepts(i)
    ensures IsOneOf(b.log, sent, Rebuilt(b, i)) <==> ReadsAsSent(b, sent, i)
  {
    forall x | x in sent
      ensures Rebuilt(b, i) == b.log[x].Own() <==>
                b.DueHeld(i) == Held(Some(x), Some(x)) && SameStatus(b.log[x], b.At(i))
    {
      RebuiltIs(b, i, x);
    }
  }

  predicate Gives(b: Traffic, i: nat, c: Command)
    requires b.Valid() && i < |b.feeds|
  {
    b.Accepts(i) && c == Rebuilt(b, i)
  }

  lemma AcceptedMembers(b: Traffic, c: Command)
    requires b.Valid()
    ensures c in b.AllAccepted() <==> exists i: nat :: i < |b.feeds| && Gives(b, i, c)
  {
    var n, parts := |b.feeds|, b.AcceptedParts();
    JoinedMembers(parts, n, c);
    forall i: nat | i < n
      ensures c in parts[i] <==> Gives(b, i, c)
    {
      AcceptedIsRebuilt(b, i);
    }
  }

  /** Every accepted command is a sent one. */
  predicate OnlySent(b: Traffic, sent: set<nat>)
    requires b.Valid() && SentOf(b.log, sent)
  {
    forall c | c in b.AllAccepted() :: IsOneOf(b.log, sent, c)
  }

  predicate AllReadAsSent(b: Traffic, sent: set<nat>)
    requires b.Valid() && SentOf(b.log, sent)
  {
    forall i: nat | i < |b.feeds| && b.Accepts(i) :: ReadsAsSent(b, sent, i)
  }

  lemma OnlySentIff(b: Traffic, sent: set<nat>)
    requires b.Valid() && SentOf(b.log, sent) && Distinct(b.log)
    ensures OnlySent(b, sent) <==> AllReadAsSent(b, sent)
  {
    if OnlySent(b, sent) {
      forall i: nat | i < |b.feeds| && b.Accepts(i)
        ensures ReadsAsSent(b, sent, i)
      {
        assert Gives(b, i, Rebuilt(b, i));
        AcceptedMembers(b, Rebuilt(b, i));
        RebuiltIsOneOf(b, sent, i);
      }
    }
    if AllReadAsSent(b, sent) {
      forall c | c in b.AllAccepted()
        ensures IsOneOf(b.log, sent, c)
      {
        AcceptedMembers(b, c);
        var i: nat :| i < |b.feeds| && Gives(b, i, c);
        RebuiltIsOneOf(b, sent, i);
      }
    }
  }

  /** No two sent commands carry the same number. */
  predicate NumbersDiffer(log: seq<Entry>, sent: set<nat>)
    requires SentOf(log, sent)
  {
    forall x, y | x in sent && y in sent && log[x].number == log[y].number :: x == y
  }

  lemma ReadsAsSentIffOwn(b: Traffic, sent: set<nat>, i: nat)
    requires b.Valid() && SentOf(b.log, sent) && NumbersDiffer(b.log, sent)
    requires i < |b.feeds| && b.Accepts(i) && b.feeds[i].id in sent
    ensures ReadsAsSent(b, sent, i) <==> b.OwnHalves(i)
  {
    HalvesAre(b, i);
    if b.OwnHalves(i) {
      assert b.feeds[i].id in sent;
    }
  }

  /** As long as no number comes twice, only sent commands are accepted if and only if no accepted
      status frame meets an older command's half in place of a missing one. */
  lemma NoTornCommandIff(b: Traffic, sent: set<nat>)
    requires b.Valid() && SentOf(b.log, sent) && Distinct(b.log) && NumbersDiffer(b.log, sent)
    requires forall i: nat | i < |b.feeds| && b.Accepts(i) :: b.feeds[i].id in sent
    ensures OnlySent(b, sent) <==> b.AllOwnHalves()
  {
    OnlySentIff(b, sent);
    forall i: nat | i < |b.feeds| && b.Accepts(i)
      ensures ReadsAsSent(b, sent, i) <==> b.OwnHalves(i)
    {
      ReadsAsSentIffOwn(b, sent, i);
    }
  }

  // ----- the parts of a witness -----

  const CREEP := ControlMsg(0, 0, Finite(0.0), Finite(0.0), true, Finite(1.0), Finite(0.0), true, true)
  const TURN := ControlMsg(0, 0, Finite(0.5), Finite(0.1), true, Finite(2.0), Finite(1.0), true, true)

  lemma WitnessIsEncodable()
    ensures Encodable(CREEP) && Encodable(TURN)
    ensures Steering(CREEP) == (0, 0) && Drive(CREEP) == (1000, 0)
    ensures Steering(TURN) == (500000, 100000) && Drive(TURN) == (2000, 1000)
  {
    assert Scaled(0.5, STEERING_SCALE) == 500000 && Scaled(0.1, STEERING_SCALE) == 100000;
    assert Scaled(1.0, SPEED_SCALE) == 1000 && Scaled(2.0, SPEED_SCALE) == 2000;
    assert Scaled(0.0, STEERING_SCALE) == 0 && Scaled(0.0, SPEED_SCALE) == 0;
  }

  /** Only the lateral frame of a pass arrives. */
  lemma LateralOnly(d: State, h: Held, e: Entry, f: Feed)
    requires Arrives(e, f, 0) && !Arrives(e, f, 1) && !Arrives(e, f, 2)
    requires f.first.polls == [] && f.second.polls == [] && f.third.polls == []
    ensures Before(d, e, f, 3).expected == d.expected && HeldBefore(h, d, e, f, 3) == h.(lateral := Some(f.id))
  {
    LateralEffect(d, CommandFrames(e.m, e.mode, e.number)[0], f.first);
    var d1, h1 := Before(d, e, f, 1), HeldBefore(h, d, e, f, 1);
    assert HeldBefore(h, d, e, f, 0) == h && Before(d, e, f, 0) == d;
    assert h1 == h.(lateral := Some(f.id)) && d1.expected == d.expected;
    assert Before(d, e, f, 2) == d1 && HeldBefore(h, d, e, f, 2) == h1;
  }

  /** Only the lateral frame of a pass is missing. */
  lemma LateralMissing(d: State, h: Held, e: Entry, f: Feed)
    requires !Arrives(e, f, 0) && Arrives(e, f, 1)
    requires f.first.polls == [] && f.second.polls == [] && f.third.polls == []
    ensures var d2 := Before(d, e, f, 2);
            PollAll(d2, f.third.polls).expected == d.expected
            && AfterPolls(HeldBefore(h, d, e, f, 2), d2, f.third) == h.(longitudinal := Some(f.id))
  {
    assert HeldBefore(h, d, e, f, 0) == h && Before(d, e, f, 0) == d;
    assert HeldBefore(h, d, e, f, 1) == h && Before(d, e, f, 1) == d;
    LongitudinalEffect(d, CommandFrames(e.m, e.mode, e.number)[1], f.second);
  }

  /** The first command's lateral frame, then the second command without its own. */
  predicate HalfThenRest(b: Traffic) {
    && |b.log| == 2 == |b.feeds| && b.log[0].m == CREEP && b.log[1].m == TURN && b.start == INITIAL
    && (forall i, a | 0 <= i < 2 && a in b.feeds[i].Arrivals() :: a.polls == [])
    && (b.feeds[0].id, b.feeds[0].lateral, b.feeds[0].longitudinal, b.feeds[0].status) == (0, true, false, false)
    && (b.feeds[1].id, b.feeds[1].lateral, b.feeds[1].longitudinal, b.feeds[1].status) == (1, false, true, true)
  }

  lemma HalfThenRestHeld(b: Traffic)
    requires b.Valid() && HalfThenRest(b)
    ensures b.DueHeld(1) == Held(Some(0), Some(1)) && b.DueState(1).expected.None?
    ensures b.HeldAt(1).lateral == Some(0)
  {
    WitnessIsEncodable();
    assert b.feeds[0].first in b.feeds[0].Arrivals() && b.feeds[1].first in b.feeds[1].Arrivals();
    assert b.feeds[0].second in b.feeds[0].Arrivals() && b.feeds[1].second in b.feeds[1].Arrivals();
    assert b.feeds[0].third in b.feeds[0].Arrivals() && b.feeds[1].third in b.feeds[1].Arrivals();
    LateralOnly(INITIAL, NOTHING, b.At(0), b.feeds[0]);
    assert b.DecoderAt(0) == INITIAL && b.HeldAt(0) == NOTHING;
    assert b.HeldAt(1) == Held(Some(0), None);
    LateralMissing(b.DecoderAt(1), Held(Some(0), None), b.At(1), b.feeds[1]);
  }

  /** It is accepted with the first command's steering and the second one's speed. */
  lemma HalfThenRestTears(b: Traffic)
    requires b.Valid() && HalfThenRest(b)
    ensures Distinct(b.log) && b.Accepts(1) && !b.OwnHalves(1) && Encodable(CREEP) && Encodable(TURN)
    ensures b.AcceptedIn(1) == [Decode(LateralPayload(CREEP), LongitudinalPayload(TURN),
                                       StatusPayload(TURN, b.log[1].mode, b.log[1].number))]
    ensures b.AcceptedIn(1) != [b.log[0].Own()] && b.AcceptedIn(1) != [b.log[1].Own()]
  {
    WitnessIsEncodable();
    HalfThenRestHeld(b);
    AcceptedIsRebuilt(b, 1);
    TornFieldsDiffer(b.log[0], b.log[1]);
  }

  lemma TornFieldsDiffer(a: Entry, b: Entry)
    requires Encodable(CREEP) && Encodable(TURN) && a.m == CREEP && b.m == TURN
    ensures var torn := Decode(LateralPayload(CREEP), LongitudinalPayload(TURN), StatusPayload(TURN, b.mode, b.number));
            torn != a.Own() && torn != b.Own()
  {
    WitnessIsEncodable();
    PayloadFields(CREEP);
    PayloadFields(TURN);
  }

  // ----- nothing missing -----

  /** When all three frames arrive, the pass is the lossless bus. */
  lemma CompleteIsBus(d: State, e: Entry, f: Feed)
    requires Encodable(e.m) && f.lateral && f.longitudinal && f.status
    ensures var frames := CommandFrames(e.m, e.mode, e.number);
            (Before(d, e, f, 3), Yield(d, e, f))
            == Bus(d, [Classic(frames[0]), Classic(frames[1]), Classic(frames[2])], f.Arrivals())
  {
    var frames := CommandFrames(e.m, e.mode, e.number);
    assert Before(d, e, f, 0) == d;
    assert Before(d, e, f, 1) == Slot(d, FrameOf(e, f, 0), f.first).0;
    assert Before(d, e, f, 2) == Slot(Before(d, e, f, 1), FrameOf(e, f, 1), f.second).0;
    BusOfThree(d, [Classic(frames[0]), Classic(frames[1]), Classic(frames[2])], f.Arrivals());
  }
}
