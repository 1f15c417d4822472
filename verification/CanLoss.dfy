/** Whole runs of the sender over an ordered classic CAN bus that may lose any single frame: exactly
    when every accepted command is rebuilt from its own three frames. */
module CanLoss {
  import opened Options
  import opened CanCodec
  import opened CanDecoder
  import opened CanSender
  import opened CanRun
  import opened CanHalves

  /** One call of `send` and, for each of its three frames, whether the bus keeps it. */
  datatype Trial = Trial(a: Attempt, lateralKept: bool, longitudinalKept: bool, statusKept: bool)
  {
    predicate Keeps(n: nat) {
      if n == 0 then lateralKept else if n == 1 then longitudinalKept else statusKept
    }
  }

  /** Frame n of this send is written and not lost. */
  predicate GetsThrough(s: Sender, t: Trial, n: nat) {
    s.initialized && t.a.mode.UsesCan() && Encodable(t.a.m) && n < t.a.writes && t.Keeps(n)
  }

  /** The sender before trial k: it does not know what the bus loses. */
  function SenderAt(s: Sender, trials: seq<Trial>, k: nat): (r: Sender)
    requires s.Valid() && k <= |trials|
    ensures r.Valid()
  {
    if k == 0 then s
    else
      var a := trials[k - 1].a;
      SenderAt(s, trials, k - 1).Send(a.m, a.mode, a.writes).0
  }

  function EntryOf(s: Sender, trials: seq<Trial>, k: nat): Entry
    requires s.Valid() && k < |trials|
  {
    Entry(trials[k].a.m, trials[k].a.mode, SenderAt(s, trials, k).sequence)
  }

  function FeedOf(s: Sender, trials: seq<Trial>, k: nat): Feed
    requires s.Valid() && k < |trials|
  {
    var r, t := SenderAt(s, trials, k), trials[k];
    Feed(k, GetsThrough(r, t, 0), GetsThrough(r, t, 1), GetsThrough(r, t, 2), t.a.first, t.a.second, t.a.third)
  }

  /** What a run of sends puts through to the decoder. */
  function TrafficOf(w: World, trials: seq<Trial>): (b: Traffic)
    requires w.sender.Valid()
    ensures |b.log| == |b.feeds| == |trials|
  {
    Traffic(w.decoder, seq(|trials|, k requires 0 <= k < |trials| => EntryOf(w.sender, trials, k)),
            seq(|trials|, k requires 0 <= k < |trials| => FeedOf(w.sender, trials, k)))
  }

  /** A run from a decoder that holds nothing, over classic CAN. */
  predicate Fresh(w: World) {
    w.sender.Valid() && w.sender.transport.SocketCan? && w.decoder.lateral.None? && w.decoder.longitudinal.None?
  }

  lemma TrafficIsValid(w: World, trials: seq<Trial>)
    requires Fresh(w)
    ensures TrafficOf(w, trials).Valid()
  {
  }

  predicate Accepts(w: World, trials: seq<Trial>, k: nat)
    requires Fresh(w) && k < |trials|
  {
    TrafficIsValid(w, trials);
    TrafficOf(w, trials).Accepts(k)
  }

  function AcceptedIn(w: World, trials: seq<Trial>, k: nat): seq<Command>
    requires Fresh(w) && k < |trials|
  {
    TrafficIsValid(w, trials);
    TrafficOf(w, trials).AcceptedIn(k)
  }

  function AllAccepted(w: World, trials: seq<Trial>): seq<Command>
    requires Fresh(w)
  {
    TrafficIsValid(w, trials);
    TrafficOf(w, trials).AllAccepted()
  }

  predicate DistinctPayloads(w: World, trials: seq<Trial>)
    requires w.sender.Valid()
  {
    Distinct(TrafficOf(w, trials).log)
  }

  /** The lateral and the longitudinal frame of send k both got through. */
  predicate OwnFrames(w: World, trials: seq<Trial>, k: nat)
    requires w.sender.Valid() && k < |trials|
  {
    var s := SenderAt(w.sender, trials, k);
    GetsThrough(s, trials[k], 0) && GetsThrough(s, trials[k], 1)
  }

  /** No accepted status frame meets an older half in place of a lost one. */
  predicate AllOwnFrames(w: World, trials: seq<Trial>)
    requires Fresh(w)
  {
    forall k: nat | k < |trials| && Accepts(w, trials, k) :: OwnFrames(w, trials, k)
  }

  /** The command the k-th send stands for. */
  function OwnCommand(w: World, trials: seq<Trial>, k: nat): Command
    requires w.sender.Valid() && k < |trials| && Encodable(trials[k].a.m)
  {
    Intended(trials[k].a.m, trials[k].a.mode, SenderAt(w.sender, trials, k).sequence)
  }

  // ----- halves from before are older -----

  lemma HeldIsOlder(w: World, trials: seq<Trial>, k: nat)
    requires Fresh(w) && k <= |trials|
    ensures TrafficOf(w, trials).Valid() && Below(TrafficOf(w, trials).HeldAt(k), k)
  {
    TrafficIsValid(w, trials);
    HeldBelow(TrafficOf(w, trials), k);
  }

  lemma OwnHalvesIff(w: World, trials: seq<Trial>, k: nat)
    requires Fresh(w) && k < |trials|
    ensures TrafficOf(w, trials).Valid() && (TrafficOf(w, trials).OwnHalves(k) <==> OwnFrames(w, trials, k))
  {
    HeldIsOlder(w, trials, k);
  }

  lemma AllOwnHalvesIff(w: World, trials: seq<Trial>)
    requires Fresh(w)
    ensures TrafficOf(w, trials).Valid() && (TrafficOf(w, trials).AllOwnHalves() <==> AllOwnFrames(w, trials))
  {
    TrafficIsValid(w, trials);
    forall k: nat | k < |trials|
      ensures TrafficOf(w, trials).OwnHalves(k) <==> OwnFrames(w, trials, k)
    {
      OwnHalvesIff(w, trials, k);
    }
  }

  // ----- send by send -----

  /** An accepted status frame yields its own command if and only if its own lateral and its own
      longitudinal frame got through. */
  lemma OwnCommandIff(w: World, trials: seq<Trial>, k: nat)
    requires Fresh(w) && k < |trials| && DistinctPayloads(w, trials) && Accepts(w, trials, k)
    ensures AcceptedIn(w, trials, k) == [OwnCommand(w, trials, k)] <==> OwnFrames(w, trials, k)
  {
    OwnHalvesIff(w, trials, k);
    CanHalves.OwnCommandIff(TrafficOf(w, trials), k);
  }

  /** Every accepted status frame of a run yields its own command if and only if no accepted status
      frame meets an older half in place of a lost one. */
  lemma RunIsOwnIff(w: World, trials: seq<Trial>)
    requires Fresh(w) && DistinctPayloads(w, trials)
    ensures (forall k: nat | k < |trials| && Accepts(w, trials, k) ::
               AcceptedIn(w, trials, k) == [OwnCommand(w, trials, k)])
       <==> AllOwnFrames(w, trials)
  {
    forall k: nat | k < |trials| && Accepts(w, trials, k)
      ensures AcceptedIn(w, trials, k) == [OwnCommand(w, trials, k)] <==> OwnFrames(w, trials, k)
    {
      OwnCommandIff(w, trials, k);
    }
  }

  // ----- the list of sent commands -----

  /** The first k calls of `send`. */
  function Attempts(trials: seq<Trial>, k: nat): (attempts: seq<Attempt>)
    requires k <= |trials|
    ensures |attempts| == k
  {
    if k == 0 then [] else Attempts(trials, k - 1) + [trials[k - 1].a]
  }

  /** The commands of the sends that succeeded. */
  function Commanded(w: World, trials: seq<Trial>): seq<Command>
    requires w.sender.Valid()
  {
    AllSent(w.sender, Attempts(trials, |trials|))
  }

  function SenderAfter(s: Sender, attempts: seq<Attempt>): (r: Sender)
    requires s.Valid()
    ensures r.Valid()
    decreases |attempts|
  {
    if attempts == [] then s
    else SenderAfter(s.Send(attempts[0].m, attempts[0].mode, attempts[0].writes).0, attempts[1..])
  }

  lemma {:induction false} OneMoreAttempt(s: Sender, attempts: seq<Attempt>, a: Attempt)
    requires s.Valid()
    ensures AllSent(s, attempts + [a]) == AllSent(s, attempts) + Sent(SenderAfter(s, attempts), a)
    ensures SenderAfter(s, attempts + [a]) == SenderAfter(s, attempts).Send(a.m, a.mode, a.writes).0
    decreases |attempts|
  {
    if attempts == [] {
      assert [a][1..] == [] && ([] + [a]) == [a];
    } else {
      var s1 := s.Send(attempts[0].m, attempts[0].mode, attempts[0].writes).0;
      assert (attempts + [a])[1..] == attempts[1..] + [a];
      OneMoreAttempt(s1, attempts[1..], a);
      assert Sent(s, attempts[0]) + (AllSent(s1, attempts[1..]) + Sent(SenderAfter(s1, attempts[1..]), a))
          == (Sent(s, attempts[0]) + AllSent(s1, attempts[1..])) + Sent(SenderAfter(s1, attempts[1..]), a);
    }
  }

  /** The command of each send that succeeded. */
  function SentParts(s: Sender, trials: seq<Trial>): (parts: seq<seq<Command>>)
    requires s.Valid()
    ensures |parts| == |trials|
  {
    seq(|trials|, k requires 0 <= k < |trials| => Sent(SenderAt(s, trials, k), trials[k].a))
  }

  lemma {:induction false} SenderIs(s: Sender, trials: seq<Trial>, k: nat)
    requires s.Valid() && k <= |trials|
    ensures SenderAt(s, trials, k) == SenderAfter(s, Attempts(trials, k))
  {
    if k > 0 {
      SenderIs(s, trials, k - 1);
      OneMoreAttempt(s, Attempts(trials, k - 1), trials[k - 1].a);
    }
  }

  lemma PartIs(s: Sender, trials: seq<Trial>, k: nat)
    requires s.Valid() && k < |trials|
    ensures AllSent(s, Attempts(trials, k + 1)) == AllSent(s, Attempts(trials, k)) + SentParts(s, trials)[k]
  {
    SenderIs(s, trials, k);
    OneMoreAttempt(s, Attempts(trials, k), trials[k].a);
  }

  lemma {:induction false} SentIsJoined(s: Sender, trials: seq<Trial>, k: nat)
    requires s.Valid() && k <= |trials|
    ensures AllSent(s, Attempts(trials, k)) == Joined(SentParts(s, trials), k)
  {
    if k > 0 {
      SentIsJoined(s, trials, k - 1);
      PartIs(s, trials, k - 1);
    }
  }

  predicate IsSent(w: World, trials: seq<Trial>, k: nat)
    requires w.sender.Valid() && k < |trials|
  {
    Sent(SenderAt(w.sender, trials, k), trials[k].a) != []
  }

  function SentIds(w: World, trials: seq<Trial>): set<nat>
    requires w.sender.Valid()
  {
    set k: nat | k < |trials| && IsSent(w, trials, k)
  }

  lemma {:induction false} SenderKept(w: World, trials: seq<Trial>, k: nat)
    requires Fresh(w) && k <= |trials|
    ensures SenderAt(w.sender, trials, k).transport.SocketCan?
    ensures SenderAt(w.sender, trials, k).initialized == w.sender.initialized
  {
    if k > 0 {
      SenderKept(w, trials, k - 1);
    }
  }

  lemma SentIff(w: World, trials: seq<Trial>, k: nat)
    requires Fresh(w) && k < |trials|
    ensures IsSent(w, trials, k) <==>
              w.sender.initialized && trials[k].a.mode.UsesCan() && Encodable(trials[k].a.m) && trials[k].a.writes >= 3
    ensures IsSent(w, trials, k) ==>
              Sent(SenderAt(w.sender, trials, k), trials[k].a) == [OwnCommand(w, trials, k)]
  {
    SenderKept(w, trials, k);
  }

  lemma SentIdsAreSent(w: World, trials: seq<Trial>)
    requires Fresh(w)
    ensures SentOf(TrafficOf(w, trials).log, SentIds(w, trials))
  {
    forall k: nat | k in SentIds(w, trials)
      ensures Names(TrafficOf(w, trials).log, k)
    {
      SentIff(w, trials, k);
    }
  }

  /** An accepted status frame is that of a send that succeeded. */
  lemma AcceptedWasSent(w: World, trials: seq<Trial>, k: nat)
    requires Fresh(w) && k < |trials| && Accepts(w, trials, k)
    ensures k in SentIds(w, trials)
  {
    SenderKept(w, trials, k);
    SentIff(w, trials, k);
    assert GetsThrough(SenderAt(w.sender, trials, k), trials[k], 2);
  }

  /** The list and the set of sent commands have the same members. */
  lemma CommandedIff(w: World, trials: seq<Trial>, c: Command)
    requires Fresh(w)
    ensures SentOf(TrafficOf(w, trials).log, SentIds(w, trials))
    ensures c in Commanded(w, trials) <==> IsOneOf(TrafficOf(w, trials).log, SentIds(w, trials), c)
  {
    var n, parts, log, sent := |trials|, SentParts(w.sender, trials), TrafficOf(w, trials).log, SentIds(w, trials);
    SentIsJoined(w.sender, trials, n);
    JoinedMembers(parts, n, c);
    SentIdsAreSent(w, trials);
    forall k: nat | k < n
      ensures c in parts[k] <==> k in sent && c == log[k].Own()
    {
      SentIff(w, trials, k);
    }
  }

  /** Every accepted command is one of the list of sent ones. */
  predicate OnlyCommanded(w: World, trials: seq<Trial>)
    requires Fresh(w)
  {
    forall c | c in AllAccepted(w, trials) :: c in Commanded(w, trials)
  }

  lemma OnlyCommandedIff(w: World, trials: seq<Trial>)
    requires Fresh(w)
    ensures TrafficOf(w, trials).Valid() && SentOf(TrafficOf(w, trials).log, SentIds(w, trials))
    ensures OnlyCommanded(w, trials) <==> OnlySent(TrafficOf(w, trials), SentIds(w, trials))
  {
    TrafficIsValid(w, trials);
    SentIdsAreSent(w, trials);
    forall c | c in AllAccepted(w, trials)
      ensures c in Commanded(w, trials) <==> IsOneOf(TrafficOf(w, trials).log, SentIds(w, trials), c)
    {
      CommandedIff(w, trials, c);
    }
  }

  /** Only sent commands are accepted if and only if each accepted status frame meets halves of one
      successful send whose status frame reads like its own. */
  lemma OnlySentIff(w: World, trials: seq<Trial>)
    requires Fresh(w) && DistinctPayloads(w, trials)
    ensures TrafficOf(w, trials).Valid() && SentOf(TrafficOf(w, trials).log, SentIds(w, trials))
    ensures OnlyCommanded(w, trials) <==> AllReadAsSent(TrafficOf(w, trials), SentIds(w, trials))
  {
    OnlyCommandedIff(w, trials);
    CanHalves.OnlySentIff(TrafficOf(w, trials), SentIds(w, trials));
  }

  // ----- runs shorter than the number range -----

  lemma NumberStep(s: Sender, trials: seq<Trial>, k: nat)
    requires s.Valid() && k < |trials|
    ensures var part := SentParts(s, trials)[k];
            |part| <= 1 && SenderAt(s, trials, k + 1).sequence == Number(SenderAt(s, trials, k).sequence, |part|)
  {
    SentNumber(SenderAt(s, trials, k), trials[k].a);
  }

  lemma NumberAfter(s: int, n: nat, m: nat)
    ensures Number(Number(s, n), m) == Number(s, n + m)
  {
  }

  lemma OneMorePart(parts: seq<seq<Command>>, k: nat)
    requires k < |parts|
    ensures |Joined(parts, k + 1)| == |Joined(parts, k)| + |parts[k]|
  {
  }

  /** The number counts the sends that succeeded, wrapped to 16 bits. */
  lemma {:induction false} NumberCounts(s: Sender, trials: seq<Trial>, k: nat)
    requires s.Valid() && k <= |trials|
    ensures SenderAt(s, trials, k).sequence == Number(s.sequence, |Joined(SentParts(s, trials), k)|)
  {
    if k > 0 {
      var parts := SentParts(s, trials);
      var before, more := |Joined(parts, k - 1)|, |parts[k - 1]|;
      calc {
        SenderAt(s, trials, k).sequence;
        { NumberStep(s, trials, k - 1); }
        Number(SenderAt(s, trials, k - 1).sequence, more);
        { NumberCounts(s, trials, k - 1); }
        Number(Number(s.sequence, before), more);
        { NumberAfter(s.sequence, before, more); }
        Number(s.sequence, before + more);
      }
      OneMorePart(parts, k - 1);
    }
  }

  lemma {:induction false} JoinedGrows(parts: seq<seq<Command>>, i: nat, k: nat)
    requires i <= k <= |parts|
    ensures |Joined(parts, i)| <= |Joined(parts, k)|
    decreases k
  {
    if i < k {
      JoinedGrows(parts, i, k - 1);
    }
  }

  /** A longer prefix that passes a nonempty part is longer. */
  lemma JoinedPasses(parts: seq<seq<Command>>, i: nat, k: nat)
    requires i < k <= |parts| && parts[i] != []
    ensures |Joined(parts, i)| < |Joined(parts, k)|
  {
    OneMorePart(parts, i);
    JoinedGrows(parts, i + 1, k);
  }

  lemma CountsWithin(parts: seq<seq<Command>>, x: nat, k: nat)
    requires x < k < |parts| && parts[x] != [] && parts[k] != [] && |Joined(parts, |parts|)| <= 0x1_0000
    ensures |Joined(parts, x)| < |Joined(parts, k)| < |Joined(parts, x)| + 0x1_0000
  {
    JoinedPasses(parts, x, k);
    JoinedPasses(parts, k, |parts|);
  }

  lemma NumbersApart(s: int, n: nat, m: nat)
    requires n < m < n + 0x1_0000
    ensures Number(s, n) != Number(s, m)
  {
  }

  /** With at most 2^16 sends no number comes twice. */
  lemma SentNumbersDiffer(s: Sender, trials: seq<Trial>, x: nat, k: nat)
    requires s.Valid() && x < k < |trials| && |Joined(SentParts(s, trials), |trials|)| <= 0x1_0000
    requires SentParts(s, trials)[x] != [] && SentParts(s, trials)[k] != []
    ensures SenderAt(s, trials, x).sequence != SenderAt(s, trials, k).sequence
  {
    var parts := SentParts(s, trials);
    NumberCounts(s, trials, x);
    NumberCounts(s, trials, k);
    CountsWithin(parts, x, k);
    NumbersApart(s.sequence, |Joined(parts, x)|, |Joined(parts, k)|);
  }

  lemma ShortRunNumbers(w: World, trials: seq<Trial>)
    requires Fresh(w) && |Commanded(w, trials)| <= 0x1_0000
    ensures SentOf(TrafficOf(w, trials).log, SentIds(w, trials))
    ensures NumbersDiffer(TrafficOf(w, trials).log, SentIds(w, trials))
  {
    SentIdsAreSent(w, trials);
    SentIsJoined(w.sender, trials, |trials|);
    var log, sent := TrafficOf(w, trials).log, SentIds(w, trials);
    forall x, k | x in sent && k in sent && x < k
      ensures log[x].number != log[k].number
    {
      SentNumbersDiffer(w.sender, trials, x, k);
    }
  }

  /** No command other than a sent one is accepted if and only if no accepted status frame meets an
      older half in place of a lost one. */
  lemma NoTornCommandIff(w: World, trials: seq<Trial>)
    requires Fresh(w) && DistinctPayloads(w, trials) && |Commanded(w, trials)| <= 0x1_0000
    ensures OnlyCommanded(w, trials) <==> AllOwnFrames(w, trials)
  {
    var b, sent := TrafficOf(w, trials), SentIds(w, trials);
    OnlyCommandedIff(w, trials);
    ShortRunNumbers(w, trials);
    AllOwnHalvesIff(w, trials);
    forall k: nat | k < |trials| && b.Accepts(k)
      ensures b.feeds[k].id in sent
    {
      AcceptedWasSent(w, trials, k);
    }
    CanHalves.NoTornCommandIff(b, sent);
  }

  // ----- the witness -----

  /** The first send fails after its lateral frame, so the second reuses its number. */
  function FailThenLose(a: Arrival): seq<Trial> {
    [Trial(Attempt(CREEP, CanOnly, 1, a, a, a), true, true, true),
     Trial(Attempt(TURN, CanOnly, 3, a, a, a), false, true, true)]
  }

  lemma WitnessTraffic(w: World, trials: seq<Trial>, now: real)
    requires w == World(Sender(true, SocketCan, 0), INITIAL) && trials == FailThenLose(Arrival([], now))
    ensures TrafficOf(w, trials).Valid() && HalfThenRest(TrafficOf(w, trials))
    ensures TrafficOf(w, trials).log == [Entry(CREEP, CanOnly, 0), Entry(TURN, CanOnly, 0)]
  {
    WitnessIsEncodable();
    TrafficIsValid(w, trials);
    var s := w.sender;
    assert SenderAt(s, trials, 0) == s;
    assert s.Send(CREEP, CanOnly, 1).0 == s;
    assert SenderAt(s, trials, 1) == s;
  }

  /** Losing the one lateral frame of the second send makes the decoder accept the first command's
      steering with the second one's speed: neither of the two commands. */
  lemma LostFrameTears(now: real)
    ensures var w, trials := World(Sender(true, SocketCan, 0), INITIAL), FailThenLose(Arrival([], now));
            && Fresh(w) && DistinctPayloads(w, trials) && Accepts(w, trials, 1) && !OwnFrames(w, trials, 1)
            && Encodable(CREEP) && Encodable(TURN)
            && AcceptedIn(w, trials, 1)
               == [Decode(LateralPayload(CREEP), LongitudinalPayload(TURN), StatusPayload(TURN, CanOnly, 0))]
            && AcceptedIn(w, trials, 1) != [Intended(CREEP, CanOnly, 0)]
            && AcceptedIn(w, trials, 1) != [Intended(TURN, CanOnly, 0)]
  {
    var w, trials := World(Sender(true, SocketCan, 0), INITIAL), FailThenLose(Arrival([], now));
    WitnessTraffic(w, trials, now);
    HalfThenRestTears(TrafficOf(w, trials));
    OwnHalvesIff(w, trials, 1);
  }

  // ----- the lossless bus -----

  /** When no frame of a successful send is lost, the trial is the lossless bus. */
  lemma KeptIsBus(w: World, trials: seq<Trial>, k: nat)
    requires Fresh(w) && k < |trials| && IsSent(w, trials, k)
    requires trials[k].lateralKept && trials[k].longitudinalKept && trials[k].statusKept
    ensures var b, s, a := TrafficOf(w, trials), SenderAt(w.sender, trials, k), trials[k].a;
            && b.Valid() && Encodable(a.m)
            && (b.DecoderAt(k + 1), b.AcceptedIn(k)) == Bus(b.DecoderAt(k), s.Requested(a.m, a.mode), a.Arrivals())
  {
    var b := TrafficOf(w, trials);
    TrafficIsValid(w, trials);
    SenderKept(w, trials, k);
    SentIff(w, trials, k);
    CompleteIsBus(b.DecoderAt(k), b.At(k), b.feeds[k]);
  }

  // ----- CAN-FD -----

  /** One frame carries the whole command, so over CAN-FD no loss can tear one, whatever is pending. */
  lemma FdNeverTears(d: State, m: ControlMsg, mode: OutputMode, sequence: int, now: real)
    requires Encodable(m) && IsU16(sequence)
    ensures var (d', event) := FeedWire(d, FdWire(CommandFdFrame(m, mode, sequence)), now);
            event == Accepted ==> d'.command == Intended(m, mode, sequence)
  {
    FdSlices(m, mode, sequence);
    var f := CommandFdFrame(m, mode, sequence);
    assert f.data[0..8][..8] == LateralPayload(m) && f.data[8..16][..8] == LongitudinalPayload(m);
    assert f.data[16..24][..8] == StatusPayload(m, mode, sequence);
  }
}
