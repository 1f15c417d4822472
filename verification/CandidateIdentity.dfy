/** candidate_identity.hpp: which VisionPilot and Autoware samples count as new. The sixteen
    retired sessions live in a ring, as in the source. */
module CandidateIdentity {
  import opened Options

  const NANOS := 1000000000
  const RETIRED := 16

  datatype SourceStamp = SourceStamp(sec: int, nanosec: nat)
  {
    predicate Valid() {
      sec >= 0 && nanosec < NANOS
    }

    predicate Later(that: SourceStamp) {
      sec > that.sec || (sec == that.sec && nanosec > that.nanosec)
    }

    /** Nanoseconds since the epoch of the source. */
    function Total(): int {
      sec * NANOS + nanosec
    }
  }

  datatype CandidateCheck = ACCEPT | DUPLICATE | REGRESSION | INVALID_STAMP

  datatype Candidate = Candidate(session: nat, cycle: nat, stamp: SourceStamp)

  /** The first `count` entries of the ring are in use. */
  datatype Identity = Identity(last: Option<Candidate>, retired: seq<nat>, count: nat, next: nat)
  {
    predicate Valid() {
      |retired| == RETIRED && count <= RETIRED && next < RETIRED && (count < RETIRED ==> next == count)
    }

    predicate Retired(session: nat)
      requires Valid()
    {
      session in retired[..count]
    }

    function Check(c: Candidate): CandidateCheck
      requires Valid()
    {
      if !c.stamp.Valid() then INVALID_STAMP
      else if last.None? then ACCEPT
      else if Retired(c.session) then REGRESSION
      else if c.session == last.value.session && c.cycle <= last.value.cycle then
        if c.cycle == last.value.cycle && c.stamp == last.value.stamp then DUPLICATE else REGRESSION
      else if c.stamp == last.value.stamp then DUPLICATE
      else if c.stamp.Later(last.value.stamp) then ACCEPT
      else REGRESSION
    }

    function Note(c: Candidate): Identity
      requires Valid()
    {
      if last.Some? && c.session != last.value.session then
        Identity(Some(c), retired[next := last.value.session], if count < RETIRED then count + 1 else count,
                 (next + 1) % RETIRED)
      else this.(last := Some(c))
    }
  }

  const UNSEEN := Identity(None, [0, 0, 0, 0, 0, 0, 0, 0, 0, 0, 0, 0, 0, 0, 0, 0], 0, 0)

  /** The search loop of `check` over the ring. */
  method SearchRetired(identity: Identity, session: nat) returns (found: bool)
    requires identity.Valid()
    ensures found <==> identity.Retired(session)
  {
    for i := 0 to identity.count
      invariant session !in identity.retired[..i]
    {
      if identity.retired[i] == session {
        return true;
      }
    }
    return false;
  }

  // ----- whole streams -----

  /** The samples a stream of candidates gets accepted, noting each accepted one. `usable` marks
      the accepted samples that pass the later checks; only those are noted. */
  function Noted(identity: Identity, stream: seq<Candidate>, usable: seq<bool>): seq<Candidate>
    requires identity.Valid() && |stream| == |usable|
    decreases |stream|
  {
    if stream == [] then []
    else if identity.Check(stream[0]) == ACCEPT && usable[0] then
      [stream[0]] + Noted(identity.Note(stream[0]), stream[1..], usable[1..])
    else Noted(identity, stream[1..], usable[1..])
  }

  predicate Advances(a: Candidate, b: Candidate) {
    b.stamp.Valid() && b.stamp.Total() > a.stamp.Total() && (a.session == b.session ==> b.cycle > a.cycle)
  }

  lemma LaterIsGreater(a: SourceStamp, b: SourceStamp)
    requires a.Valid() && b.Valid()
    ensures b.Later(a) <==> b.Total() > a.Total()
  {
  }

  /** A sample is accepted exactly when nothing was accepted before, or its stamp is later, its
      session is not a retired one, and it does not repeat a cycle of the current session. */
  lemma AcceptedIffAdvances(identity: Identity, c: Candidate)
    requires identity.Valid() && (identity.last.Some? ==> identity.last.value.stamp.Valid())
    ensures identity.Check(c) == ACCEPT <==>
            && c.stamp.Valid()
            && (identity.last.Some? ==> Advances(identity.last.value, c) && !identity.Retired(c.session))
  {
    if identity.last.Some? && c.stamp.Valid() {
      LaterIsGreater(identity.last.value.stamp, c.stamp);
    }
  }

  /** Over a whole stream, whatever sessions it mixes, each noted sample advances on the one before. */
  lemma {:induction false} NotedAdvance(identity: Identity, stream: seq<Candidate>, usable: seq<bool>, i: nat)
    requires identity.Valid() && |stream| == |usable|
    requires identity.last.Some? ==> identity.last.value.stamp.Valid()
    ensures var noted := Noted(identity, stream, usable);
            && (identity.last.Some? && noted != [] ==> Advances(identity.last.value, noted[0]))
            && (i + 1 < |noted| ==> Advances(noted[i], noted[i + 1]))
    decreases |stream|
  {
    if stream != [] {
      AcceptedIffAdvances(identity, stream[0]);
      if identity.Check(stream[0]) == ACCEPT && usable[0] {
        NotedAdvance(identity.Note(stream[0]), stream[1..], usable[1..], if i == 0 then 0 else i - 1);
      } else {
        NotedAdvance(identity, stream[1..], usable[1..], i);
      }
    }
  }

  /** No two noted samples share a stamp: stamps strictly increase over the whole stream. */
  lemma {:induction false} StampsStrictlyIncrease(identity: Identity, stream: seq<Candidate>, usable: seq<bool>,
        i: nat, j: nat)
    requires identity.Valid() && |stream| == |usable|
    requires identity.last.Some? ==> identity.last.value.stamp.Valid()
    requires i < j < |Noted(identity, stream, usable)|
    ensures var noted := Noted(identity, stream, usable); noted[i].stamp.Total() < noted[j].stamp.Total()
    decreases j - i
  {
    NotedAdvance(identity, stream, usable, i);
    if i + 1 < j {
      StampsStrictlyIncrease(identity, stream, usable, i + 1, j);
    }
  }

  // ----- retired sessions -----

  /** The sessions left behind, oldest first. */
  function Left(past: seq<Candidate>): seq<nat>
  {
    if |past| < 2 then []
    else Left(past[..|past| - 1])
         + (if past[|past| - 2].session != past[|past| - 1].session then [past[|past| - 2].session] else [])
  }

  /** Noting a whole history. */
  function NoteAll(past: seq<Candidate>): (r: Identity)
    ensures r.Valid()
  {
    if past == [] then UNSEEN else NoteAll(past[..|past| - 1]).Note(past[|past| - 1])
  }

  function Slot(k: nat): (r: nat)
    ensures r < RETIRED
  {
    k % RETIRED
  }

  /** The ring holds the sixteen most recent entries of `left`, at consecutive slots. */
  ghost predicate RingOf(ring: seq<nat>, count: nat, next: nat, left: seq<nat>) {
    && |ring| == RETIRED
    && count == (if |left| < RETIRED then |left| else RETIRED)
    && next == Slot(|left|)
    && forall k | 0 <= k < |left| && |left| - RETIRED <= k :: ring[Slot(k)] == left[k]
  }

  lemma OtherSlot(n: nat, k: nat)
    requires k < n && n + 1 - RETIRED <= k
    ensures Slot(k) != Slot(n)
  {
  }

  lemma RingPush(ring: seq<nat>, count: nat, next: nat, left: seq<nat>, x: nat)
    requires RingOf(ring, count, next, left)
    ensures RingOf(ring[next := x], if count < RETIRED then count + 1 else count, (next + 1) % RETIRED, left + [x])
  {
    var ring', left' := ring[next := x], left + [x];
    forall k | 0 <= k < |left'| && |left'| - RETIRED <= k
      ensures ring'[Slot(k)] == left'[k]
    {
      if k < |left| {
        OtherSlot(|left|, k);
      }
    }
  }

  /** After any history the ring holds the sixteen most recently left sessions. */
  lemma {:induction false} RingHoldsLastSixteen(past: seq<Candidate>)
    ensures var r := NoteAll(past);
            && r.last == (if past == [] then None else Some(past[|past| - 1]))
            && RingOf(r.retired, r.count, r.next, Left(past))
  {
    if past != [] {
      var before := past[..|past| - 1];
      RingHoldsLastSixteen(before);
      if |past| > 1 && past[|past| - 2].session != past[|past| - 1].session {
        var r := NoteAll(before);
        RingPush(r.retired, r.count, r.next, Left(before), past[|past| - 2].session);
      }
    }
  }

  /** The number in [n - 16, n) whose slot is i. */
  function PlaceBefore(n: nat, i: nat): (k: nat)
    requires i < RETIRED <= n
    ensures Slot(k) == i && n - RETIRED <= k < n
  {
    n - 1 - (n - 1 - i) % RETIRED
  }

  ghost predicate InLastSixteen(left: seq<nat>, session: nat) {
    exists k :: 0 <= k < |left| && |left| - RETIRED <= k && left[k] == session
  }

  lemma RingSearch(ring: seq<nat>, count: nat, next: nat, left: seq<nat>, session: nat)
    requires RingOf(ring, count, next, left)
    ensures session in ring[..count] <==> InLastSixteen(left, session)
  {
    if session in ring[..count] {
      var i :| 0 <= i < count && ring[i] == session;
      var k := if |left| < RETIRED then i else PlaceBefore(|left|, i);
      assert Slot(k) == i && ring[Slot(k)] == left[k];
    }
    if k :| 0 <= k < |left| && |left| - RETIRED <= k && left[k] == session {
      assert ring[..count][Slot(k)] == session;
    }
  }

  /** A session is refused as retired exactly when it is among the last sixteen left. */
  lemma RetiredIffRecentlyLeft(past: seq<Candidate>, session: nat)
    ensures NoteAll(past).Retired(session) <==> InLastSixteen(Left(past), session)
  {
    RingHoldsLastSixteen(past);
    var r := NoteAll(past);
    RingSearch(r.retired, r.count, r.next, Left(past), session);
  }

  // ----- native Autoware trajectories -----

  datatype StampIdentity = StampIdentity(last: Option<SourceStamp>)
  {
    function Check(stamp: SourceStamp): CandidateCheck {
      if !stamp.Valid() then INVALID_STAMP
      else if last.None? || stamp.Later(last.value) then ACCEPT
      else if stamp == last.value then DUPLICATE
      else REGRESSION
    }

    function Note(stamp: SourceStamp): StampIdentity {
      StampIdentity(Some(stamp))
    }
  }

  lemma StampAcceptedIffLater(identity: StampIdentity, stamp: SourceStamp)
    requires identity.last.Some? ==> identity.last.value.Valid()
    ensures identity.Check(stamp) == ACCEPT <==>
            stamp.Valid() && (identity.last.Some? ==> stamp.Total() > identity.last.value.Total())
  {
    if identity.last.Some? && stamp.Valid() {
      LaterIsGreater(identity.last.value, stamp);
    }
  }
}
