/** decoder.py: `ControlCommandDecoder` with its pending frames, serial-number check and
    watchdog. The class is proved against functions on its abstract state. */
module CanDecoder {
  import opened Options
  import opened CanCodec

  datatype Event = Ignored | Stored | Accepted | Rejected | SafeStop

  datatype Command = Command(
    steeringAngle: real, steeringRate: real, rateDefined: bool,
    velocity: real, acceleration: real, accelerationDefined: bool, jerkDefined: bool,
    sequence: int, outputMode: Byte)

  const NO_COMMAND := Command(0.0, 0.0, false, 0.0, 0.0, false, false, 0, 0)

  /** Serial-number distance in 16 bits: -32768 .. 32767. */
  function SeqDelta(sequence: int, expected: int): int {
    (sequence - expected + 32768) % 0x1_0000 - 32768
  }

  function Bit(x: Byte, k: nat): bool
    requires k < 3
  {
    (if k == 0 then x else if k == 1 then x / 2 else x / 4) % 2 == 1
  }

  /** The command carried by three payloads. */
  function Decode(lateral: Payload, longitudinal: Payload, status: Payload): Command {
    Command(
      ReadI32(lateral, 0) as real / STEERING_SCALE, ReadI32(lateral, 4) as real / STEERING_SCALE,
      Bit(status[1], 0),
      ReadI32(longitudinal, 0) as real / SPEED_SCALE, ReadI32(longitudinal, 4) as real / SPEED_SCALE,
      Bit(status[1], 1), Bit(status[1], 2),
      ReadU16(status, 2), status[0])
  }

  // ----- abstract state -----

  datatype State = State(
    lateral: Option<Payload>, longitudinal: Option<Payload>,
    command: Command, hasCommand: bool, inSafeStop: bool,
    expected: Option<int>, anchor: Option<real>)
  {
    function ClearPending(): State {
      this.(lateral := None, longitudinal := None)
    }

    function NoteTime(now: real): State {
      if anchor.None? then this.(anchor := Some(now)) else this
    }

    /** The status frame is acceptable: both halves are pending and the number is not old. */
    predicate Commits(status: Payload) {
      && lateral.Some? && longitudinal.Some?
      && (expected.Some? ==> SeqDelta(ReadU16(status, 2), expected.value) >= 0)
    }

    function Commit(status: Payload, now: real): State
      requires Commits(status)
    {
      State(None, None, Decode(lateral.value, longitudinal.value, status), true, false,
            Some((ReadU16(status, 2) + 1) % 0x1_0000), Some(now))
    }

    /** State and event after one classic frame. */
    function Feed(id: nat, data: seq<Byte>, dlc: nat, extended: bool, now: real): (State, Event) {
      var s := NoteTime(now);
      if extended || dlc != 8 || |data| < 8 then (s, Ignored)
      else if id == LATERAL_ID then (s.(lateral := Some(data[..8])), Stored)
      else if id == LONGITUDINAL_ID then (s.(longitudinal := Some(data[..8])), Stored)
      else if id != STATUS_ID then (s, Ignored)
      else if s.Commits(data[..8]) then (s.Commit(data[..8], now), Accepted)
      else (s.ClearPending(), Rejected)
    }

    /** State and event after one CAN-FD frame: the three classic slices in order. */
    function FeedFd(id: nat, data: seq<Byte>, length: nat, extended: bool, now: real): (State, Event) {
      var s := NoteTime(now);
      if extended || id != FD_COMMAND_ID || length != FD_PAYLOAD_LENGTH || |data| < FD_PAYLOAD_LENGTH then (s, Ignored)
      else
        var s1 := s.Feed(LATERAL_ID, data[0..8], 8, false, now).0;
        var s2 := s1.Feed(LONGITUDINAL_ID, data[8..16], 8, false, now).0;
        s2.Feed(STATUS_ID, data[16..24], 8, false, now)
    }

    function PollWatchdog(now: real, timeout: real): (State, Event) {
      var s := NoteTime(now);
      if inSafeStop then (s, SafeStop)
      else if now - s.anchor.value <= timeout then (s, Ignored)
      else (s.ClearPending().(inSafeStop := true, expected := None), SafeStop)
    }
  }

  const INITIAL := State(None, None, NO_COMMAND, false, false, None, None)

  // ----- the class -----

  class ControlCommandDecoder {
    var hasLateral: bool
    var hasLongitudinal: bool
    var lateral: Payload
    var longitudinal: Payload
    var command: Command
    var hasCommand: bool
    var inSafeStop: bool
    var hasExpected: bool
    var expected: int
    var hasAnchor: bool
    var anchor: real

    ghost function View(): State
      reads this
    {
      State(if hasLateral then Some(lateral) else None,
            if hasLongitudinal then Some(longitudinal) else None,
            command, hasCommand, inSafeStop,
            if hasExpected then Some(expected) else None,
            if hasAnchor then Some(anchor) else None)
    }

    constructor ()
      ensures View() == INITIAL
    {
      hasLateral, hasLongitudinal := false, false;
      command, hasCommand, inSafeStop := NO_COMMAND, false, false;
      hasExpected, expected, hasAnchor, anchor := false, 0, false, 0.0;
    }

    method NoteTime(now: real)
      modifies this
      ensures View() == old(View()).NoteTime(now)
    {
      if !hasAnchor {
        anchor := now;
        hasAnchor := true;
      }
    }

    method ClearPending()
      modifies this
      ensures View() == old(View()).ClearPending()
    {
      hasLateral := false;
      hasLongitudinal := false;
    }

    method Feed(id: nat, data: seq<Byte>, dlc: nat, extended: bool, now: real) returns (event: Event)
      modifies this
      ensures (View(), event) == old(View()).Feed(id, data, dlc, extended, now)
    {
      NoteTime(now);
      if extended || dlc != 8 || |data| < 8 {
        return Ignored;
      }
      var payload := data[..8];
      if id == LATERAL_ID {
        lateral := payload;
        hasLateral := true;
        return Stored;
      }
      if id == LONGITUDINAL_ID {
        longitudinal := payload;
        hasLongitudinal := true;
        return Stored;
      }
      if id != STATUS_ID {
        return Ignored;
      }
      if !hasLateral || !hasLongitudinal {
        ClearPending();
        return Rejected;
      }
      var sequence := ReadU16(payload, 2);
      if hasExpected && SeqDelta(sequence, expected) < 0 {
        ClearPending();
        return Rejected;
      }
      Commit(payload, now);
      return Accepted;
    }

    method Commit(payload: Payload, now: real)
      requires View().Commits(payload)
      modifies this
      ensures View() == old(View()).Commit(payload, now)
    {
      var sequence := ReadU16(payload, 2);
      command := Decode(lateral, longitudinal, payload);
      hasCommand := true;
      inSafeStop := false;
      hasExpected := true;
      expected := (sequence + 1) % 0x1_0000;
      anchor := now;
      hasAnchor := true;
      ClearPending();
    }

    method FeedFd(id: nat, data: seq<Byte>, length: nat, extended: bool, now: real) returns (event: Event)
      modifies this
      ensures (View(), event) == old(View()).FeedFd(id, data, length, extended, now)
    {
      NoteTime(now);
      if extended || id != FD_COMMAND_ID || length != FD_PAYLOAD_LENGTH || |data| < FD_PAYLOAD_LENGTH {
        return Ignored;
      }
      var payload := data[..FD_PAYLOAD_LENGTH];
      assert payload[0..8] == data[0..8] && payload[8..16] == data[8..16] && payload[16..24] == data[16..24];
      event := Feed(LATERAL_ID, payload[0..8], 8, false, now);
      event := Feed(LONGITUDINAL_ID, payload[8..16], 8, false, now);
      event := Feed(STATUS_ID, payload[16..24], 8, false, now);
    }

    method PollWatchdog(now: real, timeout: real) returns (event: Event)
      modifies this
      ensures (View(), event) == old(View()).PollWatchdog(now, timeout)
    {
      NoteTime(now);
      if inSafeStop {
        return SafeStop;
      }
      if !hasAnchor {
        return Ignored;
      }
      if now - anchor <= timeout {
        return Ignored;
      }
      inSafeStop := true;
      hasExpected := false;
      ClearPending();
      return SafeStop;
    }
  }
}
