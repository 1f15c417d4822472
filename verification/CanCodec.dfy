/** The placeholder CAN contract: scaling, little-endian fields, and the encoder of
    control_command_encoder.hpp. Shifts and masks are written as division and remainder. */
module CanCodec {

  type Byte = x: int | 0 <= x < 256
  type Payload = d: seq<Byte> | |d| == 8 witness [0, 0, 0, 0, 0, 0, 0, 0]

  const LATERAL_ID := 0x100
  const LONGITUDINAL_ID := 0x101
  const STATUS_ID := 0x102
  const FD_COMMAND_ID := 0x103
  const FD_PAYLOAD_LENGTH := 24
  const FD_CAPACITY := 64
  const STEERING_SCALE := 1000000.0
  const SPEED_SCALE := 1000.0

  datatype CanFrame = CanFrame(id: nat, dlc: nat, extended: bool, data: Payload)

  datatype FdFrame = FdFrame(id: nat, length: nat, data: seq<Byte>)

  datatype Float = Finite(r: real) | NonFinite

  datatype OutputMode = DdsOnly | CanOnly | DdsAndCan {
    predicate UsesCan() {
      CanOnly? || DdsAndCan?
    }

    function Code(): Byte {
      match this
      case DdsOnly => 0
      case CanOnly => 1
      case DdsAndCan => 2
    }
  }

  datatype ControlMsg = ControlMsg(
    sec: int, nanosec: nat,
    steeringAngle: Float, steeringRate: Float, rateDefined: bool,
    velocity: Float, acceleration: Float, accelerationDefined: bool, jerkDefined: bool)

  datatype Encoded = EncodeError(message: string) | Frames(frames: seq<CanFrame>)

  datatype FdEncoded = FdError(message: string) | NoFrame | Packed(frame: FdFrame)

  // ----- little-endian fields -----

  predicate IsU16(x: int) {
    0 <= x < 0x1_0000
  }

  predicate IsU32(x: int) {
    0 <= x < 0x1_0000_0000
  }

  predicate IsI32(x: int) {
    -0x8000_0000 <= x < 0x8000_0000
  }

  function U16Bytes(x: int): (r: seq<Byte>)
    ensures |r| == 2
  {
    [x % 256, x / 256 % 256]
  }

  function U32Bytes(x: int): (r: seq<Byte>)
    ensures |r| == 4
  {
    [x % 256, x / 256 % 256, x / 0x1_0000 % 256, x / 0x100_0000 % 256]
  }

  /** The two's-complement bits of a 32-bit integer. */
  function I32Bytes(x: int): (r: seq<Byte>)
    ensures |r| == 4
  {
    U32Bytes(x % 0x1_0000_0000)
  }

  function ReadU16(d: seq<Byte>, offset: nat): (x: int)
    requires offset + 2 <= |d|
    ensures IsU16(x)
  {
    var b0: int, b1: int := d[offset], d[offset + 1];
    b0 + 256 * b1
  }

  function ReadU32(d: seq<Byte>, offset: nat): (x: int)
    requires offset + 4 <= |d|
    ensures IsU32(x)
  {
    var b0: int, b1: int, b2: int, b3: int := d[offset], d[offset + 1], d[offset + 2], d[offset + 3];
    b0 + 256 * b1 + 0x1_0000 * b2 + 0x100_0000 * b3
  }

  function ReadI32(d: seq<Byte>, offset: nat): (x: int)
    requires offset + 4 <= |d|
    ensures IsI32(x)
  {
    var raw := ReadU32(d, offset);
    if raw >= 0x8000_0000 then raw - 0x1_0000_0000 else raw
  }

  lemma U16RoundTrip(x: int, d: seq<Byte>, offset: nat)
    requires IsU16(x) && offset + 2 <= |d| && d[offset..offset + 2] == U16Bytes(x)
    ensures ReadU16(d, offset) == x
  {
    assert d[offset] == d[offset..offset + 2][0] && d[offset + 1] == d[offset..offset + 2][1];
  }

  lemma U32RoundTrip(x: int, d: seq<Byte>, offset: nat)
    requires IsU32(x) && offset + 4 <= |d| && d[offset..offset + 4] == U32Bytes(x)
    ensures ReadU32(d, offset) == x
  {
    var w := d[offset..offset + 4];
    assert d[offset] == w[0] && d[offset + 1] == w[1] && d[offset + 2] == w[2] && d[offset + 3] == w[3];
    var a := x / 256;
    var b := a / 256;
    assert x / 0x1_0000 == b && x / 0x100_0000 == b / 256;
  }

  lemma I32RoundTrip(x: int, d: seq<Byte>, offset: nat)
    requires IsI32(x) && offset + 4 <= |d| && d[offset..offset + 4] == I32Bytes(x)
    ensures ReadI32(d, offset) == x
  {
    U32RoundTrip(x % 0x1_0000_0000, d, offset);
  }

  /** Reading and writing back gives the same bytes. */
  lemma U32BytesOfRead(d: seq<Byte>, offset: nat)
    requires offset + 4 <= |d|
    ensures U32Bytes(ReadU32(d, offset)) == d[offset..offset + 4]
  {
    var x := ReadU32(d, offset);
    var b0: int, b1: int, b2: int, b3: int := d[offset], d[offset + 1], d[offset + 2], d[offset + 3];
    var a := b1 + 256 * b2 + 0x1_0000 * b3;
    var b := b2 + 256 * b3;
    assert x == b0 + 256 * a && a == b1 + 256 * b;
    assert x / 256 == a && a / 256 == b && x / 0x1_0000 == b && x / 0x100_0000 == b / 256;
  }

  lemma U16BytesOfRead(d: seq<Byte>, offset: nat)
    requires offset + 2 <= |d|
    ensures U16Bytes(ReadU16(d, offset)) == d[offset..offset + 2]
  {
  }

  // ----- scaling -----

  /** Rounding to the nearest integer, halves away from zero. */
  function RoundHalfAway(x: real): int {
    if x >= 0.0 then (x + 0.5).Floor else -((-x + 0.5).Floor)
  }

  /** The cast of a double to a signed integer: towards zero. */
  function Truncate(x: real): int {
    if x >= 0.0 then x.Floor else -((-x).Floor)
  }

  /** The value a finite float takes on the wire. */
  function Scaled(value: real, scale: real): int {
    RoundHalfAway(value * scale)
  }

  /** Accepts a value exactly when it is finite and its rounding fits 32 bits. */
  method ScaleToI32(value: Float, scale: real) returns (ok: bool, output: int)
    ensures ok <==> value.Finite? && IsI32(Scaled(value.r, scale))
    ensures ok ==> output == Scaled(value.r, scale)
  {
    output := 0;
    if value.NonFinite? {
      return false, output;
    }
    var scaled := value.r * scale;
    if scaled < -2147483648.0 - 0.5 || scaled > 2147483647.0 + 0.5 {
      return false, output;
    }
    var rounded := Truncate(if scaled >= 0.0 then scaled + 0.5 else scaled - 0.5);
    if rounded < -0x8000_0000 || rounded > 0x7FFF_FFFF {
      return false, output;
    }
    return true, rounded;
  }

  /** The rounding is off by at most half a unit, and a half goes away from zero. */
  lemma RoundingIsNearest(x: real)
    ensures -0.5 <= RoundHalfAway(x) as real - x <= 0.5
    ensures RoundHalfAway(x) as real - x == 0.5 ==> x >= 0.0
    ensures RoundHalfAway(x) as real - x == -0.5 ==> x < 0.0
  {
  }

  // ----- the encoder -----

  predicate Encodable(m: ControlMsg) {
    && m.steeringAngle.Finite? && IsI32(Scaled(m.steeringAngle.r, STEERING_SCALE))
    && m.steeringRate.Finite? && IsI32(Scaled(m.steeringRate.r, STEERING_SCALE))
    && m.velocity.Finite? && IsI32(Scaled(m.velocity.r, SPEED_SCALE))
    && m.acceleration.Finite? && IsI32(Scaled(m.acceleration.r, SPEED_SCALE))
  }

  /** Milliseconds of the stamp, wrapped to 32 bits. */
  function TimestampMs(m: ControlMsg): int {
    (m.sec * 1000 + m.nanosec / 1000000) % 0x1_0000_0000
  }

  function ValidityFlags(m: ControlMsg): Byte {
    (if m.rateDefined then 1 else 0) + (if m.accelerationDefined then 2 else 0)
    + (if m.jerkDefined then 4 else 0) + 8
  }

  function LateralPayload(m: ControlMsg): Payload
    requires Encodable(m)
  {
    I32Bytes(Scaled(m.steeringAngle.r, STEERING_SCALE)) + I32Bytes(Scaled(m.steeringRate.r, STEERING_SCALE))
  }

  function LongitudinalPayload(m: ControlMsg): Payload
    requires Encodable(m)
  {
    I32Bytes(Scaled(m.velocity.r, SPEED_SCALE)) + I32Bytes(Scaled(m.acceleration.r, SPEED_SCALE))
  }

  function StatusPayload(m: ControlMsg, mode: OutputMode, sequence: int): Payload {
    [mode.Code(), ValidityFlags(m)] + U16Bytes(sequence) + U32Bytes(TimestampMs(m))
  }

  /** The three frames of an encodable command. */
  function CommandFrames(m: ControlMsg, mode: OutputMode, sequence: int): (r: seq<CanFrame>)
    requires Encodable(m)
    ensures |r| == 3
  {
    [CanFrame(LATERAL_ID, 8, false, LateralPayload(m)),
     CanFrame(LONGITUDINAL_ID, 8, false, LongitudinalPayload(m)),
     CanFrame(STATUS_ID, 8, false, StatusPayload(m, mode, sequence))]
  }

  method EncodeControlCommand(m: ControlMsg, mode: OutputMode, sequence: int) returns (r: Encoded)
    requires IsU16(sequence)
    ensures !mode.UsesCan() ==> r == Frames([])
    ensures mode.UsesCan() ==> (r.Frames? <==> Encodable(m))
    ensures mode.UsesCan() && Encodable(m) ==> r == Frames(CommandFrames(m, mode, sequence))
  {
    if !mode.UsesCan() {
      return Frames([]);
    }
    var ok, angle, rate, velocity, acceleration;
    ok, angle := ScaleToI32(m.steeringAngle, STEERING_SCALE);
    if !ok {
      return EncodeError("invalid steering_tire_angle");
    }
    ok, rate := ScaleToI32(m.steeringRate, STEERING_SCALE);
    if !ok {
      return EncodeError("invalid steering_tire_rotation_rate");
    }
    ok, velocity := ScaleToI32(m.velocity, SPEED_SCALE);
    if !ok {
      return EncodeError("invalid velocity");
    }
    ok, acceleration := ScaleToI32(m.acceleration, SPEED_SCALE);
    if !ok {
      return EncodeError("invalid acceleration");
    }
    var lateral := CanFrame(LATERAL_ID, 8, false, I32Bytes(angle) + I32Bytes(rate));
    var longitudinal := CanFrame(LONGITUDINAL_ID, 8, false, I32Bytes(velocity) + I32Bytes(acceleration));
    var status := CanFrame(STATUS_ID, 8, false, StatusPayload(m, mode, sequence));
    return Frames([lateral, longitudinal, status]);
  }

  /** One CAN-FD frame carries the three classic payloads one after the other. */
  function CommandFdFrame(m: ControlMsg, mode: OutputMode, sequence: int): FdFrame
    requires Encodable(m)
  {
    FdFrame(FD_COMMAND_ID, FD_PAYLOAD_LENGTH,
            LateralPayload(m) + LongitudinalPayload(m) + StatusPayload(m, mode, sequence)
            + seq(FD_CAPACITY - FD_PAYLOAD_LENGTH, i => 0))
  }

  method EncodeControlCommandFd(m: ControlMsg, mode: OutputMode, sequence: int) returns (r: FdEncoded)
    requires IsU16(sequence)
    ensures !mode.UsesCan() ==> r == NoFrame
    ensures mode.UsesCan() && !Encodable(m) ==> r.FdError?
    ensures mode.UsesCan() && Encodable(m) ==> r == Packed(CommandFdFrame(m, mode, sequence))
  {
    var classic := EncodeControlCommand(m, mode, sequence);
    if classic.EncodeError? {
      return FdError(classic.message);
    }
    if |classic.frames| == 0 {
      return NoFrame;
    }
    for index := 0 to |classic.frames| {
      if classic.frames[index].dlc != 8 || classic.frames[index].extended {
        return FdError("classic frames are not CAN-FD packable");
      }
    }
    var data := new Byte[FD_CAPACITY](i => 0);
    ghost var payloads := [LateralPayload(m), LongitudinalPayload(m), StatusPayload(m, mode, sequence)];
    for index := 0 to |classic.frames|
      invariant forall i | 0 <= i < FD_CAPACITY :: data[i] == PackedByte(payloads, index, i)
    {
      CopyPayload(data, 8 * index, classic.frames[index].data);
    }
    PackedIsFrame(m, mode, sequence, payloads, data[..]);
    return Packed(FdFrame(FD_COMMAND_ID, FD_PAYLOAD_LENGTH, data[..]));
  }

  /** Byte i of a buffer that holds the first `count` payloads. */
  ghost function PackedByte(payloads: seq<Payload>, count: nat, i: nat): Byte
    requires count <= |payloads|
  {
    if i < 8 * count then payloads[i / 8][i % 8] else 0
  }

  lemma PackedIsFrame(m: ControlMsg, mode: OutputMode, sequence: int, payloads: seq<Payload>, data: seq<Byte>)
    requires Encodable(m) && |data| == FD_CAPACITY
    requires payloads == [LateralPayload(m), LongitudinalPayload(m), StatusPayload(m, mode, sequence)]
    requires forall i | 0 <= i < FD_CAPACITY :: data[i] == PackedByte(payloads, 3, i)
    ensures data == CommandFdFrame(m, mode, sequence).data
  {
    var lateral: seq<Byte>, longitudinal: seq<Byte>, status: seq<Byte> := payloads[0], payloads[1], payloads[2];
    var packed := lateral + longitudinal + status;
    forall i | 0 <= i < FD_PAYLOAD_LENGTH
      ensures data[i] == packed[i]
    {
      assert i / 8 == if i < 8 then 0 else if i < 16 then 1 else 2;
    }
  }

  /** `memcpy` of one payload. */
  method CopyPayload(data: array<Byte>, offset: nat, payload: Payload)
    requires offset + 8 <= data.Length
    modifies data
    ensures forall i | 0 <= i < data.Length ::
              data[i] == if offset <= i < offset + 8 then payload[i - offset] else old(data[i])
  {
    for j := 0 to 8
      invariant forall i | 0 <= i < data.Length ::
                  data[i] == if offset <= i < offset + j then payload[i - offset] else old(data[i])
    {
      data[offset + j] := payload[j];
    }
  }
}
