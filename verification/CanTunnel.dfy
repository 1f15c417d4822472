/** The 48-byte UDP tunnel datagram: can_udp_tunnel.hpp and its second implementation
    datagram.py, both proved against one description of the wire format. */
module CanTunnel {
  import opened CanCodec

  const DATAGRAM_SIZE := 48
  const MAGIC0: Byte := 0x43
  const MAGIC1: Byte := 0x54
  const VERSION: Byte := 1
  const FLAG_CLASSIC_BATCH: Byte := 1

  datatype Batch = Batch(sequence: int, frames: seq<CanFrame>)

  datatype Result<T> = Ok(value: T) | Error(message: string)

  function FrameId(i: nat): nat
    requires i < 3
  {
    if i == 0 then LATERAL_ID else if i == 1 then LONGITUDINAL_ID else STATUS_ID
  }

  /** Three classic frames in order whose status number is the batch number. */
  predicate ValidBatch(b: Batch) {
    && |b.frames| == 3
    && (forall i | 0 <= i < 3 :: b.frames[i].id == FrameId(i) && b.frames[i].dlc == 8 && !b.frames[i].extended)
    && ReadU16(b.frames[2].data, 2) == b.sequence
  }

  /** One frame on the wire: identifier, length, payload. */
  function WireFrame(f: CanFrame): (r: seq<Byte>)
    requires f.dlc < 256
    ensures |r| == 13
  {
    U32Bytes(f.id) + [f.dlc] + f.data
  }

  /** The datagram of a batch. */
  function Datagram(b: Batch): (r: seq<Byte>)
    requires ValidBatch(b)
    ensures |r| == DATAGRAM_SIZE
  {
    [MAGIC0, MAGIC1, VERSION, FLAG_CLASSIC_BATCH] + U16Bytes(b.sequence) + [0, 0]
    + WireFrame(b.frames[0]) + WireFrame(b.frames[1]) + WireFrame(b.frames[2]) + [0]
  }

  /** `data` is the datagram of some valid batch. */
  ghost predicate IsDatagram(data: seq<Byte>) {
    exists b: Batch :: ValidBatch(b) && data == Datagram(b)
  }

  // ----- reading a datagram -----

  function ReadFrame(data: seq<Byte>, offset: nat): CanFrame
    requires offset + 13 <= |data|
  {
    CanFrame(ReadU32(data, offset), data[offset + 4], false, data[offset + 5..offset + 13])
  }

  function ReadBatch(data: seq<Byte>): Batch
    requires |data| == DATAGRAM_SIZE
  {
    Batch(ReadU16(data, 4), [ReadFrame(data, 8), ReadFrame(data, 21), ReadFrame(data, 34)])
  }

  predicate HeaderValid(data: seq<Byte>) {
    && |data| == DATAGRAM_SIZE
    && data[0] == MAGIC0 && data[1] == MAGIC1 && data[2] == VERSION && data[3] == FLAG_CLASSIC_BATCH
    && data[6] == 0 && data[7] == 0 && data[47] == 0
  }

  lemma FrameRoundTrip(f: CanFrame, data: seq<Byte>, offset: nat)
    requires IsU32(f.id) && f.dlc < 256 && !f.extended
    requires offset + 13 <= |data| && data[offset..offset + 13] == WireFrame(f)
    ensures ReadFrame(data, offset) == f
  {
    var w := data[offset..offset + 13];
    assert data[offset..offset + 4] == w[..4] == U32Bytes(f.id);
    U32RoundTrip(f.id, data, offset);
    assert data[offset + 4] == w[4];
    assert data[offset + 5..offset + 13] == w[5..] == f.data;
  }

  /** Reading a packed batch gives it back. */
  lemma UnpackPack(b: Batch)
    requires ValidBatch(b)
    ensures HeaderValid(Datagram(b)) && ReadBatch(Datagram(b)) == b
  {
    var d := Datagram(b);
    assert d[4..6] == U16Bytes(b.sequence);
    U16RoundTrip(b.sequence, d, 4);
    assert d[8..21] == WireFrame(b.frames[0]);
    assert d[21..34] == WireFrame(b.frames[1]);
    assert d[34..47] == WireFrame(b.frames[2]);
    FrameRoundTrip(b.frames[0], d, 8);
    FrameRoundTrip(b.frames[1], d, 21);
    FrameRoundTrip(b.frames[2], d, 34);
  }

  lemma WireOfRead(data: seq<Byte>, offset: nat)
    requires offset + 13 <= |data|
    ensures WireFrame(ReadFrame(data, offset)) == data[offset..offset + 13]
  {
    U32BytesOfRead(data, offset);
    assert data[offset..offset + 13]
        == data[offset..offset + 4] + [data[offset + 4]] + data[offset + 5..offset + 13];
  }

  lemma HeaderOfRead(data: seq<Byte>)
    requires HeaderValid(data)
    ensures data[0..4] == [MAGIC0, MAGIC1, VERSION, FLAG_CLASSIC_BATCH] && data[6..8] == [0, 0] && data[47..48] == [0]
    ensures data[4..6] == U16Bytes(ReadBatch(data).sequence)
  {
    U16BytesOfRead(data, 4);
  }

  lemma PartsOfDatagram(data: seq<Byte>)
    requires |data| == DATAGRAM_SIZE
    ensures data == data[0..4] + data[4..6] + data[6..8] + data[8..21] + data[21..34] + data[34..47] + data[47..48]
  {
  }

  /** Packing what was read from an accepted datagram gives its bytes back. */
  lemma PackUnpack(data: seq<Byte>)
    requires HeaderValid(data) && ValidBatch(ReadBatch(data))
    ensures Datagram(ReadBatch(data)) == data
  {
    HeaderOfRead(data);
    WireOfRead(data, 8);
    WireOfRead(data, 21);
    WireOfRead(data, 34);
    PartsOfDatagram(data);
  }

  /** Exactly the datagrams of valid batches pass all the checks of `unpack`. */
  lemma AcceptedIffDatagram(data: seq<Byte>)
    ensures IsDatagram(data) <==> HeaderValid(data) && ValidBatch(ReadBatch(data))
  {
    if HeaderValid(data) && ValidBatch(ReadBatch(data)) {
      PackUnpack(data);
    }
    if b :| ValidBatch(b) && data == Datagram(b) {
      UnpackPack(b);
    }
  }

  // ----- can_udp_tunnel.hpp -----

  /** Writes at `offset`; everything before and after stays. */
  method WriteBytes(dest: array<Byte>, offset: nat, bytes: seq<Byte>)
    requires offset + |bytes| <= dest.Length
    modifies dest
    ensures dest[..offset + |bytes|] == old(dest[..offset]) + bytes
    ensures dest[offset + |bytes|..] == old(dest[offset + |bytes|..])
  {
    for j := 0 to |bytes|
      invariant dest[..offset + j] == old(dest[..offset]) + bytes[..j]
      invariant dest[offset + j..] == old(dest[offset + j..])
    {
      ghost var rest := dest[offset + j..];
      dest[offset + j] := bytes[j];
      assert dest[..offset + j + 1] == dest[..offset + j] + [bytes[j]];
      assert dest[offset + j + 1..] == rest[1..];
    }
    assert bytes[..|bytes|] == bytes;
  }

  /** Packs exactly the valid batches, into exactly their datagram. */
  method PackCanUdpTunnel(frames: seq<CanFrame>, sequence: int) returns (r: Result<seq<Byte>>)
    requires IsU16(sequence)
    ensures r.Ok? <==> ValidBatch(Batch(sequence, frames))
    ensures r.Ok? ==> r.value == Datagram(Batch(sequence, frames))
  {
    if |frames| != 3 {
      return Error("batch must contain three frames");
    }
    if frames[0].id != LATERAL_ID || frames[0].dlc != 8 || frames[0].extended {
      return Error("frame 0 must be classic 0x100 DLC 8");
    }
    if frames[1].id != LONGITUDINAL_ID || frames[1].dlc != 8 || frames[1].extended {
      return Error("frame 1 must be classic 0x101 DLC 8");
    }
    if frames[2].id != STATUS_ID || frames[2].dlc != 8 || frames[2].extended {
      return Error("frame 2 must be classic 0x102 DLC 8");
    }
    if ReadU16(frames[2].data, 2) != sequence {
      return Error("batch sequence must match 0x102");
    }
    var bytes := new Byte[DATAGRAM_SIZE](i => 0);
    WriteHeader(bytes, sequence);
    WriteBytes(bytes, 8, WireFrame(frames[0]));
    WriteBytes(bytes, 21, WireFrame(frames[1]));
    WriteBytes(bytes, 34, WireFrame(frames[2]));
    bytes[47] := 0;
    assert bytes[..] == bytes[..47] + [0];
    return Ok(bytes[..]);
  }

  method WriteHeader(bytes: array<Byte>, sequence: int)
    requires bytes.Length == DATAGRAM_SIZE
    modifies bytes
    ensures bytes[..8] == [MAGIC0, MAGIC1, VERSION, FLAG_CLASSIC_BATCH] + U16Bytes(sequence) + [0, 0]
  {
    bytes[0] := MAGIC0;
    bytes[1] := MAGIC1;
    bytes[2] := VERSION;
    bytes[3] := FLAG_CLASSIC_BATCH;
    WriteBytes(bytes, 4, U16Bytes(sequence));
    bytes[6] := 0;
    bytes[7] := 0;
    assert bytes[..8] == bytes[..6] + [0, 0];
  }

  /** Accepts exactly the datagrams of valid batches and returns their batch. */
  method UnpackCanUdpTunnel(data: seq<Byte>) returns (r: Result<Batch>)
    ensures r.Ok? <==> IsDatagram(data)
    ensures r.Ok? ==> ValidBatch(r.value) && Datagram(r.value) == data
  {
    AcceptedIffDatagram(data);
    if |data| != DATAGRAM_SIZE {
      return Error("datagram length must be 48");
    }
    if data[0] != MAGIC0 || data[1] != MAGIC1 {
      return Error("invalid magic");
    }
    if data[2] != VERSION {
      return Error("unsupported version");
    }
    if data[3] != FLAG_CLASSIC_BATCH {
      return Error("unsupported flags");
    }
    if data[6] != 0 || data[7] != 0 || data[47] != 0 {
      return Error("reserved bytes must be zero");
    }
    var sequence := ReadU16(data, 4);
    var frames := [ReadFrame(data, 8), ReadFrame(data, 21), ReadFrame(data, 34)];
    if frames[0].id != LATERAL_ID || frames[0].dlc != 8 {
      return Error("frame 0 must be classic 0x100 DLC 8");
    }
    if frames[1].id != LONGITUDINAL_ID || frames[1].dlc != 8 {
      return Error("frame 1 must be classic 0x101 DLC 8");
    }
    if frames[2].id != STATUS_ID || frames[2].dlc != 8 {
      return Error("frame 2 must be classic 0x102 DLC 8");
    }
    if ReadU16(frames[2].data, 2) != sequence {
      return Error("batch sequence must match 0x102");
    }
    PackUnpack(data);
    return Ok(Batch(sequence, frames));
  }

  // ----- datagram.py -----

  /** The Python side does not type the payload length and has no extended flag. */
  datatype TunnelFrame = TunnelFrame(canId: int, dlc: int, data: seq<Byte>)

  datatype TunnelBatch = TunnelBatch(sequence: int, frames: seq<TunnelFrame>)

  predicate TunnelFrameValid(f: TunnelFrame, i: nat)
    requires i < 3
  {
    f.canId == FrameId(i) && f.dlc == 8 && |f.data| == 8
  }

  function ToCanFrame(f: TunnelFrame): CanFrame
    requires |f.data| == 8 && f.canId >= 0 && f.dlc >= 0
  {
    CanFrame(f.canId, f.dlc, false, f.data)
  }

  predicate FramesValid(b: TunnelBatch) {
    |b.frames| == 3 && forall i | 0 <= i < 3 :: TunnelFrameValid(b.frames[i], i)
  }

  /** The same batch in the types of the other side. */
  function ToBatch(b: TunnelBatch): Batch
    requires FramesValid(b)
  {
    assert TunnelFrameValid(b.frames[0], 0) && TunnelFrameValid(b.frames[1], 1) && TunnelFrameValid(b.frames[2], 2);
    Batch(b.sequence, [ToCanFrame(b.frames[0]), ToCanFrame(b.frames[1]), ToCanFrame(b.frames[2])])
  }

  ghost predicate TunnelBatchValid(b: TunnelBatch) {
    FramesValid(b) && ValidBatch(ToBatch(b))
  }

  /** Produces, byte for byte, the datagram the C++ side produces for the same batch. */
  method Pack(b: TunnelBatch) returns (r: Result<seq<Byte>>)
    ensures r.Ok? <==> TunnelBatchValid(b)
    ensures r.Ok? ==> r.value == Datagram(ToBatch(b))
  {
    if |b.frames| != 3 {
      return Error("batch must contain three frames");
    }
    for i := 0 to 3
      invariant forall k | 0 <= k < i :: TunnelFrameValid(b.frames[k], k)
    {
      if b.frames[i].canId != FrameId(i) || b.frames[i].dlc != 8 || |b.frames[i].data| != 8 {
        assert !TunnelFrameValid(b.frames[i], i);
        return Error("frame must be classic DLC 8");
      }
    }
    if ReadU16(b.frames[2].data, 2) != b.sequence {
      return Error("batch sequence must match 0x102");
    }
    var packedFrames := PackFrames(b);
    r := Ok([MAGIC0, MAGIC1, VERSION, FLAG_CLASSIC_BATCH] + U16Bytes(b.sequence) + U16Bytes(0) + packedFrames + [0]);
    assert r.value == Datagram(ToBatch(b));
  }

  /** The packed frames one after the other. */
  method PackFrames(b: TunnelBatch) returns (r: seq<Byte>)
    requires FramesValid(b)
    ensures var f := ToBatch(b).frames; r == WireFrame(f[0]) + WireFrame(f[1]) + WireFrame(f[2])
  {
    r := [];
    ghost var f := ToBatch(b).frames;
    for i := 0 to 3
      invariant r == (if i > 0 then WireFrame(f[0]) else []) + (if i > 1 then WireFrame(f[1]) else [])
                     + (if i > 2 then WireFrame(f[2]) else [])
    {
      assert TunnelFrameValid(b.frames[i], i);
      r := r + (U32Bytes(b.frames[i].canId) + [b.frames[i].dlc] + b.frames[i].data);
    }
  }

  /** Accepts the same datagrams as the C++ side, with the same batch. */
  method Unpack(datagram: seq<Byte>) returns (r: Result<TunnelBatch>)
    ensures r.Ok? <==> IsDatagram(datagram)
    ensures r.Ok? ==> TunnelBatchValid(r.value) && Datagram(ToBatch(r.value)) == datagram
  {
    AcceptedIffDatagram(datagram);
    if |datagram| != DATAGRAM_SIZE {
      return Error("datagram length must be 48");
    }
    if datagram[0..2] != [MAGIC0, MAGIC1] {
      assert datagram[0] != MAGIC0 || datagram[1] != MAGIC1;
      return Error("invalid magic");
    }
    assert datagram[0] == datagram[0..2][0] && datagram[1] == datagram[0..2][1];
    if datagram[2] != VERSION {
      return Error("unsupported version");
    }
    if datagram[3] != FLAG_CLASSIC_BATCH {
      return Error("unsupported flags");
    }
    if ReadU16(datagram, 6) != 0 || datagram[47] != 0 {
      return Error("reserved bytes must be zero");
    }
    var frames: seq<TunnelFrame> := [];
    for index := 0 to 3
      invariant |frames| == index
      invariant forall i | 0 <= i < index ::
                  frames[i] == TunnelFrame(ReadU32(datagram, 8 + 13 * i), datagram[12 + 13 * i],
                                           datagram[13 + 13 * i..21 + 13 * i])
    {
      frames := frames + [TunnelFrame(ReadU32(datagram, 8 + 13 * index), datagram[12 + 13 * index],
                                      datagram[13 + 13 * index..21 + 13 * index])];
    }
    var batch := ReadBatch(datagram);
    assert frames[0].data == batch.frames[0].data && frames[1].data == batch.frames[1].data;
    assert frames[2].data == batch.frames[2].data;
    for i := 0 to 3
      invariant forall k | 0 <= k < i :: TunnelFrameValid(frames[k], k)
    {
      if frames[i].canId != FrameId(i) || frames[i].dlc != 8 {
        assert batch.frames[i].id == frames[i].canId && batch.frames[i].dlc == frames[i].dlc;
        return Error("frame must be classic DLC 8");
      }
    }
    if ReadU16(frames[2].data, 2) != ReadU16(datagram, 4) {
      return Error("batch sequence must match 0x102");
    }
    r := Ok(TunnelBatch(ReadU16(datagram, 4), frames));
    assert ToBatch(r.value) == batch;
    PackUnpack(datagram);
  }
}
