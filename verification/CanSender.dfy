/** The sender: `ControlCommandCanOutput` over SocketCAN, which writes frame by frame and
    stops at the first failing frame, and over the UDP tunnel, one datagram per batch. */
module CanSender {
  import opened CanCodec
  import opened CanTunnel

  /** What reaches the outside of the sender. */
  datatype Wire = Classic(frame: CanFrame) | FdWire(fd: FdFrame) | Udp(bytes: seq<Byte>)

  datatype Transport = SocketCan | SocketCanFd | UdpTunnel

  /** `writes` counts how many writes of this send succeed before one fails. */
  datatype Sender = Sender(initialized: bool, transport: Transport, sequence: int)
  {
    predicate Valid() {
      IsU16(sequence)
    }

    /** The writes one encodable command asks for. */
    function Requested(m: ControlMsg, mode: OutputMode): seq<Wire>
      requires Encodable(m) && Valid()
    {
      var f := CommandFrames(m, mode, sequence);
      match transport
      case SocketCan => [Classic(f[0]), Classic(f[1]), Classic(f[2])]
      case SocketCanFd => [FdWire(CommandFdFrame(m, mode, sequence))]
      case UdpTunnel =>
        assert ValidBatch(Batch(sequence, f)) by { CommandBatchValid(m, mode, sequence); }
        [Udp(Datagram(Batch(sequence, f)))]
    }

    /** New state, whether the send succeeded, and what was written. */
    function Send(m: ControlMsg, mode: OutputMode, writes: nat): (Sender, bool, seq<Wire>)
      requires Valid()
    {
      if !mode.UsesCan() then (this, true, [])
      else if !initialized || !Encodable(m) then (this, false, [])
      else
        var all := Requested(m, mode);
        if writes < |all| then (this, false, all[..writes])
        else (this.(sequence := (sequence + 1) % 0x1_0000), true, all)
    }
  }

  lemma CommandBatchValid(m: ControlMsg, mode: OutputMode, sequence: int)
    requires Encodable(m) && IsU16(sequence)
    ensures ValidBatch(Batch(sequence, CommandFrames(m, mode, sequence)))
  {
    var status := StatusPayload(m, mode, sequence);
    assert status[2..4] == U16Bytes(sequence);
    U16RoundTrip(sequence, status, 2);
  }

  class ControlCommandCanOutput {
    var initialized: bool
    var fdActive: bool
    var sequence: int
    const tunnel: bool  // the platform: UDP tunnel or SocketCAN

    ghost predicate Valid()
      reads this
    {
      IsU16(sequence) && !(tunnel && fdActive)
    }

    ghost function View(): Sender
      reads this
    {
      Sender(initialized, if tunnel then UdpTunnel else if fdActive then SocketCanFd else SocketCan, sequence)
    }

    constructor (onTunnel: bool)
      ensures Valid() && !initialized && sequence == 0 && tunnel == onTunnel
    {
      tunnel, initialized, fdActive, sequence := onTunnel, false, false, 0;
    }

    /** The platform answers `can_init()` and `can_fd_active()`; the tunnel is never FD. */
    method Init(answer: bool, fd: bool) returns (ok: bool)
      requires Valid() && !(tunnel && fd)
      modifies this
      ensures Valid() && ok == initialized == answer && fdActive == (answer && fd)
      ensures sequence == old(sequence)
    {
      fdActive := false;
      initialized := answer;
      if initialized {
        fdActive := fd;
      }
      return initialized;
    }

    /** Sends one command. The sequence number advances exactly when every write succeeded. */
    method Send(m: ControlMsg, mode: OutputMode, writes: nat) returns (ok: bool, wire: seq<Wire>)
      requires Valid()
      modifies this
      ensures Valid()
      ensures (View(), ok, wire) == old(View()).Send(m, mode, writes)
    {
      if !mode.UsesCan() {
        return true, [];
      }
      if !initialized {
        return false, [];
      }
      if fdActive {
        var fdEncoded := EncodeControlCommandFd(m, mode, sequence);
        if fdEncoded.FdError? {
          return false, [];
        }
        if fdEncoded.Packed? && writes < 1 {
          return false, [];
        }
        sequence := (sequence + 1) % 0x1_0000;
        return true, [FdWire(fdEncoded.frame)];
      }
      var encoded := EncodeControlCommand(m, mode, sequence);
      if encoded.EncodeError? {
        return false, [];
      }
      ok, wire := SendBatch(m, mode, encoded.frames, writes);
      if !ok {
        return false, wire;
      }
      sequence := (sequence + 1) % 0x1_0000;
      return true, wire;
    }

    /** `can_send_batch` of the configured platform. */
    method SendBatch(m: ControlMsg, mode: OutputMode, frames: seq<CanFrame>, writes: nat)
      returns (ok: bool, wire: seq<Wire>)
      requires Valid() && !fdActive && Encodable(m)
      requires frames == CommandFrames(m, mode, sequence)
      ensures ok <==> writes >= |View().Requested(m, mode)|
      ensures wire == if ok then View().Requested(m, mode) else View().Requested(m, mode)[..writes]
    {
      CommandBatchValid(m, mode, sequence);
      if tunnel {
        ok, wire := SendDatagram(frames, writes);
      } else {
        ok, wire := SendFrames(frames, writes);
      }
    }

    /** `can_send_batch` of SocketCAN. */
    static method SendFrames(frames: seq<CanFrame>, writes: nat) returns (ok: bool, wire: seq<Wire>)
      requires forall f | f in frames :: f.dlc <= 8 && !f.extended
      ensures ok <==> writes >= |frames|
      ensures |wire| == if ok then |frames| else writes
      ensures forall i | 0 <= i < |wire| && i < |frames| :: wire[i] == Classic(frames[i])
    {
      wire := [];
      for index := 0 to |frames|
        invariant |wire| == index <= writes
        invariant forall i | 0 <= i < index :: wire[i] == Classic(frames[i])
      {
        if index >= writes {
          return false, wire;
        }
        wire := wire + [Classic(frames[index])];
      }
      return true, wire;
    }

    /** `can_send_batch` of the UDP tunnel: one datagram or nothing. */
    static method SendDatagram(frames: seq<CanFrame>, writes: nat) returns (ok: bool, wire: seq<Wire>)
      requires |frames| == 3 && ValidBatch(Batch(ReadU16(frames[2].data, 2), frames))
      ensures ok <==> writes >= 1
      ensures wire == if ok then [Udp(Datagram(Batch(ReadU16(frames[2].data, 2), frames)))] else []
    {
      var sequence := ReadU16(frames[2].data, 2);
      var packed := PackCanUdpTunnel(frames, sequence);
      if packed.Error? || writes < 1 {
        return false, [];
      }
      return true, [Udp(packed.value)];
    }
  }
}
