/** si_channel.c: the fault level and the count of its rising edges. */
module SiChannel {

  const U32 := 0x1_0000_0000

  datatype Msg = Ignore | Hello | FaultSet | FaultClear

  datatype Channel = Channel(fault: bool, events: nat, rxCount: nat)
  {
    predicate Valid() {
      events < U32 && rxCount < U32
    }

    function Receive(data: string): Channel {
      var counted := this.(rxCount := (rxCount + 1) % U32);
      match Parse(data)
      case FaultSet => counted.(events := if fault then events else (events + 1) % U32, fault := true)
      case FaultClear => counted.(fault := false)
      case _ => counted
    }

    function ReceiveAll(messages: seq<string>): Channel
      decreases |messages|
    {
      if messages == [] then this else Receive(messages[0]).ReceiveAll(messages[1..])
    }
  }

  /** No message yet: the static counters of the C file start at zero. */
  const SILENT := Channel(false, 0, 0)

  /** Equal to the literal, with or without one closing newline. */
  predicate Eq(s: string, literal: string) {
    s == literal || s == literal + "\n"
  }

  function Parse(s: string): Msg {
    if Eq(s, "hello") then Hello
    else if Eq(s, "fault=1") then FaultSet
    else if Eq(s, "fault=0") then FaultClear
    else Ignore
  }

  // ----- what the count means -----

  /** The level after a sequence of messages: that of the last message that sets one. */
  function Level(start: bool, messages: seq<string>): bool
    decreases |messages|
  {
    if messages == [] then start
    else
      match Parse(messages[|messages| - 1])
      case FaultSet => true
      case FaultClear => false
      case _ => Level(start, messages[..|messages| - 1])
  }

  predicate RisesAt(start: bool, messages: seq<string>, i: nat)
    requires i < |messages|
  {
    !Level(start, messages[..i]) && Level(start, messages[..i + 1])
  }

  /** How many messages raise the level from 0 to 1. */
  function RisingEdges(start: bool, messages: seq<string>): nat {
    if messages == [] then 0
    else RisingEdges(start, messages[..|messages| - 1]) + (if RisesAt(start, messages, |messages| - 1) then 1 else 0)
  }

  lemma {:induction false} ReceiveLast(c: Channel, messages: seq<string>)
    requires messages != []
    ensures c.ReceiveAll(messages) == c.ReceiveAll(messages[..|messages| - 1]).Receive(messages[|messages| - 1])
    decreases |messages|
  {
    if |messages| > 1 {
      ReceiveLast(c.Receive(messages[0]), messages[1..]);
      assert messages[1..][..|messages| - 2] == messages[..|messages| - 1][1..];
    }
  }

  lemma {:induction false} ReceiveSplit(c: Channel, a: seq<string>, b: seq<string>)
    ensures c.ReceiveAll(a + b) == c.ReceiveAll(a).ReceiveAll(b)
    decreases |a|
  {
    if a == [] {
      assert a + b == b;
    } else {
      ReceiveSplit(c.Receive(a[0]), a[1..], b);
      assert (a + b)[1..] == a[1..] + b;
    }
  }

  function Count(start: nat, edges: nat): nat {
    (start + edges) % U32
  }

  lemma CountNext(start: nat, edges: nat)
    ensures (Count(start, edges) + 1) % U32 == Count(start, edges + 1)
  {
  }

  lemma EdgeOfLast(start: bool, messages: seq<string>)
    requires messages != []
    ensures var before, last := messages[..|messages| - 1], messages[|messages| - 1];
            && RisingEdges(start, messages) == RisingEdges(start, before)
               + (if !Level(start, before) && Parse(last).FaultSet? then 1 else 0)
            && Level(start, messages)
               == (match Parse(last) case FaultSet => true case FaultClear => false case _ => Level(start, before))
  {
    assert messages[..|messages| - 1 + 1] == messages;
  }

  /** The counter counts every rising edge, also those that fell again before it is read,
      modulo 2^32. */
  lemma {:induction false} CounterCountsEdges(c: Channel, messages: seq<string>)
    requires c.Valid()
    ensures var r := c.ReceiveAll(messages);
            && r.Valid() && r.fault == Level(c.fault, messages)
            && r.events == Count(c.events, RisingEdges(c.fault, messages))
    decreases |messages|
  {
    if messages != [] {
      var before := messages[..|messages| - 1];
      CounterCountsEdges(c, before);
      ReceiveLast(c, messages);
      EdgeOfLast(c.fault, messages);
      CountNext(c.events, RisingEdges(c.fault, before));
    }
  }

  class SiChannelState {
    var fault: bool
    var faultEvents: nat
    var rxCount: nat

    ghost function View(): Channel
      reads this
    {
      Channel(fault, faultEvents, rxCount)
    }

    constructor ()
      ensures View() == SILENT
    {
      fault, faultEvents, rxCount := false, 0, 0;
    }

    method Rx(data: string)
      modifies this
      ensures View() == old(View()).Receive(data)
    {
      rxCount := (rxCount + 1) % U32;
      match Parse(data) {
        case FaultSet =>
          if !fault {
            faultEvents := (faultEvents + 1) % U32;
          }
          fault := true;
        case FaultClear =>
          fault := false;
        case _ =>
      }
    }
  }
}
