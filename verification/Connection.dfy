/** A complete endpoint: one sender, one receiver, and the rules for opening, resetting and closing. */
module Connections {
  import opened Common
  import opened Wrapping
  import opened ByteStreams
  import opened Reassembly
  import opened Segments
  import opened Receiving
  import opened Sending

  datatype Connection = Connection(
    sender: Sender, receiver: Receiver, rtTimeout: U16, out: seq<Segment>,
    linger: bool, time: nat, active: bool, rstSet: bool, finAckSent: bool, synSet: bool, recFin: Option<U32>)

  const EMPTY_SEGMENT: Segment := Segment(DEFAULT_HEADER, [])

  function NewConnection(rtTimeout: U16, sendCapacity: nat, recvCapacity: nat, isn: U32): Connection {
    Connection(EmptySender(sendCapacity, rtTimeout, isn), EmptyReceiver(recvCapacity), rtTimeout, [],
               true, 0, true, false, false, false, None)
  }

  function SetReceiverError(r: Receiver): Receiver {
    r.(reassembler := r.reassembler.(out := r.Out().(error := true)))
  }

  function SetSenderError(s: Sender): Sender {
    s.(stream := s.stream.(error := true))
  }

  /** Everything sent and received, and acknowledged, with nothing left to do but wait. */
  predicate Finished(c: Connection) {
    && c.receiver.reassembler.stored == map[] && c.receiver.Out().ended
    && c.sender.stream.ended && c.sender.pending == [] && c.sender.bytesInFlight == 0
  }

  function CleanShutdown(c: Connection): Connection {
    var linger := c.linger && !(c.receiver.Out().ended && !c.sender.stream.Eof());
    var active := c.active && !(Finished(c) && (c.time >= 10 * c.rtTimeout || !linger));
    c.(linger := linger, active := active)
  }

  /** An outgoing segment with the receiver's feedback filled in, and RST if the connection is being reset. */
  function Stamp(c: Connection, seg: Segment): Segment {
    var h := match c.receiver.Ackno()
             case Some(ackno) => seg.header.(ackno := ackno, ack := true, win := c.receiver.WindowSize() % TWO16)
             case None => seg.header;
    seg.(header := if c.rstSet then h.(rst := true) else h)
  }

  predicate AcksFin(c: Connection) {
    c.receiver.Ackno().Some? && c.recFin.Some? && c.receiver.Ackno().value > c.recFin.value
  }

  /** Moves the first pending segment to the outbound queue. */
  function QueueOne(c: Connection): Connection
    requires c.sender.pending != []
  {
    var seg := c.sender.pending[0];
    c.(sender := c.sender.(pending := c.sender.pending[1..]),
       synSet := c.synSet || seg.header.syn,
       finAckSent := c.finAckSent || AcksFin(c),
       out := c.out + [Stamp(c, seg)])
  }

  function FailStreams(c: Connection): Connection {
    c.(receiver := SetReceiverError(c.receiver), sender := SetSenderError(c.sender), active := false)
  }

  /** Hands over the first pending segment; a reset fails both streams with it. */
  function EmitOne(c: Connection): Connection
    requires c.sender.pending != []
  {
    if c.rstSet then FailStreams(QueueOne(c)) else QueueOne(c)
  }

  function EmitAll(c: Connection): Connection
    decreases |c.sender.pending|
  {
    if c.sender.pending == [] then c else EmitAll(EmitOne(c))
  }

  /** With nothing pending, an empty segment is. */
  function WithPending(c: Connection): Connection {
    if c.sender.pending == [] then c.(sender := c.sender.(pending := [EMPTY_SEGMENT])) else c
  }

  /** Hands over all pending segments, or an empty one if there are none. */
  function SendSegs(c: Connection): Connection {
    CleanShutdown(EmitAll(WithPending(c)))
  }

  /** The peer's segment given to the receiver, and its acknowledgment to the sender. */
  function Digest(c: Connection, seg: Segment): Connection {
    var d := c.(receiver := Receive(c.receiver, seg));
    if seg.header.ack then CleanShutdown(d.(sender := Acknowledge(d.sender, seg.header.ackno, seg.header.win))) else d
  }

  /** The reply to a digested segment, if it is owed one. */
  function Reply(c: Connection, seg: Segment): Connection {
    if c.finAckSent && !seg.header.fin then c
    else
      var d := if seg.header.fin then c.(recFin := Some(seg.header.seqno)) else c;
      CleanShutdown(if SeqLength(seg) > 0 then SendSegs(d) else d)
  }

  /** A first SYN is answered with our own before anything else. */
  function Open(c: Connection): Connection {
    (if c.synSet then c else c.(synSet := true, sender := Fill(c.sender))).(time := 0)
  }

  function Arrive(c: Connection, seg: Segment): Connection {
    if !c.active || (!c.synSet && !seg.header.syn) then c
    else if seg.header.rst then FailStreams(Open(c)).(rstSet := true)
    else Reply(Digest(Open(c), seg), seg)
  }

  function Write(c: Connection, data: Bytes): Connection {
    SendSegs(c.(sender := Fill(c.sender.(stream := c.sender.stream.Write(data)))))
  }

  function EndInput(c: Connection): Connection {
    SendSegs(c.(sender := Fill(c.sender.(stream := c.sender.stream.(ended := true)))))
  }

  function Connect(c: Connection): Connection {
    SendSegs(c.(sender := Fill(c.sender)))
  }

  function Pass(c: Connection, ms: nat): Connection {
    c.(time := c.time + ms, sender := Elapse(c.sender, ms))
  }

  /** Too many retransmissions reset the connection. */
  function GiveUp(c: Connection): Connection {
    CleanShutdown(if c.sender.retx > MAX_RETX_ATTEMPTS then SendSegs(c.(rstSet := true)) else c)
  }

  function Tick(c: Connection, ms: nat): Connection {
    if !c.active then c
    else
      var d := GiveUp(Pass(c, ms));
      if d.active && d.sender.pending != [] then SendSegs(d) else d
  }

  /** Destruction of an active connection resets it. */
  function Destroy(c: Connection): Connection {
    if c.active then SendSegs(c.(rstSet := true)) else c
  }
}

/** The endpoint as an object whose methods follow those steps. */
module ConnectionObjects {
  import opened Common
  import opened Wrapping
  import opened ByteStreams
  import opened Reassembly
  import opened Segments
  import opened Receiving
  import opened Sending
  import C = Connections

  class TCPConnection {
    const rtTimeout: U16
    const receiver: TCPReceiver
    const sender: TCPSender
    var segmentsOut: seq<Segment>
    var linger: bool
    var time: nat
    var active: bool
    var rstSet: bool
    var finAckSent: bool
    var synSet: bool
    var recFin: Option<U32>

    ghost function Parts(): set<object>
      reads this
    {
      {this, sender, sender.stream, sender.timer, receiver, receiver.reassembler, receiver.reassembler.output}
    }

    ghost predicate Valid()
      reads this, Parts()
    {
      sender.Valid() && receiver.Valid() && sender.stream != receiver.reassembler.output
    }

    ghost function Value(): C.Connection
      requires Valid()
      reads this, Parts()
    {
      C.Connection(sender.Value(), receiver.Value(), rtTimeout, segmentsOut,
                 linger, time, active, rstSet, finAckSent, synSet, recFin)
    }

    constructor (rtTimeout: U16, sendCapacity: nat, recvCapacity: nat, isn: U32)
      ensures Valid() && fresh(Parts())
      ensures Value() == C.NewConnection(rtTimeout, sendCapacity, recvCapacity, isn)
    {
      this.rtTimeout := rtTimeout;
      receiver := new TCPReceiver(recvCapacity);
      sender := new TCPSender(sendCapacity, rtTimeout, isn);
      segmentsOut, linger, time, active := [], true, 0, true;
      rstSet, finAckSent, synSet, recFin := false, false, false, None;
    }

    method CleanShutdown()
      requires Valid()
      modifies this
      ensures Valid() && Value() == C.CleanShutdown(old(Value()))
    {
      if receiver.reassembler.output.inputEnded && !sender.stream.Eof() {
        linger := false;
      }
      if receiver.reassembler.bytesUnassembled == 0 && receiver.reassembler.output.inputEnded {
        if sender.stream.inputEnded && sender.segmentsOut == [] {
          if sender.bytesInFlight == 0 {
            if time >= 10 * rtTimeout || !linger {
              active := false;
            }
          }
        }
      }
    }

    method SendSegs()
      requires Valid()
      modifies Parts()
      ensures Valid() && Value() == C.SendSegs(old(Value()))
    {
      EnsurePending();
      EmitAll();
      CleanShutdown();
    }

    method EnsurePending()
      requires Valid()
      modifies sender
      ensures Valid() && Value() == C.WithPending(old(Value()))
    {
      if sender.segmentsOut == [] {
        sender.segmentsOut := [C.EMPTY_SEGMENT];
      }
    }

    method EmitAll()
      requires Valid()
      modifies Parts()
      ensures Valid() && Value() == C.EmitAll(old(Value()))
    {
      while sender.segmentsOut != []
        invariant Valid() && C.EmitAll(Value()) == C.EmitAll(old(Value()))
        decreases |sender.segmentsOut|
      {
        EmitOne();
      }
    }

    /** Both streams marked as failed and the connection inactive. */
    method FailStreams()
      requires Valid()
      modifies Parts()
      ensures Valid()
      ensures Value() == C.FailStreams(old(Value()))
    {
      receiver.reassembler.output.SetError();
      sender.stream.SetError();
      active := false;
    }

    function Stamped(seg: Segment): (r: Segment)
      requires Valid()
      reads this, Parts()
      ensures r == C.Stamp(Value(), seg)
    {
      var ackno := receiver.Ackno();
      var h := if ackno.Some?
               then seg.header.(ackno := ackno.value, ack := true, win := receiver.WindowSize() % TWO16)
               else seg.header;
      seg.(header := if rstSet then h.(rst := true) else h)
    }

    predicate AcksFin()
      requires Valid()
      reads this, Parts()
      ensures AcksFin() == C.AcksFin(Value())
    {
      var ackno := receiver.Ackno();
      ackno.Some? && recFin.Some? && ackno.value > recFin.value
    }

    /** Takes the first pending segment and queues it with the receiver's feedback. */
    method QueueOne()
      requires Valid() && sender.segmentsOut != []
      modifies this, sender
      ensures Valid() && Value() == C.QueueOne(old(Value()))
    {
      var seg := sender.segmentsOut[0];
      var acksFin := AcksFin();
      segmentsOut := segmentsOut + [Stamped(seg)];
      finAckSent := finAckSent || acksFin;
      synSet := synSet || seg.header.syn;
      sender.segmentsOut := sender.segmentsOut[1..];
    }

    method EmitOne()
      requires Valid() && sender.segmentsOut != []
      modifies Parts()
      ensures Valid() && Value() == C.EmitOne(old(Value()))
    {
      QueueOne();
      if rstSet {
        FailStreams();
      }
    }

    method SegmentReceived(seg: Segment)
      requires Valid()
      modifies Parts()
      ensures Valid() && Value() == C.Arrive(old(Value()), seg)
    {
      if !active || (!synSet && !seg.header.syn) {
        return;
      }
      Open();
      if seg.header.rst {
        FailStreams();
        rstSet := true;
        return;
      }
      Digest(seg);
      Reply(seg);
    }

    method Open()
      requires Valid()
      modifies Parts()
      ensures Valid() && Value() == C.Open(old(Value()))
    {
      if !synSet {
        synSet := true;
        sender.FillWindow();
      }
      time := 0;
    }

    method Digest(seg: Segment)
      requires Valid()
      modifies Parts()
      ensures Valid() && Value() == C.Digest(old(Value()), seg)
    {
      receiver.SegmentReceived(seg);
      if seg.header.ack {
        sender.AckReceived(seg.header.ackno, seg.header.win);
        CleanShutdown();
      }
    }

    method Reply(seg: Segment)
      requires Valid()
      modifies Parts()
      ensures Valid() && Value() == C.Reply(old(Value()), seg)
    {
      if finAckSent && !seg.header.fin {
        return;
      }
      if seg.header.fin {
        recFin := Some(seg.header.seqno);
      }
      if SeqLength(seg) > 0 {
        SendSegs();
      }
      CleanShutdown();
    }

    method Write(data: Bytes) returns (written: nat)
      requires Valid()
      modifies Parts()
      ensures Valid() && Value() == C.Write(old(Value()), data)
      ensures written == Min(|data|, old(Value()).sender.stream.Remaining())
    {
      written := sender.stream.Write(data);
      sender.FillWindow();
      SendSegs();
    }

    method EndInputStream()
      requires Valid()
      modifies Parts()
      ensures Valid() && Value() == C.EndInput(old(Value()))
    {
      sender.stream.EndInput();
      sender.FillWindow();
      SendSegs();
    }

    method Connect()
      requires Valid()
      modifies Parts()
      ensures Valid() && Value() == C.Connect(old(Value()))
    {
      sender.FillWindow();
      SendSegs();
    }

    method Tick(ms: nat)
      requires Valid()
      modifies Parts()
      ensures Valid() && Value() == C.Tick(old(Value()), ms)
    {
      if !active {
        return;
      }
      Pass(ms);
      GiveUp();
      if active && sender.segmentsOut != [] {
        SendSegs();
      }
    }

    method Pass(ms: nat)
      requires Valid()
      modifies Parts()
      ensures Valid() && Value() == C.Pass(old(Value()), ms)
    {
      time := time + ms;
      sender.Tick(ms);
    }

    method GiveUp()
      requires Valid()
      modifies Parts()
      ensures Valid() && Value() == C.GiveUp(old(Value()))
    {
      if sender.retx > MAX_RETX_ATTEMPTS {
        rstSet := true;
        SendSegs();
      }
      CleanShutdown();
    }

    method Destroy()
      requires Valid()
      modifies Parts()
      ensures Valid() && Value() == C.Destroy(old(Value()))
    {
      if active {
        rstSet := true;
        SendSegs();
      }
    }
  }
}
