/** The receiving half: segments in, an in-order stream, an acknowledgment number and a window out. */
module Receiving {
  import opened Common
  import opened Wrapping
  import opened ByteStreams
  import opened Reassembly
  import opened Segments

  datatype Receiver = Receiver(reassembler: Reassembler, isn: U32, isnSet: bool)
  {
    function Out(): Stream {
      reassembler.out
    }

    function Ackno(): Option<U32> {
      if !isnSet then None
      else if Out().ended then Some((Wrap(|Out().history| + 1, isn) + 1) % TWO32)
      else Some(Wrap(|Out().history| + 1, isn))
    }

    function WindowSize(): nat {
      Out().capacity - (|Out().history| - Out().readCount)
    }
  }

  function EmptyReceiver(capacity: nat): Receiver {
    Receiver(EmptyReassembler(capacity), 0, false)
  }

  /** Sequence number of the first payload byte. */
  function FirstSeqno(seg: Segment): U32 {
    if seg.header.syn then (seg.header.seqno + 1) % TWO32 else seg.header.seqno
  }

  /** Position in the stream of a segment's first byte, by the nearest reading of its sequence number. */
  function StreamIndex(seg: Segment, isn: U32, written: nat): U64 {
    (Unwrap(FirstSeqno(seg), isn, written % TWO64) - 1) % TWO64
  }

  function Receive(r: Receiver, seg: Segment): Receiver {
    if !seg.header.syn && !r.isnSet then r
    else
      var isn := if seg.header.syn then seg.header.seqno else r.isn;
      Receiver(Push(r.reassembler, seg.payload, StreamIndex(seg, isn, |r.Out().history|), seg.header.fin), isn, true)
  }

  class TCPReceiver {
    const reassembler: StreamReassembler
    const capacity: nat
    var isn: U32
    var isnSet: bool

    ghost predicate Valid()
      reads this, reassembler, reassembler.output
    {
      reassembler.Valid() && reassembler.capacity == capacity
    }

    ghost function Value(): Receiver
      requires Valid()
      reads this, reassembler, reassembler.output
    {
      Receiver(reassembler.Value(), isn, isnSet)
    }

    constructor (capacity: nat)
      ensures Valid() && fresh(reassembler) && fresh(reassembler.output)
      ensures Value() == EmptyReceiver(capacity)
    {
      reassembler := new StreamReassembler(capacity);
      this.capacity := capacity;
      isn, isnSet := 0, false;
    }

    method SegmentReceived(seg: Segment)
      requires Valid()
      modifies this, reassembler, reassembler.output
      ensures Valid()
      ensures Value() == Receive(old(Value()), seg)
    {
      var seqno := seg.header.seqno;
      if seg.header.syn {
        isn := seg.header.seqno;
        isnSet := true;
        seqno := (seqno + 1) % TWO32;
      } else if !isnSet {
        return;
      }
      var streamIndex := IndexOf(seg, seqno);
      reassembler.PushSubstring(seg.payload, streamIndex, seg.header.fin);
    }

    /** Where the first payload byte, numbered `seqno`, belongs in the stream. */
    method IndexOf(seg: Segment, seqno: U32) returns (streamIndex: U64)
      requires Valid() && seqno == FirstSeqno(seg)
      ensures streamIndex == StreamIndex(seg, isn, |Value().Out().history|)
    {
      var checkpoint := reassembler.output.writeCount % TWO64;
      var absSeqno := Unwrap(seqno, isn, checkpoint);
      streamIndex := (absSeqno - 1) % TWO64;
    }

    function Ackno(): (r: Option<U32>)
      requires Valid()
      reads this, reassembler, reassembler.output
      ensures r == Value().Ackno()
    {
      if !isnSet then None
      else if reassembler.output.inputEnded then Some((Wrap(reassembler.output.writeCount + 1, isn) + 1) % TWO32)
      else Some(Wrap(reassembler.output.writeCount + 1, isn))
    }

    function WindowSize(): (r: nat)
      requires Valid()
      reads this, reassembler, reassembler.output
      ensures r == Value().WindowSize()
    {
      capacity - (reassembler.output.writeCount - reassembler.output.readCount)
    }
  }
}

/** The acknowledgment number and the window mean what they say. */
module ReceivingProofs {
  import opened Common
  import opened Wrapping
  import opened ByteStreams
  import opened Reassembly
  import opened ReassemblyProofs
  import opened Segments
  import opened Receiving

  /** Sequence positions received so far: the SYN, the assembled bytes, and the FIN once the output is ended. */
  function AckAbs(r: Receiver): nat {
    1 + |r.Out().history| + (if r.Out().ended then 1 else 0)
  }

  lemma AcknoWraps(r: Receiver)
    requires r.isnSet
    ensures r.Ackno() == Some(Wrap(AckAbs(r), r.isn))
  {
    WrapSuccessor(|r.Out().history| + 1, r.isn);
  }

  lemma WrapSuccessor(n: nat, isn: U32)
    ensures (Wrap(n, isn) + 1) % TWO32 == Wrap(n + 1, isn)
  {}

  /** A segment whose first byte has absolute position `abs`, less than 2^31 away, is placed at its true index. */
  lemma TrueIndex(seg: Segment, isn: U32, written: U64, abs: U64)
    requires FirstSeqno(seg) == Wrap(abs, isn)
    requires -TWO31 < abs - written < TWO31 && abs > 0
    ensures StreamIndex(seg, isn, written) == abs - 1
  {
    UnwrapWrapRoundTrip(abs, isn, written);
    var a := Unwrap(FirstSeqno(seg), isn, written);
    assert a == abs;
    assert written % TWO64 == written;
    assert (a - 1) % TWO64 == a - 1;
  }

  /** The first payload byte of a segment sent at position `abs`. */
  lemma FirstSeqnoWraps(seg: Segment, isn: U32, abs: nat)
    requires seg.header.seqno == Wrap(abs, isn)
    ensures FirstSeqno(seg) == Wrap(if seg.header.syn then abs + 1 else abs, isn)
  {
    WrapSuccessor(abs, isn);
  }

  datatype ReceiverEvent = Arrives(seg: Segment) | Reads(count: nat)

  function Step(r: Receiver, e: ReceiverEvent): Receiver {
    match e
    case Arrives(seg) => Receive(r, seg)
    case Reads(count) => r.(reassembler := r.reassembler.(out := r.Out().Read(count)))
  }

  function Run(r: Receiver, es: seq<ReceiverEvent>): Receiver {
    if es == [] then r else Step(Run(r, es[..|es| - 1]), es[|es| - 1])
  }

  /** First stream position past the advertised window. */
  function RightEdge(r: Receiver): nat {
    |r.Out().history| + r.WindowSize()
  }

  lemma {:induction false} RunBounded(capacity: nat, es: seq<ReceiverEvent>)
    ensures KeysBounded(Run(EmptyReceiver(capacity), es).reassembler)
    decreases |es|
  {
    if es != [] {
      RunBounded(capacity, es[..|es| - 1]);
      var r, e := Run(EmptyReceiver(capacity), es[..|es| - 1]), es[|es| - 1];
      match e
      case Arrives(seg) =>
        if seg.header.syn || r.isnSet {
          var isn := if seg.header.syn then seg.header.seqno else r.isn;
          PushKeepsBound(r.reassembler, seg.payload, StreamIndex(seg, isn, |r.Out().history|), seg.header.fin);
        }
      case Reads(_) =>
    }
  }

  /** Over any interleaving of arrivals and reads, neither the edge nor the acknowledged position moves back. */
  lemma {:induction false} EdgeNeverRetreats(capacity: nat, es: seq<ReceiverEvent>, more: seq<ReceiverEvent>)
    ensures var r, t := Run(EmptyReceiver(capacity), es), Run(EmptyReceiver(capacity), es + more);
            RightEdge(r) <= RightEdge(t) && AckAbs(r) <= AckAbs(t) && (r.isnSet ==> t.isnSet)
    decreases |more|
  {
    if more == [] {
      assert es + more == es;
    } else {
      var before, e := more[..|more| - 1], more[|more| - 1];
      EdgeNeverRetreats(capacity, es, before);
      var all := es + more;
      assert all[..|all| - 1] == es + before && all[|all| - 1] == e;
      RunBounded(capacity, es + before);
      StepAdvances(Run(EmptyReceiver(capacity), es + before), e);
    }
  }

  lemma StepAdvances(r: Receiver, e: ReceiverEvent)
    requires KeysAhead(r.reassembler)
    ensures var t := Step(r, e);
            && RightEdge(r) <= RightEdge(t) && AckAbs(r) <= AckAbs(t) && (r.isnSet ==> t.isnSet)
            && t.Out().capacity == r.Out().capacity && r.Out().history <= t.Out().history
  {
    match e
    case Arrives(seg) =>
      if seg.header.syn || r.isnSet {
        var isn := if seg.header.syn then seg.header.seqno else r.isn;
        var index := StreamIndex(seg, isn, |r.Out().history|);
        PushKeeps(r.reassembler, seg.payload, index, seg.header.fin);
        PushEnded(r.reassembler, seg.payload, index, seg.header.fin);
      }
    case Reads(_) =>
  }

  /** A byte that lies inside the advertised window is held once its segment has arrived. */
  lemma WindowIsHonest(r: Receiver, seg: Segment, first: U64, k: nat)
    requires KeysAhead(r.reassembler) && r.isnSet && |r.Out().history| < TWO64
    requires FirstSeqno(seg) == Wrap(first, r.isn) && (seg.header.syn ==> seg.header.seqno == r.isn)
    requires first > 0 && -TWO31 < first - |r.Out().history| < TWO31
    requires first - 1 <= k < first - 1 + |seg.payload| && k < RightEdge(r)
    ensures Receive(r, seg).reassembler.Holds(k) && Receive(r, seg).isn == r.isn
  {
    TrueIndex(seg, r.isn, |r.Out().history|, first);
    PushKeepsWindow(r.reassembler, seg.payload, first - 1, seg.header.fin, k);
  }

  /** And not a byte more: of a segment that continues the stream, exactly what lies below the edge is taken. */
  lemma WindowIsTight(r: Receiver, seg: Segment, first: U64, k: nat)
    requires KeysAhead(r.reassembler) && r.isnSet && |r.Out().history| < TWO64 && !r.reassembler.Holds(k)
    requires FirstSeqno(seg) == Wrap(first, r.isn) && (seg.header.syn ==> seg.header.seqno == r.isn)
    requires 0 < first <= |r.Out().history| + 1 && |r.Out().history| - first < TWO31
    requires first - 1 <= k < first - 1 + |seg.payload|
    ensures Receive(r, seg).reassembler.Holds(k) <==> k < RightEdge(r)
  {
    TrueIndex(seg, r.isn, |r.Out().history|, first);
    PushIsTight(r.reassembler, seg.payload, first - 1, seg.header.fin, k);
  }

  lemma PushIsTight(s: Reassembler, data: Bytes, index: nat, eof: bool, k: nat)
    requires KeysAhead(s) && index <= s.Next() && !s.Holds(k) && index <= k < index + |data|
    ensures Push(s, data, index, eof).Holds(k) <==> k < s.Edge()
  {
    PushKeeps(s, data, index, eof);
  }
}
