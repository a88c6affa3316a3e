/** The sending half: a stream cut into segments, kept until acknowledged, and sent again when the timer runs out. */
module Sending {
  import opened Common
  import opened Wrapping
  import opened ByteStreams
  import opened Segments

  // ---------- the retransmission timer ----------

  datatype Timer = Timer(rto: U32, time: U32, running: bool)
  {
    function PassTime(ms: nat): Timer {
      if !running then this
      else
        var now := (time + ms % TWO32) % TWO32;
        if now >= rto then Timer(rto, 0, false) else this.(time := now)
    }

    function Restart(): Timer {
      this.(time := 0, running := true)
    }

    function Double(): Timer {
      this.(rto := rto * 2 % TWO32)
    }
  }

  class RETimer {
    var rto: U32
    var time: U32
    var running: bool

    ghost function Value(): Timer
      reads this
    {
      Timer(rto, time, running)
    }

    constructor (initialRto: U32)
      ensures Value() == Timer(initialRto, 0, true)
    {
      rto, time, running := initialRto, 0, true;
    }

    method PassTime(ms: nat)
      modifies this
      ensures Value() == old(Value()).PassTime(ms)
    {
      if !running {
        return;
      }
      time := (time + ms % TWO32) % TWO32;
      if time >= rto {
        running := false;
        time := 0;
      }
    }

    method DoubleRTO()
      modifies this
      ensures Value() == old(Value()).Double()
    {
      rto := rto * 2 % TWO32;
    }

    method ResetTime()
      modifies this
      ensures Value() == old(Value()).(time := 0)
    {
      time := 0;
    }

    method ResetRTO(initialRto: U32)
      modifies this
      ensures Value() == old(Value()).(rto := initialRto)
    {
      rto := initialRto;
    }

    method Start()
      modifies this
      ensures Value() == old(Value()).(running := true)
    {
      running := true;
    }
  }

  // ---------- the sender as a value ----------

  /** `sent` lists every segment in order of first transmission; the first `retired` of them are acknowledged. */
  datatype RawSender = RawSender(
    isn: U32, initialRto: U32, stream: Stream, nextSeqno: nat,
    sent: seq<Segment>, retired: nat, pending: seq<Segment>, bytesInFlight: int,
    ackGot: U32, window: U16, retx: U16, synFlag: bool, finFlag: bool, timer: Timer)

  type Sender = s: RawSender | s.retired <= |s.sent|
    witness RawSender(0, 0, EmptyStream(0), 0, [], 0, [], 0, 0, 0, 0, false, false, Timer(0, 0, true))

  function EmptySender(capacity: nat, initialRto: U16, isn: U32): Sender {
    RawSender(isn, initialRto, EmptyStream(capacity), 0, [], 0, [], 0, isn, 0, 0, false, false,
              Timer(initialRto, 0, true))
  }

  /** First transmission of a segment. */
  function Send(s: Sender, seg: Segment): Sender {
    s.(sent := s.sent + [seg],
       pending := s.pending + [seg],
       nextSeqno := s.nextSeqno + SeqLength(seg),
       bytesInFlight := s.bytesInFlight + SeqLength(seg),
       timer := if s.timer.running then s.timer else s.timer.Restart())
  }

  function SegmentAt(seqno: U32, syn: bool, fin: bool, payload: Bytes): Segment {
    Segment(DEFAULT_HEADER.(seqno := seqno, syn := syn, fin := fin), payload)
  }

  /** Room left in the peer's window, in 32-bit unsigned arithmetic. */
  function Remain(s: Sender): U32 {
    (s.window - (Wrap(s.nextSeqno, s.isn) - s.ackGot) % TWO32) % TWO32
  }

  /** The next segment that room allows: as many bytes as fit, and the FIN if the stream is drained and it fits too. */
  function NextSegment(s: Sender): Segment {
    var room := Remain(s);
    var len := Min(room, MAX_PAYLOAD_SIZE);
    var payload := s.stream.Peek(len);
    SegmentAt(Wrap(s.nextSeqno, s.isn), false, s.stream.Read(len).Eof() && room >= |payload| + 1, payload)
  }

  function SendNext(s: Sender): Sender {
    var seg := NextSegment(s);
    Send(s.(stream := s.stream.Read(|seg.payload|), finFlag := seg.header.fin), seg)
  }

  /** Neither room nor permission to send more. */
  predicate Blocked(s: Sender) {
    Remain(s) == 0 || s.finFlag
  }

  function FillLoop(s: Sender): Sender
    decreases |s.stream.history| - s.stream.readCount + (if s.finFlag then 0 else 1)
  {
    if Blocked(s) || SeqLength(NextSegment(s)) == 0 then s else FillLoop(SendNext(s))
  }

  function SynSegment(s: Sender): Segment {
    SegmentAt(Wrap(s.nextSeqno, s.isn), true, false, [])
  }

  /** A zero window counts as one while filling; it is put back unless the stream ran dry first. */
  function Fill(s: Sender): Sender {
    if s.finFlag then s
    else if !s.synFlag then Send(s.(synFlag := true), SynSegment(s))
    else
      var filled := FillLoop(if s.window == 0 then s.(window := 1) else s);
      if s.window == 0 && Blocked(filled) then filled.(window := 0) else filled
  }

  /** Drops outstanding segments from the front while the raw numbers say they are acknowledged. */
  function Retire(s: Sender, ackno: U32): Sender
    decreases |s.sent| - s.retired
  {
    if s.retired < |s.sent| && s.sent[s.retired].header.seqno + SeqLength(s.sent[s.retired]) <= ackno then
      Retire(s.(retired := s.retired + 1, bytesInFlight := s.bytesInFlight - SeqLength(s.sent[s.retired])), ackno)
    else s
  }

  function Advance(s: Sender, ackno: U32): Sender {
    if ackno > s.ackGot then
      s.(ackGot := ackno,
         timer := Timer(s.initialRto, 0, s.timer.running || s.retired < |s.sent|),
         retx := 0)
    else s
  }

  function Acknowledge(s: Sender, ackno: U32, win: U16): Sender {
    if ackno > Wrap(s.nextSeqno, s.isn) then s
    else Fill(Advance(Retire(s, ackno), ackno).(window := win))
  }

  function Elapse(s: Sender, ms: nat): Sender {
    var timer := s.timer.PassTime(ms);
    if timer.running || s.retired == |s.sent| then s.(timer := timer)
    else
      var t := s.(pending := s.pending + [s.sent[s.retired]]);
      if s.window != 0 || s.nextSeqno == 1 then
        t.(retx := (s.retx + 1) % TWO16, timer := timer.Double().Restart())
      else
        t.(timer := timer.Restart())
  }

  class TCPSender {
    const isn: U32
    const initialRto: U32
    const stream: ByteStream
    const timer: RETimer
    var nextSeqno: nat
    var segmentsOut: seq<Segment>
    var outSegments: seq<Segment>
    var bytesInFlight: int
    var ackGot: U32
    var window: U16
    var retx: U16
    var finFlag: bool
    var synFlag: bool
    ghost var sent: seq<Segment>
    ghost var retired: nat

    ghost predicate Valid()
      reads this, stream
    {
      stream.Valid() && retired <= |sent| && outSegments == sent[retired..]
    }

    ghost function Value(): Sender
      requires Valid()
      reads this, stream, timer
    {
      RawSender(isn, initialRto, stream.Value(), nextSeqno, sent, retired, segmentsOut, bytesInFlight,
                ackGot, window, retx, synFlag, finFlag, timer.Value())
    }

    constructor (capacity: nat, rtTimeout: U16, fixedIsn: U32)
      ensures Valid() && fresh(stream) && fresh(timer)
      ensures Value() == EmptySender(capacity, rtTimeout, fixedIsn)
    {
      isn, initialRto := fixedIsn, rtTimeout;
      stream := new ByteStream(capacity);
      timer := new RETimer(rtTimeout);
      nextSeqno, segmentsOut, outSegments, bytesInFlight := 0, [], [], 0;
      ackGot, window, retx, finFlag, synFlag := fixedIsn, 0, 0, false, false;
      sent, retired := [], 0;
    }

    method SendSegment(seg: Segment)
      requires Valid()
      modifies this, timer
      ensures Valid() && Value() == Send(old(Value()), seg)
    {
      segmentsOut := segmentsOut + [seg];
      outSegments := outSegments + [seg];
      sent := sent + [seg];
      nextSeqno := nextSeqno + SeqLength(seg);
      bytesInFlight := bytesInFlight + SeqLength(seg);
      if !timer.running {
        timer.ResetTime();
        timer.Start();
      }
    }

    method FillWindow()
      requires Valid()
      modifies this, stream, timer
      ensures Valid() && Value() == Fill(old(Value()))
    {
      if finFlag {
        return;
      }
      if !synFlag {
        var seg := SegmentAt(Wrap(nextSeqno, isn), true, false, []);
        synFlag := true;
        SendSegment(seg);
        return;
      }
      var zeroFlag := false;
      if window == 0 {
        zeroFlag := true;
        window := 1;
      }
      var starved := SendWhileRoom();
      if starved {
        return;
      }
      if zeroFlag {
        window := 0;
      }
    }

    function Room(): (r: U32)
      requires Valid()
      reads this, stream, timer
      ensures r == Remain(Value())
    {
      (window - (Wrap(nextSeqno, isn) - ackGot) % TWO32) % TWO32
    }

    /** The sending loop; `starved` tells the early return from the loop's own exit. */
    method SendWhileRoom() returns (starved: bool)
      requires Valid()
      modifies this, stream, timer
      ensures Valid() && Value() == FillLoop(old(Value())) && starved == !Blocked(Value())
    {
      var remain := Room();
      while remain != 0 && !finFlag
        invariant Valid() && remain == Remain(Value())
        invariant FillLoop(Value()) == FillLoop(old(Value()))
        decreases |stream.history| - stream.readCount + (if finFlag then 0 else 1)
      {
        ghost var before := Value();
        var seg := TakeNext(remain);
        if SeqLength(seg) == 0 {
          assert Value() == before;
          return true;
        }
        SendSegment(seg);
        assert Value() == SendNext(before);
        remain := Room();
      }
      return false;
    }

    method TakeNext(remain: U32) returns (seg: Segment)
      requires Valid() && remain == Remain(Value()) && !finFlag
      modifies this, stream
      ensures Valid() && seg == NextSegment(old(Value()))
      ensures Value() == old(Value()).(stream := old(Value()).stream.Read(|seg.payload|), finFlag := seg.header.fin)
    {
      var seqno := Wrap(nextSeqno, isn);
      var payload := stream.Read(Min(remain, MAX_PAYLOAD_SIZE));
      var fin := false;
      if stream.Eof() && remain >= |payload| + 1 {
        fin := true;
        finFlag := true;
      }
      seg := SegmentAt(seqno, false, fin, payload);
    }

    method AckReceived(ackno: U32, windowSize: U16)
      requires Valid()
      modifies this, stream, timer
      ensures Valid() && Value() == Acknowledge(old(Value()), ackno, windowSize)
    {
      if ackno > Wrap(nextSeqno, isn) {
        return;
      }
      DropAcknowledged(ackno);
      NoteNewAck(ackno);
      window := windowSize;
      FillWindow();
    }

    method NoteNewAck(ackno: U32)
      requires Valid()
      modifies this, timer
      ensures Valid() && Value() == Advance(old(Value()), ackno)
    {
      if ackno > ackGot {
        ackGot := ackno;
        timer.ResetTime();
        timer.ResetRTO(initialRto);
        if outSegments != [] {
          timer.Start();
        }
        retx := 0;
      }
    }

    method DropAcknowledged(ackno: U32)
      requires Valid()
      modifies this
      ensures Valid() && Value() == Retire(old(Value()), ackno)
    {
      while outSegments != []
        invariant Valid() && Retire(Value(), ackno) == Retire(old(Value()), ackno)
        decreases |outSegments|
      {
        var seg := outSegments[0];
        if seg.header.seqno + SeqLength(seg) <= ackno {
          ghost var before := Value();
          bytesInFlight := bytesInFlight - SeqLength(seg);
          outSegments := outSegments[1..];
          retired := retired + 1;
          assert Value() == before.(retired := retired, bytesInFlight := bytesInFlight);
        } else {
          break;
        }
      }
    }

    method Tick(ms: nat)
      requires Valid()
      modifies this, timer
      ensures Valid() && Value() == Elapse(old(Value()), ms)
    {
      timer.PassTime(ms);
      if !timer.running && outSegments != [] {
        segmentsOut := segmentsOut + [outSegments[0]];
        if window != 0 || nextSeqno == 1 {
          retx := (retx + 1) % TWO16;
          timer.DoubleRTO();
        }
        timer.ResetTime();
        timer.Start();
      }
    }
  }
}
