/** What every run of a connection keeps, and how it ends. */
module ConnectionProofs {
  import opened Common
  import opened Wrapping
  import opened ByteStreams
  import opened Reassembly
  import R = ReassemblyProofs
  import opened Segments
  import opened Receiving
  import opened Sending
  import S = SendingProofs
  import opened AckProofs
  import opened WindowProofs
  import opened Connections
  import opened TcpStates
  import StateProofs

  /** The timeout has doubled once per consecutive retransmission. */
  predicate BackedOff(s: Sender, rtTimeout: U16) {
    && s.initialRto == rtTimeout
    && s.retx <= MAX_RETX_ATTEMPTS + 1
    && s.timer.rto == rtTimeout * Pow2(s.retx)
  }

  ghost predicate SenderCore(s: Sender, rtTimeout: U16) {
    S.SpaceInv(s) && AckInv(s) && Quiet(s) && BackedOff(s, rtTimeout)
  }

  ghost predicate Core(c: Connection) {
    && SenderCore(c.sender, c.rtTimeout)
    && R.KeysBounded(c.receiver.reassembler)
    && (c.receiver.Out().ended ==> c.receiver.isnSet)
  }

  /** An inactive connection was reset, or has said and heard everything and waited if it had to. */
  predicate Status(c: Connection) {
    && (c.rstSet <==> c.sender.stream.error) && (c.rstSet <==> c.receiver.Out().error)
    && (c.rstSet ==> !c.active)
    && (!c.active && !c.rstSet ==>
          && c.sender.finFlag && c.sender.bytesInFlight == 0
          && c.receiver.Out().ended && c.receiver.reassembler.stored == map[]
          && (c.linger ==> c.time >= 10 * c.rtTimeout))
  }

  predicate RetriesLeft(c: Connection) {
    c.active ==> c.sender.retx <= MAX_RETX_ATTEMPTS
  }

  ghost predicate Inv(c: Connection) {
    Core(c) && Status(c) && RetriesLeft(c)
  }

  // ---------- the pieces ----------

  lemma CleanShutdownInv(c: Connection)
    requires Core(c) && Status(c)
    ensures Core(CleanShutdown(c)) && Status(CleanShutdown(c))
    ensures RetriesLeft(c) ==> RetriesLeft(CleanShutdown(c))
  {}

  predicate SameButQueues(c: Connection, d: Connection) {
    && d.rtTimeout == c.rtTimeout && d.linger == c.linger && d.time == c.time
    && d.rstSet == c.rstSet && d.recFin == c.recFin
  }

  lemma {:induction false} EmitAllShape(c: Connection)
    ensures var d := EmitAll(c);
            var failed := c.rstSet && c.sender.pending != [];
            && SameButQueues(c, d)
            && d.sender == (if failed then SetSenderError(c.sender) else c.sender).(pending := [])
            && d.receiver == (if failed then SetReceiverError(c.receiver) else c.receiver)
            && d.active == (c.active && !failed)
    decreases |c.sender.pending|
  {
    if c.sender.pending != [] {
      EmitAllShape(EmitOne(c));
    }
  }

  /** Errors on the streams and the pending queue leave the core alone. */
  lemma CoreFrame(c: Connection, d: Connection)
    requires Core(c) && d.rtTimeout == c.rtTimeout
    requires d.sender ==
             c.sender.(pending := d.sender.pending, stream := c.sender.stream.(error := d.sender.stream.error))
    requires forall seg :: seg in d.sender.pending ==> seg in c.sender.sent
    requires d.receiver == c.receiver || d.receiver == SetReceiverError(c.receiver)
    ensures Core(d)
  {
    S.StreamMarks(c.sender, d.sender.stream);
    S.SpaceFrame(c.sender.(stream := d.sender.stream), d.sender);
    AckFrame(c.sender, d.sender);
  }

  lemma SendSegsInv(c: Connection)
    requires Core(c) && (c.rstSet || Status(c))
    ensures Core(SendSegs(c)) && Status(SendSegs(c))
    ensures RetriesLeft(c) ==> RetriesLeft(SendSegs(c))
    ensures c.rstSet ==> SendSegs(c).rstSet
  {
    var d := EmitAll(WithPending(c));
    HandedOver(c);
    CoreFrame(c, d);
    CleanShutdownInv(d);
  }

  /** All pending segments, or an empty one, are handed over; a reset fails both streams. */
  lemma HandedOver(c: Connection)
    ensures var d := EmitAll(WithPending(c));
            && SameButQueues(c, d)
            && d.sender == (if c.rstSet then SetSenderError(c.sender) else c.sender).(pending := [])
            && d.receiver == (if c.rstSet then SetReceiverError(c.receiver) else c.receiver)
            && d.active == (c.active && !c.rstSet)
  {
    var q := WithPending(c);
    EmitAllShape(q);
    assert q.sender.pending != [] && q.sender.(pending := []) == c.sender.(pending := []);
  }

  lemma FillSenderCore(s: Sender, rtTimeout: U16)
    requires S.SpaceInv(s) && AckInv(s) && BackedOff(s, rtTimeout)
    ensures SenderCore(Fill(s), rtTimeout)
  {
    S.FillSpace(s);
    FillAck(s);
    FillKeeps(s);
    FillQuiet(s);
  }

  lemma FillInv(c: Connection, stream: Stream)
    requires Inv(c)
    requires S.SpaceInv(c.sender.(stream := stream)) && stream.error == c.sender.stream.error
    ensures Inv(c.(sender := Fill(c.sender.(stream := stream))))
  {
    var s := c.sender.(stream := stream);
    AckFrame(c.sender, s);
    FillSenderCore(s, c.rtTimeout);
    FillKeeps(s);
  }

  lemma FillAndSendInv(c: Connection, stream: Stream)
    requires Inv(c)
    requires S.SpaceInv(c.sender.(stream := stream)) && stream.error == c.sender.stream.error
    ensures Inv(SendSegs(c.(sender := Fill(c.sender.(stream := stream)))))
  {
    FillInv(c, stream);
    SendSegsInv(c.(sender := Fill(c.sender.(stream := stream))));
  }

  lemma ReceiveInv(c: Connection, seg: Segment)
    requires Inv(c) && c.active
    ensures Inv(c.(receiver := Receive(c.receiver, seg)))
  {
    if seg.header.syn || c.receiver.isnSet {
      var isn := if seg.header.syn then seg.header.seqno else c.receiver.isn;
      var index := StreamIndex(seg, isn, |c.receiver.Out().history|);
      R.PushKeepsBound(c.receiver.reassembler, seg.payload, index, seg.header.fin);
      R.PushKeeps(c.receiver.reassembler, seg.payload, index, seg.header.fin);
    }
  }

  lemma AcknowledgeCore(s: Sender, rtTimeout: U16, ackno: U32, win: U16)
    requires SenderCore(s, rtTimeout)
    ensures SenderCore(Acknowledge(s, ackno, win), rtTimeout)
  {
    if ackno <= Wrap(s.nextSeqno, s.isn) {
      AdvancedInv(s, ackno, win);
      S.RetireOnly(s, ackno);
      AdvanceBackedOff(Retire(s, ackno), rtTimeout, ackno, win);
      FillSenderCore(Advance(Retire(s, ackno), ackno).(window := win), rtTimeout);
    }
  }

  lemma AdvanceBackedOff(s: Sender, rtTimeout: U16, ackno: U32, win: U16)
    requires BackedOff(s, rtTimeout)
    ensures BackedOff(Advance(s, ackno).(window := win), rtTimeout)
  {}

  lemma AcknowledgeKeeps(s: Sender, ackno: U32, win: U16)
    requires s.finFlag ==> s.synFlag
    ensures var t := Acknowledge(s, ackno, win); t.stream.error == s.stream.error && t.retx <= s.retx
  {
    S.RetireOnly(s, ackno);
    FillKeeps(Advance(Retire(s, ackno), ackno).(window := win));
  }

  lemma AcknowledgeInv(c: Connection, ackno: U32, win: U16)
    requires Inv(c) && c.active
    ensures Inv(c.(sender := Acknowledge(c.sender, ackno, win)))
  {
    AcknowledgeCore(c.sender, c.rtTimeout, ackno, win);
    AcknowledgeKeeps(c.sender, ackno, win);
  }

  lemma DigestInv(c: Connection, seg: Segment)
    requires Inv(c) && c.active
    ensures Inv(Digest(c, seg))
  {
    ReceiveInv(c, seg);
    if seg.header.ack {
      var d := c.(receiver := Receive(c.receiver, seg));
      AcknowledgeInv(d, seg.header.ackno, seg.header.win);
      CleanShutdownInv(d.(sender := Acknowledge(d.sender, seg.header.ackno, seg.header.win)));
    }
  }

  lemma ReplyInv(c: Connection, seg: Segment)
    requires Inv(c)
    ensures Inv(Reply(c, seg))
  {
    if !(c.finAckSent && !seg.header.fin) {
      var d := if seg.header.fin then c.(recFin := Some(seg.header.seqno)) else c;
      var e := if SeqLength(seg) > 0 then SendSegs(d) else d;
      if SeqLength(seg) > 0 {
        SendSegsInv(d);
      }
      CleanShutdownInv(e);
    }
  }

  lemma OpenInv(c: Connection)
    requires Inv(c) && c.active
    ensures Inv(Open(c)) && Open(c).active
  {
    if !c.synSet {
      FillInv(c, c.sender.stream);
    }
  }

  lemma FailInv(c: Connection)
    requires Inv(c)
    ensures Inv(FailStreams(c).(rstSet := true))
  {
    CoreFrame(c, FailStreams(c).(rstSet := true));
  }

  lemma ArriveInv(c: Connection, seg: Segment)
    requires Inv(c)
    ensures Inv(Arrive(c, seg))
  {
    if c.active && (c.synSet || seg.header.syn) {
      OpenInv(c);
      if seg.header.rst {
        FailInv(Open(c));
      } else {
        DigestInv(Open(c), seg);
        ReplyInv(Digest(Open(c), seg), seg);
      }
    }
  }

  // ---------- time ----------

  lemma Pow2Small(n: nat)
    requires n <= MAX_RETX_ATTEMPTS
    ensures Pow2(n) <= 256
  {
    assert Pow2(8) == 2 * Pow2(7) && Pow2(7) == 2 * Pow2(6) && Pow2(6) == 2 * Pow2(5) && Pow2(5) == 2 * Pow2(4);
    assert Pow2(4) == 2 * Pow2(3) && Pow2(3) == 2 * Pow2(2) && Pow2(2) == 2 * Pow2(1) && Pow2(1) == 2 * Pow2(0);
  }

  /** Doubling a timeout that has doubled at most eight times does not overflow. */
  lemma DoubleExact(rtTimeout: U16, n: nat)
    requires n <= MAX_RETX_ATTEMPTS
    ensures rtTimeout * Pow2(n) * 2 % TWO32 == rtTimeout * Pow2(n + 1)
  {
    Pow2Small(n);
    assert rtTimeout * Pow2(n) <= 0x1_0000 * 256;
    assert rtTimeout * Pow2(n + 1) == rtTimeout * Pow2(n) * 2;
  }

  lemma ElapseBackedOff(s: Sender, rtTimeout: U16, ms: nat)
    requires BackedOff(s, rtTimeout) && s.retx <= MAX_RETX_ATTEMPTS
    ensures BackedOff(Elapse(s, ms), rtTimeout)
  {
    var t := Elapse(s, ms);
    assert s.timer.PassTime(ms).rto == s.timer.rto;
    if t.retx != s.retx {
      assert t.timer.rto == s.timer.rto * 2 % TWO32;
      DoubleExact(rtTimeout, s.retx);
    } else {
      assert t.timer.rto == s.timer.rto;
    }
  }

  /** Time changes only the timer, the retransmission count and the pending queue. */
  lemma ElapseKeeps(s: Sender, ms: nat)
    ensures var t := Elapse(s, ms); t == s.(timer := t.timer, retx := t.retx, pending := t.pending)
  {}

  lemma ElapseCore(s: Sender, rtTimeout: U16, ms: nat)
    requires SenderCore(s, rtTimeout) && s.retx <= MAX_RETX_ATTEMPTS
    ensures SenderCore(Elapse(s, ms), rtTimeout)
  {
    S.StepSpace(s, S.Time(ms));
    ElapseBackedOff(s, rtTimeout, ms);
    ElapseKeeps(s, ms);
    AckFrame(s, Elapse(s, ms));
  }

  lemma PassInv(c: Connection, ms: nat)
    requires Inv(c) && c.active
    ensures Core(Pass(c, ms)) && Status(Pass(c, ms))
  {
    ElapseCore(c.sender, c.rtTimeout, ms);
    ElapseKeeps(c.sender, ms);
  }

  lemma GiveUpInv(c: Connection)
    requires Core(c) && Status(c) && c.active
    ensures Inv(GiveUp(c))
  {
    if c.sender.retx > MAX_RETX_ATTEMPTS {
      SendSegsInv(c.(rstSet := true));
      CleanShutdownInv(SendSegs(c.(rstSet := true)));
    } else {
      CleanShutdownInv(c);
    }
  }

  lemma TickInv(c: Connection, ms: nat)
    requires Inv(c)
    ensures Inv(Tick(c, ms))
  {
    if c.active {
      PassInv(c, ms);
      GiveUpInv(Pass(c, ms));
      SendSegsInv(GiveUp(Pass(c, ms)));
    }
  }

  // ---------- runs ----------

  /** Everything an application, a peer and a clock can do, in any order. */
  datatype Op =
    | OpConnect
    | OpWrite(data: Bytes)
    | OpEndInput
    | OpSegment(seg: Segment)
    | OpTick(ms: nat)
    | OpRead(count: nat)
    | OpTakeOut
    | OpDestroy

  function Step(c: Connection, op: Op): Connection {
    match op
    case OpConnect => Connect(c)
    case OpWrite(data) => Write(c, data)
    case OpEndInput => EndInput(c)
    case OpSegment(seg) => Arrive(c, seg)
    case OpTick(ms) => Tick(c, ms)
    case OpRead(count) =>
      c.(receiver := c.receiver.(reassembler := c.receiver.reassembler.(out := c.receiver.Out().Read(count))))
    case OpTakeOut => c.(out := [])
    case OpDestroy => Destroy(c)
  }

  function Run(c: Connection, ops: seq<Op>): Connection {
    if ops == [] then c else Step(Run(c, ops[..|ops| - 1]), ops[|ops| - 1])
  }

  lemma ConnectInv(c: Connection)
    requires Inv(c)
    ensures Inv(Connect(c))
  {
    assert c.sender.(stream := c.sender.stream) == c.sender;
    FillAndSendInv(c, c.sender.stream);
  }

  lemma WriteInv(c: Connection, data: Bytes)
    requires Inv(c)
    ensures Inv(Write(c, data))
  {
    S.WriteSpace(c.sender, data);
    FillAndSendInv(c, c.sender.stream.Write(data));
  }

  lemma EndInputInv(c: Connection)
    requires Inv(c)
    ensures Inv(EndInput(c))
  {
    S.StreamMarks(c.sender, c.sender.stream.(ended := true));
    FillAndSendInv(c, c.sender.stream.(ended := true));
  }

  lemma DestroyInv(c: Connection)
    requires Inv(c)
    ensures Inv(Destroy(c))
  {
    if c.active {
      SendSegsInv(c.(rstSet := true));
    }
  }

  lemma StepInv(c: Connection, op: Op)
    requires Inv(c)
    ensures Inv(Step(c, op))
  {
    match op
    case OpConnect => ConnectInv(c);
    case OpWrite(data) => WriteInv(c, data);
    case OpEndInput => EndInputInv(c);
    case OpSegment(seg) => ArriveInv(c, seg);
    case OpTick(ms) => TickInv(c, ms);
    case OpRead(_) =>
    case OpTakeOut =>
    case OpDestroy => DestroyInv(c);
  }

  /** Every reachable connection, whatever its peer sends. */
  lemma {:induction false} RunInv(rtTimeout: U16, sendCapacity: nat, recvCapacity: nat, isn: U32, ops: seq<Op>)
    ensures Inv(Run(NewConnection(rtTimeout, sendCapacity, recvCapacity, isn), ops))
    decreases |ops|
  {
    if ops != [] {
      RunInv(rtTimeout, sendCapacity, recvCapacity, isn, ops[..|ops| - 1]);
      StepInv(Run(NewConnection(rtTimeout, sendCapacity, recvCapacity, isn), ops[..|ops| - 1]), ops[|ops| - 1]);
    }
  }

  // ---------- how a connection ends ----------

  /** An inactive connection is RESET if it was reset. Otherwise its FIN is acknowledged with nothing in flight, the
      peer's stream is complete, it lingered if it had to, and it is CLOSED exactly when nothing was written past the
      FIN. */
  lemma InactiveMeans(rtTimeout: U16, sendCapacity: nat, recvCapacity: nat, isn: U32, ops: seq<Op>)
    ensures var c := Run(NewConnection(rtTimeout, sendCapacity, recvCapacity, isn), ops);
            !c.active ==>
              if c.rstSet then Summarize(c) == Official(RESET)
              else && c.sender.nextSeqno == c.sender.stream.readCount + 2 && c.sender.bytesInFlight == 0
                   && c.receiver.Out().ended && c.receiver.reassembler.stored == map[]
                   && (c.linger ==> c.time >= 10 * c.rtTimeout)
                   && (Summarize(c) == Official(CLOSED) <==> c.sender.stream.readCount == |c.sender.stream.history|)
  {
    var c := Run(NewConnection(rtTimeout, sendCapacity, recvCapacity, isn), ops);
    RunInv(rtTimeout, sendCapacity, recvCapacity, isn, ops);
    if !c.active && !c.rstSet {
      ClosedSummary(c);
    }
  }

  lemma ClosedSummary(c: Connection)
    requires Inv(c) && !c.active && !c.rstSet
    ensures Summarize(c) == Official(CLOSED) <==> Drained(c.sender)
  {
    StateProofs.SummaryMeaning(c.sender);
    InFlightPositive(c.sender);
  }

  /** A connection that shuts down cleanly has not wrapped: past 2^32 the sender's pipe never empties. */
  lemma CleanCloseNeverWrapped(c: Connection)
    requires Inv(c) && !c.active && !c.rstSet
    ensures NoWrap(c.sender)
  {
    InFlightPositive(c.sender);
    assert forall b: nat :: !Straddles(c.sender, b);
  }

  /** In every reachable state the timeout is the configured one doubled once per retransmission, retransmissions are
      bounded, and the 32-bit timeout has not overflowed. */
  lemma BackoffBounded(rtTimeout: U16, sendCapacity: nat, recvCapacity: nat, isn: U32, ops: seq<Op>)
    ensures var c := Run(NewConnection(rtTimeout, sendCapacity, recvCapacity, isn), ops);
            && c.sender.retx <= MAX_RETX_ATTEMPTS + 1
            && (c.active ==> c.sender.retx <= MAX_RETX_ATTEMPTS)
            && c.sender.timer.rto == c.rtTimeout * Pow2(c.sender.retx)
  {
    RunInv(rtTimeout, sendCapacity, recvCapacity, isn, ops);
  }
}
