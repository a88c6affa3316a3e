/** Every call of a connection in one flat description: what it does to each half, what it hands over, what it marks. */
module CallProofs {
  import opened Common
  import opened Wrapping
  import opened ByteStreams
  import opened Segments
  import opened Receiving
  import opened ReceivingProofs
  import opened Sending
  import S = SendingProofs
  import opened AckProofs
  import opened WindowProofs
  import opened TimerProofs
  import opened Connections
  import P = ConnectionProofs
  import opened Peers
  import opened ConnectionLaws

  /** The sender after what a call has for it, before anything is handed over. */
  function Moved(c: Connection, op: P.Op): Sender {
    var s := c.sender;
    match op
    case OpConnect => Fill(s)
    case OpWrite(data) => Fill(S.Step(s, S.Write(data)))
    case OpEndInput => Fill(S.Step(s, S.EndInput))
    case OpSegment(seg) =>
      if !LetIn(c, seg) then s
      else
        var o := if c.synSet then s else Fill(s);
        if TakesIn(c, seg) && seg.header.ack then Acknowledge(o, seg.header.ackno, seg.header.win) else o
    case OpTick(ms) => if c.active then Elapse(s, ms) else s
    case OpRead(_) => s
    case OpTakeOut => s
    case OpDestroy => s
  }

  /** The calls that hand over what is pending. */
  predicate Sends(c: Connection, op: P.Op) {
    match op
    case OpConnect => true
    case OpWrite(_) => true
    case OpEndInput => true
    case OpSegment(seg) => TakesIn(c, seg) && Answered(c, seg)
    case OpTick(_) => c.active && (Moved(c, op).pending != [] || Resets(c, op))
    case OpRead(_) => false
    case OpTakeOut => false
    case OpDestroy => c.active
  }

  function Due(pending: seq<Segment>): seq<Segment> {
    if pending == [] then [EMPTY_SEGMENT] else pending
  }

  /** Each half has moved as it should and failed if there was a reset; what was due has been handed over, stamped with
      the feedback of the moment, or nothing has. */
  predicate Went(out: seq<Segment>, m: Sender, r: Receiver, sends: bool, d: Connection) {
    && d.sender == (if d.rstSet then SetSenderError(m) else m).(pending := if sends then [] else m.pending)
    && d.receiver == (if d.rstSet then SetReceiverError(r) else r)
    && (if sends then Appends(d, out, Due(m.pending), d.out) else d.out == out)
  }

  /** What one call does to the two halves and to the outbound queue. */
  predicate Halves(c: Connection, op: P.Op, d: Connection) {
    Went(c.out, Moved(c, op), Heard(c, op), Sends(c, op), d)
  }

  lemma AppendsFrame(c: Connection, d: Connection, cores: seq<Segment>, before: seq<Segment>, out: seq<Segment>)
    requires Appends(c, before, cores, out) && SameButError(c.receiver, d.receiver) && d.rstSet == c.rstSet
    ensures Appends(d, before, cores, out)
  {}

  lemma SendSegsGoes(c: Connection)
    requires S.SpaceInv(c.sender)
    ensures Went(c.out, c.sender, c.receiver, true, SendSegs(c))
  {
    SendSegsShape(c);
    SendSegsMarks(c);
    HandsOverAll(c);
    AppendsFrame(c, SendSegs(c), Due(c.sender.pending), c.out, SendSegs(c).out);
  }

  lemma CleanShutdownGoes(out: seq<Segment>, m: Sender, r: Receiver, sends: bool, d: Connection)
    requires Went(out, m, r, sends, d)
    ensures Went(out, m, r, sends, CleanShutdown(d))
  {
    if sends {
      AppendsFrame(d, CleanShutdown(d), Due(m.pending), out, d.out);
    }
  }

  lemma FillSendGoes(c: Connection, s: Sender)
    requires S.SpaceInv(s)
    ensures Went(c.out, Fill(s), c.receiver, true, SendSegs(c.(sender := Fill(s))))
  {
    S.FillSpace(s);
    SendSegsGoes(c.(sender := Fill(s)));
  }

  lemma ReplyGoes(c: Connection, seg: Segment)
    requires S.SpaceInv(c.sender) && !c.rstSet
    ensures Went(c.out, c.sender, c.receiver, Answered(c, seg), Reply(c, seg))
  {
    if Answered(c, seg) {
      var f := if seg.header.fin then c.(recFin := Some(seg.header.seqno)) else c;
      SendSegsGoes(f);
      CleanShutdownGoes(f.out, f.sender, f.receiver, true, SendSegs(f));
    }
  }

  lemma ArriveGoes(c: Connection, seg: Segment)
    requires P.Inv(c) && TakesIn(c, seg)
    ensures Halves(c, P.OpSegment(seg), Arrive(c, seg))
  {
    DigestFacts(c, seg);
    ReplyGoes(Digest(Open(c), seg), seg);
    assert Digest(Open(c), seg).sender == Moved(c, P.OpSegment(seg));
  }

  /** What a tick does once time has passed. */
  function Settle(c: Connection): Connection {
    var d := GiveUp(c);
    if d.active && d.sender.pending != [] then SendSegs(d) else d
  }

  predicate SettlingSends(s: Sender) {
    s.pending != [] || s.retx > MAX_RETX_ATTEMPTS
  }

  lemma GiveUpGoes(c: Connection)
    requires S.SpaceInv(c.sender) && c.sender.retx > MAX_RETX_ATTEMPTS
    ensures Went(c.out, c.sender, c.receiver, true, GiveUp(c)) && !GiveUp(c).active
  {
    var f := c.(rstSet := true);
    SendSegsGoes(f);
    SendSegsMarks(f);
    CleanShutdownGoes(f.out, f.sender, f.receiver, true, SendSegs(f));
  }

  /** With retransmissions to spare what is pending goes out, since a connection with something pending is not over. */
  lemma SettleGoes(c: Connection)
    requires S.SpaceInv(c.sender) && c.active && !c.rstSet
    ensures Went(c.out, c.sender, c.receiver, SettlingSends(c.sender), Settle(c))
  {
    if c.sender.retx > MAX_RETX_ATTEMPTS {
      GiveUpGoes(c);
    } else if c.sender.pending != [] {
      SendSegsGoes(GiveUp(c));
    }
  }

  lemma PassedGoes(c: Connection, ms: nat, d: Connection)
    requires P.Inv(c) && c.active && d == Pass(c, ms)
    ensures Went(d.out, d.sender, d.receiver, SettlingSends(d.sender), Settle(d))
  {
    assert S.SpaceInv(d.sender) by {
      S.StepSpace(c.sender, S.Time(ms));
    }
    SettleGoes(d);
  }

  lemma TickSettles(c: Connection, ms: nat)
    requires c.active
    ensures Tick(c, ms) == Settle(Pass(c, ms))
  {}

  lemma TickGoes(c: Connection, ms: nat)
    requires P.Inv(c) && c.active
    ensures Halves(c, P.OpTick(ms), Tick(c, ms))
  {
    PassedGoes(c, ms, Pass(c, ms));
    TickSettles(c, ms);
    TickIsHalves(c, ms, Pass(c, ms), Tick(c, ms));
  }

  lemma TickIsHalves(c: Connection, ms: nat, d: Connection, e: Connection)
    requires c.active && d == Pass(c, ms) && Went(d.out, d.sender, d.receiver, SettlingSends(d.sender), e)
    ensures Halves(c, P.OpTick(ms), e)
  {}

  /** Every call, exactly. */
  lemma StepHalves(c: Connection, op: P.Op)
    requires P.Inv(c) && !op.OpTakeOut?
    ensures Halves(c, op, P.Step(c, op))
  {
    match op
    case OpConnect => FillSendGoes(c, c.sender);
    case OpWrite(data) => WriteGoes(c, data);
    case OpEndInput => EndInputGoes(c);
    case OpSegment(seg) => SegmentGoes(c, seg);
    case OpTick(ms) => LapseGoes(c, ms);
    case OpRead(_) => IdleGoes(P.Step(c, op));
    case OpDestroy => DestroyGoes(c);
  }

  lemma WriteGoes(c: Connection, data: Bytes)
    requires P.Inv(c)
    ensures Halves(c, P.OpWrite(data), Write(c, data))
  {
    S.StepSpace(c.sender, S.Write(data));
    FillSendGoes(c, S.Step(c.sender, S.Write(data)));
  }

  lemma EndInputGoes(c: Connection)
    requires P.Inv(c)
    ensures Halves(c, P.OpEndInput, EndInput(c))
  {
    S.StepSpace(c.sender, S.EndInput);
    FillSendGoes(c, S.Step(c.sender, S.EndInput));
  }

  lemma SegmentGoes(c: Connection, seg: Segment)
    requires P.Inv(c)
    ensures Halves(c, P.OpSegment(seg), Arrive(c, seg))
  {
    if TakesIn(c, seg) {
      ArriveGoes(c, seg);
    } else {
      IgnoredGoes(c, seg);
    }
  }

  lemma LapseGoes(c: Connection, ms: nat)
    requires P.Inv(c)
    ensures Halves(c, P.OpTick(ms), Tick(c, ms))
  {
    if c.active {
      TickGoes(c, ms);
    } else {
      IdleGoes(c);
    }
  }

  /** A connection that was reset has failed on both sides already. */
  lemma IdleGoes(c: Connection)
    requires P.Status(c)
    ensures Went(c.out, c.sender, c.receiver, false, c)
  {}

  lemma DestroyGoes(c: Connection)
    requires P.Inv(c)
    ensures Halves(c, P.OpDestroy, Destroy(c))
  {
    if c.active {
      SendSegsGoes(c.(rstSet := true));
    }
  }

  lemma IgnoredGoes(c: Connection, seg: Segment)
    requires P.Inv(c) && !TakesIn(c, seg)
    ensures Halves(c, P.OpSegment(seg), Arrive(c, seg))
  {}

  // ---------- the marks on the handshake ----------

  predicate AnySyn(segs: seq<Segment>) {
    exists i :: 0 <= i < |segs| && segs[i].header.syn
  }

  lemma {:induction false} EmitAllMarks(c: Connection)
    ensures var d := EmitAll(c);
            && d.synSet == (c.synSet || AnySyn(c.sender.pending))
            && d.finAckSent == (c.finAckSent || (c.sender.pending != [] && AcksFin(c)))
    decreases |c.sender.pending|
  {
    var pending := c.sender.pending;
    if pending != [] {
      EmitAllMarks(EmitOne(c));
      AnySynSplit(pending);
    }
  }

  lemma AnySynSplit(segs: seq<Segment>)
    requires segs != []
    ensures AnySyn(segs) == (segs[0].header.syn || AnySyn(segs[1..]))
  {
    var rest := segs[1..];
    forall i | 0 <= i < |rest| ensures rest[i] == segs[i + 1] {}
    if AnySyn(segs) && !segs[0].header.syn {
      var i :| 0 <= i < |segs| && segs[i].header.syn;
      assert rest[i - 1].header.syn;
    }
  }

  lemma SendSegsSigns(c: Connection)
    ensures var d := SendSegs(c);
            && d.synSet == (c.synSet || AnySyn(c.sender.pending))
            && d.finAckSent == (c.finAckSent || AcksFin(c)) && d.recFin == c.recFin
  {
    EmitAllMarks(WithPending(c));
    P.HandedOver(c);
  }

  /** The number the receiver would send is past that of the last FIN segment taken in, as 32-bit words. */
  predicate PastFin(c: Connection) {
    c.recFin.Some? && c.receiver.isnSet && Wrap(AckAbs(c.receiver), c.receiver.isn) > c.recFin.value
  }

  lemma PastFinExact(c: Connection)
    ensures AcksFin(c) == PastFin(c)
  {
    if c.receiver.isnSet {
      AcknoWraps(c.receiver);
    }
  }

  /** Before the numbers wrap that means what it should: something of the FIN segment has been received. */
  lemma PastFinMeans(c: Connection, first: nat)
    requires c.receiver.isnSet && c.recFin == Some(Wrap(first, c.receiver.isn))
    requires c.receiver.isn + first < TWO32 && c.receiver.isn + AckAbs(c.receiver) < TWO32
    ensures AcksFin(c) <==> first < AckAbs(c.receiver)
  {
    PastFinExact(c);
    SmallWrap(first, c.receiver.isn);
    SmallWrap(AckAbs(c.receiver), c.receiver.isn);
  }

  /** One call: the connection counts as opened once a SYN was handed over or let in, the last FIN taken in is
      remembered, and it counts as acknowledged once something is handed over while the number sent is numerically past
      its own. */
  predicate Signs(c: Connection, op: P.Op, d: Connection) {
    Signed(c, op, d, PastFin(d))
  }

  predicate Signed(c: Connection, op: P.Op, d: Connection, past: bool) {
    && d.synSet == (c.synSet || (op.OpSegment? && LetIn(c, op.seg)) || (Sends(c, op) && AnySyn(Moved(c, op).pending)))
    && d.recFin == (if op.OpSegment? && TakesIn(c, op.seg) && op.seg.header.fin then Some(op.seg.header.seqno)
                    else c.recFin)
    && d.finAckSent == (c.finAckSent || (Sends(c, op) && past))
  }

  lemma ReplySigns(c: Connection, seg: Segment)
    requires c.synSet
    ensures var d := Reply(c, seg);
            && d.synSet && d.recFin == (if seg.header.fin then Some(seg.header.seqno) else c.recFin)
            && d.finAckSent == (c.finAckSent || (Answered(c, seg) && AcksFin(d)))
  {
    var f := if seg.header.fin then c.(recFin := Some(seg.header.seqno)) else c;
    SendSegsSigns(f);
    SendSegsShape(f);
  }

  lemma SettleSigns(c: Connection)
    requires c.active && !c.rstSet
    ensures var d := Settle(c);
            && d.synSet == (c.synSet || AnySyn(c.sender.pending)) && d.recFin == c.recFin
            && d.finAckSent == (c.finAckSent || (SettlingSends(c.sender) && AcksFin(d)))
  {
    if c.sender.retx > MAX_RETX_ATTEMPTS {
      SendSegsSigns(c.(rstSet := true));
      SendSegsShape(c.(rstSet := true));
    } else if c.sender.pending != [] {
      SendSegsSigns(GiveUp(c));
      SendSegsShape(GiveUp(c));
    }
  }

  lemma TickSigns(c: Connection, ms: nat)
    requires P.Inv(c) && c.active
    ensures Signed(c, P.OpTick(ms), Tick(c, ms), AcksFin(Tick(c, ms)))
  {
    var d, op := Pass(c, ms), P.OpTick(ms);
    assert Moved(c, op) == d.sender && Tick(c, ms) == Settle(d);
    assert Sends(c, op) == SettlingSends(d.sender);
    SettleSigns(d);
  }

  lemma FillSendSigns(c: Connection, s: Sender)
    ensures var d := SendSegs(c.(sender := Fill(s)));
            && d.synSet == (c.synSet || AnySyn(Fill(s).pending)) && d.recFin == c.recFin
            && d.finAckSent == (c.finAckSent || AcksFin(d))
  {
    SendSegsSigns(c.(sender := Fill(s)));
    SendSegsShape(c.(sender := Fill(s)));
  }

  lemma StepSigns(c: Connection, op: P.Op)
    requires P.Inv(c)
    ensures Signs(c, op, P.Step(c, op))
  {
    StepFinAck(c, op);
    PastFinExact(P.Step(c, op));
  }

  lemma StepFinAck(c: Connection, op: P.Op)
    requires P.Inv(c)
    ensures Signed(c, op, P.Step(c, op), AcksFin(P.Step(c, op)))
  {
    match op
    case OpConnect => FillSendSigns(c, c.sender);
    case OpWrite(data) => FillSendSigns(c, S.Step(c.sender, S.Write(data)));
    case OpEndInput => FillSendSigns(c, S.Step(c.sender, S.EndInput));
    case OpSegment(seg) => SegmentSigns(c, seg);
    case OpTick(ms) => LapseSigns(c, ms);
    case OpRead(_) =>
    case OpTakeOut =>
    case OpDestroy => DestroySigns(c);
  }

  lemma SegmentSigns(c: Connection, seg: Segment)
    ensures Signed(c, P.OpSegment(seg), Arrive(c, seg), AcksFin(Arrive(c, seg)))
  {
    if TakesIn(c, seg) {
      ArriveSigns(c, seg);
    }
  }

  lemma LapseSigns(c: Connection, ms: nat)
    requires P.Inv(c)
    ensures Signed(c, P.OpTick(ms), Tick(c, ms), AcksFin(Tick(c, ms)))
  {
    if c.active {
      TickSigns(c, ms);
    }
  }

  lemma ArriveSigns(c: Connection, seg: Segment)
    requires TakesIn(c, seg)
    ensures Signed(c, P.OpSegment(seg), Arrive(c, seg), AcksFin(Arrive(c, seg)))
  {
    ReplySigns(Digest(Open(c), seg), seg);
  }

  lemma DestroySigns(c: Connection)
    ensures Signed(c, P.OpDestroy, Destroy(c), AcksFin(Destroy(c)))
  {
    SendSegsSigns(c.(rstSet := true));
    SendSegsShape(c.(rstSet := true));
  }

  // ---------- what the halves make of it ----------

  /** An arriving segment and the sender: without an acknowledgment, or with one for what was never sent, the sender is
      left alone; otherwise it retires exactly the segments covered and takes the advertised window. */
  lemma AckTaken(c: Connection, seg: Segment)
    requires P.Inv(c) && TakesIn(c, seg) && c.synSet && NoWrap(c.sender)
    ensures var s, t := c.sender, Arrive(c, seg).sender;
            if !seg.header.ack || seg.header.ackno > s.isn + s.nextSeqno then t == s.(pending := t.pending)
            else && RetiredExactly(s, t, seg.header.ackno - s.isn) && t.ackGot == Max(s.ackGot, seg.header.ackno)
                 && Limit(t) == Max(seg.header.win, 1)
  {
    StepHalves(c, P.OpSegment(seg));
    StepMarks(c, P.OpSegment(seg));
    if seg.header.ack {
      AcknowledgeExact(c.sender, seg.header.ackno, seg.header.win);
      if seg.header.ackno <= c.sender.isn + c.sender.nextSeqno {
        WindowTaken(c.sender, seg.header.ackno, seg.header.win);
      }
    }
  }

  lemma WindowTaken(s: Sender, ackno: U32, win: U16)
    requires S.SpaceInv(s) && NoWrap(s) && ackno <= s.isn + s.nextSeqno
    ensures Limit(Acknowledge(s, ackno, win)) == Max(win, 1)
  {
    SmallWrap(s.nextSeqno, s.isn);
    S.RetireOnly(s, ackno);
    FillKeeps(Advance(Retire(s, ackno), ackno).(window := win));
  }

  /** The bytes a call adds to the outbound stream: what fits of what it writes. */
  function Taken(c: Connection, op: P.Op): Bytes {
    if op.OpWrite? then op.data[..Min(|op.data|, c.sender.stream.Remaining())] else []
  }

  lemma MovedStream(c: Connection, op: P.Op)
    requires P.Inv(c)
    ensures var m := Moved(c, op);
            && m.stream.history == c.sender.stream.history + Taken(c, op)
            && m.stream.ended == (c.sender.stream.ended || op.OpEndInput?)
  {
    match op
    case OpConnect => FillKeeps(c.sender);
    case OpWrite(data) => FillKeeps(S.Step(c.sender, S.Write(data)));
    case OpEndInput => FillKeeps(S.Step(c.sender, S.EndInput));
    case OpSegment(seg) =>
      S.FillSpace(c.sender);
      FillKeeps(c.sender);
      AckKeepsStream(if c.synSet then c.sender else Fill(c.sender), seg.header.ackno, seg.header.win);
    case OpTick(_) =>
    case OpRead(_) =>
    case OpTakeOut =>
    case OpDestroy =>
  }

  lemma AckKeepsStream(s: Sender, ackno: U32, win: U16)
    requires s.finFlag ==> s.synFlag
    ensures var t := Acknowledge(s, ackno, win);
            t.stream.history == s.stream.history && t.stream.ended == s.stream.ended
  {
    S.RetireOnly(s, ackno);
    FillKeeps(Advance(Retire(s, ackno), ackno).(window := win));
  }

  /** The outbound stream is what was written and fitted, and it ends when it was told to: no other call touches it. */
  lemma OutboundExact(c: Connection, op: P.Op)
    requires P.Inv(c)
    ensures var s, t := c.sender.stream, P.Step(c, op).sender.stream;
            t.history == s.history + Taken(c, op) && t.ended == (s.ended || op.OpEndInput?)
  {
    if op.OpTakeOut? {
      assert Taken(c, op) == [];
    } else {
      MovedStream(c, op);
      StepHalves(c, op);
      WentStream(c.out, Moved(c, op), Heard(c, op), Sends(c, op), P.Step(c, op));
    }
  }

  lemma WentStream(out: seq<Segment>, m: Sender, r: Receiver, sends: bool, d: Connection)
    requires Went(out, m, r, sends, d)
    ensures d.sender.stream.history == m.stream.history && d.sender.stream.ended == m.stream.ended
  {}
}
