/** What one call of an endpoint does to its two halves, and what it emits. */
module Peers {
  import opened Common
  import opened Wrapping
  import opened ByteStreams
  import opened Reassembly
  import opened ReassemblyProofs
  import opened Segments
  import opened Receiving
  import opened ReceivingProofs
  import opened Sending
  import S = SendingProofs
  import opened AckProofs
  import opened EndToEnd
  import opened NoLoss
  import C = Connections
  import P = ConnectionProofs

  // ---------- what one call does to the sending half ----------

  /** The only acknowledgment among the events is the one `seg` carries. */
  predicate AcksFrom(es: seq<S.Event>, op: P.Op) {
    forall e :: e in es && e.Ack? ==>
                  op.OpSegment? && op.seg.header.ack && e == S.Ack(op.seg.header.ackno, op.seg.header.win)
  }

  /** `t` is what the sender `s` becomes by events that take acknowledgments from `op` only. */
  ghost predicate Becomes(s: Sender, t: Sender, op: P.Op) {
    exists es :: AcksFrom(es, op) && S.Run(s, es) == t
  }

  lemma BecomesSame(s: Sender, op: P.Op)
    ensures Becomes(s, s, op)
  {
    assert AcksFrom([], op) && S.Run(s, []) == s;
  }

  lemma BecomesNext(s: Sender, t: Sender, e: S.Event, op: P.Op)
    requires Becomes(s, t, op) && AcksFrom([e], op)
    ensures Becomes(s, S.Step(t, e), op)
  {
    var es :| AcksFrom(es, op) && S.Run(s, es) == t;
    S.RunSnoc(s, es, e);
    assert e in [e];
    assert AcksFrom(es + [e], op);
  }

  /** The two halves after sending: nothing pending, and errors if the connection is being reset. */
  lemma SendSegsShape(c: C.Connection)
    ensures var d := C.SendSegs(c);
            && d.sender == (if c.rstSet then C.SetSenderError(c.sender) else c.sender).(pending := [])
            && d.receiver == (if c.rstSet then C.SetReceiverError(c.receiver) else c.receiver)
            && (c.rstSet ==> !d.active)
  {
    P.HandedOver(c);
  }

  lemma SendSegsSender(c: C.Connection, s: Sender, op: P.Op)
    requires Becomes(s, c.sender, op)
    ensures Becomes(s, C.SendSegs(c).sender, op)
  {
    SendSegsShape(c);
    BecomesNext(s, c.sender, S.TakePending, op);
    if c.rstSet {
      BecomesNext(s, S.Step(c.sender, S.TakePending), S.Fail, op);
    }
  }

  lemma ArriveSender(c: C.Connection, seg: Segment)
    ensures Becomes(c.sender, C.Arrive(c, seg).sender, P.OpSegment(seg))
  {
    var op := P.OpSegment(seg);
    BecomesSame(c.sender, op);
    if c.active && (c.synSet || seg.header.syn) {
      BecomesNext(c.sender, c.sender, S.FillWindow, op);
      var o := C.Open(c);
      assert Becomes(c.sender, o.sender, op);
      if seg.header.rst {
        BecomesNext(c.sender, o.sender, S.Fail, op);
      } else {
        DigestSender(c.sender, o, seg);
        ReplySender(c.sender, C.Digest(o, seg), seg);
      }
    }
  }

  lemma ReplySender(s: Sender, c: C.Connection, seg: Segment)
    requires Becomes(s, c.sender, P.OpSegment(seg))
    ensures Becomes(s, C.Reply(c, seg).sender, P.OpSegment(seg))
  {
    SendSegsSender(c.(recFin := Some(seg.header.seqno)), s, P.OpSegment(seg));
    SendSegsSender(c, s, P.OpSegment(seg));
  }

  lemma DigestSender(s: Sender, c: C.Connection, seg: Segment)
    requires Becomes(s, c.sender, P.OpSegment(seg))
    ensures Becomes(s, C.Digest(c, seg).sender, P.OpSegment(seg))
  {
    if seg.header.ack {
      BecomesNext(s, c.sender, S.Ack(seg.header.ackno, seg.header.win), P.OpSegment(seg));
    }
  }

  lemma TickSender(c: C.Connection, ms: nat)
    ensures Becomes(c.sender, C.Tick(c, ms).sender, P.OpTick(ms))
  {
    var op := P.OpTick(ms);
    BecomesSame(c.sender, op);
    if c.active {
      BecomesNext(c.sender, c.sender, S.Time(ms), op);
      var d := C.Pass(c, ms);
      SendSegsSender(d.(rstSet := true), c.sender, op);
      SendSegsSender(C.GiveUp(d), c.sender, op);
    }
  }

  /** A change of the stream, then filling and sending. */
  lemma FillSendSender(c: C.Connection, e: S.Event, op: P.Op)
    requires !e.Ack?
    ensures Becomes(c.sender, C.SendSegs(c.(sender := Fill(S.Step(c.sender, e)))).sender, op)
  {
    var s, t := c.sender, S.Step(c.sender, e);
    BecomesSame(s, op);
    BecomesNext(s, s, e, op);
    BecomesNext(s, t, S.FillWindow, op);
    SendSegsSender(c.(sender := Fill(t)), s, op);
  }

  lemma ConnectSender(c: C.Connection)
    ensures Becomes(c.sender, C.Connect(c).sender, P.OpConnect)
  {
    BecomesSame(c.sender, P.OpConnect);
    BecomesNext(c.sender, c.sender, S.FillWindow, P.OpConnect);
    SendSegsSender(c.(sender := Fill(c.sender)), c.sender, P.OpConnect);
  }

  lemma DestroySender(c: C.Connection)
    ensures Becomes(c.sender, C.Destroy(c).sender, P.OpDestroy)
  {
    BecomesSame(c.sender, P.OpDestroy);
    SendSegsSender(c.(rstSet := true), c.sender, P.OpDestroy);
  }

  /** Every call moves the sender by its own events, and by the acknowledgment in the segment it is given. */
  lemma StepSender(c: C.Connection, op: P.Op)
    ensures Becomes(c.sender, P.Step(c, op).sender, op)
  {
    match op
    case OpConnect => ConnectSender(c);
    case OpWrite(data) => FillSendSender(c, S.Write(data), op);
    case OpEndInput => FillSendSender(c, S.EndInput, op);
    case OpSegment(seg) => ArriveSender(c, seg);
    case OpTick(ms) => TickSender(c, ms);
    case OpRead(_) => BecomesSame(c.sender, op);
    case OpTakeOut => BecomesSame(c.sender, op);
    case OpDestroy => DestroySender(c);
  }

  // ---------- what one call does to the receiving half ----------

  predicate SameButError(r: Receiver, t: Receiver) {
    t == r || t == C.SetReceiverError(r)
  }

  predicate TakesIn(c: C.Connection, seg: Segment) {
    c.active && (c.synSet || seg.header.syn) && !seg.header.rst
  }

  /** The receiver after what `op` has for it. */
  function Heard(c: C.Connection, op: P.Op): Receiver {
    match op
    case OpSegment(seg) => if TakesIn(c, seg) then Receive(c.receiver, seg) else c.receiver
    case OpRead(count) => ReceivingProofs.Step(c.receiver, Reads(count))
    case _ => c.receiver
  }

  lemma TickReceiver(c: C.Connection, ms: nat)
    ensures SameButError(c.receiver, C.Tick(c, ms).receiver)
  {
    if c.active {
      var d := C.Pass(c, ms);
      SendSegsShape(d.(rstSet := true));
      SendSegsShape(C.GiveUp(d));
    }
  }

  lemma ReplyReceiver(c: C.Connection, seg: Segment)
    ensures SameButError(c.receiver, C.Reply(c, seg).receiver)
  {
    SendSegsShape(c);
    SendSegsShape(c.(recFin := Some(seg.header.seqno)));
  }

  lemma ArriveReceiver(c: C.Connection, seg: Segment)
    ensures SameButError(Heard(c, P.OpSegment(seg)), C.Arrive(c, seg).receiver)
  {
    if TakesIn(c, seg) {
      var d := C.Digest(C.Open(c), seg);
      assert d.receiver == Receive(c.receiver, seg);
      ReplyReceiver(d, seg);
    }
  }

  lemma FillSendReceiver(c: C.Connection, s: Sender)
    ensures SameButError(c.receiver, C.SendSegs(c.(sender := Fill(s))).receiver)
  {
    SendSegsShape(c.(sender := Fill(s)));
  }

  lemma DestroyReceiver(c: C.Connection)
    ensures SameButError(c.receiver, C.Destroy(c).receiver)
  {
    SendSegsShape(c.(rstSet := true));
  }

  lemma StepReceiver(c: C.Connection, op: P.Op)
    ensures SameButError(Heard(c, op), P.Step(c, op).receiver)
  {
    match op
    case OpConnect => FillSendReceiver(c, c.sender);
    case OpWrite(data) => FillSendReceiver(c, S.Step(c.sender, S.Write(data)));
    case OpEndInput => FillSendReceiver(c, S.Step(c.sender, S.EndInput));
    case OpSegment(seg) => ArriveReceiver(c, seg);
    case OpTick(ms) => TickReceiver(c, ms);
    case OpRead(_) =>
    case OpTakeOut =>
    case OpDestroy => DestroyReceiver(c);
  }

  // ---------- what one call emits ----------

  /** `x` is `core` but for the acknowledgment, the window and the reset flag. */
  predicate Carries(x: Segment, core: Segment) {
    && x.payload == core.payload && x.header.seqno == core.header.seqno
    && x.header.syn == core.header.syn && x.header.fin == core.header.fin
  }

  /** A segment that was first sent, or an empty one. */
  ghost predicate Genuine(x: Segment, s: Sender) {
    Carries(x, C.EMPTY_SEGMENT) || exists i :: 0 <= i < |s.sent| && Carries(x, s.sent[i])
  }

  /** The acknowledgment in `x`, if any, is the feedback of `r`. */
  predicate Acknowledges(x: Segment, r: Receiver) {
    x.header.ack ==> r.isnSet && Some(x.header.ackno) == r.Ackno() && x.header.win == r.WindowSize() % TWO16
  }

  ghost predicate Emits(c: C.Connection, d: C.Connection) {
    && c.out <= d.out
    && forall i :: |c.out| <= i < |d.out| ==> Genuine(d.out[i], d.sender) && Acknowledges(d.out[i], d.receiver)
  }

  lemma EmitOneOut(c: C.Connection, seg: Segment)
    requires c.sender.pending != []
    ensures var d := C.EmitOne(c);
            && d.out == c.out + [C.Stamp(c, c.sender.pending[0])] && d.sender.pending == c.sender.pending[1..]
            && C.Stamp(d, seg) == C.Stamp(c, seg)
  {}

  lemma {:induction false} EmitAllOut(c: C.Connection)
    ensures var d := C.EmitAll(c);
            && |d.out| == |c.out| + |c.sender.pending| && c.out <= d.out
            && forall i :: |c.out| <= i < |d.out| ==> d.out[i] == C.Stamp(c, c.sender.pending[i - |c.out|])
    decreases |c.sender.pending|
  {
    if c.sender.pending != [] {
      var d := C.EmitOne(c);
      EmitAllOut(d);
      assert C.EmitAll(c) == C.EmitAll(d);
      var out := C.EmitAll(d).out;
      EmitOneOut(c, c.sender.pending[0]);
      forall i | |c.out| <= i < |out| ensures out[i] == C.Stamp(c, c.sender.pending[i - |c.out|]) {
        if i > |c.out| {
          EmitOneOut(c, c.sender.pending[i - |c.out|]);
        }
      }
    }
  }

  lemma StampGenuine(c: C.Connection, seg: Segment)
    requires S.SpaceInv(c.sender) && (seg == C.EMPTY_SEGMENT || seg in c.sender.pending)
    ensures Genuine(C.Stamp(c, seg), c.sender) && Acknowledges(C.Stamp(c, seg), c.receiver)
  {
    assert Carries(C.Stamp(c, seg), seg);
    if seg != C.EMPTY_SEGMENT {
      var j :| 0 <= j < |c.sender.sent| && c.sender.sent[j] == seg;
      assert S.Placed(c.sender, j);
    }
  }

  /** Stamped pending segments, as an emission. */
  lemma StampedEmits(c: C.Connection, d: C.Connection)
    requires |d.out| == |c.out| + |c.sender.pending| && c.out <= d.out
    requires forall i :: |c.out| <= i < |d.out| ==> d.out[i] == C.Stamp(c, c.sender.pending[i - |c.out|])
    requires c.sender.sent == d.sender.sent && SameButError(c.receiver, d.receiver)
    requires forall seg :: seg in c.sender.pending ==>
                             Genuine(C.Stamp(c, seg), c.sender) && Acknowledges(C.Stamp(c, seg), c.receiver)
    ensures Emits(c, d)
  {
    forall i | |c.out| <= i < |d.out| ensures Genuine(d.out[i], d.sender) && Acknowledges(d.out[i], d.receiver) {
      var seg := c.sender.pending[i - |c.out|];
      assert seg in c.sender.pending;
      GenuineFrame(C.Stamp(c, seg), c.sender, d.sender);
      AcknowledgesFrame(C.Stamp(c, seg), c.receiver, d.receiver);
    }
  }

  lemma AcknowledgesFrame(x: Segment, r: Receiver, t: Receiver)
    requires Acknowledges(x, r) && SameButError(r, t)
    ensures Acknowledges(x, t)
  {}

  lemma EmitAllEmits(c: C.Connection)
    requires forall seg :: seg in c.sender.pending ==>
                             Genuine(C.Stamp(c, seg), c.sender) && Acknowledges(C.Stamp(c, seg), c.receiver)
    ensures Emits(c, C.EmitAll(c))
  {
    EmitAllOut(c);
    P.EmitAllShape(c);
    StampedEmits(c, C.EmitAll(c));
  }

  lemma StampFrame(c: C.Connection, q: C.Connection, seg: Segment)
    requires q.receiver == c.receiver && q.rstSet == c.rstSet
    ensures C.Stamp(q, seg) == C.Stamp(c, seg)
  {}

  lemma PendingGenuine(c: C.Connection, q: C.Connection, seg: Segment)
    requires S.SpaceInv(c.sender) && (seg == C.EMPTY_SEGMENT || seg in c.sender.pending)
    requires q.receiver == c.receiver && q.rstSet == c.rstSet && c.sender.sent <= q.sender.sent
    ensures Genuine(C.Stamp(q, seg), q.sender) && Acknowledges(C.Stamp(q, seg), q.receiver)
  {
    StampGenuine(c, seg);
    StampFrame(c, q, seg);
    GenuineFrame(C.Stamp(c, seg), c.sender, q.sender);
  }

  lemma SendSegsEmits(c: C.Connection)
    requires S.SpaceInv(c.sender)
    ensures Emits(c, C.SendSegs(c))
  {
    var q := C.WithPending(c);
    forall seg | seg in q.sender.pending
      ensures Genuine(C.Stamp(q, seg), q.sender) && Acknowledges(C.Stamp(q, seg), q.receiver)
    {
      PendingGenuine(c, q, seg);
    }
    EmitAllEmits(q);
    EmitsFrame(q, C.EmitAll(q), C.SendSegs(c));
  }

  lemma EmitsFrame(c: C.Connection, d: C.Connection, e: C.Connection)
    requires Emits(c, d) && e.out == d.out && e.sender == d.sender && e.receiver == d.receiver
    ensures Emits(c, e)
  {}

  lemma GenuineFrame(x: Segment, s: Sender, t: Sender)
    requires Genuine(x, s) && s.sent <= t.sent
    ensures Genuine(x, t)
  {
    if !Carries(x, C.EMPTY_SEGMENT) {
      var i :| 0 <= i < |s.sent| && Carries(x, s.sent[i]);
      assert Carries(x, t.sent[i]);
    }
  }

  /** Nothing emitted. */
  lemma EmitsNothing(c: C.Connection, d: C.Connection)
    requires d.out == c.out
    ensures Emits(c, d)
  {}

  lemma ReplyEmits(c: C.Connection, seg: Segment)
    requires S.SpaceInv(c.sender)
    ensures Emits(c, C.Reply(c, seg))
  {
    var d := if seg.header.fin then c.(recFin := Some(seg.header.seqno)) else c;
    SendSegsEmits(d);
    if !(c.finAckSent && !seg.header.fin) && SeqLength(seg) > 0 {
      EmitsFrame(c, C.SendSegs(d), C.Reply(c, seg));
    } else {
      EmitsNothing(c, C.Reply(c, seg));
    }
  }

  lemma ArriveEmits(c: C.Connection, seg: Segment)
    requires S.SpaceInv(c.sender)
    ensures Emits(c, C.Arrive(c, seg))
  {
    if TakesIn(c, seg) {
      var d := C.Digest(C.Open(c), seg);
      assert S.SpaceInv(d.sender) by {
        S.FillSpace(c.sender);
        S.AcknowledgeSpace(C.Open(c).sender, seg.header.ackno, seg.header.win);
      }
      assert d.out == c.out;
      ReplyEmits(d, seg);
      assert C.Arrive(c, seg) == C.Reply(d, seg);
    }
  }

  lemma TickEmits(c: C.Connection, ms: nat)
    requires S.SpaceInv(c.sender)
    ensures Emits(c, C.Tick(c, ms))
  {
    if c.active {
      S.StepSpace(c.sender, S.Time(ms));
      var d := C.Pass(c, ms);
      if d.sender.retx > MAX_RETX_ATTEMPTS {
        GiveUpEmits(d);
      } else {
        WaitEmits(c, C.GiveUp(d));
      }
    }
  }

  /** Time has passed, and the clock has made something pending or not. */
  lemma WaitEmits(c: C.Connection, d: C.Connection)
    requires d.out == c.out && S.SpaceInv(d.sender)
    ensures Emits(c, C.SendSegs(d)) && Emits(c, d)
  {
    SendSegsEmits(d);
  }

  lemma GiveUpEmits(c: C.Connection)
    requires S.SpaceInv(c.sender) && c.sender.retx > MAX_RETX_ATTEMPTS
    ensures Emits(c, C.GiveUp(c)) && !C.GiveUp(c).active
  {
    var d := c.(rstSet := true);
    SendSegsEmits(d);
    SendSegsShape(d);
    assert d.out == c.out;
    EmitsFrame(c, C.SendSegs(d), C.GiveUp(c));
  }

  lemma FillSendEmits(c: C.Connection, e: S.Event)
    requires S.SpaceInv(c.sender)
    ensures Emits(c, C.SendSegs(c.(sender := Fill(S.Step(c.sender, e)))))
  {
    var d := c.(sender := Fill(S.Step(c.sender, e)));
    S.StepSpace(c.sender, e);
    S.FillSpace(S.Step(c.sender, e));
    SendSegsEmits(d);
    assert d.out == c.out;
  }

  lemma ConnectEmits(c: C.Connection)
    requires S.SpaceInv(c.sender)
    ensures Emits(c, C.Connect(c))
  {
    var d := c.(sender := Fill(c.sender));
    S.FillSpace(c.sender);
    SendSegsEmits(d);
    assert d.out == c.out;
  }

  lemma DestroyEmits(c: C.Connection)
    requires S.SpaceInv(c.sender)
    ensures Emits(c, C.Destroy(c))
  {
    var d := c.(rstSet := true);
    SendSegsEmits(d);
    assert d.out == c.out;
  }

  /** Every call emits only genuine segments, stamped with the feedback of the moment. */
  lemma StepEmits(c: C.Connection, op: P.Op)
    requires S.SpaceInv(c.sender) && !op.OpTakeOut?
    ensures Emits(c, P.Step(c, op))
  {
    match op
    case OpConnect => ConnectEmits(c);
    case OpWrite(data) => FillSendEmits(c, S.Write(data));
    case OpEndInput => FillSendEmits(c, S.EndInput);
    case OpSegment(seg) => ArriveEmits(c, seg);
    case OpTick(ms) => TickEmits(c, ms);
    case OpRead(_) => EmitsNothing(c, P.Step(c, op));
    case OpDestroy => DestroyEmits(c);
  }
}
