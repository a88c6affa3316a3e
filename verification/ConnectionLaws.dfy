/** What a connection answers, and what each call does to its clock, its wish to linger and its reset mark. */
module ConnectionLaws {
  import opened Common
  import opened Wrapping
  import opened ByteStreams
  import opened Reassembly
  import opened Segments
  import opened Receiving
  import opened Sending
  import S = SendingProofs
  import opened AckProofs
  import opened WindowProofs
  import opened Connections
  import opened TcpStates
  import P = ConnectionProofs
  import opened Peers

  // ---------- what is handed over ----------

  /** `x` is `core` with the feedback of `c`'s receiver, and a reset if `c` is being reset. */
  predicate Handed(c: Connection, core: Segment, x: Segment) {
    && Carries(x, core) && (x.header.ack <==> c.receiver.isnSet) && Acknowledges(x, c.receiver)
    && (x.header.rst <==> c.rstSet)
  }

  lemma StampIsHanded(c: Connection, core: Segment)
    requires S.SpaceInv(c.sender) && (core == EMPTY_SEGMENT || core in c.sender.pending)
    ensures Handed(c, core, Stamp(c, core))
  {
    if core != EMPTY_SEGMENT {
      var j :| 0 <= j < |c.sender.sent| && c.sender.sent[j] == core;
      assert S.Placed(c.sender, j);
    }
  }

  lemma HandedFrame(c: Connection, q: Connection, core: Segment, x: Segment)
    requires S.SpaceInv(c.sender) && (core == EMPTY_SEGMENT || core in c.sender.pending)
    requires q.receiver == c.receiver && q.rstSet == c.rstSet && x == Stamp(q, core)
    ensures Handed(c, core, x)
  {
    StampFrame(c, q, core);
    StampIsHanded(c, core);
  }

  /** `out` is `before` with `cores` handed over by `c` after it. */
  predicate Appends(c: Connection, before: seq<Segment>, cores: seq<Segment>, out: seq<Segment>) {
    && |out| == |before| + |cores| && before <= out
    && forall i :: |before| <= i < |out| ==> Handed(c, cores[i - |before|], out[i])
  }

  /** All that was pending is handed over, in order, or one empty segment if nothing was; nothing stays pending. */
  lemma HandsOverAll(c: Connection)
    requires S.SpaceInv(c.sender)
    ensures var d := SendSegs(c);
            && d.sender.pending == []
            && Appends(c, c.out, if c.sender.pending == [] then [EMPTY_SEGMENT] else c.sender.pending, d.out)
  {
    var q := WithPending(c);
    assert SendSegs(c).out == EmitAll(q).out && q.out == c.out;
    assert SendSegs(c).sender.pending == [] by {
      SendSegsShape(c);
    }
    assert Appends(c, c.out, q.sender.pending, EmitAll(q).out) by {
      EmitAllOut(q);
      HandedAll(c, q, EmitAll(q).out);
    }
  }

  lemma HandedAll(c: Connection, q: Connection, out: seq<Segment>)
    requires S.SpaceInv(c.sender) && q == WithPending(c)
    requires |out| == |c.out| + |q.sender.pending| && c.out <= out
    requires forall i :: |c.out| <= i < |out| ==> out[i] == Stamp(q, q.sender.pending[i - |c.out|])
    ensures Appends(c, c.out, q.sender.pending, out)
  {
    forall i | |c.out| <= i < |out| ensures Handed(c, q.sender.pending[i - |c.out|], out[i]) {
      HandedFrame(c, q, q.sender.pending[i - |c.out|], out[i]);
    }
  }

  // ---------- answers ----------

  /** A segment that takes up sequence space is answered, unless the peer's FIN has been acknowledged and it is no
      FIN. */
  predicate Answered(c: Connection, seg: Segment) {
    SeqLength(seg) > 0 && !(c.finAckSent && !seg.header.fin)
  }

  /** The end a segment finds: opened, the segment received and its acknowledgment taken. */
  lemma DigestFacts(c: Connection, seg: Segment)
    requires P.Inv(c) && TakesIn(c, seg)
    ensures var e := Digest(Open(c), seg);
            && S.SpaceInv(e.sender) && !e.rstSet && e.out == c.out && e.finAckSent == c.finAckSent
            && e.receiver == Receive(c.receiver, seg)
  {
    S.FillSpace(c.sender);
    S.AcknowledgeSpace(Open(c).sender, seg.header.ackno, seg.header.win);
  }

  /** `x` answers with the number and window of `r`. */
  predicate Answers(x: Segment, r: Receiver) {
    (x.header.ack <==> r.isnSet) && Acknowledges(x, r) && !x.header.rst
  }

  lemma ReplyAnswers(c: Connection, seg: Segment)
    requires S.SpaceInv(c.sender) && !c.rstSet
    ensures var d := Reply(c, seg);
            && d.receiver == c.receiver && c.out <= d.out
            && (Answered(c, seg) ==> d.sender.pending == [] && |d.out| > |c.out|)
            && (!Answered(c, seg) ==> d.out == c.out && d.sender == c.sender)
            && forall i :: |c.out| <= i < |d.out| ==> Answers(d.out[i], d.receiver)
  {
    var f := if seg.header.fin then c.(recFin := Some(seg.header.seqno)) else c;
    if Answered(c, seg) {
      HandsOverAll(f);
      SendSegsShape(f);
      assert Reply(c, seg) == CleanShutdown(SendSegs(f));
    }
  }

  /** An arriving segment is answered exactly when it should be; the answer takes along everything pending, and every
      segment of it carries the number and window of the receiver after the arrival. */
  lemma AnswerExact(c: Connection, seg: Segment)
    requires P.Inv(c) && TakesIn(c, seg)
    ensures var d := Arrive(c, seg);
            && d.receiver == Receive(c.receiver, seg) && c.out <= d.out
            && (|d.out| > |c.out| <==> Answered(c, seg))
            && (Answered(c, seg) ==> d.sender.pending == [])
            && forall i :: |c.out| <= i < |d.out| ==> Answers(d.out[i], d.receiver)
  {
    DigestFacts(c, seg);
    ReplyAnswers(Digest(Open(c), seg), seg);
  }

  // ---------- the marks one call leaves ----------

  /** The peer is done and we are not: the outbound stream has bytes left, or no end yet. */
  predicate PeerFirst(c: Connection) {
    c.receiver.Out().ended && !c.sender.stream.Eof()
  }

  /** Nothing left to do, and no reason to wait longer. */
  predicate Over(c: Connection) {
    Finished(c) && (c.time >= 10 * c.rtTimeout || !c.linger)
  }

  lemma SendSegsMarks(c: Connection)
    ensures var d := SendSegs(c);
            && d.rtTimeout == c.rtTimeout && d.time == c.time && d.rstSet == c.rstSet && d.recFin == c.recFin
            && PeerFirst(d) == PeerFirst(c) && d.linger == (c.linger && !PeerFirst(c))
            && d.active == (c.active && !c.rstSet && !Over(d))
  {
    P.HandedOver(c);
  }

  /** A segment the connection listens to at all. */
  predicate LetIn(c: Connection, seg: Segment) {
    c.active && (c.synSet || seg.header.syn)
  }

  lemma CleanShutdownTwice(c: Connection)
    ensures CleanShutdown(CleanShutdown(c)) == CleanShutdown(c)
  {}

  /** Handing over what is pending cannot keep a connection open that is over. */
  lemma SendSegsOver(c: Connection)
    ensures Over(c) ==> Over(SendSegs(c))
  {
    SendSegsMarks(c);
    SendSegsShape(c);
  }

  /** Looked at again, whether or not something was handed over first. */
  predicate Reviewed(c: Connection, d: Connection) {
    && d.time == c.time && !d.rstSet && d.rtTimeout == c.rtTimeout && PeerFirst(d) == PeerFirst(c)
    && d.linger == (c.linger && !PeerFirst(c)) && d.active == (c.active && !Over(d)) && (Over(c) ==> Over(d))
  }

  lemma ReplyMarks(c: Connection, seg: Segment)
    requires !c.rstSet
    ensures var d := Reply(c, seg); if c.finAckSent && !seg.header.fin then d == c else Reviewed(c, d)
  {
    var f := if seg.header.fin then c.(recFin := Some(seg.header.seqno)) else c;
    SendSegsMarks(f);
    SendSegsOver(f);
    CleanShutdownTwice(EmitAll(WithPending(f)));
    assert Reviewed(c, SendSegs(f)) && Reviewed(c, CleanShutdown(f));
  }

  lemma DigestMarks(c: Connection, seg: Segment)
    ensures var d := Digest(c, seg);
            && d.time == c.time && d.rstSet == c.rstSet && d.rtTimeout == c.rtTimeout
            && d.finAckSent == c.finAckSent
            && d.linger == (c.linger && !(seg.header.ack && PeerFirst(d)))
            && d.active == (c.active && !(seg.header.ack && Over(d)))
  {}

  lemma ArriveMarks(c: Connection, seg: Segment)
    requires !c.rstSet && TakesIn(c, seg)
    ensures Marks(c, P.OpSegment(seg), Arrive(c, seg))
  {
    var e := Digest(Open(c), seg);
    DigestMarks(Open(c), seg);
    ReplyMarks(e, seg);
    assert Arrive(c, seg) == Reply(e, seg);
  }

  /** The time since the last segment let in, after one more call. */
  function Clock(time: nat, c: Connection, op: P.Op): nat {
    match op
    case OpTick(ms) => if c.active then time + ms else time
    case OpSegment(seg) => if LetIn(c, seg) then 0 else time
    case _ => time
  }

  /** The calls that look at the two streams to see whether the connection may end. */
  predicate Attends(c: Connection, op: P.Op) {
    match op
    case OpSegment(seg) => TakesIn(c, seg) && (seg.header.ack || seg.header.fin || !c.finAckSent)
    case OpTick(_) => c.active
    case OpDestroy => c.active
    case OpRead(_) => false
    case OpTakeOut => false
    case _ => true
  }

  /** The calls that reset the connection. */
  predicate Resets(c: Connection, op: P.Op) {
    match op
    case OpSegment(seg) => LetIn(c, seg) && seg.header.rst
    case OpTick(ms) => c.active && Elapse(c.sender, ms).retx > MAX_RETX_ATTEMPTS
    case OpDestroy => c.active
    case _ => false
  }

  /** One call: the clock, the wish to linger, the reset mark, and whether the connection goes on. */
  predicate Marks(c: Connection, op: P.Op, d: Connection) {
    && d.rtTimeout == c.rtTimeout && d.time == Clock(c.time, c, op)
    && d.linger == (c.linger && !(PeerFirst(d) && Attends(c, op)))
    && d.rstSet == (c.rstSet || Resets(c, op))
    && d.active == (c.active && !d.rstSet && !(Attends(c, op) && Over(d)))
  }

  lemma TickMarks(c: Connection, ms: nat)
    requires !c.rstSet && c.active
    ensures Marks(c, P.OpTick(ms), Tick(c, ms))
  {
    var d := Pass(c, ms);
    SendSegsMarks(d.(rstSet := true));
    SendSegsMarks(GiveUp(d));
  }

  lemma StepMarks(c: Connection, op: P.Op)
    requires c.rstSet ==> !c.active
    ensures Marks(c, op, P.Step(c, op))
  {
    match op
    case OpConnect => SendSegsMarks(c.(sender := Fill(c.sender)));
    case OpWrite(data) => SendSegsMarks(c.(sender := Fill(S.Step(c.sender, S.Write(data)))));
    case OpEndInput => SendSegsMarks(c.(sender := Fill(S.Step(c.sender, S.EndInput))));
    case OpSegment(seg) => SegmentMarks(c, seg);
    case OpTick(ms) => LapseMarks(c, ms);
    case OpRead(_) =>
    case OpTakeOut =>
    case OpDestroy => DestroyMarks(c);
  }

  lemma SegmentMarks(c: Connection, seg: Segment)
    requires c.rstSet ==> !c.active
    ensures Marks(c, P.OpSegment(seg), Arrive(c, seg))
  {
    if TakesIn(c, seg) {
      ArriveMarks(c, seg);
    }
  }

  lemma LapseMarks(c: Connection, ms: nat)
    requires c.rstSet ==> !c.active
    ensures Marks(c, P.OpTick(ms), Tick(c, ms))
  {
    if c.active {
      TickMarks(c, ms);
    }
  }

  lemma DestroyMarks(c: Connection)
    requires c.rstSet ==> !c.active
    ensures Marks(c, P.OpDestroy, Destroy(c))
  {
    SendSegsMarks(c.(rstSet := true));
  }
}
