/** From the first SYN to the last retransmission: how connections open, and how they give up. */
module HandshakeProofs {
  import opened Common
  import opened Wrapping
  import opened ByteStreams
  import opened Reassembly
  import opened Segments
  import opened Receiving
  import opened Sending
  import S = SendingProofs
  import opened AckProofs
  import opened WindowProofs
  import opened Connections
  import P = ConnectionProofs
  import opened TcpStates
  import opened Peers
  import opened ConnectionLaws
  import opened CallProofs
  import opened RunProofs

  // ---------- the sending half ----------

  /** A sender that has sent its SYN and has nothing else to send. */
  predicate SynOnly(s: Sender, pending: seq<Segment>, retired: nat) {
    && s.sent == [SegmentAt(s.isn, true, false, [])] && s.retired == retired && s.pending == pending
    && s.nextSeqno == 1 && s.bytesInFlight == 1 - retired && s.synFlag && !s.finFlag
    && s.stream.history == [] && s.stream.readCount == 0 && !s.stream.ended && !s.stream.error
  }

  lemma FirstFill(capacity: nat, rto: U16, isn: U32)
    ensures var s := Fill(EmptySender(capacity, rto, isn));
            SynOnly(s, [SegmentAt(isn, true, false, [])], 0) && s.isn == isn && s.ackGot == isn
  {
    assert Wrap(0, isn) == isn;
  }

  lemma NothingToFill(s: Sender)
    requires s.synFlag && !s.finFlag && s.stream.history == [] && s.stream.readCount == 0 && !s.stream.ended
    ensures var t := Fill(s); t == s.(window := t.window)
  {
    var w := if s.window == 0 then s.(window := 1) else s;
    assert Blocked(w) || SeqLength(NextSegment(w)) == 0;
    assert FillLoop(w) == w;
  }

  /** The acknowledgment of the SYN retires it, unless the SYN has the last number of all. */
  lemma SynAcknowledged(s: Sender, win: U16)
    requires SynOnly(s, [], 0) && s.ackGot == s.isn
    ensures var t := Acknowledge(s, (s.isn + 1) % TWO32, win);
            && SynOnly(t, [], if s.isn == TWO32 - 1 then 0 else 1) && t.isn == s.isn
            && (s.isn == TWO32 - 1 ==> t.ackGot == s.isn)
  {
    var ackno := (s.isn + 1) % TWO32;
    assert Wrap(s.nextSeqno, s.isn) == ackno;
    var r := s.(retired := 1, bytesInFlight := 0);
    assert Retire(r, ackno) == r;
    assert Retire(s, ackno) == if s.isn == TWO32 - 1 then s else r;
    NothingToFill(Advance(Retire(s, ackno), ackno).(window := win));
  }

  // ---------- the receiving half ----------

  lemma EmptyPushOnEmpty(capacity: nat, index: nat)
    ensures Push(EmptyReassembler(capacity), [], index, false) == EmptyReassembler(capacity)
  {
    var e := EmptyReassembler(capacity);
    var none: Bytes := [];
    assert none[0..] == none && WriteUpTo(e, [], 0) == e && Drain(e) == e;
  }

  lemma BareSegmentHeard(r: Receiver, capacity: nat, seg: Segment)
    requires r.reassembler == EmptyReassembler(capacity) && seg.payload == [] && !seg.header.fin
    requires seg.header.syn || r.isnSet
    ensures Receive(r, seg) == Receiver(r.reassembler, if seg.header.syn then seg.header.seqno else r.isn, true)
  {
    EmptyPushOnEmpty(capacity, StreamIndex(seg, if seg.header.syn then seg.header.seqno else r.isn, 0));
  }

  // ---------- the two ends ----------

  /** An open end with nothing to say: its SYN sent and `retired` or not, the peer's SYN heard or not. */
  ghost predicate Greeted(c: Connection, retired: nat, heard: Option<U32>, capacity: nat) {
    && P.Inv(c) && c.active && !c.rstSet && c.linger && !c.finAckSent && c.recFin == None && c.synSet
    && SynOnly(c.sender, [], retired) && (retired == 0 ==> c.sender.ackGot == c.sender.isn)
    && c.receiver.reassembler == EmptyReassembler(capacity) && c.receiver.isnSet == heard.Some?
    && (heard.Some? ==> c.receiver.isn == heard.value)
  }

  lemma FreshInv(c: Connection)
    requires Fresh(c)
    ensures P.Inv(c)
  {
    P.RunInv(c.rtTimeout, c.sender.stream.capacity, c.receiver.Out().capacity, c.sender.isn, []);
  }

  /** Connecting sends one bare SYN with the connection's own number and nothing acknowledged. */
  lemma ConnectSends(c: Connection)
    requires Fresh(c)
    ensures var d := Connect(c);
            && Greeted(d, 0, None, c.receiver.Out().capacity) && d.sender.isn == c.sender.isn
            && |d.out| == 1 && Carries(d.out[0], SegmentAt(c.sender.isn, true, false, []))
            && !d.out[0].header.ack && !d.out[0].header.rst
  {
    var d := Connect(c);
    FreshInv(c);
    P.StepInv(c, P.OpConnect);
    FirstFill(c.sender.stream.capacity, c.rtTimeout, c.sender.isn);
    StepHalves(c, P.OpConnect);
    StepMarks(c, P.OpConnect);
    StepSigns(c, P.OpConnect);
    var pending := Fill(c.sender).pending;
    assert pending[0].header.syn;
    assert Handed(d, pending[0], d.out[0]);
  }

  predicate Bare(seg: Segment) {
    seg.payload == [] && !seg.header.fin && !seg.header.rst
  }

  /** `x` acknowledges a peer's SYN numbered `isn` and nothing more. */
  predicate AcksSyn(x: Segment, isn: U32) {
    x.header.ack && x.header.ackno == (isn + 1) % TWO32
  }

  lemma SynAnswered(x: Segment, r: Receiver, capacity: nat)
    requires (x.header.ack <==> r.isnSet) && Acknowledges(x, r) && r.isnSet
    requires r.reassembler == EmptyReassembler(capacity)
    ensures AcksSyn(x, r.isn)
  {}

  /** A listening end answers a bare SYN with one SYN of its own that acknowledges it. */
  lemma PassiveOpen(c: Connection, seg: Segment)
    requires Fresh(c) && Bare(seg) && seg.header.syn && !seg.header.ack
    ensures var d := Arrive(c, seg);
            && Greeted(d, 0, Some(seg.header.seqno), c.receiver.Out().capacity) && d.sender.isn == c.sender.isn
            && |d.out| == 1 && Carries(d.out[0], SegmentAt(c.sender.isn, true, false, []))
            && AcksSyn(d.out[0], seg.header.seqno) && !d.out[0].header.rst
  {
    var d, op := Arrive(c, seg), P.OpSegment(seg);
    FreshInv(c);
    P.StepInv(c, op);
    FirstFill(c.sender.stream.capacity, c.rtTimeout, c.sender.isn);
    BareSegmentHeard(c.receiver, c.receiver.Out().capacity, seg);
    StepHalves(c, op);
    StepMarks(c, op);
    StepSigns(c, op);
    assert Handed(d, Fill(c.sender).pending[0], d.out[0]);
    SynAnswered(d.out[0], d.receiver, c.receiver.Out().capacity);
  }

  lemma GreetingSender(c: Connection, seg: Segment)
    requires c.active && c.synSet && Bare(seg) && SynOnly(c.sender, [], 0) && c.sender.ackGot == c.sender.isn
    requires seg.header.ack ==> AcksSyn(seg, c.sender.isn)
    ensures var m := Moved(c, P.OpSegment(seg));
            var retired := if seg.header.ack && c.sender.isn != TWO32 - 1 then 1 else 0;
            SynOnly(m, [], retired) && m.isn == c.sender.isn && (retired == 0 ==> m.ackGot == m.isn)
  {
    if seg.header.ack {
      SynAcknowledged(c.sender, seg.header.win);
    }
  }

  lemma GreetingReceiver(c: Connection, seg: Segment, capacity: nat)
    requires c.active && c.synSet && Bare(seg) && c.receiver.reassembler == EmptyReassembler(capacity)
    requires seg.header.syn || c.receiver.isnSet
    ensures Heard(c, P.OpSegment(seg)) == Receiver(EmptyReassembler(capacity),
                                                   if seg.header.syn then seg.header.seqno else c.receiver.isn, true)
  {
    BareSegmentHeard(c.receiver, capacity, seg);
  }

  lemma GreetingMarks(c: Connection, seg: Segment, heard: Option<U32>, capacity: nat)
    requires Greeted(c, 0, heard, capacity) && Bare(seg) && (seg.header.syn || heard.Some?)
    requires Halves(c, P.OpSegment(seg), Arrive(c, seg)) && !Heard(c, P.OpSegment(seg)).Out().ended
    ensures var d := Arrive(c, seg);
            P.Inv(d) && d.active && !d.rstSet && d.linger && !d.finAckSent && d.recFin == None && d.synSet
  {
    var op := P.OpSegment(seg);
    P.StepInv(c, op);
    StepMarks(c, op);
    StepSigns(c, op);
  }

  /** An end that has sent its SYN takes a bare segment: an acknowledgment retires the SYN, a SYN is acknowledged. */
  lemma Greets(c: Connection, seg: Segment, heard: Option<U32>, capacity: nat)
    requires Greeted(c, 0, heard, capacity) && Bare(seg) && (seg.header.syn || heard.Some?)
    requires seg.header.ack ==> AcksSyn(seg, c.sender.isn)
    ensures var d := Arrive(c, seg);
            && Greeted(d, if seg.header.ack && c.sender.isn != TWO32 - 1 then 1 else 0,
                       if seg.header.syn then Some(seg.header.seqno) else heard, capacity)
            && d.sender.isn == c.sender.isn
            && if seg.header.syn
               then |d.out| == |c.out| + 1 && Carries(d.out[|c.out|], EMPTY_SEGMENT)
                    && AcksSyn(d.out[|c.out|], seg.header.seqno) && !d.out[|c.out|].header.rst
               else d.out == c.out
  {
    var d, op := Arrive(c, seg), P.OpSegment(seg);
    GreetingSender(c, seg);
    GreetingReceiver(c, seg, capacity);
    StepHalves(c, op);
    GreetingMarks(c, seg, heard, capacity);
    if seg.header.syn {
      assert Handed(d, EMPTY_SEGMENT, d.out[|c.out|]);
      SynAnswered(d.out[|c.out|], d.receiver, capacity);
    }
  }

  /** The name RFC 793 has for such an end. */
  lemma GreetedState(c: Connection, retired: nat, heard: Option<U32>, capacity: nat)
    requires Greeted(c, retired, heard, capacity) && retired <= (if heard.None? then 0 else 1)
    ensures Summarize(c) ==
            Official(if heard.None? then SYN_SENT else if retired == 0 then SYN_RCVD else ESTABLISHED)
  {}

  /** The three-way handshake of any two fresh ends, `a` calling: SYN, SYN with acknowledgment, acknowledgment, and then
      each end is ESTABLISHED, unless its own SYN had the last number of all: its acknowledgment is then not taken. */
  lemma ThreeWayHandshake(a: Connection, b: Connection)
    requires Fresh(a) && Fresh(b)
    ensures var a1 := Connect(a);
            && |a1.out| == 1
            && var b1 := Arrive(b, a1.out[0]);
            && |b1.out| == 1
            && var a2 := Arrive(a1, b1.out[0]);
            && |a2.out| == 2
            && var b2 := Arrive(b1, a2.out[1]);
            && Summarize(a) == Summarize(b) == Official(LISTEN)
            && Summarize(a1) == Official(SYN_SENT) && Summarize(b1) == Official(SYN_RCVD)
            && Summarize(a2) == Official(if a.sender.isn == TWO32 - 1 then SYN_RCVD else ESTABLISHED)
            && Summarize(b2) == Official(if b.sender.isn == TWO32 - 1 then SYN_RCVD else ESTABLISHED)
  {
    var ca, cb := a.receiver.Out().capacity, b.receiver.Out().capacity;
    ConnectSends(a);
    var a1 := Connect(a);
    GreetedState(a1, 0, None, ca);
    PassiveOpen(b, a1.out[0]);
    var b1 := Arrive(b, a1.out[0]);
    GreetedState(b1, 0, Some(a.sender.isn), cb);
    Greets(a1, b1.out[0], None, ca);
    var a2 := Arrive(a1, b1.out[0]);
    GreetedState(a2, if a.sender.isn == TWO32 - 1 then 0 else 1, Some(b.sender.isn), ca);
    Greets(b1, a2.out[1], Some(a.sender.isn), cb);
    GreetedState(Arrive(b1, a2.out[1]), if b.sender.isn == TWO32 - 1 then 0 else 1, Some(a.sender.isn), cb);
  }

  /** Both ends calling at once: the SYNs cross, each is acknowledged, and both ends are ESTABLISHED. */
  lemma SimultaneousOpen(a: Connection, b: Connection)
    requires Fresh(a) && Fresh(b)
    ensures var a1, b1 := Connect(a), Connect(b);
            && |a1.out| == |b1.out| == 1
            && var a2, b2 := Arrive(a1, b1.out[0]), Arrive(b1, a1.out[0]);
            && |a2.out| == |b2.out| == 2 && Summarize(a2) == Summarize(b2) == Official(SYN_RCVD)
            && var a3, b3 := Arrive(a2, b2.out[1]), Arrive(b2, a2.out[1]);
            && Summarize(a3) == Official(if a.sender.isn == TWO32 - 1 then SYN_RCVD else ESTABLISHED)
            && Summarize(b3) == Official(if b.sender.isn == TWO32 - 1 then SYN_RCVD else ESTABLISHED)
  {
    var ca, cb := a.receiver.Out().capacity, b.receiver.Out().capacity;
    ConnectSends(a);
    ConnectSends(b);
    var a1, b1 := Connect(a), Connect(b);
    Greets(a1, b1.out[0], None, ca);
    Greets(b1, a1.out[0], None, cb);
    var a2, b2 := Arrive(a1, b1.out[0]), Arrive(b1, a1.out[0]);
    GreetedState(a2, 0, Some(b.sender.isn), ca);
    GreetedState(b2, 0, Some(a.sender.isn), cb);
    Greets(a2, b2.out[1], Some(b.sender.isn), ca);
    Greets(b2, a2.out[1], Some(a.sender.isn), cb);
    GreetedState(Arrive(a2, b2.out[1]), if a.sender.isn == TWO32 - 1 then 0 else 1, Some(b.sender.isn), ca);
    GreetedState(Arrive(b2, a2.out[1]), if b.sender.isn == TWO32 - 1 then 0 else 1, Some(a.sender.isn), cb);
  }
}

/** What ends a connection badly: too many retransmissions, an arriving reset, destruction. */
module ResetProofs {
  import opened Common
  import opened ByteStreams
  import opened Segments
  import opened Receiving
  import opened Sending
  import S = SendingProofs
  import opened AckProofs
  import opened WindowProofs
  import opened TimerProofs
  import opened Connections
  import P = ConnectionProofs
  import opened TcpStates
  import opened Peers
  import opened ConnectionLaws
  import opened CallProofs

  /** Failed on both sides, for good. */
  predicate WasReset(c: Connection) {
    && c.rstSet && !c.active && c.sender.stream.error && c.receiver.Out().error
    && Summarize(c) == Official(RESET)
  }

  /** An arriving reset fails both streams at once and is not answered; before any SYN it is ignored. */
  lemma ResetObeyed(c: Connection, seg: Segment)
    requires P.Inv(c) && seg.header.rst
    ensures var d := Arrive(c, seg);
            && d.out == c.out
            && if c.active && (c.synSet || seg.header.syn) then WasReset(d) else d == c
  {}

  /** Destroying an active connection resets it and tells the peer; an inactive one has nothing to tell. */
  lemma DestroyResets(c: Connection)
    requires P.Inv(c)
    ensures var d := Destroy(c);
            if c.active
            then WasReset(d) && |d.out| > |c.out|
                 && forall i :: |c.out| <= i < |d.out| ==> d.out[i].header.rst
            else d == c
  {
    if c.active {
      StepHalves(c, P.OpDestroy);
      StepMarks(c, P.OpDestroy);
    }
  }

  /** Time passes until the retransmission clock strikes. */
  function Strike(c: Connection): Connection {
    Tick(c, if c.sender.timer.time < c.sender.timer.rto then c.sender.timer.rto - c.sender.timer.time else 0)
  }

  /** The oldest outstanding segment went out last, with a reset or without. */
  predicate SentAgain(c: Connection, d: Connection) {
    && c.sender.retired < |c.sender.sent| && |d.out| == |c.out| + |c.sender.pending| + 1
    && Carries(d.out[|d.out| - 1], c.sender.sent[c.sender.retired]) && d.out[|d.out| - 1].header.rst == d.rstSet
  }

  lemma SmallTimeout(c: Connection)
    requires P.Inv(c) && c.active && Waiting(c.sender)
    ensures 0 < c.sender.timer.rto && c.sender.timer.rto * 2 < TWO32
  {
    TimeoutBound(c.rtTimeout, c.sender.retx);
  }

  lemma TimeoutBound(rtTimeout: U16, n: nat)
    requires n <= MAX_RETX_ATTEMPTS
    ensures rtTimeout * Pow2(n) * 2 < TWO32
  {
    P.Pow2Small(n);
    TimesGrows(rtTimeout, Pow2(n), 256);
  }

  lemma TimesGrows(a: nat, b: nat, m: nat)
    requires b <= m
    ensures a * b <= a * m
  {}

  lemma StrikeMoves(c: Connection)
    requires P.Inv(c) && c.active && Waiting(c.sender)
    ensures Struck(c.sender, Elapse(c.sender, c.sender.timer.rto - c.sender.timer.time))
  {
    SmallTimeout(c);
    LongLapse(c.sender, c.sender.timer.rto - c.sender.timer.time);
  }

  /** The connection goes on waiting: the strike has counted and doubled the timeout, or neither. */
  predicate WaitsOn(c: Connection, d: Connection) {
    && d.active && !d.rstSet && Waiting(d.sender) && d.sender.pending == []
    && Counts(d.sender) == Counts(c.sender)
    && d.sender.retx == (if Counts(c.sender) then c.sender.retx + 1 else c.sender.retx)
    && d.sender.timer.rto == (if Counts(c.sender) then c.sender.timer.rto * 2 else c.sender.timer.rto)
  }

  lemma StrikeGoes(c: Connection, ms: nat)
    requires P.Inv(c) && c.active && Struck(c.sender, Elapse(c.sender, ms))
    ensures var m, d := Elapse(c.sender, ms), Tick(c, ms);
            && P.Inv(d) && Went(c.out, m, c.receiver, true, d)
            && d.rstSet == (m.retx > MAX_RETX_ATTEMPTS) && d.active == (!d.rstSet && !Over(d))
  {
    var op := P.OpTick(ms);
    P.StepInv(c, op);
    StepHalves(c, op);
    StepMarks(c, op);
  }

  lemma StruckWaits(c: Connection, m: Sender, d: Connection)
    requires P.Inv(c) && c.active && Waiting(c.sender) && Struck(c.sender, m) && P.Inv(d)
    requires Went(c.out, m, c.receiver, true, d) && !d.rstSet && d.active == !Over(d)
    requires c.sender.timer.rto * 2 < TWO32
    ensures WaitsOn(c, d)
  {
    SmallMod(c.sender.timer.rto * 2);
    assert d.sender.bytesInFlight > 0 by {
      InFlightPositive(d.sender);
    }
  }

  lemma StruckSends(c: Connection, m: Sender, d: Connection)
    requires Struck(c.sender, m) && Went(c.out, m, c.receiver, true, d)
    ensures SentAgain(c, d)
  {
    assert Handed(d, c.sender.sent[c.sender.retired], d.out[|d.out| - 1]);
  }

  lemma StrikeOutcome(c: Connection, m: Sender, d: Connection)
    requires P.Inv(c) && c.active && Waiting(c.sender) && c.sender.timer.rto * 2 < TWO32 && Struck(c.sender, m)
    requires P.Inv(d) && Went(c.out, m, c.receiver, true, d)
    requires d.rstSet == (m.retx > MAX_RETX_ATTEMPTS) && d.active == (!d.rstSet && !Over(d))
    ensures SentAgain(c, d)
    ensures if Counts(c.sender) && c.sender.retx == MAX_RETX_ATTEMPTS then WasReset(d) else WaitsOn(c, d)
  {
    StruckSends(c, m, d);
    if !d.rstSet {
      StruckWaits(c, m, d);
    }
  }

  lemma StrikeHappens(c: Connection) returns (m: Sender)
    requires P.Inv(c) && c.active && Waiting(c.sender)
    ensures var d := Strike(c);
            && Struck(c.sender, m) && P.Inv(d) && Went(c.out, m, c.receiver, true, d)
            && d.rstSet == (m.retx > MAX_RETX_ATTEMPTS) && d.active == (!d.rstSet && !Over(d))
  {
    var ms: nat := c.sender.timer.rto - c.sender.timer.time;
    m := Elapse(c.sender, ms);
    assert Struck(c.sender, m) by {
      StrikeMoves(c);
    }
    assert Strike(c) == Tick(c, ms);
    StrikeGoes(c, ms);
  }

  /** One strike: the oldest segment goes out again; if the strike counts and is the ninth in a row the connection is
      reset, and otherwise it goes on waiting. */
  lemma StrikeExact(c: Connection)
    requires P.Inv(c) && c.active && Waiting(c.sender)
    ensures var d := Strike(c);
            && P.Inv(d) && SentAgain(c, d)
            && if Counts(c.sender) && c.sender.retx == MAX_RETX_ATTEMPTS then WasReset(d) else WaitsOn(c, d)
  {
    var m := StrikeHappens(c);
    SmallTimeout(c);
    StrikeOutcome(c, m, Strike(c));
  }

  function Strikes(c: Connection, n: nat): Connection {
    if n == 0 then c else Strike(Strikes(c, n - 1))
  }

  /** Unanswered, with a peer whose window is open: eight retransmissions are made, and the ninth resets. */
  lemma {:induction false} GivesUpOnNinth(c: Connection, n: nat)
    requires P.Inv(c) && c.active && Waiting(c.sender) && Counts(c.sender)
    requires c.sender.retx + n <= 9
    ensures var d := Strikes(c, n);
            && P.Inv(d)
            && if c.sender.retx + n <= 8
               then d.active && Waiting(d.sender) && Counts(d.sender) && d.sender.retx == c.sender.retx + n
               else WasReset(d)
  {
    if n > 0 {
      GivesUpOnNinth(c, n - 1);
      StrikeExact(Strikes(c, n - 1));
    }
  }

  /** Retransmitting into a closed window. */
  ghost predicate Probing(c: Connection, retx: nat, rto: nat) {
    && P.Inv(c) && c.active && Waiting(c.sender) && !Counts(c.sender)
    && c.sender.retx == retx && c.sender.timer.rto == rto
  }

  lemma ProbeAgain(c: Connection, retx: nat, rto: nat)
    requires Probing(c, retx, rto)
    ensures Probing(Strike(c), retx, rto)
  {
    StrikeExact(c);
  }

  /** A closed window is probed for as long as it takes: such a connection never gives up. */
  lemma {:induction false} ProbesForEver(c: Connection, retx: nat, rto: nat, n: nat)
    requires Probing(c, retx, rto)
    ensures Probing(Strikes(c, n), retx, rto)
  {
    if n > 0 {
      ProbesForEver(c, retx, rto, n - 1);
      ProbeAgain(Strikes(c, n - 1), retx, rto);
    }
  }
}
