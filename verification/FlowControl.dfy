/** Acknowledgments that arrive in the order they were sent: the sender stays inside the receiver's window, a FIN with
    data is always heard, and only a bare FIN that overtakes data can do harm. */
module FlowControl {
  import opened Common
  import opened Wrapping
  import opened ByteStreams
  import opened Reassembly
  import opened ReassemblyProofs
  import opened Segments
  import opened Receiving
  import opened ReceivingProofs
  import opened Sending
  import S = SendingProofs
  import opened AckProofs
  import opened WindowProofs
  import opened EndToEnd
  import opened NoLoss
  import opened Progress
  import opened Retransmission

  // ---------- in-order feedback ----------

  /** What the receiver reported: bytes assembled, whether it had ended, and the first position past its window. */
  datatype Feedback = Feedback(assembled: nat, ended: bool, edge: nat)
  {
    /** The acknowledged position. */
    function Abs(): nat {
      1 + assembled + (if ended then 1 else 0)
    }

    function Window(): int {
      edge - assembled
    }
  }

  /** Feedback in the order of emission, and how far the sender has listened; what was skipped is lost for good. */
  datatype Ordered = Ordered(sys: System, log: seq<Feedback>, heard: nat)

  datatype Move = Plain(action: Action) | Hear(j: nat)

  function Report(r: Receiver): Feedback {
    Feedback(|r.Out().history|, r.Out().ended, RightEdge(r))
  }

  /** The system's own action that a move amounts to. */
  function ActionOf(o: Ordered, m: Move): Action
    requires m.Hear? ==> m.j < |o.log|
  {
    match m
    case Plain(action) => action
    case Hear(j) => DeliverAck(Wrap(o.log[j].Abs(), o.sys.sender.isn), o.log[j].Window() % TWO16)
  }

  /** The last report heard may be heard again; an older one may not. */
  predicate Allowed(o: Ordered, m: Move) {
    && (m.Plain? ==> !m.action.DeliverAck?)
    && (m.Hear? ==> o.heard <= m.j + 1 <= |o.log|)
    && Enabled(o.sys, ActionOf(o, m))
  }

  function Make(o: Ordered, m: Move): Ordered
    requires Allowed(o, m)
  {
    Ordered(Do(o.sys, ActionOf(o, m)),
            if m.Plain? && m.action.EmitAck? then o.log + [Report(o.sys.receiver)] else o.log,
            if m.Hear? then m.j + 1 else o.heard)
  }

  predicate AllAllowed(o: Ordered, ms: seq<Move>)
    decreases |ms|, 0
  {
    ms == [] || (AllAllowed(o, ms[..|ms| - 1]) && Allowed(Play(o, ms[..|ms| - 1]), ms[|ms| - 1]))
  }

  function Play(o: Ordered, ms: seq<Move>): Ordered
    requires AllAllowed(o, ms)
    decreases |ms|, 1
  {
    if ms == [] then o else Make(Play(o, ms[..|ms| - 1]), ms[|ms| - 1])
  }

  function Beginning(sendCapacity: nat, rto: U16, isn: U32, recvCapacity: nat): Ordered {
    Ordered(Initial(sendCapacity, rto, isn, recvCapacity), [], 0)
  }

  // ---------- the invariant ----------

  /** One report is no later than another. */
  predicate NoLater(f: Feedback, g: Feedback) {
    f.Abs() <= g.Abs() && f.edge <= g.edge && (f.ended ==> g.ended)
  }

  predicate LogInv(o: Ordered) {
    && (forall f :: f in o.log ==>
          NoLater(f, Report(o.sys.receiver)) && 0 <= f.Window() <= o.sys.receiver.Out().capacity)
    && (forall i, j :: 0 <= i <= j < |o.log| ==> NoLater(o.log[i], o.log[j]))
    && (o.log != [] ==> o.sys.receiver.isnSet)
  }

  /** The sender's view is the last report it heard. */
  predicate Listens(o: Ordered) {
    var s := o.sys.sender;
    && o.heard <= |o.log|
    && (if o.heard == 0 then s.ackGot == s.isn && Limit(s) == 1
        else var f := o.log[o.heard - 1];
             s.ackGot == s.isn + f.Abs() && Limit(s) == Max(f.Window(), 1))
    && InFlight(s) <= Limit(s)
  }

  /** The receiver has not heard of an end that was not sent. */
  predicate EndsHeard(u: System) {
    u.receiver.reassembler.eofFlag || u.receiver.Out().ended ==> u.sender.finFlag
  }

  /** A finished stream lies inside the receiver's window. */
  predicate FinInside(u: System) {
    u.sender.finFlag ==> |Consumed(u.sender)| <= RightEdge(u.receiver)
  }

  ghost predicate FlowInv(o: Ordered) {
    && Safe(o.sys) && AckInv(o.sys.sender) && NoWrap(o.sys.sender) && o.sys.receiver.Out().capacity < TWO16
    && EndsHeard(o.sys) && FinInside(o.sys) && LogInv(o) && Listens(o)
  }

  lemma AckWithinSent(u: System)
    requires Safe(u) && EndsHeard(u) && u.receiver.isnSet
    ensures AckAbs(u.receiver) <= u.sender.nextSeqno
  {
    FromSourcePrefix(u.receiver.reassembler, Consumed(u.sender));
  }

  /** As long as no end was reported, what was sent ends at most one byte past the reported edge, and a FIN leaves
      no room for that byte. */
  lemma ListeningBounds(o: Ordered)
    requires S.SpaceInv(o.sys.sender) && Listens(o) && LogInv(o)
    requires o.heard > 0 ==> !o.log[o.heard - 1].ended
    ensures |Consumed(o.sys.sender)| + (if o.sys.sender.finFlag then 1 else 0) <= RightEdge(o.sys.receiver) + 1
  {
    if o.heard > 0 {
      assert NoLater(o.log[o.heard - 1], Report(o.sys.receiver));
    }
  }

  // ---------- every move keeps it ----------

  lemma SenderAckInv(s: Sender, e: S.Event)
    requires S.SpaceInv(s) && AckInv(s) && !e.Ack?
    ensures AckInv(S.Step(s, e)) && S.Step(s, e).ackGot == s.ackGot && Limit(S.Step(s, e)) == Limit(s)
  {
    if e.FillWindow? {
      FillAck(s);
      FillKeeps(s);
    } else {
      AckFrame(s, S.Step(s, e));
    }
  }

  /** A FIN newly sent leaves the stream inside the window. */
  lemma FinStaysInside(o: Ordered, p: Ordered)
    requires FlowInv(o) && p.sys.receiver == o.sys.receiver && p.log == o.log
    requires S.SpaceInv(p.sys.sender) && Listens(p)
    requires o.sys.sender.finFlag ==> p.sys.sender.finFlag && Consumed(p.sys.sender) == Consumed(o.sys.sender)
    ensures FinInside(p.sys)
  {
    if !o.sys.sender.finFlag && p.sys.sender.finFlag {
      if p.heard > 0 {
        assert NoLater(p.log[p.heard - 1], Report(p.sys.receiver));
      }
      ListeningBounds(p);
    }
  }

  lemma SenderMove(o: Ordered, e: S.Event)
    requires FlowInv(o) && !e.Ack? && NoWrap(S.Step(o.sys.sender, e))
    ensures FlowInv(o.(sys := o.sys.(sender := S.Step(o.sys.sender, e))))
  {
    var s, p := o.sys.sender, o.(sys := o.sys.(sender := S.Step(o.sys.sender, e)));
    SenderStepSafe(o.sys, e);
    SenderAckInv(s, e);
    StepRespectsWindow(s, e);
    ConsumedGrows(s, e);
    assert Listens(p);
    FinStaysInside(o, p);
  }

  /** In-order feedback never moves the sender's right edge back. */
  lemma HeardEdgeHolds(o: Ordered, j: nat)
    requires FlowInv(o) && o.heard <= j + 1 <= |o.log|
    ensures var s, f := o.sys.sender, o.log[j];
            && Wrap(f.Abs(), s.isn) == s.isn + f.Abs() <= Wrap(s.nextSeqno, s.isn) && f.Window() % TWO16 == f.Window()
            && s.ackGot <= s.isn + f.Abs()
            && EdgeHolds(s, S.Ack(Wrap(f.Abs(), s.isn), f.Window() % TWO16))
  {
    var s, f := o.sys.sender, o.log[j];
    assert f in o.log;
    AckWithinSent(o.sys);
    SmallWrap(f.Abs(), s.isn);
    SmallWrap(s.nextSeqno, s.isn);
    if o.heard > 0 {
      assert NoLater(o.log[o.heard - 1], f);
    }
  }

  lemma HearMove(o: Ordered, j: nat)
    requires FlowInv(o) && o.heard <= j + 1 <= |o.log|
    requires NoWrap(Acknowledge(o.sys.sender, Wrap(o.log[j].Abs(), o.sys.sender.isn), o.log[j].Window() % TWO16))
    ensures var s, f := o.sys.sender, o.log[j];
            FlowInv(Ordered(o.sys.(sender := Acknowledge(s, Wrap(f.Abs(), s.isn), f.Window() % TWO16)), o.log, j + 1))
  {
    var s, f := o.sys.sender, o.log[j];
    var ackno, win := Wrap(f.Abs(), s.isn), f.Window() % TWO16;
    var p := Ordered(o.sys.(sender := Acknowledge(s, ackno, win)), o.log, j + 1);
    SenderStepSafe(o.sys, S.Ack(ackno, win));
    ConsumedGrows(s, S.Ack(ackno, win));
    AcknowledgeAck(s, ackno, win);
    HearListens(o, j);
    FinStaysInside(o, p);
  }

  /** The sender has taken in the report, and still keeps to the window. */
  lemma HearListens(o: Ordered, j: nat)
    requires FlowInv(o) && o.heard <= j + 1 <= |o.log|
    requires NoWrap(Acknowledge(o.sys.sender, Wrap(o.log[j].Abs(), o.sys.sender.isn), o.log[j].Window() % TWO16))
    ensures var s, f := o.sys.sender, o.log[j];
            Listens(Ordered(o.sys.(sender := Acknowledge(s, Wrap(f.Abs(), s.isn), f.Window() % TWO16)), o.log, j + 1))
  {
    var s, f := o.sys.sender, o.log[j];
    var ackno, win := Wrap(f.Abs(), s.isn), f.Window() % TWO16;
    HeardEdgeHolds(o, j);
    AckKeepsWindow(s, ackno, win);
    AcknowledgeRetires(s, ackno, win);
    LimitAfterAck(s, ackno, win);
  }

  lemma LimitAfterAck(s: Sender, ackno: U32, win: U16)
    requires (s.finFlag ==> s.synFlag) && ackno <= Wrap(s.nextSeqno, s.isn)
    ensures Limit(Acknowledge(s, ackno, win)) == Max(win, 1)
  {
    S.RetireOnly(s, ackno);
    FillKeeps(Advance(Retire(s, ackno), ackno).(window := win));
  }

  /** The receiver's own steps only move its report on. */
  lemma ReceiverMove(o: Ordered, r: Receiver)
    requires FlowInv(o) && Safe(o.sys.(receiver := r)) && EndsHeard(o.sys.(receiver := r))
    requires NoLater(Report(o.sys.receiver), Report(r)) && r.Out().capacity == o.sys.receiver.Out().capacity
    requires o.sys.receiver.isnSet ==> r.isnSet
    ensures FlowInv(o.(sys := o.sys.(receiver := r)))
  {}

  lemma DeliverMove(o: Ordered, i: nat)
    requires FlowInv(o) && Enabled(o.sys, Deliver(i))
    ensures FlowInv(o.(sys := Do(o.sys, Deliver(i))))
  {
    var u, seg := o.sys, o.sys.sender.sent[i];
    StepSafe(u, Deliver(i));
    DeliveredIndex(u, i);
    StepAdvances(u.receiver, Arrives(seg));
    assert S.Placed(u.sender, i);
    if seg.header.syn || u.receiver.isnSet {
      PushFlag(u.receiver.reassembler, seg.payload, FirstPos(u.sender, i) - 1, seg.header.fin);
      PushEnded(u.receiver.reassembler, seg.payload, FirstPos(u.sender, i) - 1, seg.header.fin);
    }
    ReceiverMove(o, Do(u, Deliver(i)).receiver);
  }

  lemma ReadMove(o: Ordered, count: nat)
    requires FlowInv(o)
    ensures FlowInv(o.(sys := Do(o.sys, AppReads(count))))
  {
    StepSafe(o.sys, AppReads(count));
    StepAdvances(o.sys.receiver, Reads(count));
    ReceiverMove(o, Do(o.sys, AppReads(count)).receiver);
  }

  lemma EmitMove(o: Ordered)
    requires FlowInv(o) && o.sys.receiver.isnSet
    ensures FlowInv(Make(o, Plain(EmitAck)))
  {
    var p := Make(o, Plain(EmitAck));
    assert o.heard > 0 ==> p.log[o.heard - 1] == o.log[o.heard - 1];
  }

  lemma MoveKeepsFlow(o: Ordered, m: Move)
    requires FlowInv(o) && Allowed(o, m) && NoWrap(Make(o, m).sys.sender)
    ensures FlowInv(Make(o, m))
  {
    match m
    case Hear(j) => HearMove(o, j);
    case Plain(action) => PlainMove(o, action);
  }

  lemma PlainMove(o: Ordered, a: Action)
    requires FlowInv(o) && Allowed(o, Plain(a)) && NoWrap(Make(o, Plain(a)).sys.sender)
    ensures FlowInv(Make(o, Plain(a)))
  {
    match a
    case SenderDoes(event) => SenderMove(o, event);
    case Deliver(i) => DeliverMove(o, i);
    case EmitAck => EmitMove(o);
    case AppReads(count) => ReadMove(o, count);
  }

  // ---------- the end is not missed ----------

  /** A FIN with data has been heard, or its last byte is not there yet. */
  predicate FinAhead(u: System) {
    FinWithData(u.sender) ==> EndAhead(u.receiver.reassembler, |Consumed(u.sender)|)
  }

  /** When a FIN with data is first sent, its data is news to the receiver. */
  lemma NewFinAhead(u: System, t: Sender)
    requires Safe(u) && !u.sender.finFlag && S.SpaceInv(t) && u.sender.sent <= t.sent
    ensures FinAhead(u.(sender := t))
  {
    if FinWithData(t) {
      NewFinIsNew(u.sender, t);
      FromSourcePrefix(u.receiver.reassembler, Consumed(u.sender));
    }
  }

  lemma SenderKeepsAhead(u: System, e: S.Event)
    requires Safe(u) && FinAhead(u)
    ensures FinAhead(u.(sender := S.Step(u.sender, e)))
  {
    S.StepSpace(u.sender, e);
    ConsumedGrows(u.sender, e);
    SentGrows(u.sender, e);
    if u.sender.finFlag {
      NoNewSegments(u.sender, e);
    } else if S.Step(u.sender, e).finFlag {
      NewFinAhead(u, S.Step(u.sender, e));
    }
  }

  /** The final substring inside the window ends the output or leaves its mark. */
  lemma FinalPushKeepsAhead(r: Reassembler, data: Bytes, index: nat, src: Bytes)
    requires FromSource(r, src) && Agrees(src, data, index) && index + |data| == |src| <= r.Edge() && data != []
    requires EndAhead(r, |src|)
    ensures EndAhead(Push(r, data, index, true), |src|)
  {
    var t := Push(r, data, index, true);
    FromSourcePrefix(r, src);
    PushFlag(r, data, index, true);
    PushEnded(r, data, index, true);
    PushFromSource(r, data, index, true, src);
    FromSourcePrefix(t, src);
    if t.Next() == |src| {
      FinalPushEnds(r, data, index, src);
    }
  }

  lemma DeliverKeepsAhead(u: System, i: nat)
    requires Safe(u) && FinInside(u) && FinAhead(u) && Enabled(u, Deliver(i))
    ensures FinAhead(Do(u, Deliver(i)))
  {
    if FinWithData(u.sender) {
      DeliveredPiece(u, i);
      SegmentKeepsAhead(u.sender, u.receiver.reassembler, i);
    }
  }

  lemma SegmentKeepsAhead(s: Sender, r: Reassembler, i: nat)
    requires S.SpaceInv(s) && FromSource(r, Consumed(s)) && FinWithData(s) && i < |s.sent| && FirstPos(s, i) > 0
    requires |Consumed(s)| <= r.Edge() && EndAhead(r, |Consumed(s)|)
    ensures EndAhead(Push(r, s.sent[i].payload, FirstPos(s, i) - 1, s.sent[i].header.fin), |Consumed(s)|)
  {
    var seg, index := s.sent[i], FirstPos(s, i) - 1;
    if i == |s.sent| - 1 {
      LastCarriesEnd(s);
      FinalPushKeepsAhead(r, seg.payload, index, Consumed(s));
    } else {
      assert !seg.header.fin by {
        assert S.Placed(s, i);
      }
      CarriesStream(s, i);
      EarlierThanLast(s, i);
      EarlierPushKeepsEndAhead(r, seg.payload, index, Consumed(s));
    }
  }

  lemma MoveKeepsAhead(o: Ordered, m: Move)
    requires FlowInv(o) && FinAhead(o.sys) && Allowed(o, m)
    ensures FinAhead(Make(o, m).sys)
  {
    match ActionOf(o, m)
    case SenderDoes(event) => SenderKeepsAhead(o.sys, event);
    case DeliverAck(ackno, win) => SenderKeepsAhead(o.sys, S.Ack(ackno, win));
    case Deliver(i) => DeliverKeepsAhead(o.sys, i);
    case EmitAck =>
    case AppReads(_) =>
  }

  // ---------- whole runs ----------

  lemma MoveGrows(o: Ordered, m: Move)
    requires Safe(o.sys) && Allowed(o, m)
    ensures Safe(Make(o, m).sys)
    ensures o.sys.sender.nextSeqno <= Make(o, m).sys.sender.nextSeqno && Make(o, m).sys.sender.isn == o.sys.sender.isn
  {
    var a := ActionOf(o, m);
    StepSafe(o.sys, a);
    match a
    case SenderDoes(event) => StepGrows(o.sys.sender, event);
    case DeliverAck(ackno, win) => StepGrows(o.sys.sender, S.Ack(ackno, win));
    case Deliver(_) =>
    case EmitAck =>
    case AppReads(_) =>
  }

  lemma {:induction false} PlaySafe(o: Ordered, ms: seq<Move>)
    requires Safe(o.sys) && AllAllowed(o, ms)
    ensures Safe(Play(o, ms).sys)
    decreases |ms|
  {
    if ms != [] {
      PlaySafe(o, ms[..|ms| - 1]);
      MoveGrows(Play(o, ms[..|ms| - 1]), ms[|ms| - 1]);
    }
  }

  lemma {:induction false} PlayFlows(o: Ordered, ms: seq<Move>)
    requires FlowInv(o) && FinAhead(o.sys) && AllAllowed(o, ms) && NoWrap(Play(o, ms).sys.sender)
    ensures FlowInv(Play(o, ms)) && FinAhead(Play(o, ms).sys)
    decreases |ms|
  {
    if ms != [] {
      var before, m := Play(o, ms[..|ms| - 1]), ms[|ms| - 1];
      PlaySafe(o, ms[..|ms| - 1]);
      MoveGrows(before, m);
      PlayFlows(o, ms[..|ms| - 1]);
      MoveKeepsFlow(before, m);
      MoveKeepsAhead(before, m);
    }
  }

  /** Flow control: whatever the network does to segments, with acknowledgments in order every segment ever sent ends
      inside the receiver's window but for the one byte that probes an empty one, and a FIN ends inside it. */
  lemma SentWithinWindow(sendCapacity: nat, rto: U16, isn: U32, recvCapacity: nat, ms: seq<Move>, i: nat)
    requires recvCapacity < TWO16 && AllAllowed(Beginning(sendCapacity, rto, isn, recvCapacity), ms)
    requires NoWrap(Play(Beginning(sendCapacity, rto, isn, recvCapacity), ms).sys.sender)
    ensures var u := Play(Beginning(sendCapacity, rto, isn, recvCapacity), ms).sys;
            i < |u.sender.sent| ==>
              var seg, index := u.sender.sent[i], FirstPos(u.sender, i) - 1;
              index + |seg.payload| + (if seg.header.fin then 1 else 0) <= RightEdge(u.receiver) + 1
  {
    var o := Beginning(sendCapacity, rto, isn, recvCapacity);
    BeginningFlows(sendCapacity, rto, isn, recvCapacity);
    PlayFlows(o, ms);
    var p := Play(o, ms);
    if i < |p.sys.sender.sent| {
      CarriesStream(p.sys.sender, i);
      assert S.Placed(p.sys.sender, i);
      if !p.sys.sender.finFlag {
        if p.heard > 0 {
          assert p.log[p.heard - 1] in p.log;
        }
        ListeningBounds(p);
      }
    }
  }

  lemma BeginningFlows(sendCapacity: nat, rto: U16, isn: U32, recvCapacity: nat)
    requires recvCapacity < TWO16
    ensures var o := Beginning(sendCapacity, rto, isn, recvCapacity);
            NoWrap(o.sys.sender) && FlowInv(o) && FinAhead(o.sys)
  {
    InitialSafe(sendCapacity, rto, isn, recvCapacity);
  }

  /** The end is never lost: neither missed nor overtaken. */
  lemma FinNeverMissed(sendCapacity: nat, rto: U16, isn: U32, recvCapacity: nat, ms: seq<Move>)
    requires recvCapacity < TWO16 && AllAllowed(Beginning(sendCapacity, rto, isn, recvCapacity), ms)
    requires NoWrap(Play(Beginning(sendCapacity, rto, isn, recvCapacity), ms).sys.sender)
    ensures var u := Play(Beginning(sendCapacity, rto, isn, recvCapacity), ms).sys; CanEnd(u) && !EndLost(u)
  {
    BeginningFlows(sendCapacity, rto, isn, recvCapacity);
    PlayFlows(Beginning(sendCapacity, rto, isn, recvCapacity), ms);
    AheadIsNotLost(Play(Beginning(sendCapacity, rto, isn, recvCapacity), ms).sys);
  }

  // ---------- the one harm left: a bare FIN that overtakes data ----------

  /** The `i`th segment is a FIN without data, near enough to be noticed, and the byte before it is not there. */
  predicate FinPastHole(u: System, i: nat)
    requires i < |u.sender.sent|
  {
    var seg, r := u.sender.sent[i], u.receiver.reassembler;
    && seg.header.fin && seg.payload == [] && u.receiver.isnSet
    && 0 < FirstPos(u.sender, i) - 1 - r.Next() < r.out.capacity && !r.Holds(FirstPos(u.sender, i) - 2)
  }

  /** A delivery keeps the end marks truthful unless, and only unless, it is a bare FIN past a hole. */
  lemma CarefulExactly(o: Ordered, i: nat)
    requires FlowInv(o) && Enabled(o.sys, Deliver(i))
    ensures Careful(o.sys, Deliver(i)) <==> !FinPastHole(o.sys, i)
  {
    var s, r := o.sys.sender, o.sys.receiver.reassembler;
    CarriesStream(s, i);
    assert S.Placed(s, i);
    FromSourcePrefix(r, Consumed(s));
    assert r.out.Valid();
  }

  predicate NoBareFins(o: Ordered, ms: seq<Move>)
    requires AllAllowed(o, ms)
  {
    ms == [] ||
    var before, m := ms[..|ms| - 1], ms[|ms| - 1];
    && NoBareFins(o, before)
    && (m.Plain? && m.action.Deliver? ==> !FinPastHole(Play(o, before).sys, m.action.i))
  }

  lemma {:induction false} PlaySound(o: Ordered, ms: seq<Move>)
    requires FlowInv(o) && FinAhead(o.sys) && Sound(o.sys) && AllAllowed(o, ms) && NoBareFins(o, ms)
    requires NoWrap(Play(o, ms).sys.sender)
    ensures Sound(Play(o, ms).sys)
    decreases |ms|
  {
    if ms != [] {
      var before, m := Play(o, ms[..|ms| - 1]), ms[|ms| - 1];
      PlaySafe(o, ms[..|ms| - 1]);
      MoveGrows(before, m);
      PlayFlows(o, ms[..|ms| - 1]);
      PlaySound(o, ms[..|ms| - 1]);
      if m.Plain? && m.action.Deliver? {
        CarefulExactly(before, m.action.i);
      }
      StepSound(before.sys, ActionOf(before, m));
    }
  }

  lemma PlaySnoc(o: Ordered, before: seq<Move>, m: Move)
    requires AllAllowed(o, before) && Allowed(Play(o, before), m)
    ensures AllAllowed(o, before + [m]) && Play(o, before + [m]) == Make(Play(o, before), m)
  {
    var all := before + [m];
    assert all[..|all| - 1] == before;
  }

  /** Feedback heard right after it was emitted is heard in order. */
  lemma HearLast(p: Ordered, a: Action)
    requires Safe(p.sys) && a.DeliverAck? && Enabled(p.sys, a) && p.heard <= |p.log|
    requires JustReported(p)
    requires Some(a.ackno) == p.sys.receiver.Ackno() && a.win == p.sys.receiver.WindowSize() % TWO16
    ensures Allowed(p, Hear(|p.log| - 1)) && ActionOf(p, Hear(|p.log| - 1)) == a
  {
    AcknoWraps(p.sys.receiver);
  }

  /** A run by the clock is a run with acknowledgments in order. */
  lemma {:induction false} Lift(o: Ordered, actions: seq<Action>) returns (ms: seq<Move>)
    requires Safe(o.sys) && o.heard <= |o.log| && Runnable(o.sys, actions) && ByTimer(o.sys, actions)
    ensures AllAllowed(o, ms)
    ensures var p := Play(o, ms);
            && p.sys == EndToEnd.Run(o.sys, actions) && p.heard <= |p.log|
            && (actions != [] && actions[|actions| - 1] == EmitAck ==> JustReported(p))
    decreases |actions|
  {
    if actions == [] {
      ms := [];
    } else {
      var before, a := actions[..|actions| - 1], actions[|actions| - 1];
      ms := Lift(o, before);
      RunSafe(o.sys, before);
      var m := NextMove(Play(o, ms), a);
      PlaySnoc(o, ms, m);
      ms := ms + [m];
    }
  }

  predicate JustReported(p: Ordered) {
    p.log != [] && p.log[|p.log| - 1] == Report(p.sys.receiver)
  }

  lemma NextMove(p: Ordered, a: Action) returns (m: Move)
    requires Safe(p.sys) && Enabled(p.sys, a) && p.heard <= |p.log|
    requires a.DeliverAck? ==>
               && JustReported(p)
               && Some(a.ackno) == p.sys.receiver.Ackno() && a.win == p.sys.receiver.WindowSize() % TWO16
    ensures Allowed(p, m)
    ensures var q := Make(p, m);
            q.sys == Do(p.sys, a) && q.heard <= |q.log| && (a == EmitAck ==> JustReported(q))
  {
    if a.DeliverAck? {
      HearLast(p, a);
      m := Hear(|p.log| - 1);
    } else {
      m := Plain(a);
    }
  }

  /** With acknowledgments in order, and no bare FIN delivered past a hole, every reachable state can be completed by
      the clock alone, acknowledgments still in order: every byte accepted is delivered, but for those written past the
      FIN, the receiver's stream ends if the sender's did, and every segment is retired. */
  lemma OrderedCompletes(sendCapacity: nat, rto: U16, isn: U32, recvCapacity: nat, ms: seq<Move>)
    returns (actions: seq<Action>, more: seq<Move>)
    requires MAX_PAYLOAD_SIZE <= recvCapacity < TWO16
    requires AllAllowed(Beginning(sendCapacity, rto, isn, recvCapacity), ms)
    requires NoBareFins(Beginning(sendCapacity, rto, isn, recvCapacity), ms)
    requires var size := |Play(Beginning(sendCapacity, rto, isn, recvCapacity), ms).sys.sender.stream.history| + 2;
             isn + size < TWO32 && size < TWO31 - 1
    ensures var o := Play(Beginning(sendCapacity, rto, isn, recvCapacity), ms);
            && Runnable(o.sys, actions) && ByTimer(o.sys, actions)
            && AllAllowed(o, more) && Play(o, more).sys == EndToEnd.Run(o.sys, actions)
            && Complete(o.sys, Play(o, more).sys)
  {
    var b := Beginning(sendCapacity, rto, isn, recvCapacity);
    BeginningFlows(sendCapacity, rto, isn, recvCapacity);
    assert Sound(b.sys);
    PlaySafe(b, ms);
    PlayCapacity(b, ms);
    PlayFlows(b, ms);
    PlaySound(b, ms);
    var o := Play(b, ms);
    AheadIsNotLost(o.sys);
    actions := ClockCompletes(o.sys);
    more := Lift(o, actions);
  }

  /** `v` has delivered, ended and retired all that `u` had accepted. */
  predicate Complete(u: System, v: System) {
    && v.sender.stream.history == u.sender.stream.history && v.receiver.Out().history == Consumed(v.sender)
    && (u.sender.finFlag || Drained(v.sender)) && v.sender.retired == |v.sender.sent|
    && (u.sender.stream.ended ==> v.receiver.Out().ended)
  }

  lemma AheadIsNotLost(u: System)
    requires Safe(u) && FinAhead(u)
    ensures !EndLost(u)
  {
    if FinWithData(u.sender) {
      AheadIsHope(u.sender, u.receiver.reassembler);
    }
  }

  lemma {:induction false} PlayCapacity(o: Ordered, ms: seq<Move>)
    requires Safe(o.sys) && AllAllowed(o, ms)
    ensures Play(o, ms).sys.receiver.Out().capacity == o.sys.receiver.Out().capacity
    ensures Play(o, ms).sys.sender.isn == o.sys.sender.isn
    decreases |ms|
  {
    if ms != [] {
      var before, m := Play(o, ms[..|ms| - 1]), ms[|ms| - 1];
      PlaySafe(o, ms[..|ms| - 1]);
      PlayCapacity(o, ms[..|ms| - 1]);
      MoveGrows(before, m);
      match ActionOf(before, m)
      case Deliver(i) => StepAdvances(before.sys.receiver, Arrives(before.sys.sender.sent[i]));
      case AppReads(count) => StepAdvances(before.sys.receiver, Reads(count));
      case SenderDoes(_) =>
      case EmitAck =>
      case DeliverAck(_, _) =>
    }
  }
}
