/** Progress by the sender's own means: the clock re-emits the oldest outstanding segment, every other copy is lost. */
module Retransmission {
  import opened Common
  import opened Wrapping
  import opened ByteStreams
  import opened Reassembly
  import opened ReassemblyProofs
  import opened Segments
  import opened Receiving
  import opened ReceivingProofs
  import opened Sending
  import S = SendingProofs
  import opened AckProofs
  import opened WindowProofs
  import opened EndToEnd
  import opened NoLoss
  import opened Progress

  // ---------- runs without the network's help ----------

  /** Every segment delivered is the oldest outstanding one. */
  predicate OldestFirst(u: System, actions: seq<Action>)
    requires Runnable(u, actions)
  {
    actions == [] ||
    var before, a := actions[..|actions| - 1], actions[|actions| - 1];
    OldestFirst(u, before) && (a.Deliver? ==> a.i == EndToEnd.Run(u, before).sender.retired)
  }

  /** The sender fills its window and hears the clock; a segment arrives only right after the clock has re-emitted it,
      and feedback only right after the receiver has emitted it. */
  predicate Prompt(u: System, before: seq<Action>, a: Action)
    requires Runnable(u, before)
  {
    var v := EndToEnd.Run(u, before);
    match a
    case SenderDoes(event) => event.Time? || event.FillWindow?
    case Deliver(i) =>
      && i == v.sender.retired < |v.sender.sent|
      && before != [] && before[|before| - 1].SenderDoes? && before[|before| - 1].event.Time?
      && v.sender.pending == EndToEnd.Run(u, before[..|before| - 1]).sender.pending + [v.sender.sent[i]]
    case DeliverAck(ackno, win) =>
      && before != [] && before[|before| - 1] == EmitAck
      && Some(ackno) == v.receiver.Ackno() && win == v.receiver.WindowSize() % TWO16
    case EmitAck => true
    case AppReads(_) => true
  }

  predicate ByTimer(u: System, actions: seq<Action>)
    requires Runnable(u, actions)
  {
    actions == [] ||
    var before, a := actions[..|actions| - 1], actions[|actions| - 1];
    ByTimer(u, before) && Prompt(u, before, a)
  }

  lemma {:induction false} ByTimerIsOldestFirst(u: System, actions: seq<Action>)
    requires Runnable(u, actions) && ByTimer(u, actions)
    ensures OldestFirst(u, actions)
    decreases |actions|
  {
    if actions != [] {
      ByTimerIsOldestFirst(u, actions[..|actions| - 1]);
    }
  }

  // ---------- when the end is lost ----------

  /** Stream index of the last segment's first byte. */
  function LastIndex(s: Sender): int
    requires |s.sent| > 0
  {
    FirstPos(s, |s.sent| - 1) - 1
  }

  /** The last segment was taken in without its mark, ahead of data that will carry the output past it in one go. */
  predicate Overtaken(s: Sender, r: Reassembler)
    requires |s.sent| > 0
  {
    && !r.eofFlag && r.Next() < LastIndex(s) && |Consumed(s)| <= r.Edge()
    && forall k: nat :: LastIndex(s) <= k < |Consumed(s)| ==> r.Holds(k)
  }

  /** A FIN with data that the oldest segment alone cannot bring home any more. */
  predicate FinLost(s: Sender, r: Reassembler) {
    FinWithData(s) && !r.out.ended && (r.Next() == |Consumed(s)| || Overtaken(s, r))
  }

  predicate EndLost(u: System) {
    FinLost(u.sender, u.receiver.reassembler)
  }

  /** The oldest outstanding segment lies before data the receiver still waits for. */
  lemma OldestIsEarlier(u: System)
    requires Sound(u) && FinWithData(u.sender) && !u.receiver.Out().ended
    requires u.receiver.reassembler.Next() < LastIndex(u.sender)
    ensures u.sender.retired < |u.sender.sent| - 1
  {
    var s := u.sender;
    LastCarriesEnd(s);
  }

  lemma EarlierEndsBeforeLast(s: Sender, i: nat)
    requires S.SpaceInv(s) && FinWithData(s) && i < |s.sent| - 1
    ensures FirstPos(s, i) - 1 + |s.sent[i].payload| <= LastIndex(s) && !s.sent[i].header.fin
  {
    NextStart(s, i);
    S.StartMonotone(s.sent, i + 1, |s.sent| - 1);
    LastCarriesEnd(s);
  }

  /** Where the segment after the `i`th starts, in terms of the payload of the `i`th. */
  lemma NextStart(s: Sender, i: nat)
    requires S.SpaceInv(s) && i < |s.sent|
    ensures s.sent[i].header.fin <==> s.finFlag && i == |s.sent| - 1
    ensures S.Start(s.sent, i + 1) == FirstPos(s, i) + |s.sent[i].payload| + (if s.sent[i].header.fin then 1 else 0)
  {
    assert S.Placed(s, i);
  }

  /** Data from before the last segment either leaves an overtaken FIN overtaken or completes the output past it. */
  lemma EarlierPushKeepsLost(s: Sender, r: Reassembler, data: Bytes, index: nat)
    requires FinWithData(s) && !r.out.ended && Overtaken(s, r) && FromSource(r, Consumed(s))
    requires Agrees(Consumed(s), data, index) && index + |data| <= LastIndex(s)
    ensures FinLost(s, Push(r, data, index, false))
  {
    var t := Push(r, data, index, false);
    PushKeeps(r, data, index, false);
    PushFlag(r, data, index, false);
    PushEnded(r, data, index, false);
    PushFromSource(r, data, index, false, Consumed(s));
    FromSourcePrefix(t, Consumed(s));
    assert forall k: nat :: LastIndex(s) <= k < |Consumed(s)| ==> t.Holds(k);
    if t.Next() >= LastIndex(s) {
      StopsAtEnd(r, data, index);
      assert t.Next() < |Consumed(s)| ==> t.Holds(t.Next());
    }
  }

  /** A push that moves the next index leaves it at the edge or at a gap. */
  lemma StopsAtEnd(r: Reassembler, data: Bytes, index: nat)
    requires KeysAhead(r)
    ensures var t := Push(r, data, index, false);
            t.Next() > r.Next() ==> t.Next() == t.Edge() || t.Next() !in t.stored
  {
    if !Rejected(r, data, index) && index <= r.Next() && !(index < r.Next() && index + |data| <= r.Next()) {
      AssembleKeeps(r, data[r.Next() - index..]);
    }
  }

  /** What is all assembled stays so, and the end unnoticed. */
  lemma RepeatKeepsLost(s: Sender, r: Reassembler, i: nat)
    requires S.SpaceInv(s) && FinLost(s, r) && r.Next() == |Consumed(s)| && i < |s.sent|
    ensures FirstPos(s, i) > 0 && FinLost(s, Push(r, s.sent[i].payload, FirstPos(s, i) - 1, s.sent[i].header.fin))
    ensures s.sent[i].header.fin ==> FinKept(r, s.sent[i].payload, FirstPos(s, i) - 1)
  {
    CarriesStream(s, i);
    WhollyAssembled(s, i);
    AlreadyAssembled(r, s.sent[i].payload, FirstPos(s, i) - 1, s.sent[i].header.fin);
  }

  lemma EarlierKeepsLost(s: Sender, r: Reassembler, i: nat)
    requires S.SpaceInv(s) && FinLost(s, r) && r.Next() != |Consumed(s)| && i < |s.sent| - 1
    requires FromSource(r, Consumed(s))
    ensures FirstPos(s, i) > 0 && FinLost(s, Push(r, s.sent[i].payload, FirstPos(s, i) - 1, s.sent[i].header.fin))
    ensures !s.sent[i].header.fin
  {
    CarriesStream(s, i);
    EarlierEndsBeforeLast(s, i);
    EarlierPushKeepsLost(s, r, s.sent[i].payload, FirstPos(s, i) - 1);
  }

  lemma DeliverKeepsLost(u: System)
    requires Sound(u) && EndLost(u) && Enabled(u, Deliver(u.sender.retired))
    ensures Careful(u, Deliver(u.sender.retired)) && EndLost(Do(u, Deliver(u.sender.retired)))
  {
    OldestKeepsLost(u);
    PieceKeepsLost(u, u.sender.retired);
  }

  lemma PieceKeepsLost(u: System, i: nat)
    requires Safe(u) && Enabled(u, Deliver(i)) && FirstPos(u.sender, i) > 0 && EndLost(u)
    requires var s, r, seg := u.sender, u.receiver.reassembler, u.sender.sent[i];
             && FinLost(s, Push(r, seg.payload, FirstPos(s, i) - 1, seg.header.fin))
             && (seg.header.fin ==> FinKept(r, seg.payload, FirstPos(s, i) - 1))
    ensures Careful(u, Deliver(i)) && EndLost(Do(u, Deliver(i)))
  {
    DeliveredPiece(u, i);
  }

  /** As far as the reassembler is concerned. */
  lemma OldestKeepsLost(u: System)
    requires Sound(u) && EndLost(u) && u.sender.retired < |u.sender.sent|
    ensures var s, r, i := u.sender, u.receiver.reassembler, u.sender.retired;
            && FirstPos(s, i) > 0 && FinLost(s, Push(r, s.sent[i].payload, FirstPos(s, i) - 1, s.sent[i].header.fin))
            && (s.sent[i].header.fin ==> FinKept(r, s.sent[i].payload, FirstPos(s, i) - 1))
  {
    if u.receiver.reassembler.Next() == |Consumed(u.sender)| {
      RepeatKeepsLost(u.sender, u.receiver.reassembler, u.sender.retired);
    } else {
      OldestIsEarlier(u);
      EarlierKeepsLost(u.sender, u.receiver.reassembler, u.sender.retired);
    }
  }

  lemma SenderKeepsLost(u: System, e: S.Event)
    requires S.SpaceInv(u.sender)
    ensures EndLost(u) ==> EndLost(u.(sender := S.Step(u.sender, e)))
  {
    if u.sender.finFlag {
      NoNewSegments(u.sender, e);
    }
  }

  lemma LostStep(u: System, a: Action)
    requires Sound(u) && EndLost(u) && Enabled(u, a) && (a.Deliver? ==> a.i == u.sender.retired)
    ensures Careful(u, a) && Sound(Do(u, a)) && EndLost(Do(u, a))
  {
    match a {
      case SenderDoes(event) => SenderKeepsLost(u, event);
      case DeliverAck(ackno, win) => SenderKeepsLost(u, S.Ack(ackno, win));
      case Deliver(_) => DeliverKeepsLost(u);
      case EmitAck =>
      case AppReads(count) => ReadKeepsLost(u, count);
    }
    StepSound(u, a);
  }

  lemma ReadKeepsLost(u: System, count: nat)
    requires EndLost(u)
    ensures EndLost(Do(u, AppReads(count)))
  {
    var r, t := u.receiver.reassembler, Do(u, AppReads(count)).receiver.reassembler;
    assert forall k: nat :: t.Holds(k) == r.Holds(k);
  }

  /** Without copies in the network a lost end stays lost: no run that delivers oldest segments only ends the output. */
  lemma {:induction false} LostForTheOldest(u: System, actions: seq<Action>)
    requires Sound(u) && EndLost(u) && Runnable(u, actions) && OldestFirst(u, actions)
    ensures var v := EndToEnd.Run(u, actions); Sound(v) && EndLost(v) && CarefulRun(u, actions)
    decreases |actions|
  {
    if actions != [] {
      LostForTheOldest(u, actions[..|actions| - 1]);
      LostStep(EndToEnd.Run(u, actions[..|actions| - 1]), actions[|actions| - 1]);
    }
  }

  // ---------- the exact opposite: hope ----------

  lemma SenderKeepsHope(u: System, e: S.Event)
    requires Safe(u) && !EndLost(u)
    ensures !EndLost(u.(sender := S.Step(u.sender, e)))
  {
    var t := S.Step(u.sender, e);
    S.StepSpace(u.sender, e);
    SentGrows(u.sender, e);
    if u.sender.finFlag {
      NoNewSegments(u.sender, e);
    } else if FinWithData(t) {
      NewFinIsHope(u.sender, t, u.receiver.reassembler);
    }
  }

  /** The data of a FIN newly sent is not there yet. */
  lemma NewFinIsHope(s: Sender, t: Sender, r: Reassembler)
    requires S.SpaceInv(s) && S.SpaceInv(t) && !s.finFlag && s.sent <= t.sent && FinWithData(t)
    requires FromSource(r, Consumed(s))
    ensures !FinLost(t, r)
  {
    NewFinIsNew(s, t);
    LastCarriesEnd(t);
    FromSourcePrefix(r, Consumed(s));
    assert !r.Holds(|Consumed(t)| - 1);
  }

  /** Room for a full segment at the receiver, and a stream short enough for its numbers. */
  predicate Roomy(u: System) {
    var size := |u.sender.stream.history| + 2;
    u.receiver.Out().capacity >= MAX_PAYLOAD_SIZE && u.sender.isn + size < TWO32 && size < TWO31 - 1
  }

  lemma RoomyMeans(u: System)
    requires Safe(u) && Roomy(u)
    ensures NoWrap(u.sender) && Manageable(u) && u.sender.nextSeqno <= |u.sender.stream.history| + 2
  {}

  /** The sender has retired all the receiver has taken in. */
  predicate Current(u: System) {
    u.receiver.isnSet && u.sender.retired < |u.sender.sent| ==>
      AckAbs(u.receiver) < S.Start(u.sender.sent, u.sender.retired + 1)
  }

  lemma AckRetires(s: Sender, ackno: U32, win: U16)
    requires S.SpaceInv(s) && AckInv(s) && NoWrap(s) && s.isn <= ackno <= s.isn + s.nextSeqno
    ensures var t, abs := Acknowledge(s, ackno, win), ackno - s.isn;
            && s.retired <= t.retired && (t.retired < |t.sent| ==> abs < S.Start(t.sent, t.retired + 1))
            && (s.retired < |s.sent| && S.Start(s.sent, s.retired + 1) <= abs ==> s.retired < t.retired)
  {
    var t := Acknowledge(s, ackno, win);
    assert RetiredExactly(s, t, ackno - s.isn) by {
      AcknowledgeExact(s, ackno, win);
    }
    assert s.sent <= t.sent by {
      SmallWrap(s.nextSeqno, s.isn);
      AcknowledgeRetires(s, ackno, win);
    }
    assert S.SpaceInv(t) by {
      S.AcknowledgeSpace(s, ackno, win);
    }
    ExactIsFull(s, t, ackno - s.isn);
  }

  lemma ExactIsFull(s: Sender, t: Sender, abs: nat)
    requires S.SpaceInv(s) && S.SpaceInv(t) && s.sent <= t.sent && abs <= s.nextSeqno && RetiredExactly(s, t, abs)
    ensures t.retired < |t.sent| ==> abs < S.Start(t.sent, t.retired + 1)
    ensures s.retired < |s.sent| && S.Start(s.sent, s.retired + 1) <= abs ==> s.retired < t.retired
  {
    if t.retired < |s.sent| {
      StartPrefix(s.sent, t.sent, t.retired + 1);
    } else if t.retired < |t.sent| {
      StartPrefix(s.sent, t.sent, |s.sent|);
      assert S.Placed(t, t.retired);
    }
  }

  lemma AckQuiets(s: Sender, ackno: U32, win: U16)
    requires S.SpaceInv(s) && AckInv(s) && ackno <= Wrap(s.nextSeqno, s.isn)
    ensures Quiet(Acknowledge(s, ackno, win)) && Acknowledge(s, ackno, win).stream.history == s.stream.history
    ensures Acknowledge(s, ackno, win).stream.ended == s.stream.ended
    ensures Acknowledge(s, ackno, win).synFlag && Acknowledge(s, ackno, win).isn == s.isn
  {
    var a := Advance(Retire(s, ackno), ackno).(window := win);
    AdvancedInv(s, ackno, win);
    FillQuiet(a);
    S.RetireOnly(s, ackno);
    FillKeeps(a);
  }

  /** Some lapse of time makes the clock re-emit the oldest outstanding segment. */
  lemma Reemits(s: Sender) returns (ms: nat)
    requires s.retired < |s.sent|
    ensures var t := Elapse(s, ms);
            && t.pending == s.pending + [s.sent[s.retired]]
            && t == s.(pending := t.pending, retx := t.retx, timer := t.timer)
  {
    ms := if s.timer.time >= s.timer.rto then 0 else s.timer.rto - s.timer.time;
    assert (s.timer.time + ms % TWO32) % TWO32 >= s.timer.rto;
  }

  // ---------- one round ----------

  /** The receiver's current feedback as the network carries it. */
  function FeedbackNow(u: System): Action
    requires u.receiver.isnSet
  {
    DeliverAck(u.receiver.Ackno().value, u.receiver.WindowSize() % TWO16)
  }

  lemma AckPosition(u: System)
    requires Sound(u) && Roomy(u) && u.receiver.isnSet
    ensures u.receiver.Ackno() == Some(u.sender.isn + AckAbs(u.receiver)) && AckAbs(u.receiver) <= u.sender.nextSeqno
    ensures u.sender.isn + AckAbs(u.receiver) <= Wrap(u.sender.nextSeqno, u.sender.isn)
  {
    RoomyMeans(u);
    AcksOnlySent(u);
    AcknoWraps(u.receiver);
    SmallWrap(AckAbs(u.receiver), u.sender.isn);
    SmallWrap(u.sender.nextSeqno, u.sender.isn);
  }

  /** The feedback of the moment, emitted and heard. */
  lemma AckNow(u: System)
    requires Sound(u) && Roomy(u) && u.receiver.isnSet
    ensures Enabled(u, EmitAck) && Enabled(Do(u, EmitAck), FeedbackNow(u))
    ensures var v := Do(Do(u, EmitAck), FeedbackNow(u));
            && Sound(v) && Roomy(v) && v.receiver == u.receiver && v.sender.stream.history == u.sender.stream.history
            && v.sender.stream.ended == u.sender.stream.ended
            && Current(v) && Quiet(v.sender) && v.sender.synFlag && (EndLost(v) <==> EndLost(u))
            && u.sender.retired <= v.sender.retired && u.sender.sent <= v.sender.sent
            && (u.sender.retired < |u.sender.sent| &&
                S.Start(u.sender.sent, u.sender.retired + 1) <= AckAbs(u.receiver) ==>
                  u.sender.retired < v.sender.retired)
  {
    var s, w := u.sender, Do(u, EmitAck);
    var ackno: U32, win: U16 := u.receiver.Ackno().value, u.receiver.WindowSize() % TWO16;
    AckPosition(u);
    RoomyMeans(u);
    EmitSound(u);
    assert (ackno, win) in w.acks;
    StepSound(w, DeliverAck(ackno, win));
    AckRetires(s, ackno, win);
    AckQuiets(s, ackno, win);
    AcknowledgeRetires(s, ackno, win);
    SenderKeepsLost(u, S.Ack(ackno, win));
    if !EndLost(u) {
      SenderKeepsHope(u, S.Ack(ackno, win));
    }
  }

  /** The receiver stands at the oldest outstanding segment or past its start. */
  lemma OldestIsNear(u: System)
    requires Sound(u) && Roomy(u) && u.sender.retired < |u.sender.sent|
    ensures Enabled(u, Deliver(u.sender.retired))
    ensures 0 < FirstPos(u.sender, u.sender.retired) <= u.receiver.reassembler.Next() + 1
    ensures u.receiver.isnSet || u.sender.sent[u.sender.retired].header.syn
  {
    RoomyMeans(u);
    assert CaughtUp(u, u.sender.retired) by {
      FromSourcePrefix(u.receiver.reassembler, Consumed(u.sender));
    }
    NextIsNear(u, u.sender.retired);
  }

  /** The oldest outstanding segment fits what the receiver has room for. */
  predicate Fits(u: System) {
    var s, i := u.sender, u.sender.retired;
    i < |s.sent| ==> FirstPos(s, i) - 1 + |s.sent[i].payload| <= u.receiver.reassembler.Edge()
  }

  /** The whole last segment is held without its mark, and only a full buffer keeps the output from running past it. */
  predicate Fragile(s: Sender, r: Reassembler) {
    && FinWithData(s) && !r.out.ended && !r.eofFlag && r.Next() < LastIndex(s) && r.Edge() < |Consumed(s)|
    && forall k: nat :: LastIndex(s) <= k < |Consumed(s)| ==> r.Holds(k)
  }

  /** How much the application reads: everything, unless that would lose the end. */
  function ReadCount(u: System): nat {
    var s, out := u.sender, u.receiver.Out();
    if Fragile(s, u.receiver.reassembler) then
      Min(|out.history| - out.readCount, |Consumed(s)| - 1 - out.capacity - out.readCount)
    else
      |out.history|
  }

  lemma ReadKeepsHope(u: System)
    requires Safe(u) && !EndLost(u)
    ensures !EndLost(Do(u, AppReads(ReadCount(u))))
  {
    var r, t := u.receiver.reassembler, Do(u, AppReads(ReadCount(u))).receiver.reassembler;
    FromSourcePrefix(r, Consumed(u.sender));
    assert forall k: nat :: t.Holds(k) == r.Holds(k);
  }

  lemma ReadMakesRoom(u: System)
    requires Sound(u) && Roomy(u)
    ensures Fits(Do(u, AppReads(ReadCount(u))))
  {
    var s, r, i := u.sender, u.receiver.reassembler, u.sender.retired;
    if i < |s.sent| {
      OldestIsNear(u);
      assert |s.sent[i].payload| <= MAX_PAYLOAD_SIZE by {
        assert S.Placed(s, i);
      }
      if Fragile(s, r) {
        assert FirstPos(s, i) - 1 + |s.sent[i].payload| < |Consumed(s)| by {
          OldestIsEarlier(u);
          EarlierThanLast(s, i);
        }
      }
    }
  }

  lemma ReadRound(u: System)
    requires Sound(u) && Roomy(u) && Current(u)
    ensures var v := Do(u, AppReads(ReadCount(u)));
            && Sound(v) && Roomy(v) && Current(v) && Fits(v) && v.sender == u.sender
            && v.receiver.Out().history == u.receiver.Out().history && v.receiver.isnSet == u.receiver.isnSet
            && (EndLost(v) <==> EndLost(u))
  {
    ReadSound(u, ReadCount(u));
    ReadMakesRoom(u);
    if EndLost(u) {
      ReadKeepsLost(u, ReadCount(u));
    } else {
      ReadKeepsHope(u);
    }
  }

  /** Data from before the last segment that the receiver still waits for does not cost the end its chance. */
  lemma EarlierKeepsHope(s: Sender, r: Reassembler, i: nat)
    requires S.SpaceInv(s) && FromSource(r, Consumed(s)) && FinWithData(s) && i < |s.sent| - 1 && !FinLost(s, r)
    requires 0 < FirstPos(s, i) && r.Next() < FirstPos(s, i) - 1 + |s.sent[i].payload|
    ensures !FinLost(s, Push(r, s.sent[i].payload, FirstPos(s, i) - 1, false))
  {
    var data, index, src := s.sent[i].payload, FirstPos(s, i) - 1, Consumed(s);
    CarriesStream(s, i);
    EarlierEndsBeforeLast(s, i);
    LastCarriesEnd(s);
    FromSourcePrefix(r, src);
    if EndAhead(r, |src|) {
      EarlierPushKeepsEndAhead(r, data, index, src);
      AheadIsHope(s, Push(r, data, index, false));
    } else if r.Edge() >= |src| {
      HoleKeepsHope(s, r, data, index);
    } else {
      PushKeeps(r, data, index, false);
    }
  }

  lemma AheadIsHope(s: Sender, r: Reassembler)
    requires S.SpaceInv(s) && FinWithData(s) && EndAhead(r, |Consumed(s)|)
    ensures !FinLost(s, r)
  {
    LastCarriesEnd(s);
  }

  /** A byte of the last segment that is missing stays missing, and the output stops before it. */
  lemma HoleKeepsHope(s: Sender, r: Reassembler, data: Bytes, index: nat)
    requires FinWithData(s) && FromSource(r, Consumed(s)) && Agrees(Consumed(s), data, index)
    requires !r.out.ended && !r.eofFlag && r.Next() < LastIndex(s) && !FinLost(s, r) && |Consumed(s)| <= r.Edge()
    requires index + |data| <= LastIndex(s) < |Consumed(s)|
    ensures !FinLost(s, Push(r, data, index, false))
  {
    var t := Push(r, data, index, false);
    var k: nat :| LastIndex(s) <= k < |Consumed(s)| && !r.Holds(k);
    PushKeeps(r, data, index, false);
    assert !t.Holds(k);
  }

  /** A receiver that holds nothing has not missed the end, and an empty substring does not change that. */
  lemma EmptyKeepsHope(s: Sender, r: Reassembler)
    requires S.SpaceInv(s) && FinWithData(s) && r.out.history == [] && r.stored == map[]
    ensures !FinLost(s, Push(r, [], 0, false))
  {
    var t := Push(r, [], 0, false);
    PushKeeps(r, [], 0, false);
    LastCarriesEnd(s);
    assert !t.Holds(|Consumed(s)| - 1);
    assert t.Next() == 0 by {
      assert !t.Holds(0);
    }
  }

  /** The oldest segment still has something to bring. */
  lemma OldestBrings(u: System)
    requires Sound(u) && Current(u) && u.receiver.isnSet && u.sender.retired < |u.sender.sent|
    requires !u.sender.sent[u.sender.retired].header.fin
    ensures u.receiver.reassembler.Next() <
            FirstPos(u.sender, u.sender.retired) - 1 + |u.sender.sent[u.sender.retired].payload|
  {
    NextStart(u.sender, u.sender.retired);
  }

  lemma OldestKeepsHope(u: System)
    requires Sound(u) && Roomy(u) && Current(u) && u.sender.retired < |u.sender.sent| && !EndLost(u)
    requires !u.sender.sent[u.sender.retired].header.fin && Enabled(u, Deliver(u.sender.retired))
    ensures !EndLost(Do(u, Deliver(u.sender.retired)))
  {
    var s, r, i := u.sender, u.receiver.reassembler, u.sender.retired;
    DeliveredPiece(u, i);
    if FinWithData(s) {
      NextStart(s, i);
      if u.receiver.isnSet {
        OldestBrings(u);
        EarlierKeepsHope(s, r, i);
      } else {
        SynIsEmpty(s, i);
        EmptyKeepsHope(s, r);
      }
    }
  }

  lemma SynIsEmpty(s: Sender, i: nat)
    requires S.SpaceInv(s) && i < |s.sent| && s.sent[i].header.syn
    ensures s.sent[i].payload == [] && FirstPos(s, i) == 1 && !s.sent[i].header.fin
  {
    assert S.Placed(s, i);
  }

  lemma OldestIsTaken(u: System)
    requires Sound(u) && Roomy(u) && Fits(u) && u.sender.retired < |u.sender.sent|
    ensures Enabled(u, Deliver(u.sender.retired)) && Careful(u, Deliver(u.sender.retired))
    ensures var v, s, i := Do(u, Deliver(u.sender.retired)), u.sender, u.sender.retired;
            FirstPos(s, i) - 1 + |s.sent[i].payload| <= |v.receiver.Out().history| && v.receiver.isnSet && v.sender == s
  {
    OldestIsNear(u);
    FittingIsTaken(u, u.sender.retired);
  }

  lemma FittingIsTaken(u: System, i: nat)
    requires Safe(u) && Enabled(u, Deliver(i)) && (u.receiver.isnSet || u.sender.sent[i].header.syn)
    requires 0 < FirstPos(u.sender, i) <= u.receiver.reassembler.Next() + 1
    requires FirstPos(u.sender, i) - 1 + |u.sender.sent[i].payload| <= u.receiver.reassembler.Edge()
    ensures Careful(u, Deliver(i))
    ensures var v, seg := Do(u, Deliver(i)), u.sender.sent[i];
            && FirstPos(u.sender, i) - 1 + |seg.payload| <= |v.receiver.Out().history|
            && v.receiver.isnSet && v.sender == u.sender
  {
    var seg := u.sender.sent[i];
    PushCatchesUp(u.receiver.reassembler, seg.payload, FirstPos(u.sender, i) - 1, seg.header.fin);
    DeliveredPiece(u, i);
  }

  /** The FIN, once it is the oldest, ends the output. */
  lemma FinIsTaken(u: System)
    requires Sound(u) && Roomy(u) && Fits(u) && u.sender.retired < |u.sender.sent|
    requires u.sender.sent[u.sender.retired].header.fin && (FinWithData(u.sender) ==> !EndLost(u))
    ensures Enabled(u, Deliver(u.sender.retired)) && Do(u, Deliver(u.sender.retired)).receiver.Out().ended
  {
    var s, r, i := u.sender, u.receiver.reassembler, u.sender.retired;
    OldestIsNear(u);
    DeliveredPiece(u, i);
    CarriesStream(s, i);
    FromSourcePrefix(r, Consumed(s));
    NextStart(s, i);
    FinIsNotSyn(s, i);
    FinalPushCompletes(r, s.sent[i].payload, FirstPos(s, i) - 1, Consumed(s));
  }

  lemma FinIsNotSyn(s: Sender, i: nat)
    requires S.SpaceInv(s) && i < |s.sent| && s.sent[i].header.fin
    ensures !s.sent[i].header.syn
  {
    assert S.Placed(s, i);
  }

  /** Delivering the oldest segment: all of it is taken in, and the end is lost afterwards only if it was before. */
  lemma DeliverOldest(u: System)
    requires Sound(u) && Roomy(u) && Current(u) && Fits(u) && u.sender.retired < |u.sender.sent|
    requires EndLost(u) ==> u.receiver.reassembler.Next() != |Consumed(u.sender)|
    ensures Enabled(u, Deliver(u.sender.retired)) && Careful(u, Deliver(u.sender.retired))
    ensures var v := Do(u, Deliver(u.sender.retired));
            && Sound(v) && Roomy(v) && v.receiver.isnSet && v.sender == u.sender
            && S.Start(u.sender.sent, u.sender.retired + 1) <= AckAbs(v.receiver) && (EndLost(v) <==> EndLost(u))
  {
    var s, i := u.sender, u.sender.retired;
    OldestIsTaken(u);
    NextStart(s, i);
    DeliverSound(u, i);
    StepAdvances(u.receiver, Arrives(s.sent[i]));
    if EndLost(u) {
      OldestIsEarlier(u);
      DeliverKeepsLost(u);
    } else if s.sent[i].header.fin {
      FinIsTaken(u);
    } else {
      OldestKeepsHope(u);
    }
  }

  // ---------- whole runs ----------

  predicate Reaches(u: System, actions: seq<Action>, v: System) {
    Runnable(u, actions) && CarefulRun(u, actions) && ByTimer(u, actions) && EndToEnd.Run(u, actions) == v
  }

  lemma Extend(u: System, before: seq<Action>, v: System, a: Action)
    requires Reaches(u, before, v) && Enabled(v, a) && Careful(v, a) && Prompt(u, before, a)
    ensures Reaches(u, before + [a], Do(v, a))
  {
    RunSnoc(u, before, a);
    var all := before + [a];
    assert all[..|all| - 1] == before;
  }

  /** All that the rounds need and keep. */
  ghost predicate Underway(u: System, v: System) {
    && Sound(v) && Roomy(v) && (EndLost(v) <==> EndLost(u))
    && v.sender.stream.history == u.sender.stream.history && v.sender.stream.ended == u.sender.stream.ended
    && (u.sender.finFlag ==> v.sender.finFlag) && (v.sender.finFlag && !u.sender.finFlag ==> Drained(v.sender))
    && (Drained(u.sender) ==> Drained(v.sender))
  }

  /** The clock re-emits the oldest segment, and nothing else changes. */
  lemma TimeStep(u: System, ms: nat)
    requires Sound(u) && Roomy(u) && Current(u) && Fits(u) && u.sender.retired < |u.sender.sent|
    requires var t := Elapse(u.sender, ms); t == u.sender.(pending := t.pending, retx := t.retx, timer := t.timer)
    ensures var v := Do(u, SenderDoes(S.Time(ms)));
            && Underway(u, v) && Current(v) && Fits(v) && v.receiver == u.receiver
            && v.sender.retired == u.sender.retired && v.sender.sent == u.sender.sent
  {
    SenderSound(u, S.Time(ms));
  }

  /** The oldest segment again: read, wait for the clock, and deliver. */
  lemma SendAgain(u: System, before: seq<Action>, v: System) returns (actions: seq<Action>, w: System)
    requires Reaches(u, before, v) && Sound(v) && Roomy(v) && Current(v) && v.sender.retired < |v.sender.sent|
    requires EndLost(v) ==> v.receiver.reassembler.Next() != |Consumed(v.sender)|
    ensures Reaches(u, actions, w) && Underway(v, w) && w.receiver.isnSet
    ensures w.sender.sent == v.sender.sent && w.sender.retired == v.sender.retired
    ensures S.Start(v.sender.sent, v.sender.retired + 1) <= AckAbs(w.receiver)
  {
    var read := AppReads(ReadCount(v));
    ReadRound(v);
    Extend(u, before, v, read);
    actions := before + [read];
    var v1 := Do(v, read);
    var ms := Reemits(v1.sender);
    TimeStep(v1, ms);
    actions, w := WaitAndDeliver(u, actions, v1, ms);
  }

  lemma WaitAndDeliver(u: System, before: seq<Action>, v: System, ms: nat) returns (actions: seq<Action>, w: System)
    requires Reaches(u, before, v) && Sound(v) && Roomy(v) && Current(v) && Fits(v)
    requires v.sender.retired < |v.sender.sent|
    requires EndLost(v) ==> v.receiver.reassembler.Next() != |Consumed(v.sender)|
    requires var t := Elapse(v.sender, ms);
             && t == v.sender.(pending := t.pending, retx := t.retx, timer := t.timer)
             && t.pending == v.sender.pending + [v.sender.sent[v.sender.retired]]
    ensures Reaches(u, actions, w) && Underway(v, w) && w.receiver.isnSet
    ensures w.sender.sent == v.sender.sent && w.sender.retired == v.sender.retired
    ensures S.Start(v.sender.sent, v.sender.retired + 1) <= AckAbs(w.receiver)
  {
    var tick, deliver := SenderDoes(S.Time(ms)), Deliver(v.sender.retired);
    TimeStep(v, ms);
    var v1 := Do(v, tick);
    Extend(u, before, v, tick);
    actions := before + [tick];
    assert actions[..|actions| - 1] == before;
    DeliverOldest(v1);
    Extend(u, actions, v1, deliver);
    actions := actions + [deliver];
    w := Do(v1, deliver);
  }

  /** The feedback of the moment, emitted and heard, as part of a run. */
  lemma HearNow(u: System, before: seq<Action>, v: System) returns (actions: seq<Action>, w: System)
    requires Reaches(u, before, v) && Sound(v) && Roomy(v) && v.receiver.isnSet
    ensures Reaches(u, actions, w) && Underway(v, w) && Current(w) && Quiet(w.sender) && w.sender.synFlag
    ensures v.sender.retired <= w.sender.retired && v.sender.sent <= w.sender.sent
    ensures v.sender.retired < |v.sender.sent| && S.Start(v.sender.sent, v.sender.retired + 1) <= AckAbs(v.receiver) ==>
              v.sender.retired < w.sender.retired
  {
    AckNow(v);
    var v1 := Do(v, EmitAck);
    Extend(u, before, v, EmitAck);
    actions := before + [EmitAck];
    Extend(u, actions, v1, FeedbackNow(v));
    actions := actions + [FeedbackNow(v)];
    w := Do(v1, FeedbackNow(v));
    ConsumedGrows(v.sender, S.Ack(FeedbackNow(v).ackno, FeedbackNow(v).win));
    AckFinDrains(v.sender, FeedbackNow(v).ackno, FeedbackNow(v).win);
  }

  /** The FIN goes out only when every byte has. */
  lemma {:induction false} FillLoopFinDrains(s: Sender)
    requires !s.finFlag
    ensures FillLoop(s).finFlag ==> Drained(FillLoop(s))
    decreases |s.stream.history| - s.stream.readCount
  {
    if !Blocked(s) && SeqLength(NextSegment(s)) > 0 {
      var t := SendNext(s);
      if t.finFlag {
        assert FillLoop(t) == t;
      } else {
        FillLoopFinDrains(t);
      }
    }
  }

  lemma AckFinDrains(s: Sender, ackno: U32, win: U16)
    requires S.SpaceInv(s)
    ensures Acknowledge(s, ackno, win).finFlag && !s.finFlag ==> Drained(Acknowledge(s, ackno, win))
    ensures Drained(s) ==> Drained(Acknowledge(s, ackno, win))
  {
    var a := Advance(Retire(s, ackno), ackno).(window := win);
    S.RetireOnly(s, ackno);
    FillFinDrains(a);
    FillKeeps(a);
  }

  lemma FillFinDrains(s: Sender)
    ensures Fill(s).finFlag && !s.finFlag ==> Drained(Fill(s))
  {
    if !s.finFlag && s.synFlag {
      FillLoopFinDrains(if s.window == 0 then s.(window := 1) else s);
    }
  }

  /** What the sender has not had acknowledged yet. */
  function Rest(u: System): int {
    |u.sender.stream.history| + 2 - S.Start(u.sender.sent, u.sender.retired)
  }

  lemma RestShrinks(u: System, v: System)
    requires Safe(u) && Safe(v) && u.sender.sent <= v.sender.sent && u.sender.retired < v.sender.retired
    requires v.sender.stream.history == u.sender.stream.history
    ensures 0 <= Rest(v) < Rest(u)
  {
    var s, t := u.sender, v.sender;
    S.StartMonotone(t.sent, t.retired, |t.sent|);
    S.StartMonotone(t.sent, s.retired + 1, t.retired);
    StartPrefix(s.sent, t.sent, s.retired);
    assert S.Placed(t, s.retired);
  }

  /** Everything the sender has cut is retired, or all of it is assembled with the end lost. */
  ghost predicate NothingLeft(u: System) {
    u.sender.retired == |u.sender.sent| || (EndLost(u) && u.receiver.reassembler.Next() == |Consumed(u.sender)|)
  }

  /** Round after round until nothing is left to send again. */
  lemma {:induction false} Rounds(u: System, before: seq<Action>, v: System) returns (actions: seq<Action>, w: System)
    requires Reaches(u, before, v) && Sound(v) && Roomy(v) && Current(v) && Quiet(v.sender) && v.sender.synFlag
    ensures Reaches(u, actions, w) && Underway(v, w) && Quiet(w.sender) && w.sender.synFlag && NothingLeft(w)
    decreases Rest(v)
  {
    actions, w := before, v;
    if !NothingLeft(v) {
      actions, w := SendAgain(u, before, v);
      actions, w := HearNow(u, actions, w);
      RestShrinks(v, w);
      actions, w := Rounds(u, actions, w);
    }
  }

  /** The window filled, and the receiver heard if it has anything to say. */
  lemma Begin(u: System) returns (actions: seq<Action>, v: System)
    requires Sound(u) && Roomy(u)
    ensures Reaches(u, actions, v) && Underway(u, v) && Current(v) && Quiet(v.sender) && v.sender.synFlag
  {
    var fill := SenderDoes(S.FillWindow);
    Extend(u, [], u, fill);
    actions, v := [] + [fill], Do(u, fill);
    FillUnderway(u);
    if v.receiver.isnSet {
      var w := v;
      actions, v := HearNow(u, actions, v);
      UnderwayTrans(u, w, v);
    }
  }

  lemma FillUnderway(u: System)
    requires Sound(u) && Roomy(u)
    ensures Underway(u, u.(sender := Fill(u.sender))) && Quiet(Fill(u.sender)) && Fill(u.sender).synFlag
  {
    var v := u.(sender := Fill(u.sender));
    SenderSound(u, S.FillWindow);
    FillKeeps(u.sender);
    FillQuiet(u.sender);
    FillFinDrains(u.sender);
    SenderKeepsLost(u, S.FillWindow);
    if !EndLost(u) {
      SenderKeepsHope(u, S.FillWindow);
    }
  }

  lemma UnderwayTrans(u: System, v: System, w: System)
    requires Underway(u, v) && Underway(v, w)
    ensures Underway(u, w)
  {}

  /** All retired means all delivered, the end included. */
  lemma RetiredMeansDelivered(u: System)
    requires Sound(u) && u.sender.synFlag && u.sender.retired == |u.sender.sent|
    ensures u.receiver.Out().history == Consumed(u.sender) && (u.sender.finFlag ==> u.receiver.Out().ended)
  {
    FromSourcePrefix(u.receiver.reassembler, Consumed(u.sender));
    InFlightPositive(u.sender);
    EndMeansDelivered(u);
  }

  lemma LostIsNotRetired(u: System)
    requires Sound(u) && EndLost(u)
    ensures u.sender.retired < |u.sender.sent|
  {
    EndMeansDelivered(u);
  }

  /** The sender's own retransmission delivers everything. From every sound state there is a run in which a segment
      arrives only when the clock has just re-emitted it. Afterwards every byte accepted has been cut into segments, but
      for those written past a FIN already sent, and all of that is in the receiver's stream. Every segment is retired,
      and the receiver's stream has ended if the sender's had, exactly when the end was not lost before. */
  lemma ClockCompletes(u: System) returns (actions: seq<Action>)
    requires Sound(u) && Roomy(u)
    ensures Runnable(u, actions) && CarefulRun(u, actions) && ByTimer(u, actions)
    ensures var v := EndToEnd.Run(u, actions);
            && Sound(v) && v.sender.stream.history == u.sender.stream.history
            && v.receiver.Out().history == Consumed(v.sender) && (u.sender.finFlag || Drained(v.sender))
            && (v.sender.retired == |v.sender.sent| <==> !EndLost(u))
            && (v.sender.finFlag <==> u.sender.stream.ended)
            && (u.sender.stream.ended ==> (v.receiver.Out().ended <==> !EndLost(u)))
  {
    var v;
    actions, v := Begin(u);
    var w := v;
    actions, v := Rounds(u, actions, v);
    UnderwayTrans(u, w, v);
    if v.sender.retired == |v.sender.sent| {
      RetiredMeansDelivered(v);
      InFlightPositive(v.sender);
    } else {
      FromSourcePrefix(v.receiver.reassembler, Consumed(v.sender));
    }
    if EndLost(v) {
      LostIsNotRetired(v);
    }
  }

  /** Exactly when the end can still be brought home by oldest segments alone. */
  lemma EndByOldest(u: System)
    requires Sound(u) && Roomy(u) && u.sender.finFlag
    ensures (exists actions :: Runnable(u, actions) && OldestFirst(u, actions)
                               && EndToEnd.Run(u, actions).receiver.Out().ended)
            <==> !EndLost(u)
  {
    if EndLost(u) {
      forall actions | Runnable(u, actions) && OldestFirst(u, actions)
        ensures !EndToEnd.Run(u, actions).receiver.Out().ended
      {
        LostForTheOldest(u, actions);
      }
    } else {
      var actions := ClockCompletes(u);
      ByTimerIsOldestFirst(u, actions);
      assert EndToEnd.Run(u, actions).receiver.Out().ended;
    }
  }
}
