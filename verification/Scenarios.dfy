/** What the scenarios start from. */
module ScenarioParts {
  import opened Common
  import opened ByteStreams
  import opened Segments
  import opened Sending

  const RTO: U16 := 1000

  const SYN_SEGMENT: Segment := SegmentAt(0, true, false, [])

  /** A sender that starts at 0, with nothing re-emitted and nothing taken from its queue yet. */
  function SenderOf(stream: Stream, sent: seq<Segment>, retired: nat, next: nat, flight: int, ackGot: U32, window: U16,
                    fin: bool): Sender
    requires retired <= |sent|
  {
    RawSender(0, RTO, stream, next, sent, retired, sent, flight, ackGot, window, 0, true, fin, Timer(RTO, 0, true))
  }
}

/** Runs that show the exceptional cases of the theorems to be real: each can happen from the initial state. */
module Scenarios {
  import opened Common
  import opened Wrapping
  import opened ByteStreams
  import opened Reassembly
  import opened ReassemblyProofs
  import opened Segments
  import opened Receiving
  import opened ReceivingProofs
  import opened Sending
  import S = SendingProofs
  import opened AckProofs
  import opened WindowProofs
  import opened EndToEnd
  import opened NoLoss
  import opened Progress
  import R = Retransmission
  import opened ScenarioParts

  // ---------- a sender of eight bytes' capacity that starts at 0 ----------

  function StreamOf(history: Bytes, readCount: nat, ended: bool): Stream
    requires readCount <= |history| <= readCount + 8
  {
    RawStream(history, readCount, 8, ended, false)
  }

  function DataAt(seqno: U32, payload: Bytes): Segment {
    SegmentAt(seqno, false, false, payload)
  }

  /** Filling that sends exactly one segment. */
  lemma FillSendsOne(s: Sender, t: Sender)
    requires s.synFlag && s.window > 0 && !Blocked(s) && SeqLength(NextSegment(s)) > 0 && SendNext(s) == t
    requires Blocked(t) || SeqLength(NextSegment(t)) == 0
    ensures Fill(s) == t
  {
    assert FillLoop(t) == t;
    assert FillLoop(s) == FillLoop(t);
  }

  lemma SynSent(data: Bytes)
    requires |data| <= 8
    ensures S.Step(S.Step(EmptySender(8, RTO, 0), S.Write(data)), S.FillWindow)
            == SenderOf(StreamOf(data, 0, false), [SYN_SEGMENT], 0, 1, 1, 0, 0, false)
  {}

  lemma SynAcked(data: Bytes, win: U16)
    requires 1 <= |data| <= 8 && |data| <= win
    ensures Acknowledge(SenderOf(StreamOf(data, 0, false), [SYN_SEGMENT], 0, 1, 1, 0, 0, false), 1, win)
            == SenderOf(StreamOf(data, |data|, false), [SYN_SEGMENT, DataAt(1, data)],
                        1, 1 + |data|, |data|, 1, win, false)
  {
    var s := SenderOf(StreamOf(data, 0, false), [SYN_SEGMENT], 0, 1, 1, 0, 0, false);
    var r := SenderOf(StreamOf(data, 0, false), [SYN_SEGMENT], 1, 1, 0, 0, 0, false);
    assert Retire(s, 1) == Retire(r, 1) == r;
    var a := Advance(r, 1).(window := win);
    assert a == SenderOf(StreamOf(data, 0, false), [SYN_SEGMENT], 1, 1, 0, 1, win, false);
    OneMore(a, data);
  }

  lemma SmallRoom(s: Sender)
    requires s.isn == 0 && s.ackGot <= s.nextSeqno < 1000 && s.nextSeqno - s.ackGot <= s.window
    ensures Remain(s) == s.window - (s.nextSeqno - s.ackGot)
  {}

  /** All unread bytes fit one segment and the window. */
  lemma OneMore(s: Sender, data: Bytes)
    requires s.synFlag && !s.finFlag && !s.stream.ended && s.isn == 0 && s.ackGot <= s.nextSeqno < 1000 && data != []
    requires s.stream.history[s.stream.readCount..] == data && |data| <= 1000
    requires s.nextSeqno - s.ackGot + |data| <= s.window
    ensures Fill(s) == Send(s.(stream := s.stream.Read(|data|)), DataAt(s.nextSeqno, data))
  {
    assert Remain(s) == s.window - (s.nextSeqno - s.ackGot) by {
      SmallRoom(s);
    }
    assert s.stream.Peek(Min(Remain(s), MAX_PAYLOAD_SIZE)) == data;
    assert NextSegment(s) == DataAt(s.nextSeqno, data);
    FillSendsOne(s, Send(s.(stream := s.stream.Read(|data|)), DataAt(s.nextSeqno, data)));
  }

  // ---------- a FIN that is missed ----------

  const FIRST: Segment := DataAt(1, [1, 2])
  const SECOND: Segment := DataAt(3, [3])
  const THIRD: Segment := DataAt(4, [4])
  const LAST: Segment := SegmentAt(5, false, true, [5, 6])

  const OPENED: Sender := SenderOf(StreamOf([1, 2], 2, false), [SYN_SEGMENT, FIRST], 1, 3, 2, 1, 3, false)
  const MIDWAY: Sender := SenderOf(StreamOf([1, 2, 3], 3, false), [SYN_SEGMENT, FIRST, SECOND], 2, 4, 1, 3, 3, false)
  const NEARLY: Sender :=
    SenderOf(StreamOf([1, 2, 3, 4], 4, false), [SYN_SEGMENT, FIRST, SECOND, THIRD], 2, 5, 2, 3, 3, false)
  const OVERRUN: Sender :=
    SenderOf(StreamOf([1, 2, 3, 4, 5, 6], 6, true), [SYN_SEGMENT, FIRST, SECOND, THIRD, LAST], 2, 8, 5, 3, 1, true)

  lemma SecondSent()
    ensures Acknowledge(S.Step(OPENED, S.Write([3])), 3, 3) == MIDWAY
  {
    var s := SenderOf(StreamOf([1, 2, 3], 2, false), [SYN_SEGMENT, FIRST], 1, 3, 2, 1, 3, false);
    assert S.Step(OPENED, S.Write([3])) == s;
    var r := SenderOf(StreamOf([1, 2, 3], 2, false), [SYN_SEGMENT, FIRST], 2, 3, 0, 1, 3, false);
    assert Retire(s, 3) == Retire(r, 3) == r;
    var a := SenderOf(StreamOf([1, 2, 3], 2, false), [SYN_SEGMENT, FIRST], 2, 3, 0, 3, 3, false);
    assert Advance(r, 3).(window := 3) == a;
    OneMore(a, [3]);
  }

  lemma ThirdSent()
    ensures Fill(S.Step(MIDWAY, S.Write([4]))) == NEARLY
  {
    var s := SenderOf(StreamOf([1, 2, 3, 4], 3, false), [SYN_SEGMENT, FIRST, SECOND], 2, 4, 1, 3, 3, false);
    assert S.Step(MIDWAY, S.Write([4])) == s;
    OneMore(s, [4]);
  }

  /** An old acknowledgment with a smaller window makes the sender send everything, FIN included. */
  lemma LastSent()
    ensures Acknowledge(S.Step(S.Step(NEARLY, S.Write([5, 6])), S.EndInput), 3, 1) == OVERRUN
  {
    var s := SenderOf(StreamOf([1, 2, 3, 4, 5, 6], 4, true), [SYN_SEGMENT, FIRST, SECOND, THIRD], 2, 5, 2, 3, 3, false);
    assert S.Step(S.Step(NEARLY, S.Write([5, 6])), S.EndInput) == s;
    assert Retire(s, 3) == s;
    var a := SenderOf(StreamOf([1, 2, 3, 4, 5, 6], 4, true), [SYN_SEGMENT, FIRST, SECOND, THIRD], 2, 5, 2, 3, 1, false);
    assert Advance(s, 3).(window := 1) == a;
    assert Remain(a) == TWO32 - 1;
    assert a.stream.Peek(MAX_PAYLOAD_SIZE) == [5, 6];
    assert NextSegment(a) == LAST;
    FillSendsOne(a, OVERRUN);
  }

  /** A receiver of three bytes' capacity with the first `next` bytes assembled, `read` of them read, and those in
      `[lo, hi)` stored, that has not heard of an end. */
  ghost predicate Shape(r: Receiver, next: nat, read: nat, lo: nat, hi: nat) {
    && r.isnSet && r.isn == 0
    && r.Out().capacity == 3 && |r.Out().history| == next && r.Out().readCount == read
    && !r.Out().ended && !r.reassembler.eofFlag
    && forall k :: k in r.reassembler.stored <==> lo <= k < hi
  }

  /** The next byte arrives, with room for it and whatever follows it in storage. */
  lemma PushNext(r: Reassembler, data: Bytes, hi: nat)
    requires KeysAhead(r) && !r.eofFlag && !r.out.ended && r.Next() + |data| <= hi <= r.Edge()
    requires forall k :: k in r.stored && k < r.Next() + |data| ==> false
    requires forall k :: r.Next() + |data| <= k < hi ==> k in r.stored
    requires hi !in r.stored
    ensures var t := Push(r, data, r.Next(), false);
            && t.Next() == hi && !t.eofFlag && !t.out.ended && SameFrame(r, t)
            && forall k :: k in t.stored <==> k in r.stored && k >= hi
  {
    var t := Push(r, data, r.Next(), false);
    PushKeeps(r, data, r.Next(), false);
    PushFlag(r, data, r.Next(), false);
    PushEnded(r, data, r.Next(), false);
    assert data[0..] == data;
    AssembleKeeps(r, data);
    assert !t.Holds(hi);
    assert t.Next() < hi ==> t.Holds(t.Next());
    forall k: nat ensures k in t.stored <==> k in r.stored && k >= hi {
      assert t.Holds(k) <==> r.Holds(k) || r.Next() <= k < r.Next() + |data|;
    }
  }

  lemma FirstPositions()
    ensures FirstPos(OVERRUN, 0) == 1 && FirstPos(OVERRUN, 1) == 1 && FirstPos(OVERRUN, 2) == 3
    ensures FirstPos(OVERRUN, 3) == 4 && FirstPos(OVERRUN, 4) == 5
    ensures FirstPos(OPENED, 0) == FirstPos(OPENED, 1) == 1
  {
    var sent := OVERRUN.sent;
    assert S.Start(sent, 1) == 1;
    assert S.Start(sent, 2) == 3;
    assert S.Start(sent, 3) == 4;
    assert S.Start(sent, 4) == 5;
    assert S.Start(OPENED.sent, 1) == 1;
  }

  /** `actions` lead from `start` to `v`, and every final segment delivered on the way keeps its last byte. */
  ghost predicate Leads(start: System, actions: seq<Action>, v: System) {
    Runnable(start, actions) && CarefulRun(start, actions) && EndToEnd.Run(start, actions) == v
  }

  lemma Extend(start: System, before: seq<Action>, u: System, a: Action, v: System)
    requires Leads(start, before, u) && Enabled(u, a) && Careful(u, a) && Do(u, a) == v
    ensures Leads(start, before + [a], v)
  {
    RunSnoc(start, before, a);
  }

  predicate Starts(start: System) {
    start == Initial(8, RTO, 0, 3)
  }

  lemma LeadsSafely(start: System, actions: seq<Action>, v: System)
    requires Starts(start) && Leads(start, actions, v)
    ensures Safe(v)
  {
    InitialSafe(8, RTO, 0, 3);
    RunSafe(start, actions);
  }

  lemma DeliverInOrder(u: System, i: nat, next: nat, read: nat, lo: nat, hi: nat, to: nat)
    requires Safe(u) && i < |u.sender.sent| && u.sender.isn == 0 && u.sender.nextSeqno < 1000
    requires Shape(u.receiver, next, read, lo, hi)
    requires FirstPos(u.sender, i) == next + 1 && !u.sender.sent[i].header.fin
    requires var n := next + |u.sender.sent[i].payload|;
             if n == lo < hi then to == hi else to == n && (n < lo || lo == hi)
    requires to <= read + 3
    ensures Enabled(u, Deliver(i)) && Careful(u, Deliver(i))
    ensures Shape(Do(u, Deliver(i)).receiver, to, read, Max(lo, to), Max(hi, to))
  {
    DeliveredIndex(u, i);
    PushNext(u.receiver.reassembler, u.sender.sent[i].payload, to);
  }

  lemma StartLeads(start: System)
    ensures Leads(start, [], start)
  {}

  lemma SenderActs(start: System, before: seq<Action>, u: System, e: S.Event, s: Sender)
    requires Leads(start, before, u) && !e.Ack? && S.Step(u.sender, e) == s
    ensures Leads(start, before + [SenderDoes(e)], u.(sender := s))
  {
    Extend(start, before, u, SenderDoes(e), u.(sender := s));
  }

  /** The first data is written and the SYN sent. */
  lemma SynLeads(start: System, data: Bytes) returns (actions: seq<Action>, v: System)
    requires start.sender == EmptySender(8, RTO, 0) && |data| <= 8
    ensures Leads(start, actions, v) && Arrivals(actions) == []
    ensures v == start.(sender := SenderOf(StreamOf(data, 0, false), [SYN_SEGMENT], 0, 1, 1, 0, 0, false))
  {
    StartLeads(start);
    SynSent(data);
    var s := S.Step(start.sender, S.Write(data));
    SenderActs(start, [], start, S.Write(data), s);
    var t := S.Step(s, S.FillWindow);
    SenderActs(start, [] + [SenderDoes(S.Write(data))], start.(sender := s), S.FillWindow, t);
    v := start.(sender := t);
    actions := [] + [SenderDoes(S.Write(data))] + [SenderDoes(S.FillWindow)];
    ArrivalsSnoc([], SenderDoes(S.Write(data)));
    ArrivalsSnoc([] + [SenderDoes(S.Write(data))], SenderDoes(S.FillWindow));
  }

  lemma Opening(start: System, data: Bytes) returns (actions: seq<Action>, v: System)
    requires Starts(start)
    requires |data| <= 8
    ensures Leads(start, actions, v) && v.acks == {} && Shape(v.receiver, 0, 0, 0, 0) && Arrivals(actions) == [0]
    ensures v.sender == SenderOf(StreamOf(data, 0, false), [SYN_SEGMENT], 0, 1, 1, 0, 0, false)
  {
    var before, u := SynLeads(start, data);
    LeadsSafely(start, before, u);
    DeliverSyn(u);
    v := Do(u, Deliver(0));
    Extend(start, before, u, Deliver(0), v);
    actions := before + [Deliver(0)];
    ArrivalsSnoc(before, Deliver(0));
  }

  /** Which segments arrive, in order. */
  function Arrivals(actions: seq<Action>): seq<nat> {
    if actions == [] then []
    else
      var before, a := Arrivals(actions[..|actions| - 1]), actions[|actions| - 1];
      if a.Deliver? then before + [a.i] else before
  }

  lemma ArrivalsSnoc(before: seq<Action>, a: Action)
    ensures Arrivals(before + [a]) == Arrivals(before) + if a.Deliver? then [a.i] else []
  {
    var all := before + [a];
    assert all[..|all| - 1] == before;
  }

  lemma DeliverSyn(u: System)
    requires Safe(u) && u.sender.nextSeqno == 1 && u.sender.isn == 0 && u.sender.sent == [SYN_SEGMENT]
    requires u.receiver == EmptyReceiver(3)
    ensures Enabled(u, Deliver(0)) && Careful(u, Deliver(0)) && Shape(Do(u, Deliver(0)).receiver, 0, 0, 0, 0)
  {
    DeliveredIndex(u, 0);
    assert FirstPos(u.sender, 0) == 1;
    PushNext(u.receiver.reassembler, [], 0);
  }

  lemma Feedback(u: System, next: nat, read: nat)
    requires Shape(u.receiver, next, read, next, next) && next < 10
    ensures Enabled(u, EmitAck) && Do(u, EmitAck) == u.(acks := u.acks + {(next + 1, 3 - (next - read))})
  {
    assert u.receiver.Ackno() == Some(next + 1);
    assert u.receiver.WindowSize() == 3 - (next - read);
  }

  /** The receiver's feedback, sent. */
  lemma Acked(start: System, before: seq<Action>, u: System, next: nat, read: nat) returns (v: System)
    requires Leads(start, before, u) && Shape(u.receiver, next, read, next, next) && next < 10
    ensures Leads(start, before + [EmitAck], v) && v == u.(acks := u.acks + {(next + 1, 3 - (next - read))})
  {
    Feedback(u, next, read);
    v := Do(u, EmitAck);
    Extend(start, before, u, EmitAck, v);
  }

  lemma FirstDelivered(start: System) returns (actions: seq<Action>, v: System)
    requires Starts(start)
    ensures Leads(start, actions, v) && v.sender == OPENED && Shape(v.receiver, 2, 0, 2, 2)
  {
    var before, u := Opening(start, [1, 2]);
    var u1 := Acked(start, before, u, 0, 0);
    SynAcked([1, 2], 3);
    var a := DeliverAck(1, 3);
    var u2 := Do(u1, a);
    assert u2.sender == OPENED;
    Extend(start, before + [EmitAck], u1, a, u2);
    FirstPositions();
    LeadsSafely(start, before + [EmitAck] + [a], u2);
    DeliverInOrder(u2, 1, 0, 0, 0, 0, 2);
    v := Do(u2, Deliver(1));
    Extend(start, before + [EmitAck] + [a], u2, Deliver(1), v);
    actions := before + [EmitAck] + [a] + [Deliver(1)];
  }

  /** Two acknowledgments of the same bytes, before and after they were read. */
  lemma TwoWindows(start: System) returns (actions: seq<Action>, v: System)
    requires Starts(start)
    ensures Leads(start, actions, v) && v.sender == OPENED && Shape(v.receiver, 2, 2, 2, 2)
    ensures (3, 1) in v.acks && (3, 3) in v.acks
  {
    var before, u := FirstDelivered(start);
    var u1 := Acked(start, before, u, 2, 0);
    var u2 := Do(u1, AppReads(2));
    assert Leads(start, before + [EmitAck] + [AppReads(2)], u2) by {
      Extend(start, before + [EmitAck], u1, AppReads(2), u2);
    }
    assert Shape(u2.receiver, 2, 2, 2, 2);
    v := Acked(start, before + [EmitAck] + [AppReads(2)], u2, 2, 2);
    actions := before + [EmitAck] + [AppReads(2)] + [EmitAck];
  }

  lemma AckArrives(start: System, before: seq<Action>, u: System, ackno: U32, win: U16, s: Sender)
    requires Leads(start, before, u) && (ackno, win) in u.acks && Acknowledge(u.sender, ackno, win) == s
    ensures Leads(start, before + [DeliverAck(ackno, win)], u.(sender := s))
  {
    Extend(start, before, u, DeliverAck(ackno, win), u.(sender := s));
  }

  lemma ThirdLeads(start: System, before: seq<Action>, u: System) returns (actions: seq<Action>)
    requires Leads(start, before, u) && u.sender == OPENED && (3, 3) in u.acks
    ensures Leads(start, actions, u.(sender := NEARLY))
  {
    SecondSent();
    ThirdSent();
    var s := S.Step(OPENED, S.Write([3]));
    SenderActs(start, before, u, S.Write([3]), s);
    actions := before + [SenderDoes(S.Write([3]))];
    AckArrives(start, actions, u.(sender := s), 3, 3, MIDWAY);
    actions := actions + [DeliverAck(3, 3)];
    var m := S.Step(MIDWAY, S.Write([4]));
    SenderActs(start, actions, u.(sender := MIDWAY), S.Write([4]), m);
    actions := actions + [SenderDoes(S.Write([4]))];
    SenderActs(start, actions, u.(sender := m), S.FillWindow, NEARLY);
    actions := actions + [SenderDoes(S.FillWindow)];
  }

  lemma LastLeads(start: System, before: seq<Action>, u: System) returns (actions: seq<Action>)
    requires Leads(start, before, u) && u.sender == NEARLY && (3, 1) in u.acks
    ensures Leads(start, actions, u.(sender := OVERRUN))
  {
    LastSent();
    var s := S.Step(NEARLY, S.Write([5, 6]));
    SenderActs(start, before, u, S.Write([5, 6]), s);
    actions := before + [SenderDoes(S.Write([5, 6]))];
    var t := S.Step(s, S.EndInput);
    SenderActs(start, actions, u.(sender := s), S.EndInput, t);
    actions := actions + [SenderDoes(S.EndInput)];
    AckArrives(start, actions, u.(sender := t), 3, 1, OVERRUN);
    actions := actions + [DeliverAck(3, 1)];
  }

  /** The last segment, too far ahead for its end mark and near enough for its bytes. */
  lemma LastOvershoots(u: System)
    requires Safe(u) && u.sender == OVERRUN && Shape(u.receiver, 2, 2, 2, 2)
    ensures Enabled(u, Deliver(4)) && Careful(u, Deliver(4)) && Shape(Do(u, Deliver(4)).receiver, 2, 2, 4, 6)
  {
    FirstPositions();
    DeliveredIndex(u, 4);
    var r := u.receiver.reassembler;
    assert OVERRUN.sent[4] == LAST;
    var t := Push(r, [5, 6], 4, true);
    PushKeeps(r, [5, 6], 4, true);
    PushFlag(r, [5, 6], 4, true);
    PushEnded(r, [5, 6], 4, true);
    assert t.Next() == 2;
    assert forall k: nat :: k in t.stored <==> t.Holds(k) && k >= 2;
  }

  lemma Overtaken(start: System, before: seq<Action>, u: System) returns (actions: seq<Action>, v: System)
    requires Starts(start) && Leads(start, before, u) && u.sender == OVERRUN && Shape(u.receiver, 2, 2, 2, 2)
    ensures Leads(start, actions, v) && v.sender == OVERRUN && Shape(v.receiver, 3, 2, 4, 6)
  {
    FirstPositions();
    LeadsSafely(start, before, u);
    LastOvershoots(u);
    var w := Do(u, Deliver(4));
    Extend(start, before, u, Deliver(4), w);
    LeadsSafely(start, before + [Deliver(4)], w);
    DeliverInOrder(w, 2, 2, 2, 4, 6, 3);
    v := Do(w, Deliver(2));
    Extend(start, before + [Deliver(4)], w, Deliver(2), v);
    actions := before + [Deliver(4)] + [Deliver(2)];
  }

  lemma Completing(start: System, before: seq<Action>, u: System) returns (actions: seq<Action>, v: System)
    requires Starts(start) && Leads(start, before, u) && u.sender == OVERRUN && Shape(u.receiver, 3, 2, 4, 6)
    ensures Leads(start, actions, v) && v.sender == OVERRUN && Shape(v.receiver, 6, 3, 6, 6)
  {
    FirstPositions();
    var w := Do(u, AppReads(1));
    Extend(start, before, u, AppReads(1), w);
    LeadsSafely(start, before + [AppReads(1)], w);
    DeliverInOrder(w, 3, 3, 3, 4, 6, 6);
    v := Do(w, Deliver(3));
    Extend(start, before + [AppReads(1)], w, Deliver(3), v);
    actions := before + [AppReads(1)] + [Deliver(3)];
  }

  /** A FIN can be missed for good although every final segment delivered keeps its last byte: all of the stream is
      assembled, the output is not ended, and the FIN came with data. */
  lemma FinCanBeMissed() returns (actions: seq<Action>)
    ensures Runnable(Initial(8, RTO, 0, 3), actions) && CarefulRun(Initial(8, RTO, 0, 3), actions)
    ensures var v := EndToEnd.Run(Initial(8, RTO, 0, 3), actions);
            && v.sender.finFlag && v.receiver.Out().history == v.sender.stream.history && !CanEnd(v)
            && forall more :: Runnable(v, more) ==> !EndToEnd.Run(v, more).receiver.Out().ended
  {
    var start := Initial(8, RTO, 0, 3);
    var before, u := TwoWindows(start);
    var third := ThirdLeads(start, before, u);
    var last := LastLeads(start, third, u.(sender := NEARLY));
    var v;
    actions, v := Overtaken(start, last, u.(sender := OVERRUN));
    actions, v := Completing(start, actions, v);
    LeadsSafely(start, actions, v);
    FromSourcePrefix(v.receiver.reassembler, Consumed(v.sender));
    forall more | Runnable(v, more) ensures !EndToEnd.Run(v, more).receiver.Out().ended {
      EndLostForGood(v, more);
    }
  }

  // ---------- a FIN that is overtaken ----------

  lemma InitialSound(sendCapacity: nat, rto: U16, isn: U32, recvCapacity: nat)
    ensures Sound(Initial(sendCapacity, rto, isn, recvCapacity))
  {
    InitialSafe(sendCapacity, rto, isn, recvCapacity);
  }

  lemma ShapeIsLost(v: System)
    requires v.sender == OVERRUN && Shape(v.receiver, 3, 3, 4, 6)
    ensures CanEnd(v) && R.EndLost(v)
  {
    FirstPositions();
    assert v.receiver.reassembler.Holds(4) && v.receiver.reassembler.Holds(5);
  }

  /** A careful run after which only the network could still bring the end home: some byte is still to come, and yet no
      run that delivers oldest segments ends the output. */
  lemma FinCanBeOvertaken() returns (actions: seq<Action>)
    ensures Runnable(Initial(8, RTO, 0, 3), actions) && CarefulRun(Initial(8, RTO, 0, 3), actions)
    ensures var v := EndToEnd.Run(Initial(8, RTO, 0, 3), actions);
            && CanEnd(v) && R.EndLost(v)
            && forall more :: Runnable(v, more) && R.OldestFirst(v, more) ==>
                                !EndToEnd.Run(v, more).receiver.Out().ended
  {
    var start := Initial(8, RTO, 0, 3);
    var before, u := TwoWindows(start);
    var third := ThirdLeads(start, before, u);
    var last := LastLeads(start, third, u.(sender := NEARLY));
    var w;
    actions, w := Overtaken(start, last, u.(sender := OVERRUN));
    var v := Do(w, AppReads(1));
    Extend(start, actions, w, AppReads(1), v);
    actions := actions + [AppReads(1)];
    ShapeIsLost(v);
    LeadsSoundly(start, actions, v);
    forall more | Runnable(v, more) && R.OldestFirst(v, more) ensures !EndToEnd.Run(v, more).receiver.Out().ended {
      R.LostForTheOldest(v, more);
    }
  }

  lemma LeadsSoundly(start: System, actions: seq<Action>, v: System)
    requires Starts(start) && Leads(start, actions, v)
    ensures Sound(v)
  {
    InitialSound(8, RTO, 0, 3);
    RunSound(start, actions);
  }

  // ---------- a byte lost to a bare FIN that overtook it ----------

  const ONE: Segment := DataAt(1, [7])
  const TWO: Segment := DataAt(2, [8])
  const FIN_SEGMENT: Segment := SegmentAt(3, false, true, [])

  const ONE_SENT: Sender := SenderOf(StreamOf([7], 1, false), [SYN_SEGMENT, ONE], 1, 2, 1, 1, 3, false)
  const TWO_SENT: Sender := SenderOf(StreamOf([7, 8], 2, false), [SYN_SEGMENT, ONE, TWO], 1, 3, 2, 1, 3, false)
  const ALL_SENT: Sender :=
    SenderOf(StreamOf([7, 8], 2, true), [SYN_SEGMENT, ONE, TWO, FIN_SEGMENT], 1, 4, 3, 1, 3, true)

  /** The clock has re-emitted the first byte: what was emitted is SYN, first byte, second byte, FIN, first byte. */
  const SENT_AGAIN: Sender :=
    ALL_SENT.(pending := [SYN_SEGMENT, ONE, TWO, FIN_SEGMENT, ONE], retx := 1, timer := Timer(2 * RTO, 0, true))

  lemma TwoSent()
    ensures Fill(S.Step(ONE_SENT, S.Write([8]))) == TWO_SENT
  {
    var s := SenderOf(StreamOf([7, 8], 1, false), [SYN_SEGMENT, ONE], 1, 2, 1, 1, 3, false);
    assert S.Step(ONE_SENT, S.Write([8])) == s;
    OneMore(s, [8]);
  }

  lemma FinSent()
    ensures Fill(S.Step(TWO_SENT, S.EndInput)) == ALL_SENT
  {
    var s := SenderOf(StreamOf([7, 8], 2, true), [SYN_SEGMENT, ONE, TWO], 1, 3, 2, 1, 3, false);
    assert S.Step(TWO_SENT, S.EndInput) == s;
    assert Remain(s) == 1;
    assert NextSegment(s) == FIN_SEGMENT;
    FillSendsOne(s, ALL_SENT);
  }

  lemma AllSent(start: System) returns (actions: seq<Action>, v: System)
    requires Starts(start)
    ensures Leads(start, actions, v) && v.sender == SENT_AGAIN && Shape(v.receiver, 0, 0, 0, 0)
    ensures Arrivals(actions) == [0]
  {
    var before, u := Opening(start, [7]);
    var w := Acked(start, before, u, 0, 0);
    ArrivalsSnoc(before, EmitAck);
    actions := before + [EmitAck];
    SynAcked([7], 3);
    AckArrives(start, actions, w, 1, 3, ONE_SENT);
    ArrivalsSnoc(actions, DeliverAck(1, 3));
    actions := SendTwo(start, actions + [DeliverAck(1, 3)], w.(sender := ONE_SENT));
    actions, v := FinishSending(start, actions, w.(sender := TWO_SENT));
  }

  lemma SendTwo(start: System, before: seq<Action>, u: System) returns (actions: seq<Action>)
    requires Leads(start, before, u) && u.sender == ONE_SENT
    ensures Leads(start, actions, u.(sender := TWO_SENT)) && Arrivals(actions) == Arrivals(before)
  {
    var s := S.Step(ONE_SENT, S.Write([8]));
    SenderActs(start, before, u, S.Write([8]), s);
    ArrivalsSnoc(before, SenderDoes(S.Write([8])));
    actions := before + [SenderDoes(S.Write([8]))];
    TwoSent();
    SenderActs(start, actions, u.(sender := s), S.FillWindow, TWO_SENT);
    ArrivalsSnoc(actions, SenderDoes(S.FillWindow));
    actions := actions + [SenderDoes(S.FillWindow)];
  }

  lemma FinishSending(start: System, before: seq<Action>, u: System) returns (actions: seq<Action>, v: System)
    requires Leads(start, before, u) && u.sender == TWO_SENT
    ensures Leads(start, actions, v) && v == u.(sender := SENT_AGAIN) && Arrivals(actions) == Arrivals(before)
  {
    FinSent();
    var t := S.Step(TWO_SENT, S.EndInput);
    SenderActs(start, before, u, S.EndInput, t);
    ArrivalsSnoc(before, SenderDoes(S.EndInput));
    actions := before + [SenderDoes(S.EndInput)];
    SenderActs(start, actions, u.(sender := t), S.FillWindow, ALL_SENT);
    ArrivalsSnoc(actions, SenderDoes(S.FillWindow));
    actions := actions + [SenderDoes(S.FillWindow)];
    actions, v := WaitOnce(start, actions, u.(sender := ALL_SENT));
  }

  lemma Waits()
    ensures Elapse(ALL_SENT, RTO) == SENT_AGAIN
  {
    assert ALL_SENT.timer.PassTime(RTO) == Timer(RTO, 0, false);
    assert ALL_SENT.pending + [ONE] == SENT_AGAIN.pending;
  }

  lemma WaitOnce(start: System, before: seq<Action>, u: System) returns (actions: seq<Action>, v: System)
    requires Leads(start, before, u) && u.sender == ALL_SENT
    ensures Leads(start, actions, v) && v == u.(sender := SENT_AGAIN) && Arrivals(actions) == Arrivals(before)
  {
    Waits();
    SenderActs(start, before, u, S.Time(RTO), SENT_AGAIN);
    ArrivalsSnoc(before, SenderDoes(S.Time(RTO)));
    actions := before + [SenderDoes(S.Time(RTO))];
    v := u.(sender := SENT_AGAIN);
  }

  lemma FreelyExtend(start: System, before: seq<Action>, a: Action)
    requires Runnable(start, before) && Enabled(EndToEnd.Run(start, before), a)
    ensures Runnable(start, before + [a])
    ensures EndToEnd.Run(start, before + [a]) == Do(EndToEnd.Run(start, before), a)
  {
    var all := before + [a];
    assert all[..|all| - 1] == before;
  }

  /** The FIN overtakes both bytes. */
  lemma FinOvertakes(u: System)
    requires Safe(u) && u.sender == SENT_AGAIN && Shape(u.receiver, 0, 0, 0, 0)
    ensures Enabled(u, Deliver(3))
    ensures Do(u, Deliver(3)).receiver == u.receiver.(reassembler := u.receiver.reassembler.(eofFlag := true))
  {
    AllPositions();
    DeliveredIndex(u, 3);
    assert u.receiver.reassembler.stored == map[];
  }

  lemma MarkedPushEnds(r: Reassembler, data: Bytes)
    requires r.eofFlag && r.stored == map[] && r.out.history == [] && |data| == 1 && r.out.capacity == 3
    ensures var t := Push(r, data, 0, false); t.out.ended && t.Next() == 1 && SameFrame(r, t)
  {
    assert data[0..] == data;
    AssembleKeeps(r, data);
    var t := Push(r, data, 0, false);
    assert forall k: nat :: t.Holds(k) <==> k == 0;
    assert t.Next() == 1 by {
      assert t.Next() > 1 ==> t.Holds(1);
    }
    assert t.stored == map[] by {
      assert forall k :: k in t.stored ==> t.Holds(k);
    }
  }

  /** The first byte ends the output. */
  lemma FirstByteEnds(u: System)
    requires Safe(u) && u.sender == SENT_AGAIN
    requires Shape(u.receiver.(reassembler := u.receiver.reassembler.(eofFlag := false)), 0, 0, 0, 0)
    requires u.receiver.reassembler.eofFlag
    ensures Enabled(u, Deliver(1)) && EndedAfterOne(Do(u, Deliver(1)).receiver)
  {
    AllPositions();
    DeliveredIndex(u, 1);
    assert u.receiver.reassembler.stored == map[];
    MarkedPushEnds(u.receiver.reassembler, [7]);
  }

  predicate EndedAfterOne(r: Receiver) {
    r.isnSet && r.isn == 0 && r.Out().ended && |r.Out().history| == 1 && r.Out().capacity == 3 && r.Out().readCount == 0
  }

  lemma AllPositions()
    ensures S.Start(ALL_SENT.sent, 1) == 1 && S.Start(ALL_SENT.sent, 2) == 2 && S.Start(ALL_SENT.sent, 3) == 3
  {
    assert S.Start(ALL_SENT.sent, 1) == 1;
    assert S.Start(ALL_SENT.sent, 2) == 2;
  }

  /** The acknowledgment that results retires the second byte, which was never delivered. */
  lemma UndeliveredRetired()
    ensures var t := Acknowledge(SENT_AGAIN, 3, 2);
            !Outstanding(t, 1) && t.stream == ALL_SENT.stream && t.pending == SENT_AGAIN.pending
  {
    var r1 := SENT_AGAIN.(retired := 2, bytesInFlight := 2);
    var r2 := SENT_AGAIN.(retired := 3, bytesInFlight := 1);
    assert Retire(SENT_AGAIN, 3) == Retire(r1, 3) == Retire(r2, 3) == r2;
    assert Acknowledge(SENT_AGAIN, 3, 2).sent == ALL_SENT.sent;
  }

  /** Without care for final segments a byte can be lost: sent, retired, never delivered, and the output ended. What
      arrives is what was emitted, in order, with only the first copies of the two bytes dropped. */
  lemma ByteCanBeLost() returns (actions: seq<Action>)
    ensures Runnable(Initial(8, RTO, 0, 3), actions)
    ensures var v := EndToEnd.Run(Initial(8, RTO, 0, 3), actions);
            && v.receiver.Out().ended && |v.receiver.Out().history| == 1
            && 1 < v.sender.stream.readCount && !Outstanding(v.sender, 1)
            && Arrivals(actions) == [0, 3, 1] && v.sender.pending == [SYN_SEGMENT, ONE, TWO, FIN_SEGMENT, ONE]
  {
    var start := Initial(8, RTO, 0, 3);
    var u;
    actions, u := AllSent(start);
    LeadsSafely(start, actions, u);
    FinOvertakes(u);
    var w := Do(u, Deliver(3));
    FreelyExtend(start, actions, Deliver(3));
    StepSafe(u, Deliver(3));
    FirstByteEnds(w);
    FreelyExtend(start, actions + [Deliver(3)], Deliver(1));
    ArrivalsSnoc(actions, Deliver(3));
    ArrivalsSnoc(actions + [Deliver(3)], Deliver(1));
    var v := Do(w, Deliver(1));
    actions := actions + [Deliver(3)] + [Deliver(1)];
    EndedFeedback(v);
    FreelyExtend(start, actions, EmitAck);
    FreelyExtend(start, actions + [EmitAck], DeliverAck(3, 2));
    ArrivalsSnoc(actions, EmitAck);
    ArrivalsSnoc(actions + [EmitAck], DeliverAck(3, 2));
    actions := actions + [EmitAck] + [DeliverAck(3, 2)];
    UndeliveredRetired();
  }

  lemma EndedFeedback(v: System)
    requires EndedAfterOne(v.receiver)
    ensures Enabled(v, EmitAck) && Do(v, EmitAck) == v.(acks := v.acks + {(3, 2)})
  {
    assert v.receiver.Ackno() == Some(3);
    assert v.receiver.WindowSize() == 2;
  }

  // ---------- a window taken back ----------

  /** A peer that takes back window it had granted: more is in flight than any window it ever advertised. */
  lemma WindowCanBeOverrun() returns (es: seq<S.Event>)
    ensures forall i :: 0 <= i < |es| && es[i].Ack? ==> es[i].win <= 2
    ensures var s := S.Run(EmptySender(8, RTO, 0), es); NoWrap(s) && InFlight(s) == 3
  {
    es := FlightOfTwo(EmptySender(8, RTO, 0));
    var s := SenderOf(StreamOf([1, 2], 2, false), [SYN_SEGMENT, FIRST], 1, 3, 2, 1, 2, false);
    var t := S.Step(s, S.Write([3]));
    SenderThen(EmptySender(8, RTO, 0), es, S.Write([3]), s, t);
    es := es + [S.Write([3])];
    SenderThen(EmptySender(8, RTO, 0), es, S.Ack(1, 1), t, Acknowledge(t, 1, 1));
    es := es + [S.Ack(1, 1)];
    ShrunkAck();
  }

  lemma SenderThen(start: Sender, es: seq<S.Event>, e: S.Event, s: Sender, t: Sender)
    requires S.Run(start, es) == s && S.Step(s, e) == t
    ensures S.Run(start, es + [e]) == t
  {
    S.RunSnoc(start, es, e);
  }

  /** Two bytes in flight in a window of two. */
  lemma FlightOfTwo(start: Sender) returns (es: seq<S.Event>)
    requires start == EmptySender(8, RTO, 0)
    ensures forall i :: 0 <= i < |es| && es[i].Ack? ==> es[i].win <= 2
    ensures S.Run(start, es) == SenderOf(StreamOf([1, 2], 2, false), [SYN_SEGMENT, FIRST], 1, 3, 2, 1, 2, false)
  {
    var s := S.Step(start, S.Write([1, 2]));
    SenderThen(start, [], S.Write([1, 2]), start, s);
    var t := S.Step(s, S.FillWindow);
    SenderThen(start, [] + [S.Write([1, 2])], S.FillWindow, s, t);
    SynSent([1, 2]);
    SynAcked([1, 2], 2);
    es := [] + [S.Write([1, 2])] + [S.FillWindow];
    SenderThen(start, es, S.Ack(1, 2), t, Acknowledge(t, 1, 2));
    es := es + [S.Ack(1, 2)];
  }

  lemma ShrunkAck()
    ensures var s := SenderOf(StreamOf([1, 2], 2, false), [SYN_SEGMENT, FIRST], 1, 3, 2, 1, 2, false);
            var t := Acknowledge(S.Step(s, S.Write([3])), 1, 1);
            t.isn == 0 && t.nextSeqno == 4 && t.ackGot == 1
  {
    var s := SenderOf(StreamOf([1, 2, 3], 2, false), [SYN_SEGMENT, FIRST], 1, 3, 2, 1, 2, false);
    assert S.Step(SenderOf(StreamOf([1, 2], 2, false), [SYN_SEGMENT, FIRST], 1, 3, 2, 1, 2, false), S.Write([3])) == s;
    assert Retire(s, 1) == s;
    var a := SenderOf(StreamOf([1, 2, 3], 2, false), [SYN_SEGMENT, FIRST], 1, 3, 2, 1, 1, false);
    assert Advance(s, 1).(window := 1) == a;
    assert Remain(a) == TWO32 - 1;
    assert NextSegment(a) == DataAt(3, [3]);
    FillSendsOne(a, Send(a.(stream := a.stream.Read(1)), DataAt(3, [3])));
  }
}

/** A connection that closes cleanly and is not CLOSED: its application wrote past the FIN. */
module ClosingScenario {
  import opened Common
  import opened Wrapping
  import opened ByteStreams
  import opened Reassembly
  import opened Segments
  import opened Receiving
  import opened Sending
  import opened Connections
  import opened TcpStates
  import P = ConnectionProofs
  import opened ScenarioParts

  const CLOSING_FIN: Segment := SegmentAt(1, false, true, [])
  const PEER_SYN: Segment := Segment(DEFAULT_HEADER.(seqno := 100, syn := true, ack := true, ackno := 1, win := 10), [])
  const PEER_FIN: Segment := Segment(DEFAULT_HEADER.(seqno := 101, fin := true, ack := true, ackno := 2, win := 10), [])

  /** The same with its queue emptied. */
  function IdleSender(stream: Stream, sent: seq<Segment>, retired: nat, next: nat, flight: int, ackGot: U32,
                      window: U16, fin: bool): Sender
    requires retired <= |sent|
  {
    SenderOf(stream, sent, retired, next, flight, ackGot, window, fin).(pending := [])
  }

  /** An open connection, whatever it has queued. */
  predicate Stands(c: Connection, s: Sender, r: Receiver) {
    && c.sender == s && c.receiver == r
    && c.active && !c.rstSet && c.synSet && c.linger && !c.finAckSent && c.recFin == None
  }

  /** Handing over at most one segment, while the peer has not ended its stream. */
  lemma HandsOver(c: Connection, s: Sender, r: Receiver)
    requires |c.sender.pending| <= 1 && c.active && !c.rstSet && c.linger && !c.finAckSent && c.recFin == None
    requires c.synSet || (c.sender.pending != [] && c.sender.pending[0].header.syn)
    requires c.sender.(pending := []) == s && c.receiver == r && !r.Out().ended
    ensures Stands(SendSegs(c), s, r)
  {
    var q := WithPending(c);
    var d := QueueOne(q);
    assert EmitAll(q) == EmitAll(d) == d;
    assert CleanShutdown(d) == d;
  }

  const CONNECTING: Sender := IdleSender(EmptyStream(8), [SYN_SEGMENT], 0, 1, 1, 0, 0, false)
  const OPEN: Sender := IdleSender(EmptyStream(8), [SYN_SEGMENT], 1, 1, 0, 1, 10, false)
  const ENDED: Sender := IdleSender(EmptyStream(8).(ended := true), [SYN_SEGMENT, CLOSING_FIN], 1, 2, 1, 1, 10, true)
  const WRITTEN: Sender :=
    IdleSender(RawStream([7], 0, 8, true, false), [SYN_SEGMENT, CLOSING_FIN], 1, 2, 1, 1, 10, true)

  lemma Connects()
    ensures Stands(Connect(NewConnection(RTO, 8, 8, 0)), CONNECTING, EmptyReceiver(8))
  {
    var c := NewConnection(RTO, 8, 8, 0);
    var s := Fill(c.sender);
    assert s == CONNECTING.(pending := [SYN_SEGMENT]);
    HandsOver(c.(sender := s), CONNECTING, EmptyReceiver(8));
  }

  lemma SynHeard(r: Receiver)
    requires r == EmptyReceiver(8)
    ensures Receive(r, PEER_SYN) == r.(isn := 100, isnSet := true)
  {
    assert StreamIndex(PEER_SYN, 100, 0) == 0;
    var e := r.reassembler;
    var w := WriteUpTo(e, [], 0);
    assert w == e;
    assert Push(e, [], 0, false) == Assemble(e, []) by {
      var none: Bytes := [];
      assert none[0..] == none;
    }
  }

  lemma SynAcknowledged()
    ensures Acknowledge(CONNECTING, 1, 10) == OPEN
  {
    var r := IdleSender(EmptyStream(8), [SYN_SEGMENT], 1, 1, 0, 0, 0, false);
    assert Retire(CONNECTING, 1) == Retire(r, 1) == r;
    assert Advance(r, 1).(window := 10) == OPEN;
    assert NextSegment(OPEN).payload == [];
    assert FillLoop(OPEN) == OPEN;
  }

  lemma Opens(c: Connection)
    requires Stands(c, CONNECTING, EmptyReceiver(8))
    ensures Stands(Arrive(c, PEER_SYN), OPEN, EmptyReceiver(8).(isn := 100, isnSet := true))
  {
    var r := EmptyReceiver(8).(isn := 100, isnSet := true);
    SynHeard(EmptyReceiver(8));
    SynAcknowledged();
    var d := Digest(Open(c), PEER_SYN);
    assert Stands(d, OPEN, r);
    HandsOver(d, OPEN, r);
    assert CleanShutdown(SendSegs(d)) == SendSegs(d);
  }

  lemma Ends(c: Connection, r: Receiver)
    requires Stands(c, OPEN, r) && !r.Out().ended
    ensures Stands(EndInput(c), ENDED, r)
  {
    var s := OPEN.(stream := EmptyStream(8).(ended := true));
    var t := ENDED.(pending := [CLOSING_FIN]);
    assert Remain(s) == 10;
    assert NextSegment(s) == CLOSING_FIN;
    assert SendNext(s) == t;
    assert FillLoop(s) == FillLoop(t) == t;
    HandsOver(c.(sender := t), ENDED, r);
  }

  lemma WritesPastFin(c: Connection, r: Receiver)
    requires Stands(c, ENDED, r) && !r.Out().ended
    ensures Stands(Write(c, [7]), WRITTEN, r)
  {
    var s := ENDED.(stream := ENDED.stream.Write([7]));
    assert s == WRITTEN;
    HandsOver(c.(sender := s), WRITTEN, r);
  }

  lemma FinHeard(r: Receiver)
    requires r == EmptyReceiver(8).(isn := 100, isnSet := true)
    ensures Receive(r, PEER_FIN).Out().ended && Receive(r, PEER_FIN).reassembler.stored == map[]
  {
    assert StreamIndex(PEER_FIN, 100, 0) == 0;
    var e := r.reassembler.(eofFlag := true);
    assert WriteUpTo(e, [], 0) == e;
    assert Drain(e) == e;
    assert Push(r.reassembler, [], 0, true) == Assemble(e, []) by {
      var none: Bytes := [];
      assert none[0..] == none;
    }
  }

  lemma FinAcknowledged()
    ensures var s := Acknowledge(WRITTEN, 2, 10); s.bytesInFlight == 0 && s.pending == [] && s.stream == WRITTEN.stream
  {
    var r := IdleSender(WRITTEN.stream, [SYN_SEGMENT, CLOSING_FIN], 2, 2, 0, 1, 10, true);
    assert Retire(WRITTEN, 2) == Retire(r, 2) == r;
  }

  lemma Closes(c: Connection)
    requires Stands(c, WRITTEN, EmptyReceiver(8).(isn := 100, isnSet := true))
    ensures var d := Arrive(c, PEER_FIN); !d.active && !d.rstSet && d.sender.stream == WRITTEN.stream
  {
    FinHeard(EmptyReceiver(8).(isn := 100, isnSet := true));
    FinAcknowledged();
    var d := Digest(Open(c), PEER_FIN);
    assert !d.active && !d.rstSet && d.sender.stream == WRITTEN.stream;
    var e := d.(recFin := Some(PEER_FIN.header.seqno));
    P.EmitAllShape(WithPending(e));
  }

  lemma RunSnoc(c: Connection, ops: seq<P.Op>, op: P.Op)
    ensures P.Run(c, ops + [op]) == P.Step(P.Run(c, ops), op)
  {
    var all := ops + [op];
    assert all[..|all| - 1] == ops;
  }

  const HEARD: Receiver := EmptyReceiver(8).(isn := 100, isnSet := true)

  lemma ThenConnects(c: Connection)
    requires c == NewConnection(RTO, 8, 8, 0)
    ensures Stands(P.Run(c, [] + [P.OpConnect]), CONNECTING, EmptyReceiver(8))
  {
    Connects();
    RunSnoc(c, [], P.OpConnect);
  }

  lemma ThenOpens(c: Connection, ops: seq<P.Op>)
    requires Stands(P.Run(c, ops), CONNECTING, EmptyReceiver(8))
    ensures Stands(P.Run(c, ops + [P.OpSegment(PEER_SYN)]), OPEN, HEARD)
  {
    Opens(P.Run(c, ops));
    RunSnoc(c, ops, P.OpSegment(PEER_SYN));
  }

  lemma ThenEnds(c: Connection, ops: seq<P.Op>)
    requires Stands(P.Run(c, ops), OPEN, HEARD)
    ensures Stands(P.Run(c, ops + [P.OpEndInput]), ENDED, HEARD)
  {
    Ends(P.Run(c, ops), HEARD);
    RunSnoc(c, ops, P.OpEndInput);
  }

  lemma ThenWrites(c: Connection, ops: seq<P.Op>)
    requires Stands(P.Run(c, ops), ENDED, HEARD)
    ensures Stands(P.Run(c, ops + [P.OpWrite([7])]), WRITTEN, HEARD)
  {
    WritesPastFin(P.Run(c, ops), HEARD);
    RunSnoc(c, ops, P.OpWrite([7]));
  }

  lemma ThenCloses(c: Connection, ops: seq<P.Op>)
    requires Stands(P.Run(c, ops), WRITTEN, HEARD)
    ensures var d := P.Run(c, ops + [P.OpSegment(PEER_FIN)]);
            !d.active && !d.rstSet && d.sender.stream == WRITTEN.stream
  {
    Closes(P.Run(c, ops));
    RunSnoc(c, ops, P.OpSegment(PEER_FIN));
  }

  /** A byte written past the FIN keeps a cleanly closed connection from being CLOSED. */
  lemma CleanCloseNotClosed() returns (ops: seq<P.Op>)
    ensures var c := P.Run(NewConnection(RTO, 8, 8, 0), ops);
            !c.active && !c.rstSet && Summarize(c) != Official(CLOSED)
  {
    var c := NewConnection(RTO, 8, 8, 0);
    ThenConnects(c);
    ops := [] + [P.OpConnect];
    ThenOpens(c, ops);
    ops := ops + [P.OpSegment(PEER_SYN)];
    ThenEnds(c, ops);
    ops := ops + [P.OpEndInput];
    ThenWrites(c, ops);
    ops := ops + [P.OpWrite([7])];
    ThenCloses(c, ops);
    ops := ops + [P.OpSegment(PEER_FIN)];
    P.InactiveMeans(RTO, 8, 8, 0, ops);
  }
}

/** A peer done first, and not noticed: its numbers wrap between its last bytes and its FIN. */
module LingerScenario {
  import opened Common
  import opened Wrapping
  import opened ByteStreams
  import opened Reassembly
  import opened Segments
  import opened Receiving
  import opened Sending
  import opened Connections
  import P = ConnectionProofs
  import opened Peers
  import opened ConnectionLaws
  import opened CallProofs
  import opened RunProofs
  import opened HandshakeProofs
  import ClosingScenario

  const PEER_ISN: U32 := 0xffff_fffd
  const FIRST_SYN: Segment := Segment(DEFAULT_HEADER.(seqno := PEER_ISN, syn := true), [])
  const EARLY_FIN: Segment := Segment(DEFAULT_HEADER.(seqno := 0, fin := true), [3])
  const LATE_DATA: Segment := Segment(DEFAULT_HEADER.(seqno := 0xffff_fffe), [1, 2])

  /** The FIN has come with the third byte, which is number zero; the first two are missing. */
  const GAPPED: Receiver := Receiver(Reassembler(EmptyStream(8), map[2 := 3], true), PEER_ISN, true)

  lemma FinHeardEarly(r: Receiver)
    requires r == Receiver(EmptyReassembler(8), PEER_ISN, true)
    ensures Receive(r, EARLY_FIN) == GAPPED
  {
    assert StreamIndex(EARLY_FIN, PEER_ISN, 0) == 2;
    var data: Bytes := [3];
    assert data[..1] == data && data[..0] == [];
    assert Store(map[], data, 2) == map[2 := 3];
  }

  lemma GapFilled()
    ensures Receive(GAPPED, LATE_DATA).Out().ended
  {
    assert StreamIndex(LATE_DATA, PEER_ISN, 0) == 0;
    var e := GAPPED.reassembler;
    var data: Bytes := [1, 2];
    assert data[0..] == data && data[..2] == data;
    var w := WriteUpTo(e, data, 2);
    assert Without(e.stored, 0, 2) == e.stored;
    assert w == Reassembler(RawStream(data, 0, 8, false, false), map[2 := 3], true);
    var d := Reassembler(RawStream([1, 2, 3], 0, 8, false, false), map[], true);
    var last: Bytes := [3];
    assert last[..1] == last && data + last == [1, 2, 3];
    assert Drain(w) == Drain(d) == d;
    assert Push(e, data, 0, false) == Finish(d);
  }

  lemma FinMoves(c: Connection)
    requires Greeted(c, 0, Some(PEER_ISN), 8)
    ensures var d := Arrive(c, EARLY_FIN);
            && P.Inv(d) && d.receiver == GAPPED && !d.rstSet && !d.sender.stream.ended
            && !d.receiver.Out().ended && d.receiver.Ackno() == Some(0xffff_fffe)
  {
    FinHeardEarly(c.receiver);
    GappedFeedback();
    FinGoes(c, EARLY_FIN);
  }

  lemma GappedFeedback()
    ensures !GAPPED.Out().ended && GAPPED.Ackno() == Some(0xffff_fffe)
  {}

  lemma FinGoes(c: Connection, seg: Segment)
    requires P.Inv(c) && TakesIn(c, seg) && !c.sender.stream.ended
    ensures var d := Arrive(c, seg);
            P.Inv(d) && d.receiver == Receive(c.receiver, seg) && !d.rstSet && !d.sender.stream.ended
  {
    var op := P.OpSegment(seg);
    P.StepInv(c, op);
    AnswerExact(c, seg);
    StepMarks(c, op);
    OutboundExact(c, op);
  }

  /** Taken for acknowledged: the FIN whose stream still has a gap. */
  ghost predicate Mistaken(c: Connection) {
    && P.Inv(c) && c.active && c.linger && c.synSet && c.finAckSent && c.receiver == GAPPED
    && !c.sender.stream.ended
  }

  predicate Overlooked(c: Connection) {
    c.linger && PeerFirst(c)
  }

  lemma FinTakenForAcknowledged(c: Connection)
    requires Greeted(c, 0, Some(PEER_ISN), 8)
    ensures Mistaken(P.Step(c, P.OpSegment(EARLY_FIN)))
  {
    FinMoves(c);
    FinTaken(c, EARLY_FIN);
  }

  /** A FIN that leaves the stream open, with a number below the one then sent. */
  lemma FinTaken(c: Connection, seg: Segment)
    requires P.Inv(c) && TakesIn(c, seg) && seg.header.fin && c.linger
    requires var r := Arrive(c, seg).receiver;
             !r.Out().ended && r.Ackno().Some? && r.Ackno().value > seg.header.seqno
    ensures var d := Arrive(c, seg); d.active && d.linger && d.synSet && d.finAckSent
  {
    StepMarks(c, P.OpSegment(seg));
    StepSigns(c, P.OpSegment(seg));
  }

  lemma EndNotNoticed(c: Connection)
    requires Mistaken(c)
    ensures Overlooked(P.Step(c, P.OpSegment(LATE_DATA)))
  {
    var op := P.OpSegment(LATE_DATA);
    GapFilled();
    StepHalves(c, op);
    StepMarks(c, op);
    OutboundExact(c, op);
  }

  lemma ThenSyn(c: Connection, ops: seq<P.Op>)
    requires Fresh(P.Run(c, ops)) && P.Run(c, ops).receiver.Out().capacity == 8
    ensures Greeted(P.Run(c, ops + [P.OpSegment(FIRST_SYN)]), 0, Some(PEER_ISN), 8)
  {
    ClosingScenario.RunSnoc(c, ops, P.OpSegment(FIRST_SYN));
    PassiveOpen(P.Run(c, ops), FIRST_SYN);
  }

  lemma ThenFin(c: Connection, ops: seq<P.Op>)
    requires Greeted(P.Run(c, ops), 0, Some(PEER_ISN), 8)
    ensures Mistaken(P.Run(c, ops + [P.OpSegment(EARLY_FIN)]))
  {
    ClosingScenario.RunSnoc(c, ops, P.OpSegment(EARLY_FIN));
    FinTakenForAcknowledged(P.Run(c, ops));
  }

  lemma ThenData(c: Connection, ops: seq<P.Op>)
    requires Mistaken(P.Run(c, ops))
    ensures Overlooked(P.Run(c, ops + [P.OpSegment(LATE_DATA)]))
  {
    ClosingScenario.RunSnoc(c, ops, P.OpSegment(LATE_DATA));
    EndNotNoticed(P.Run(c, ops));
  }

  /** A run that leaves the wish to linger set although the peer's stream is over and our own is not: the FIN's number
      is zero, so the number sent for the bytes before it passes for its acknowledgment, and the segment that completes
      the stream carries neither ACK nor FIN. */
  lemma LingerNotCleared(c: Connection) returns (ops: seq<P.Op>)
    requires Fresh(c) && c.receiver.Out().capacity == 8
    ensures P.Run(c, ops).linger && PeerFirst(P.Run(c, ops))
  {
    ThenSyn(c, []);
    var greeted := [] + [P.OpSegment(FIRST_SYN)];
    ThenFin(c, greeted);
    var mistaken := greeted + [P.OpSegment(EARLY_FIN)];
    ThenData(c, mistaken);
    ops := mistaken + [P.OpSegment(LATE_DATA)];
  }
}
