/** No reachable state is a dead end: the outstanding segments, delivered again in order, catch the receiver up. */
module Progress {
  import opened Common
  import opened Wrapping
  import opened ByteStreams
  import opened Reassembly
  import opened ReassemblyProofs
  import opened Segments
  import opened Receiving
  import opened ReceivingProofs
  import opened Sending
  import S = SendingProofs
  import opened AckProofs
  import opened EndToEnd
  import opened NoLoss

  /** What the receiver must be able to take: a full segment, and less than half the sequence space in flight. */
  predicate Manageable(u: System) {
    && u.receiver.Out().capacity >= MAX_PAYLOAD_SIZE
    && u.sender.nextSeqno < TWO64
    && u.sender.nextSeqno - S.Start(u.sender.sent, u.sender.retired) < TWO31 - 1
  }

  /** All payload of the first `n` segments has been assembled. */
  predicate CaughtUp(u: System, n: nat)
    requires n <= |u.sender.sent|
  {
    n > 0 ==>
      && u.receiver.isnSet
      && Min(S.Start(u.sender.sent, n), u.sender.stream.readCount + 1) <= 1 + |u.receiver.Out().history|
  }

  /** The application reads all there is. */
  function ReadAll(u: System): Action {
    AppReads(|u.sender.stream.history|)
  }

  lemma ReadAllEmpties(u: System)
    requires Sound(u)
    ensures CanEnd(u) ==> CanEnd(Do(u, ReadAll(u)))
    ensures var w := Do(u, ReadAll(u));
            && Sound(w) && w.sender == u.sender && w.acks == u.acks && w.receiver.isnSet == u.receiver.isnSet
            && w.receiver.Out() == u.receiver.Out().(readCount := |u.receiver.Out().history|)
  {
    ReadSound(u, |u.sender.stream.history|);
    FromSourcePrefix(u.receiver.reassembler, Consumed(u.sender));
  }

  /** A substring that starts no later than the next index, with room for all of it. */
  lemma PushCatchesUp(r: Reassembler, data: Bytes, index: nat, eof: bool)
    requires KeysAhead(r) && index <= r.Next() && index + |data| <= r.Edge()
    ensures Push(r, data, index, eof).Next() >= index + |data|
    ensures FinKept(r, data, index)
  {
    if index + |data| >= r.Next() && !(index < r.Next() && index + |data| <= r.Next()) {
      AssembleKeeps(MarkEof(r, data, index, eof), data[r.Next() - index..]);
    }
  }

  /** The next segment starts where the receiver stands or before, and well within the lifetime limit. */
  lemma NextIsNear(u: System, i: nat)
    requires Sound(u) && Manageable(u) && i < |u.sender.sent| && u.sender.retired <= i && CaughtUp(u, i)
    ensures Enabled(u, Deliver(i)) && 0 < FirstPos(u.sender, i) <= |u.receiver.Out().history| + 1
    ensures u.receiver.isnSet || u.sender.sent[i].header.syn
  {
    assert S.Placed(u.sender, i);
    FromSourcePrefix(u.receiver.reassembler, Consumed(u.sender));
    S.StartMonotone(u.sender.sent, u.sender.retired, i);
  }

  /** Delivering the next segment to a receiver that has read everything assembles all of it. */
  lemma DeliverNext(u: System, i: nat)
    requires Sound(u) && Manageable(u) && i < |u.sender.sent| && u.sender.retired <= i && CaughtUp(u, i)
    requires u.receiver.Out().readCount == |u.receiver.Out().history|
    ensures Enabled(u, Deliver(i)) && Careful(u, Deliver(i))
    ensures CaughtUp(Do(u, Deliver(i)), i + 1)
  {
    var s, r := u.sender, u.receiver.reassembler;
    var seg, index := s.sent[i], FirstPos(s, i) - 1;
    NextIsNear(u, i);
    assert |seg.payload| <= MAX_PAYLOAD_SIZE by {
      assert S.Placed(s, i);
    }
    PushCatchesUp(r, seg.payload, index, seg.header.fin);
    DeliveredIndex(u, i);
    EndsAt(s, i);
  }

  /** The part of the stream before the `i + 1`st segment ends with the payload of the `i`th. */
  lemma EndsAt(s: Sender, i: nat)
    requires S.SpaceInv(s) && i < |s.sent|
    ensures Min(S.Start(s.sent, i + 1), s.stream.readCount + 1) <= FirstPos(s, i) + |s.sent[i].payload|
  {
    assert S.Placed(s, i);
    CarriesStream(s, i);
  }

  // ---------- the end of the stream ----------

  /** The output has ended, or is incomplete with its last byte either marked as last or not yet here. */
  predicate EndAhead(r: Reassembler, len: nat) {
    r.out.ended || (r.Next() < len && (r.eofFlag || !r.Holds(len - 1)))
  }

  /** The last segment carries both data and the FIN. */
  predicate FinWithData(s: Sender) {
    s.finFlag && |s.sent| > 0 && s.sent[|s.sent| - 1].payload != []
  }

  /** The FIN can still take effect: it travels alone, or the output has ended or is incomplete. */
  predicate FinCanEnd(s: Sender, r: Reassembler) {
    FinWithData(s) ==> r.out.ended || r.Next() < |Consumed(s)|
  }

  predicate CanEnd(u: System) {
    FinCanEnd(u.sender, u.receiver.reassembler)
  }

  /** No single segment before the last can complete the output without ending it. */
  predicate Prepared(s: Sender, r: Reassembler) {
    FinWithData(s) ==> EndAhead(r, |Consumed(s)|) || r.Next() + r.out.capacity < |Consumed(s)|
  }

  /** Bytes before the last one do not cost the end its chance. */
  lemma EarlierPushKeepsEndAhead(r: Reassembler, data: Bytes, index: nat, src: Bytes)
    requires FromSource(r, src) && Agrees(src, data, index) && index + |data| < |src| && EndAhead(r, |src|)
    ensures EndAhead(Push(r, data, index, false), |src|)
  {
    var t := Push(r, data, index, false);
    FromSourcePrefix(r, src);
    PushKeeps(r, data, index, false);
    PushFromSource(r, data, index, false, src);
    FromSourcePrefix(t, src);
    PushEnded(r, data, index, false);
    PushFlag(r, data, index, false);
    if !r.out.ended && r.eofFlag && t.Next() == |src| {
      assert t.stored == map[] by {
        forall k | k in t.stored ensures false {
          assert t.Holds(k);
        }
      }
      CompletingPushEnds(r, data, index);
    }
  }

  lemma CompletingPushEnds(r: Reassembler, data: Bytes, index: nat)
    requires KeysAhead(r) && r.eofFlag
    requires var t := Push(r, data, index, false); t.Next() > r.Next() && t.stored == map[]
    ensures Push(r, data, index, false).out.ended
  {
    if !Rejected(r, data, index) && index <= r.Next() && !(index < r.Next() && index + |data| <= r.Next()) {
      AssembleKeeps(r, data[r.Next() - index..]);
    }
  }

  /** The final substring, in order and with room, ends the stream. */
  lemma FinalPushCompletes(r: Reassembler, data: Bytes, index: nat, src: Bytes)
    requires FromSource(r, src) && Agrees(src, data, index) && index + |data| == |src|
    requires index <= r.Next() && |src| <= r.Edge()
    requires data == [] || r.out.ended || r.Next() < |src|
    ensures Push(r, data, index, true).out.ended
  {
    PushCatchesUp(r, data, index, true);
    PushFromSource(r, data, index, true, src);
    FromSourcePrefix(r, src);
    FromSourcePrefix(Push(r, data, index, true), src);
    FinalPushEnds(r, data, index, src);
  }

  /** After the segments before the `n`th: the end still lies ahead, or has come with the last of them. */
  predicate EndInTime(u: System, n: nat) {
    if n == |u.sender.sent| then u.sender.finFlag ==> u.receiver.Out().ended else CanEnd(u)
  }

  /** The receiver after the next segment, in terms of the push it amounts to. */
  lemma DeliveredPush(u: System, i: nat)
    requires Sound(u) && Manageable(u) && i < |u.sender.sent| && u.sender.retired <= i && CaughtUp(u, i)
    ensures var seg, index := u.sender.sent[i], FirstPos(u.sender, i) - 1;
            && Enabled(u, Deliver(i)) && 0 <= index <= u.receiver.reassembler.Next()
            && Do(u, Deliver(i)).sender == u.sender
            && Do(u, Deliver(i)).receiver.reassembler ==
               Push(u.receiver.reassembler, seg.payload, index, seg.header.fin)
            && |seg.payload| <= MAX_PAYLOAD_SIZE
            && (seg.header.fin <==> u.sender.finFlag && i == |u.sender.sent| - 1)
  {
    NextIsNear(u, i);
    DeliveredIndex(u, i);
    assert S.Placed(u.sender, i);
  }

  lemma LastSegmentEnds(s: Sender, r: Reassembler, i: nat)
    requires S.SpaceInv(s) && FromSource(r, Consumed(s)) && s.finFlag && i + 1 == |s.sent|
    requires r.out.readCount == r.Next() && r.out.capacity >= MAX_PAYLOAD_SIZE
    requires 0 < FirstPos(s, i) <= r.Next() + 1 && FinCanEnd(s, r)
    ensures Push(r, s.sent[i].payload, FirstPos(s, i) - 1, s.sent[i].header.fin).out.ended
  {
    CarriesStream(s, i);
    assert S.Placed(s, i);
    FinalPushCompletes(r, s.sent[i].payload, FirstPos(s, i) - 1, Consumed(s));
  }

  lemma EarlierSegmentKeepsEnd(s: Sender, r: Reassembler, i: nat)
    requires S.SpaceInv(s) && FromSource(r, Consumed(s)) && i < |s.sent| - 1 && FirstPos(s, i) > 0
    requires r.out.readCount == r.Next() && Prepared(s, r)
    ensures FinCanEnd(s, Push(r, s.sent[i].payload, FirstPos(s, i) - 1, s.sent[i].header.fin))
  {
    if FinWithData(s) {
      assert S.Placed(s, i);
      CarriesStream(s, i);
      EarlierThanLast(s, i);
      if EndAhead(r, |Consumed(s)|) {
        EarlierPushKeepsEndAhead(r, s.sent[i].payload, FirstPos(s, i) - 1, Consumed(s));
      } else {
        PushKeeps(r, s.sent[i].payload, FirstPos(s, i) - 1, s.sent[i].header.fin);
      }
    }
  }

  /** The final substring on top of a last byte that had slipped in without its mark. */
  lemma FinalPushMarks(r: Reassembler, data: Bytes, index: nat, src: Bytes)
    requires FromSource(r, src) && Agrees(src, data, index) && index + |data| == |src| && data != []
    requires r.out.readCount == r.Next() < |src| <= r.Next() + r.out.capacity
    ensures EndAhead(Push(r, data, index, true), |src|)
  {
    var t := Push(r, data, index, true);
    PushFlag(r, data, index, true);
    PushFromSource(r, data, index, true, src);
    FromSourcePrefix(t, src);
    if t.Next() == |src| {
      FinalPushEnds(r, data, index, src);
    }
  }

  lemma DeliverLastEnds(u: System, i: nat)
    requires Sound(u) && Manageable(u) && u.sender.retired <= i && i + 1 == |u.sender.sent| && CaughtUp(u, i)
    requires u.receiver.Out().readCount == |u.receiver.Out().history| && CanEnd(u) && u.sender.finFlag
    ensures Enabled(u, Deliver(i)) && Do(u, Deliver(i)).receiver.reassembler.out.ended
  {
    DeliveredPush(u, i);
    LastSegmentEnds(u.sender, u.receiver.reassembler, i);
  }

  lemma DeliverEarlierKeepsEnd(u: System, i: nat)
    requires Sound(u) && Manageable(u) && u.sender.retired <= i < |u.sender.sent| - 1 && CaughtUp(u, i)
    requires u.receiver.Out().readCount == |u.receiver.Out().history| && Prepared(u.sender, u.receiver.reassembler)
    ensures Enabled(u, Deliver(i)) && CanEnd(Do(u, Deliver(i)))
  {
    NextIsNear(u, i);
    DeliveredPiece(u, i);
    EarlierSegmentKeepsEnd(u.sender, u.receiver.reassembler, i);
  }

  lemma DeliverNextEnds(u: System, i: nat)
    requires Sound(u) && Manageable(u) && i < |u.sender.sent| && u.sender.retired <= i && CaughtUp(u, i)
    requires u.receiver.Out().readCount == |u.receiver.Out().history| && Enabled(u, Deliver(i))
    requires CanEnd(u) && Prepared(u.sender, u.receiver.reassembler)
    ensures EndInTime(Do(u, Deliver(i)), i + 1)
  {
    if i < |u.sender.sent| - 1 {
      DeliverEarlierKeepsEnd(u, i);
    } else if u.sender.finFlag {
      DeliverLastEnds(u, i);
    }
  }

  lemma EarlierThanLast(s: Sender, i: nat)
    requires S.SpaceInv(s) && FinWithData(s) && i < |s.sent| - 1
    ensures FirstPos(s, i) - 1 + |s.sent[i].payload| < |Consumed(s)|
  {
    var last := |s.sent| - 1;
    assert S.Placed(s, i) && S.Placed(s, last);
    S.StartMonotone(s.sent, i + 1, last);
    CarriesStream(s, last);
  }

  /** The data of a FIN that was not there before comes after everything consumed before. */
  lemma NewFinIsNew(s: Sender, t: Sender)
    requires S.SpaceInv(s) && S.SpaceInv(t) && !s.finFlag && s.sent <= t.sent && FinWithData(t)
    ensures |Consumed(s)| < |Consumed(t)|
  {
    var last := |t.sent| - 1;
    assert |s.sent| <= last by {
      assert S.Placed(t, last);
      assert |s.sent| == |t.sent| ==> S.Placed(s, last);
    }
    StartPrefix(s.sent, t.sent, |s.sent|);
    S.StartMonotone(t.sent, |s.sent|, last);
    LastEnds(t);
    assert S.Placed(t, last);
    assert S.Start(s.sent, |s.sent|) == s.nextSeqno;
  }

  lemma LastEnds(s: Sender)
    requires S.SpaceInv(s) && FinWithData(s)
    ensures S.Start(s.sent, |s.sent| - 1) + |s.sent[|s.sent| - 1].payload| == 1 + |Consumed(s)|
  {
    assert S.Placed(s, |s.sent| - 1);
    CarriesStream(s, |s.sent| - 1);
  }

  /** Once everything is assembled without the end having been noticed, a FIN that carried data is lost for good. */
  lemma {:induction false} EndLostForGood(u: System, actions: seq<Action>)
    requires Safe(u) && !CanEnd(u) && Runnable(u, actions)
    ensures Safe(EndToEnd.Run(u, actions)) && !CanEnd(EndToEnd.Run(u, actions))
    decreases |actions|
  {
    if actions != [] {
      var before, a := actions[..|actions| - 1], actions[|actions| - 1];
      EndLostForGood(u, before);
      EndLostStep(EndToEnd.Run(u, before), a);
    }
  }

  lemma EndLostStep(u: System, a: Action)
    requires Safe(u) && !CanEnd(u) && Enabled(u, a)
    ensures Safe(Do(u, a)) && !CanEnd(Do(u, a))
  {
    StepSafe(u, a);
    FromSourcePrefix(u.receiver.reassembler, Consumed(u.sender));
    match a
    case SenderDoes(event) => NoNewSegments(u.sender, event);
    case DeliverAck(ackno, win) => NoNewSegments(u.sender, S.Ack(ackno, win));
    case Deliver(i) =>
      DeliveredIndex(u, i);
      CarriesStream(u.sender, i);
      WhollyAssembled(u.sender, i);
      var seg := u.sender.sent[i];
      AlreadyAssembled(u.receiver.reassembler, seg.payload, FirstPos(u.sender, i) - 1, seg.header.fin);
    case EmitAck =>
    case AppReads(_) =>
  }

  lemma NoNewSegments(s: Sender, e: S.Event)
    requires S.SpaceInv(s) && s.finFlag
    ensures S.Step(s, e).finFlag && S.Step(s, e).sent == s.sent && Consumed(S.Step(s, e)) == Consumed(s)
  {
    ConsumedGrows(s, e);
    S.NothingAfterFin(s, [e]);
    assert [e][..0] == [];
    assert S.Run(s, [e][..0]) == s;
  }

  /** Every segment lies before the end of the consumed stream and starts strictly before it. */
  lemma WhollyAssembled(s: Sender, i: nat)
    requires S.SpaceInv(s) && FinWithData(s) && i < |s.sent|
    ensures FirstPos(s, i) - 1 < |Consumed(s)| && FirstPos(s, i) - 1 + |s.sent[i].payload| <= |Consumed(s)|
  {
    CarriesStream(s, i);
    if i < |s.sent| - 1 {
      EarlierThanLast(s, i);
    }
  }

  lemma AlreadyAssembled(r: Reassembler, data: Bytes, index: nat, eof: bool)
    requires index < r.Next() && index + |data| <= r.Next()
    ensures Push(r, data, index, eof).out == r.out
  {}

  // ---------- catching up ----------

  /** What a stretch of deliveries and reads keeps. */
  ghost predicate Onward(u: System, v: System, n: nat)
    requires n <= |u.sender.sent|
  {
    && Sound(v) && v.sender == u.sender && v.acks == u.acks
    && v.receiver.Out().capacity == u.receiver.Out().capacity && CaughtUp(v, n) && (CanEnd(u) ==> CanEnd(v))
  }

  /** The last segment can be delivered again as soon as its last byte is held. */
  lemma RedeliverLast(u: System, n: nat)
    requires Sound(u) && Manageable(u) && u.sender.retired <= n <= |u.sender.sent| && CaughtUp(u, n) && CanEnd(u)
    requires u.receiver.Out().readCount == |u.receiver.Out().history| && !Prepared(u.sender, u.receiver.reassembler)
    ensures var a := Deliver(|u.sender.sent| - 1);
            && Enabled(u, a) && Careful(u, a) && Onward(u, Do(u, a), n)
            && (FinWithData(u.sender) ==> EndAhead(Do(u, a).receiver.reassembler, |Consumed(u.sender)|))
  {
    var last := |u.sender.sent| - 1;
    LastIsNear(u, n);
    LastMarks(u);
    DeliverSound(u, last);
    StepAdvances(u.receiver, Arrives(u.sender.sent[last]));
  }

  /** The last segment, whose last byte is held without its mark, ends the output or leaves the mark. */
  lemma LastMarks(u: System)
    requires Safe(u) && FinWithData(u.sender) && Enabled(u, Deliver(|u.sender.sent| - 1)) && CanEnd(u)
    requires u.receiver.Out().readCount == |u.receiver.Out().history| && !Prepared(u.sender, u.receiver.reassembler)
    ensures Careful(u, Deliver(|u.sender.sent| - 1))
    ensures EndAhead(Do(u, Deliver(|u.sender.sent| - 1)).receiver.reassembler, |Consumed(u.sender)|)
  {
    var s, r, last := u.sender, u.receiver.reassembler, |u.sender.sent| - 1;
    LastCarriesEnd(s);
    FromSourcePrefix(r, Consumed(s));
    DeliveredIndex(u, last);
    FinalPushMarks(r, s.sent[last].payload, FirstPos(s, last) - 1, Consumed(s));
  }

  lemma LastCarriesEnd(s: Sender)
    requires S.SpaceInv(s) && FinWithData(s)
    ensures var seg, index := s.sent[|s.sent| - 1], FirstPos(s, |s.sent| - 1) - 1;
            && seg.header.fin && !seg.header.syn && index >= 0
            && Agrees(Consumed(s), seg.payload, index) && index + |seg.payload| == |Consumed(s)|
  {
    assert S.Placed(s, |s.sent| - 1);
    CarriesStream(s, |s.sent| - 1);
  }

  lemma LastIsNear(u: System, n: nat)
    requires Sound(u) && Manageable(u) && u.sender.retired <= n <= |u.sender.sent| && CaughtUp(u, n)
    requires FinWithData(u.sender)
    ensures Enabled(u, Deliver(|u.sender.sent| - 1))
  {
    var s, last := u.sender, |u.sender.sent| - 1;
    assert S.Placed(s, last);
    FromSourcePrefix(u.receiver.reassembler, Consumed(s));
    S.StartMonotone(s.sent, s.retired, n);
    S.StartMonotone(s.sent, s.retired, |s.sent|);
    CarriesStream(s, last);
  }

  lemma ReadOnward(u: System, n: nat)
    requires Sound(u) && n <= |u.sender.sent| && CaughtUp(u, n)
    ensures var w := Do(u, ReadAll(u));
            && Onward(u, w, n) && w.receiver.Out().readCount == |w.receiver.Out().history|
            && (EndAhead(u.receiver.reassembler, |Consumed(u.sender)|) ==> Prepared(w.sender, w.receiver.reassembler))
  {
    ReadAllEmpties(u);
  }

  /** After some run `before`: read everything, and make sure the end cannot be missed. */
  lemma Prepare(u: System, before: seq<Action>, n: nat) returns (actions: seq<Action>)
    requires Runnable(u, before) && CarefulRun(u, before)
    requires var v := EndToEnd.Run(u, before);
             Sound(v) && Manageable(v) && v.sender.retired <= n <= |v.sender.sent| && CaughtUp(v, n)
    ensures Runnable(u, actions) && CarefulRun(u, actions)
    ensures var v, w := EndToEnd.Run(u, before), EndToEnd.Run(u, actions);
            && Onward(v, w, n) && w.receiver.Out().readCount == |w.receiver.Out().history|
            && (CanEnd(v) ==> Prepared(w.sender, w.receiver.reassembler))
  {
    actions := ReadFirst(u, before, n);
    var v, w := EndToEnd.Run(u, before), EndToEnd.Run(u, actions);
    if CanEnd(v) && !Prepared(w.sender, w.receiver.reassembler) {
      actions := MarkAgain(u, actions, n);
      OnwardOnward(v, w, EndToEnd.Run(u, actions), n);
    }
  }

  lemma OnwardOnward(u: System, v: System, w: System, n: nat)
    requires n <= |u.sender.sent| && n <= |v.sender.sent| && Onward(u, v, n) && Onward(v, w, n)
    ensures Onward(u, w, n)
  {}

  lemma ReadFirst(u: System, before: seq<Action>, n: nat) returns (actions: seq<Action>)
    requires Runnable(u, before) && CarefulRun(u, before)
    requires var v := EndToEnd.Run(u, before); Sound(v) && n <= |v.sender.sent| && CaughtUp(v, n)
    ensures Runnable(u, actions) && CarefulRun(u, actions)
    ensures var v, w := EndToEnd.Run(u, before), EndToEnd.Run(u, actions);
            Onward(v, w, n) && w.receiver.Out().readCount == |w.receiver.Out().history|
  {
    var v := EndToEnd.Run(u, before);
    ReadOnward(v, n);
    RunSnoc(u, before, ReadAll(v));
    actions := before + [ReadAll(v)];
  }

  /** The last segment again, and everything read once more. */
  lemma MarkAgain(u: System, before: seq<Action>, n: nat) returns (actions: seq<Action>)
    requires Runnable(u, before) && CarefulRun(u, before)
    requires var w := EndToEnd.Run(u, before);
             && Sound(w) && Manageable(w) && w.sender.retired <= n <= |w.sender.sent| && CaughtUp(w, n) && CanEnd(w)
             && w.receiver.Out().readCount == |w.receiver.Out().history| && !Prepared(w.sender, w.receiver.reassembler)
    ensures Runnable(u, actions) && CarefulRun(u, actions)
    ensures var w, x := EndToEnd.Run(u, before), EndToEnd.Run(u, actions);
            && Onward(w, x, n) && x.receiver.Out().readCount == |x.receiver.Out().history|
            && Prepared(x.sender, x.receiver.reassembler)
  {
    var w := EndToEnd.Run(u, before);
    var again := Deliver(|w.sender.sent| - 1);
    RedeliverLast(w, n);
    RunSnoc(u, before, again);
    var x := Do(w, again);
    ReadOnward(x, n);
    RunSnoc(u, before + [again], ReadAll(x));
    actions := before + [again] + [ReadAll(x)];
  }

  /** The next segment, once everything has been read. */
  lemma DeliverOnward(w: System, i: nat)
    requires Sound(w) && Manageable(w) && i < |w.sender.sent| && w.sender.retired <= i && CaughtUp(w, i)
    requires w.receiver.Out().readCount == |w.receiver.Out().history|
    requires CanEnd(w) ==> Prepared(w.sender, w.receiver.reassembler)
    ensures Enabled(w, Deliver(i)) && Careful(w, Deliver(i))
    ensures var x := Do(w, Deliver(i));
            && Sound(x) && x.sender == w.sender && x.acks == w.acks
            && x.receiver.Out().capacity == w.receiver.Out().capacity && CaughtUp(x, i + 1)
            && (CanEnd(w) ==> EndInTime(x, i + 1))
  {
    DeliverNext(w, i);
    DeliverSound(w, i);
    if CanEnd(w) {
      DeliverNextEnds(w, i);
    }
    StepAdvances(w.receiver, Arrives(w.sender.sent[i]));
  }

  /** A run that delivers the outstanding segments before the `n`th, one by one, with reads in between. */
  lemma {:induction false} CatchUp(u: System, n: nat) returns (actions: seq<Action>)
    requires Sound(u) && Manageable(u) && u.sender.retired <= n <= |u.sender.sent|
    ensures Runnable(u, actions) && CarefulRun(u, actions)
    ensures var v := EndToEnd.Run(u, actions);
            && Sound(v) && v.sender == u.sender && v.acks == u.acks
            && v.receiver.Out().capacity == u.receiver.Out().capacity && CaughtUp(v, n)
            && (CanEnd(u) ==> EndInTime(v, n))
    decreases n
  {
    if n == u.sender.retired {
      actions := [];
      FromSourcePrefix(u.receiver.reassembler, Consumed(u.sender));
      EndMeansDelivered(u);
    } else {
      var before := CatchUp(u, n - 1);
      var ready := Prepare(u, before, n - 1);
      var w := EndToEnd.Run(u, ready);
      MissedStaysMissed(u, ready);
      DeliverOnward(w, n - 1);
      RunSnoc(u, ready, Deliver(n - 1));
      actions := ready + [Deliver(n - 1)];
    }
  }

  lemma MissedStaysMissed(u: System, actions: seq<Action>)
    requires Sound(u) && Runnable(u, actions)
    ensures CanEnd(EndToEnd.Run(u, actions)) ==> CanEnd(u)
  {
    if !CanEnd(u) {
      EndLostForGood(u, actions);
    }
  }

  lemma RunSnoc(u: System, before: seq<Action>, a: Action)
    requires Runnable(u, before) && CarefulRun(u, before)
    requires Enabled(EndToEnd.Run(u, before), a) && Careful(EndToEnd.Run(u, before), a)
    ensures Runnable(u, before + [a]) && CarefulRun(u, before + [a])
    ensures EndToEnd.Run(u, before + [a]) == Do(EndToEnd.Run(u, before), a)
  {
    var all := before + [a];
    assert all[..|all| - 1] == before;
  }

  /** A sent FIN can still end the receiver's stream in some run exactly when it was not missed. */
  lemma EndReachable(u: System)
    requires Sound(u) && Manageable(u) && u.sender.finFlag
    ensures CanEnd(u) <==> exists actions :: Runnable(u, actions) && EndToEnd.Run(u, actions).receiver.Out().ended
  {
    if CanEnd(u) {
      var actions := CatchUp(u, |u.sender.sent|);
      assert Runnable(u, actions) && EndToEnd.Run(u, actions).receiver.Out().ended;
    } else {
      forall actions | Runnable(u, actions) ensures !EndToEnd.Run(u, actions).receiver.Out().ended {
        EndLostForGood(u, actions);
      }
    }
  }
}
