/** What a bare FIN past a hole does in the composed system: exactly when the sender's own segments then end the output
    before it is complete. */
module Carelessness {
  import opened Common
  import opened Wrapping
  import opened ByteStreams
  import opened Reassembly
  import opened ReassemblyProofs
  import opened Segments
  import opened Receiving
  import opened ReceivingProofs
  import opened Sending
  import S = SendingProofs
  import opened EndToEnd
  import opened NoLoss
  import opened Progress
  import R = Retransmission

  /** A FIN without data has been sent, after data. */
  predicate BareFin(s: Sender) {
    s.finFlag && |s.sent| > 2 && s.sent[|s.sent| - 1].payload == []
  }

  /** Stream index of the first byte of the last segment with data. */
  function LastData(s: Sender): int
    requires |s.sent| > 1
  {
    FirstPos(s, |s.sent| - 2) - 1
  }

  /** Nothing of the last segment with data is there, and there is room for all of it. */
  ghost predicate Untouched(s: Sender, r: Reassembler)
    requires |s.sent| > 1
  {
    |Consumed(s)| <= r.Edge() && forall k: nat :: LastData(s) <= k ==> !r.Holds(k)
  }

  lemma LastDataFacts(s: Sender)
    requires S.SpaceInv(s) && BareFin(s)
    ensures var seg, index := s.sent[|s.sent| - 2], LastData(s);
            && index >= 0 && Agrees(Consumed(s), seg.payload, index) && index + |seg.payload| == |Consumed(s)|
            && seg.payload != [] && !seg.header.fin && !seg.header.syn
    ensures LastData(s) + 1 == S.Start(s.sent, |s.sent| - 2)
    ensures FirstPos(s, |s.sent| - 1) - 1 == |Consumed(s)|
  {
    var k := |s.sent| - 2;
    CarriesStream(s, k);
    CarriesStream(s, k + 1);
    assert S.Placed(s, k) && S.Placed(s, k + 1);
    assert S.Start(s.sent, k + 1) == S.Start(s.sent, k) + SeqLength(s.sent[k]);
  }

  lemma EarlierEnds(s: Sender, j: nat)
    requires S.SpaceInv(s) && BareFin(s) && j < |s.sent| - 2
    ensures 0 < FirstPos(s, j) && FirstPos(s, j) - 1 + |s.sent[j].payload| <= LastData(s) && !s.sent[j].header.fin
    ensures S.Start(s.sent, j + 1) == FirstPos(s, j) + |s.sent[j].payload|
  {
    R.NextStart(s, j);
    S.StartMonotone(s.sent, j + 1, |s.sent| - 2);
    LastDataFacts(s);
    CarriesStream(s, j);
  }

  lemma EarlierStarts(s: Sender, j: nat)
    requires S.SpaceInv(s) && BareFin(s) && j < |s.sent| - 2 && LastData(s) > 0
    ensures FirstPos(s, j) - 1 < LastData(s)
  {
    EarlierEnds(s, j);
    assert S.Placed(s, j);
  }

  // ---------- with more than that segment missing ----------

  /** The end mark is up although the last data is missing; the output has ended, or stands before that data. */
  ghost predicate Misled(u: System) {
    && Safe(u) && BareFin(u.sender) && u.receiver.isnSet && u.receiver.reassembler.eofFlag
    && Untouched(u.sender, u.receiver.reassembler)
    && |u.sender.stream.history| < TWO31 - 2 && u.receiver.Out().capacity >= MAX_PAYLOAD_SIZE
  }

  /** An earlier segment leaves the last one untouched, and ends the output if it brings it there. */
  lemma EarlierPiece(s: Sender, r: Reassembler, j: nat)
    requires S.SpaceInv(s) && BareFin(s) && j < |s.sent| - 2 && FromSource(r, Consumed(s)) && r.eofFlag
    requires Untouched(s, r) && (r.out.ended || r.Next() < LastData(s)) && FirstPos(s, j) > 0
    ensures var t := Push(r, s.sent[j].payload, FirstPos(s, j) - 1, false);
            t.eofFlag && Untouched(s, t) && (t.out.ended || t.Next() < LastData(s))
  {
    var data, index := s.sent[j].payload, FirstPos(s, j) - 1;
    var t := Push(r, data, index, false);
    EarlierEnds(s, j);
    PushKeeps(r, data, index, false);
    PushFlag(r, data, index, false);
    PushEnded(r, data, index, false);
    assert forall k: nat :: LastData(s) <= k ==> !t.Holds(k);
    if !r.out.ended && t.Next() >= LastData(s) {
      assert t.stored == map[] by {
        assert forall k :: k in t.stored ==> t.Holds(k);
      }
      CompletingPushEnds(r, data, index);
    }
  }

  lemma ReadKeepsMisled(u: System)
    requires Misled(u)
    ensures var v := Do(u, ReadAll(u));
            && Misled(v) && v.sender == u.sender && v.receiver.Out().readCount == |v.receiver.Out().history|
            && v.receiver.Out().history == u.receiver.Out().history && v.receiver.Out().ended == u.receiver.Out().ended
  {
    var r, t := u.receiver.reassembler, Do(u, ReadAll(u)).receiver.reassembler;
    StepSafe(u, ReadAll(u));
    FromSourcePrefix(r, Consumed(u.sender));
    assert forall k: nat :: t.Holds(k) == r.Holds(k);
  }

  lemma EarlierArrives(u: System, j: nat)
    requires Misled(u) && j < |u.sender.sent| - 2 && u.receiver.Out().readCount == |u.receiver.Out().history|
    requires u.receiver.Out().ended || u.receiver.reassembler.Next() < LastData(u.sender)
    requires S.Start(u.sender.sent, j) <= 1 + u.receiver.reassembler.Next()
    ensures Enabled(u, Deliver(j))
    ensures var v := Do(u, Deliver(j));
            && Misled(v) && v.sender == u.sender
            && (v.receiver.Out().ended || v.receiver.reassembler.Next() < LastData(u.sender))
            && S.Start(u.sender.sent, j + 1) <= 1 + v.receiver.reassembler.Next()
  {
    ShortStreamsStayFresh(u, j);
    EarlierIsNear(u, j);
    EarlierPiece(u.sender, u.receiver.reassembler, j);
    PieceKeepsMisled(u, j);
    EarlierIsTaken(u, j);
  }

  lemma EarlierIsTaken(u: System, j: nat)
    requires Misled(u) && j < |u.sender.sent| - 2 && Enabled(u, Deliver(j))
    requires 0 < FirstPos(u.sender, j) <= u.receiver.reassembler.Next() + 1
    requires FirstPos(u.sender, j) - 1 + |u.sender.sent[j].payload| <= u.receiver.reassembler.Edge()
    ensures Do(u, Deliver(j)).sender == u.sender
    ensures S.Start(u.sender.sent, j + 1) <= 1 + Do(u, Deliver(j)).receiver.reassembler.Next()
  {
    EarlierEnds(u.sender, j);
    R.FittingIsTaken(u, j);
  }

  lemma EarlierIsNear(u: System, j: nat)
    requires Misled(u) && j < |u.sender.sent| - 2 && u.receiver.Out().readCount == |u.receiver.Out().history|
    requires S.Start(u.sender.sent, j) <= 1 + u.receiver.reassembler.Next()
    ensures 0 < FirstPos(u.sender, j) <= u.receiver.reassembler.Next() + 1
    ensures FirstPos(u.sender, j) - 1 + |u.sender.sent[j].payload| <= u.receiver.reassembler.Edge()
  {
    EarlierEnds(u.sender, j);
    assert S.Placed(u.sender, j);
  }

  lemma PieceKeepsMisled(u: System, j: nat)
    requires Misled(u) && j < |u.sender.sent| - 2 && Enabled(u, Deliver(j)) && FirstPos(u.sender, j) > 0
    requires var t := Push(u.receiver.reassembler, u.sender.sent[j].payload, FirstPos(u.sender, j) - 1, false);
             t.eofFlag && Untouched(u.sender, t) && (t.out.ended || t.Next() < LastData(u.sender))
    ensures var v := Do(u, Deliver(j));
            Misled(v) && (v.receiver.Out().ended || v.receiver.reassembler.Next() < LastData(u.sender))
  {
    EarlierEnds(u.sender, j);
    DeliverSafe(u, j);
    DeliveredPiece(u, j);
    StepAdvances(u.receiver, Arrives(u.sender.sent[j]));
  }

  lemma FreelySnoc(u: System, before: seq<Action>, a: Action)
    requires Runnable(u, before) && Enabled(EndToEnd.Run(u, before), a)
    ensures Runnable(u, before + [a]) && EndToEnd.Run(u, before + [a]) == Do(EndToEnd.Run(u, before), a)
  {
    var all := before + [a];
    assert all[..|all| - 1] == before;
  }

  /** The segments before the last one with data, in order, with reads in between. */
  lemma {:induction false} EarlierOnes(u: System, n: nat) returns (actions: seq<Action>)
    requires Misled(u) && n <= |u.sender.sent| - 2
    requires u.receiver.Out().ended || u.receiver.reassembler.Next() < LastData(u.sender)
    ensures Runnable(u, actions)
    ensures var v := EndToEnd.Run(u, actions);
            && Misled(v) && v.sender == u.sender
            && (v.receiver.Out().ended || v.receiver.reassembler.Next() < LastData(u.sender))
            && S.Start(u.sender.sent, n) <= 1 + v.receiver.reassembler.Next()
    decreases n
  {
    if n == 0 {
      actions := [];
    } else {
      actions := EarlierOnes(u, n - 1);
      actions := ReadNext(u, actions);
      var v := EndToEnd.Run(u, actions);
      EarlierArrives(v, n - 1);
      FreelySnoc(u, actions, Deliver(n - 1));
      actions := actions + [Deliver(n - 1)];
    }
  }

  lemma ReadNext(u: System, before: seq<Action>) returns (actions: seq<Action>)
    requires Runnable(u, before) && Misled(EndToEnd.Run(u, before))
    ensures Runnable(u, actions)
    ensures var v, w := EndToEnd.Run(u, before), EndToEnd.Run(u, actions);
            && Misled(w) && w.sender == v.sender && w.receiver.Out().readCount == |w.receiver.Out().history|
            && w.receiver.Out().history == v.receiver.Out().history && w.receiver.Out().ended == v.receiver.Out().ended
  {
    var v := EndToEnd.Run(u, before);
    ReadKeepsMisled(v);
    FreelySnoc(u, before, ReadAll(v));
    actions := before + [ReadAll(v)];
  }

  /** With more missing than the last data, or nothing assembled, the sender's own segments end the output early. */
  lemma EndsEarly(u: System) returns (actions: seq<Action>)
    requires Misled(u) && (u.receiver.reassembler.Next() < LastData(u.sender) || LastData(u.sender) == 0)
    ensures Runnable(u, actions)
    ensures var v := EndToEnd.Run(u, actions);
            v.receiver.Out().ended && |v.receiver.Out().history| < |Consumed(v.sender)|
  {
    LastDataFacts(u.sender);
    if u.receiver.reassembler.Next() < LastData(u.sender) {
      actions := EarlierOnes(u, |u.sender.sent| - 2);
      MisledIsShort(EndToEnd.Run(u, actions));
    } else {
      SynEndsEarly(u);
      FreelySnoc(u, [], Deliver(0));
      actions := [] + [Deliver(0)];
    }
  }

  lemma MisledIsShort(u: System)
    requires Misled(u)
    ensures u.receiver.reassembler.Next() < |Consumed(u.sender)|
  {
    LastDataFacts(u.sender);
    assert !u.receiver.reassembler.Holds(LastData(u.sender));
  }

  /** With nothing assembled the SYN, an empty substring at the start, ends the output. */
  lemma SynEndsEarly(u: System)
    requires Misled(u) && LastData(u.sender) == 0
    ensures Enabled(u, Deliver(0))
    ensures var v := Do(u, Deliver(0));
            v.receiver.Out().ended && |v.receiver.Out().history| < |Consumed(u.sender)| && v.sender == u.sender
  {
    var s, r := u.sender, u.receiver.reassembler;
    ShortStreamsStayFresh(u, 0);
    DeliveredPiece(u, 0);
    assert S.Placed(s, 0);
    MisledIsShort(u);
    assert r.Next() == 0 && r.stored == map[] by {
      assert !r.Holds(0);
      assert forall k :: k in r.stored ==> r.Holds(k);
    }
    EmptyPushEnds(r);
  }

  // ---------- with that segment alone missing ----------

  /** The output stands right before the last data, or is complete. */
  ghost predicate OneToGo(u: System) {
    && Safe(u) && BareFin(u.sender) && |Consumed(u.sender)| <= u.receiver.reassembler.Edge()
    && var r := u.receiver.reassembler;
       r.Next() == |Consumed(u.sender)| || (0 < r.Next() == LastData(u.sender) && !r.out.ended)
  }

  lemma PieceKeepsOne(s: Sender, r: Reassembler, j: nat)
    requires S.SpaceInv(s) && BareFin(s) && j < |s.sent| && FromSource(r, Consumed(s)) && |Consumed(s)| <= r.Edge()
    requires 0 < r.Next() == LastData(s) && !r.out.ended && FirstPos(s, j) > 0
    ensures var t := Push(r, s.sent[j].payload, FirstPos(s, j) - 1, s.sent[j].header.fin);
            t.Next() == |Consumed(s)| || (t.Next() == LastData(s) && !t.out.ended)
  {
    var seg, index, src := s.sent[j], FirstPos(s, j) - 1, Consumed(s);
    var t := Push(r, seg.payload, index, seg.header.fin);
    CarriesStream(s, j);
    LastDataFacts(s);
    PushFromSource(r, seg.payload, index, seg.header.fin, src);
    FromSourcePrefix(t, src);
    if j < |s.sent| - 2 {
      EarlierEnds(s, j);
      EarlierStarts(s, j);
      AlreadyAssembled(r, seg.payload, index, seg.header.fin);
    } else if j == |s.sent| - 2 {
      PushCatchesUp(r, seg.payload, index, seg.header.fin);
    } else {
      assert t.out == r.out;
    }
  }

  lemma StepKeepsOne(u: System, a: Action)
    requires OneToGo(u) && Enabled(u, a)
    ensures OneToGo(Do(u, a))
  {
    StepSafe(u, a);
    match a
    case SenderDoes(event) => NoNewSegments(u.sender, event);
    case DeliverAck(ackno, win) => NoNewSegments(u.sender, S.Ack(ackno, win));
    case Deliver(j) => ArrivalKeepsOne(u, j);
    case EmitAck =>
    case AppReads(_) =>
  }

  lemma ArrivalKeepsOne(u: System, j: nat)
    requires OneToGo(u) && Enabled(u, Deliver(j))
    ensures OneToGo(Do(u, Deliver(j)))
  {
    var v := Do(u, Deliver(j));
    StepSafe(u, Deliver(j));
    DeliveredPiece(u, j);
    FromSourcePrefix(v.receiver.reassembler, Consumed(u.sender));
    StepAdvances(u.receiver, Arrives(u.sender.sent[j]));
    PushKeeps(u.receiver.reassembler, u.sender.sent[j].payload, FirstPos(u.sender, j) - 1, u.sender.sent[j].header.fin);
    if u.receiver.reassembler.Next() != |Consumed(u.sender)| {
      PieceKeepsOne(u.sender, u.receiver.reassembler, j);
    }
  }

  lemma {:induction false} NeverEarly(u: System, actions: seq<Action>)
    requires OneToGo(u) && Runnable(u, actions)
    ensures OneToGo(EndToEnd.Run(u, actions))
    decreases |actions|
  {
    if actions != [] {
      NeverEarly(u, actions[..|actions| - 1]);
      StepKeepsOne(EndToEnd.Run(u, actions[..|actions| - 1]), actions[|actions| - 1]);
    }
  }

  // ---------- exactly when ----------

  /** The FIN arrives past a hole, and all it leaves is its mark. */
  lemma FinMarksOnly(u: System)
    requires Sound(u) && BareFin(u.sender) && u.receiver.isnSet && Untouched(u.sender, u.receiver.reassembler)
    requires Enabled(u, Deliver(|u.sender.sent| - 1)) && !Careful(u, Deliver(|u.sender.sent| - 1))
    ensures var v := Do(u, Deliver(|u.sender.sent| - 1));
            v.sender == u.sender && v.receiver.isnSet &&
            v.receiver.reassembler == u.receiver.reassembler.(eofFlag := true)
    ensures !u.receiver.Out().ended
  {
    var s, r, last := u.sender, u.receiver.reassembler, |u.sender.sent| - 1;
    DeliveredPiece(u, last);
    LastDataFacts(s);
    FromSourcePrefix(r, Consumed(s));
  }

  /** A bare FIN delivered past a hole, with nothing of the last data there: some continuation ends the output before it
      is complete, exactly if that data is not all that is missing, or nothing has been assembled. */
  lemma CarelessExactly(u: System)
    requires Sound(u) && BareFin(u.sender) && u.receiver.isnSet && Untouched(u.sender, u.receiver.reassembler)
    requires |u.sender.stream.history| < TWO31 - 2 && u.receiver.Out().capacity >= MAX_PAYLOAD_SIZE
    requires Enabled(u, Deliver(|u.sender.sent| - 1)) && !Careful(u, Deliver(|u.sender.sent| - 1))
    ensures var v := Do(u, Deliver(|u.sender.sent| - 1));
            (exists actions :: Runnable(v, actions) && var w := EndToEnd.Run(v, actions);
                               w.receiver.Out().ended && |w.receiver.Out().history| < |Consumed(w.sender)|)
            <==> !(0 < u.receiver.reassembler.Next() == LastData(u.sender))
  {
    var v, r := Do(u, Deliver(|u.sender.sent| - 1)), u.receiver.reassembler;
    FinMarksOnly(u);
    StepSafe(u, Deliver(|u.sender.sent| - 1));
    if 0 < r.Next() == LastData(u.sender) {
      forall actions | Runnable(v, actions)
        ensures var w := EndToEnd.Run(v, actions);
                w.receiver.Out().ended ==> |w.receiver.Out().history| == |Consumed(w.sender)|
      {
        NeverEarly(v, actions);
      }
    } else {
      assert forall k: nat :: v.receiver.reassembler.Holds(k) == r.Holds(k);
      LastDataFacts(u.sender);
      assert !r.Holds(LastData(u.sender));
      var actions := EndsEarly(v);
    }
  }
}
