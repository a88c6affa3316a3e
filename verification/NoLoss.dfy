/** Nothing accepted from the application is lost: a segment is retired only after all of it was delivered. */
module NoLoss {
  import opened Common
  import opened Wrapping
  import opened ByteStreams
  import opened Reassembly
  import opened ReassemblyProofs
  import opened Segments
  import opened Receiving
  import opened ReceivingProofs
  import opened Sending
  import S = SendingProofs
  import opened AckProofs
  import opened EndToEnd
  import W = WindowProofs

  /** A final segment that reaches the reassembler has its last byte kept, or already at hand. */
  predicate Careful(u: System, a: Action) {
    a.Deliver? && a.i < |u.sender.sent| ==>
      var seg, first := u.sender.sent[a.i], FirstPos(u.sender, a.i);
      seg.header.fin && u.receiver.isnSet && first > 0 ==> FinKept(u.receiver.reassembler, seg.payload, first - 1)
  }

  predicate CarefulRun(u: System, actions: seq<Action>)
    requires Runnable(u, actions)
  {
    actions == [] ||
    var before, a := actions[..|actions| - 1], actions[|actions| - 1];
    CarefulRun(u, before) && Careful(EndToEnd.Run(u, before), a)
  }

  /** An acknowledgment number of some position that had been received when it was issued. */
  ghost predicate Honest(u: System, ackno: U32) {
    u.receiver.isnSet && exists abs: nat :: abs <= AckAbs(u.receiver) && ackno == Wrap(abs, u.sender.isn)
  }

  predicate MarksSound(u: System) {
    var r, s := u.receiver.reassembler, u.sender;
    if s.finFlag then FlagSound(r, |Consumed(s)|) && EndSound(r, |Consumed(s)|)
    else !r.eofFlag && !r.out.ended
  }

  predicate RetiredWasDelivered(u: System) {
    u.sender.retired > 0 ==> u.receiver.isnSet && S.Start(u.sender.sent, u.sender.retired) <= AckAbs(u.receiver)
  }

  ghost predicate Sound(u: System) {
    && Safe(u) && AckInv(u.sender) && MarksSound(u)
    && (forall p :: p in u.acks ==> Honest(u, p.0))
    && RetiredWasDelivered(u)
  }

  // ---------- the sender's steps ----------

  lemma FrontBelowBoundary(s: Sender)
    requires S.SpaceInv(s) && AckInv(s)
    ensures s.isn + S.Start(s.sent, s.retired) < TWO32
  {
    if NoWrap(s) {
      S.StartMonotone(s.sent, s.retired, |s.sent|);
    } else {
      var b: nat :| Straddles(s, b);
      S.StartMonotone(s.sent, s.retired, b);
    }
  }

  /** Raw comparison never retires past the acknowledged position, on either side of the 2^32 boundary. */
  lemma {:induction false} RetireOnlyDelivered(s: Sender, abs: nat)
    requires S.SpaceInv(s) && s.isn + S.Start(s.sent, s.retired) < TWO32
    ensures var t := Retire(s, Wrap(abs, s.isn));
            t.retired <= |s.sent| && (t.retired > s.retired ==> S.Start(s.sent, t.retired) <= abs)
    decreases |s.sent| - s.retired
  {
    var ackno := Wrap(abs, s.isn);
    assert ackno <= s.isn + abs;
    if s.retired < |s.sent| && s.sent[s.retired].header.seqno + SeqLength(s.sent[s.retired]) <= ackno {
      assert S.Placed(s, s.retired);
      SmallWrap(S.Start(s.sent, s.retired), s.isn);
      var t := s.(retired := s.retired + 1, bytesInFlight := s.bytesInFlight - SeqLength(s.sent[s.retired]));
      RetireOneSpace(s, t);
      RetireOnlyDelivered(t, abs);
    }
  }

  lemma {:induction false} StartPrefix(sent: seq<Segment>, more: seq<Segment>, i: nat)
    requires sent <= more && i <= |sent|
    ensures S.Start(more, i) == S.Start(sent, i)
  {
    if i > 0 {
      StartPrefix(sent, more, i - 1);
    }
  }

  lemma AckRetiresDelivered(u: System, ackno: U32, win: U16)
    requires Sound(u) && Honest(u, ackno)
    ensures RetiredWasDelivered(u.(sender := Acknowledge(u.sender, ackno, win)))
  {
    var abs: nat :| abs <= AckAbs(u.receiver) && ackno == Wrap(abs, u.sender.isn);
    RetiredUpTo(u.sender, ackno, win, abs);
  }

  /** An acknowledgment of position `abs` retires nothing that ends past it. */
  lemma RetiredUpTo(s: Sender, ackno: U32, win: U16, abs: nat)
    requires S.SpaceInv(s) && AckInv(s) && ackno == Wrap(abs, s.isn)
    ensures var t := Acknowledge(s, ackno, win);
            if t.retired == s.retired then S.Start(t.sent, t.retired) == S.Start(s.sent, s.retired)
            else S.Start(t.sent, t.retired) <= abs
  {
    if ackno <= Wrap(s.nextSeqno, s.isn) {
      var r, t := Retire(s, ackno), Acknowledge(s, ackno, win);
      assert r.retired <= |s.sent| && (r.retired > s.retired ==> S.Start(s.sent, r.retired) <= abs) by {
        FrontBelowBoundary(s);
        RetireOnlyDelivered(s, abs);
      }
      assert t.retired == r.retired && s.sent <= t.sent by {
        AcknowledgeRetires(s, ackno, win);
      }
      assert s.retired <= r.retired by {
        S.RetireOnly(s, ackno);
      }
      StartPrefix(s.sent, t.sent, t.retired);
    }
  }

  lemma AckSound(u: System, ackno: U32, win: U16)
    requires Sound(u) && Honest(u, ackno)
    ensures Sound(u.(sender := Acknowledge(u.sender, ackno, win)))
  {
    SenderStepSafe(u, S.Ack(ackno, win));
    AcknowledgeAck(u.sender, ackno, win);
    SenderMarks(u, S.Ack(ackno, win));
    ConsumedGrows(u.sender, S.Ack(ackno, win));
    AckRetiresDelivered(u, ackno, win);
    HonestFrame(u, u.(sender := Acknowledge(u.sender, ackno, win)));
  }

  lemma HonestFrame(u: System, v: System)
    requires forall p :: p in u.acks ==> Honest(u, p.0)
    requires v.acks == u.acks && v.sender.isn == u.sender.isn
    requires (u.receiver.isnSet ==> v.receiver.isnSet) && AckAbs(u.receiver) <= AckAbs(v.receiver)
    ensures forall p :: p in v.acks ==> Honest(v, p.0)
  {
    forall p | p in v.acks ensures Honest(v, p.0) {
      assert Honest(u, p.0);
      var abs: nat :| abs <= AckAbs(u.receiver) && p.0 == Wrap(abs, u.sender.isn);
    }
  }

  /** Sending the FIN fixes the consumed stream while the receiver's marks are still down. */
  lemma SenderMarks(u: System, e: S.Event)
    requires Safe(u) && MarksSound(u)
    ensures MarksSound(u.(sender := S.Step(u.sender, e)))
  {
    ConsumedGrows(u.sender, e);
  }

  lemma SenderSound(u: System, e: S.Event)
    requires Sound(u) && !e.Ack?
    ensures Sound(u.(sender := S.Step(u.sender, e)))
  {
    var s, t := u.sender, S.Step(u.sender, e);
    SenderStepSafe(u, e);
    SenderMarks(u, e);
    ConsumedGrows(s, e);
    HonestFrame(u, u.(sender := t));
    if e.FillWindow? {
      FillAck(s);
      FillKeeps(s);
      StartPrefix(s.sent, t.sent, t.retired);
    } else {
      AckFrame(s, t);
    }
  }

  // ---------- the receiver's steps ----------

  lemma DeliverSound(u: System, i: nat)
    requires Sound(u) && Enabled(u, Deliver(i)) && Careful(u, Deliver(i))
    ensures Sound(Do(u, Deliver(i)))
  {
    DeliverSafe(u, i);
    StepAdvances(u.receiver, Arrives(u.sender.sent[i]));
    HonestFrame(u, Do(u, Deliver(i)));
    DeliverMarks(u, i);
  }

  lemma DeliverMarks(u: System, i: nat)
    requires Safe(u) && MarksSound(u) && Enabled(u, Deliver(i)) && Careful(u, Deliver(i))
    ensures MarksSound(Do(u, Deliver(i)))
  {
    var s, r, seg, index := u.sender, u.receiver.reassembler, u.sender.sent[i], FirstPos(u.sender, i) - 1;
    DeliveredPiece(u, i);
    CarriesStream(s, i);
    assert (seg.header.fin ==> s.finFlag) && (seg.header.syn ==> !seg.header.fin) by {
      assert S.Placed(s, i);
    }
    if s.finFlag && (seg.header.syn || u.receiver.isnSet) {
      PushEndSound(r, seg.payload, index, seg.header.fin, Consumed(s));
    } else {
      PushFlag(r, seg.payload, index, false);
      PushEnded(r, seg.payload, index, false);
    }
  }

  lemma ReadSound(u: System, count: nat)
    requires Sound(u)
    ensures Sound(Do(u, AppReads(count)))
  {
    var v := Do(u, AppReads(count));
    StepSafe(u, AppReads(count));
    HonestFrame(u, v);
    var r, t := u.receiver.reassembler, v.receiver.reassembler;
    assert forall k: nat :: t.Holds(k) == r.Holds(k);
  }

  lemma EmitSound(u: System)
    requires Sound(u) && Enabled(u, EmitAck)
    ensures Sound(Do(u, EmitAck))
  {
    var v := Do(u, EmitAck);
    AcknoWraps(u.receiver);
    forall p | p in v.acks ensures Honest(v, p.0) {
      if p in u.acks {
        assert Honest(u, p.0);
        var abs: nat :| abs <= AckAbs(u.receiver) && p.0 == Wrap(abs, u.sender.isn);
      } else {
        assert p.0 == Wrap(AckAbs(u.receiver), u.sender.isn);
      }
    }
  }

  lemma StepSound(u: System, a: Action)
    requires Sound(u) && Enabled(u, a) && Careful(u, a)
    ensures Sound(Do(u, a))
  {
    match a
    case SenderDoes(event) => SenderSound(u, event);
    case Deliver(i) => DeliverSound(u, i);
    case EmitAck => EmitSound(u);
    case DeliverAck(ackno, win) =>
      assert Honest(u, (ackno, win).0);
      AckSound(u, ackno, win);
    case AppReads(count) => ReadSound(u, count);
  }

  lemma {:induction false} RunSound(u: System, actions: seq<Action>)
    requires Sound(u) && Runnable(u, actions) && CarefulRun(u, actions)
    ensures Sound(EndToEnd.Run(u, actions))
    decreases |actions|
  {
    if actions != [] {
      RunSound(u, actions[..|actions| - 1]);
      StepSound(EndToEnd.Run(u, actions[..|actions| - 1]), actions[|actions| - 1]);
    }
  }

  // ---------- what it means ----------

  /** The receiver acknowledges nothing that was not sent. */
  lemma AcksOnlySent(u: System)
    requires Sound(u) && u.receiver.isnSet
    ensures AckAbs(u.receiver) <= u.sender.nextSeqno
  {
    FromSourcePrefix(u.receiver.reassembler, Consumed(u.sender));
  }

  /** Byte `k` of the stream is payload of an outstanding segment. */
  ghost predicate Outstanding(s: Sender, k: nat) {
    exists i :: s.retired <= i < |s.sent| && 0 < i
                && S.Start(s.sent, i) <= k + 1 < S.Start(s.sent, i) + |s.sent[i].payload|
  }

  lemma {:induction false} SegmentCovering(sent: seq<Segment>, n: nat, pos: nat) returns (i: nat)
    requires n <= |sent| && pos < S.Start(sent, n)
    ensures i < n && S.Start(sent, i) <= pos < S.Start(sent, i + 1)
    decreases n
  {
    if S.Start(sent, n - 1) <= pos {
      i := n - 1;
    } else {
      i := SegmentCovering(sent, n - 1, pos);
    }
  }

  /** Every byte the application handed over is in the receiver's stream, in flight, or still buffered. */
  lemma ByteAccountedFor(u: System, k: nat)
    requires Sound(u) && k < |u.sender.stream.history|
    ensures k < |u.receiver.Out().history| || Outstanding(u.sender, k) || k >= u.sender.stream.readCount
  {
    var s, r := u.sender, u.receiver;
    if |r.Out().history| <= k < s.stream.readCount {
      var i := SegmentCovering(s.sent, |s.sent|, k + 1);
      assert S.Placed(s, i);
      assert s.sent[i].header.fin ==> i == |s.sent| - 1;
      if i < s.retired {
        S.StartMonotone(s.sent, i + 1, s.retired);
      }
      assert s.retired <= i;
      assert S.Start(s.sent, i) <= k + 1 < S.Start(s.sent, i) + |s.sent[i].payload|;
    }
  }

  /** No loss, in every run: bytes are accounted for, and what has been assembled is right. */
  lemma NothingIsLost(sendCapacity: nat, rto: U16, isn: U32, recvCapacity: nat, actions: seq<Action>, k: nat)
    requires Runnable(Initial(sendCapacity, rto, isn, recvCapacity), actions)
    requires CarefulRun(Initial(sendCapacity, rto, isn, recvCapacity), actions)
    ensures var u := EndToEnd.Run(Initial(sendCapacity, rto, isn, recvCapacity), actions);
            k < |u.sender.stream.history| ==>
              || (k < |u.receiver.Out().history| && u.receiver.Out().history[k] == u.sender.stream.history[k])
              || Outstanding(u.sender, k)
              || k >= u.sender.stream.readCount
  {
    var u0 := Initial(sendCapacity, rto, isn, recvCapacity);
    InitialSafe(sendCapacity, rto, isn, recvCapacity);
    RunSound(u0, actions);
    var u := EndToEnd.Run(u0, actions);
    if k < |u.sender.stream.history| {
      ByteAccountedFor(u, k);
      FromSourcePrefix(u.receiver.reassembler, Consumed(u.sender));
    }
  }

  /** End of stream at the receiver means the sender's FIN and every consumed byte are there, and conversely a
      sender whose FIN is acknowledged has had all of it delivered. */
  lemma EndMeansDelivered(u: System)
    requires Sound(u)
    ensures u.receiver.Out().ended ==> u.sender.finFlag && u.receiver.Out().history == Consumed(u.sender)
    ensures u.sender.finFlag && u.sender.bytesInFlight == 0 ==>
              u.receiver.Out().ended && u.receiver.Out().history == Consumed(u.sender)
  {
    FromSourcePrefix(u.receiver.reassembler, Consumed(u.sender));
    W.InFlightPositive(u.sender);
  }
}
