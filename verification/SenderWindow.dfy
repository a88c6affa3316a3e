/** Filling the window: it sends all it may, never more than the window unless the peer takes space back. */
module WindowProofs {
  import opened Common
  import opened Wrapping
  import opened ByteStreams
  import opened Segments
  import opened Sending
  import opened SendingProofs
  import opened AckProofs

  predicate Drained(s: Sender) {
    s.stream.readCount == |s.stream.history|
  }

  /** The window as the filling loop sees it. */
  function Limit(s: Sender): nat {
    Max(s.window, 1)
  }

  // ---------- maximality ----------

  lemma NextIsEmpty(s: Sender)
    requires !Blocked(s)
    ensures SeqLength(NextSegment(s)) == 0 <==> Drained(s) && !s.stream.ended
  {}

  lemma {:induction false} FillLoopStops(s: Sender)
    ensures var t := FillLoop(s); Blocked(t) || (Drained(t) && !t.stream.ended)
    decreases |s.stream.history| - s.stream.readCount + (if s.finFlag then 0 else 1)
  {
    if !Blocked(s) {
      NextIsEmpty(s);
      if SeqLength(NextSegment(s)) > 0 {
        FillLoopStops(SendNext(s));
      }
    }
  }

  /** Filling stops only with the FIN sent, the window full, or every byte sent and the stream still open. */
  lemma FillMaximal(s: Sender)
    requires s.synFlag
    ensures var t := Fill(s);
            t.finFlag || Remain(t.(window := Limit(s))) == 0 || (Drained(t) && !t.stream.ended)
  {
    if !s.finFlag {
      var s' := if s.window == 0 then s.(window := 1) else s;
      FillLoopStops(s');
      FillLoopKeeps(s');
      assert FillLoop(s').window == Limit(s);
      assert Fill(s).(window := Limit(s)) == FillLoop(s');
    }
  }

  // ---------- the bound ----------

  /** Distance from the newest acknowledgment to the next sequence number, in raw 32-bit numbers. */
  function Distance(s: Sender): U32 {
    (Wrap(s.nextSeqno, s.isn) - s.ackGot) % TWO32
  }

  lemma WrapMinus(n: nat, isn: U32, from: U32)
    ensures (Wrap(n, isn) - from) % TWO32 == (n + isn - from) % TWO32
  {}

  lemma WrapPlus(n: nat, len: nat, isn: U32, from: U32)
    ensures (Wrap(n + len, isn) - from) % TWO32 == ((Wrap(n, isn) - from) % TWO32 + len) % TWO32
  {
    WrapMinus(n, isn, from);
    WrapMinus(n + len, isn, from);
    ModPlus(n + isn - from, len);
    assert n + isn - from + len == n + len + isn - from;
  }

  lemma NextFits(s: Sender)
    requires !Blocked(s)
    ensures SeqLength(NextSegment(s)) <= Remain(s)
  {}

  lemma RemainIsDifference(s: Sender)
    requires Distance(s) <= s.window
    ensures Remain(s) == s.window - Distance(s)
  {}

  lemma SendNextDistance(s: Sender)
    requires !Blocked(s) && Distance(s) <= s.window
    ensures Distance(SendNext(s)) == Distance(s) + SeqLength(NextSegment(s)) <= s.window
  {
    var len := SeqLength(NextSegment(s));
    assert Distance(s) + len <= s.window by {
      NextFits(s);
      RemainIsDifference(s);
    }
    var t := SendNext(s);
    assert t.nextSeqno == s.nextSeqno + len && t.isn == s.isn && t.ackGot == s.ackGot;
    DistanceGrows(s, t, len);
  }

  lemma DistanceGrows(s: Sender, t: Sender, len: nat)
    requires t.nextSeqno == s.nextSeqno + len && t.isn == s.isn && t.ackGot == s.ackGot && Distance(s) + len < TWO32
    ensures Distance(t) == Distance(s) + len
  {
    WrapPlus(s.nextSeqno, len, s.isn, s.ackGot);
  }

  lemma {:induction false} FillLoopBounded(s: Sender)
    requires Distance(s) <= s.window
    ensures Distance(FillLoop(s)) <= s.window
    decreases |s.stream.history| - s.stream.readCount + (if s.finFlag then 0 else 1)
  {
    if !Blocked(s) && SeqLength(NextSegment(s)) > 0 {
      SendNextDistance(s);
      FillLoopBounded(SendNext(s));
    }
  }

  /** A window that covers what is in flight is never overrun, on either side of the 2^32 boundary. */
  lemma FillBounded(s: Sender)
    requires s.synFlag && Distance(s) <= Limit(s)
    ensures Distance(Fill(s)) <= Limit(s)
  {
    if !s.finFlag {
      var s' := if s.window == 0 then s.(window := 1) else s;
      assert Distance(s') == Distance(s);
      FillLoopBounded(s');
      assert Distance(Fill(s)) == Distance(FillLoop(s'));
    }
  }

  /** Unacknowledged sequence numbers, by the newest acknowledgment. */
  function InFlight(s: Sender): int {
    s.isn + s.nextSeqno - s.ackGot
  }

  lemma DistanceIsInFlight(s: Sender)
    requires AckInv(s) && NoWrap(s)
    ensures Distance(s) == InFlight(s) >= 0
  {
    SmallWrap(s.nextSeqno, s.isn);
  }

  /** The window is respected afterwards if and only if it covered what was in flight before. */
  lemma FillRespectsWindow(s: Sender)
    requires SpaceInv(s) && AckInv(s) && s.synFlag && NoWrap(Fill(s))
    ensures InFlight(Fill(s)) <= Limit(s) <==> InFlight(s) <= Limit(s)
  {
    FillKeeps(s);
    FillAck(s);
    DistanceIsInFlight(s);
    DistanceIsInFlight(Fill(s));
    if InFlight(s) <= Limit(s) {
      FillBounded(s);
    }
  }

  /** A peer that takes window back makes the subtraction wrap, and the sender sends on regardless. */
  lemma ShrunkWindowOverruns(s: Sender)
    requires SpaceInv(s) && AckInv(s) && NoWrap(s) && s.synFlag && !s.finFlag
    requires InFlight(s) > Limit(s) && !Drained(s)
    ensures Fill(s).nextSeqno > s.nextSeqno
  {
    var s' := if s.window == 0 then s.(window := 1) else s;
    DistanceIsInFlight(s);
    assert Remain(s') == s'.window - Distance(s') + TWO32;
    NextIsEmpty(s');
    FillLoopKeeps(SendNext(s'));
  }

  // ---------- whole runs ----------

  /** The peer's right edge does not move left. */
  predicate EdgeHolds(s: Sender, e: Event) {
    e.Ack? && e.ackno <= Wrap(s.nextSeqno, s.isn) ==>
      Max(s.ackGot, e.ackno) + Max(e.win, 1) >= s.ackGot + Limit(s)
  }

  predicate EdgesHold(s: Sender, es: seq<Event>) {
    es == [] || (EdgesHold(s, es[..|es| - 1]) && EdgeHolds(Run(s, es[..|es| - 1]), es[|es| - 1]))
  }

  lemma StepGrows(s: Sender, e: Event)
    requires s.finFlag ==> s.synFlag
    ensures s.nextSeqno <= Step(s, e).nextSeqno && Step(s, e).isn == s.isn
  {
    match e
    case FillWindow => FillKeeps(s);
    case Ack(ackno, win) =>
      RetireOnly(s, ackno);
      FillKeeps(Advance(Retire(s, ackno), ackno).(window := win));
    case Write(_) =>
    case EndInput =>
    case Time(_) =>
    case TakePending =>
    case Fail =>
  }

  /** With a peer whose right edge never moves left, no state of any run has more in flight than the window. */
  lemma {:induction false} RunRespectsWindow(capacity: nat, rto: U16, isn: U32, es: seq<Event>)
    requires EdgesHold(EmptySender(capacity, rto, isn), es)
    requires NoWrap(Run(EmptySender(capacity, rto, isn), es))
    ensures var s := Run(EmptySender(capacity, rto, isn), es); InFlight(s) <= Limit(s)
    decreases |es|
  {
    if es != [] {
      var before, e := es[..|es| - 1], es[|es| - 1];
      var s := Run(EmptySender(capacity, rto, isn), before);
      RunSpace(capacity, rto, isn, before);
      RunAck(capacity, rto, isn, before);
      StepGrows(s, e);
      RunRespectsWindow(capacity, rto, isn, before);
      StepRespectsWindow(s, e);
    }
  }

  lemma StepRespectsWindow(s: Sender, e: Event)
    requires SpaceInv(s) && AckInv(s) && NoWrap(Step(s, e))
    requires InFlight(s) <= Limit(s) && EdgeHolds(s, e)
    ensures InFlight(Step(s, e)) <= Limit(Step(s, e))
  {
    match e
    case FillWindow =>
      FillKeepsWindow(s);
    case Ack(ackno, win) =>
      if ackno <= Wrap(s.nextSeqno, s.isn) {
        AckKeepsWindow(s, ackno, win);
      }
    case Write(_) =>
    case EndInput =>
    case Time(_) =>
    case TakePending =>
    case Fail =>
  }

  lemma AckKeepsWindow(s: Sender, ackno: U32, win: U16)
    requires SpaceInv(s) && AckInv(s) && NoWrap(Acknowledge(s, ackno, win))
    requires InFlight(s) <= Limit(s) && EdgeHolds(s, Ack(ackno, win)) && ackno <= Wrap(s.nextSeqno, s.isn)
    ensures InFlight(Acknowledge(s, ackno, win)) <= Limit(Acknowledge(s, ackno, win))
  {
    AdvancedInv(s, ackno, win);
    RetireOnly(s, ackno);
    FillKeepsWindow(Advance(Retire(s, ackno), ackno).(window := win));
  }

  lemma FillKeepsWindow(s: Sender)
    requires SpaceInv(s) && AckInv(s) && NoWrap(Fill(s)) && InFlight(s) <= Limit(s)
    ensures InFlight(Fill(s)) <= Limit(Fill(s))
  {
    FillKeeps(s);
    if s.synFlag {
      FillRespectsWindow(s);
    } else {
      assert s.nextSeqno == 0;
      assert Start(s.sent, s.retired) == 0;
    }
  }

  // ---------- nothing is forgotten ----------

  /** With nothing in flight, either the FIN went out and came back or there is nothing left to send yet. */
  predicate Quiet(s: Sender) {
    s.bytesInFlight == 0 ==> s.finFlag || (Drained(s) && !s.stream.ended)
  }

  lemma InFlightPositive(s: Sender)
    requires SpaceInv(s)
    ensures s.bytesInFlight > 0 <==> s.retired < |s.sent|
    ensures s.bytesInFlight >= 0
  {
    if s.retired < |s.sent| {
      assert Placed(s, s.retired);
      StartMonotone(s.sent, s.retired + 1, |s.sent|);
    }
  }

  lemma EmptyPipeHasRoom(s: Sender, limit: U16)
    requires SpaceInv(s) && AckInv(s) && s.bytesInFlight == 0
    ensures Remain(s.(window := limit)) == limit
  {
    InFlightPositive(s);
    assert forall b: nat :: !Straddles(s, b);
    DistanceIsInFlight(s);
  }

  /** Filling never leaves data unsent with an empty pipe, wrapped numbers included. */
  lemma FillQuiet(s: Sender)
    requires SpaceInv(s) && AckInv(s)
    ensures Quiet(Fill(s))
  {
    var t := Fill(s);
    FillSpace(s);
    FillAck(s);
    if !s.synFlag {
      InFlightPositive(t);
    } else {
      FillMaximal(s);
      if t.bytesInFlight == 0 {
        EmptyPipeHasRoom(t, Limit(s));
      }
    }
  }
}
