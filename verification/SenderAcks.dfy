/** Acknowledgments: what they retire, and what happens to them at the 2^32 boundary. */
module AckProofs {
  import opened Common
  import opened Wrapping
  import opened ByteStreams
  import opened Segments
  import opened Sending
  import opened SendingProofs

  /** The raw sequence numbers in use have not wrapped. */
  predicate NoWrap(s: Sender) {
    s.isn + s.nextSeqno < TWO32
  }

  /** The outstanding segment `b` reaches the 2^32 boundary. */
  predicate Straddles(s: Sender, b: nat) {
    && s.retired <= b < |s.sent|
    && s.isn + Start(s.sent, b) < TWO32 <= s.isn + Start(s.sent, b + 1)
  }

  /** The newest acknowledgment lies in the oldest outstanding segment, before its end. */
  predicate AckInFront(s: Sender) {
    && s.isn + Start(s.sent, s.retired) <= s.ackGot <= s.isn + s.nextSeqno
    && (s.retired < |s.sent| ==> s.ackGot < s.isn + Start(s.sent, s.retired + 1))
  }

  /** Before the boundary acknowledgments are exact; after it the segment that reached it is never retired. */
  ghost predicate AckInv(s: Sender) {
    if NoWrap(s) then AckInFront(s) else exists b: nat :: Straddles(s, b)
  }

  lemma SmallWrap(n: nat, isn: U32)
    ensures isn + n < TWO32 ==> Wrap(n, isn) == isn + n
    ensures TWO32 <= isn + n < 2 * TWO32 ==> Wrap(n, isn) == isn + n - TWO32
  {}

  // ---------- retiring ----------

  /** `t` has dropped exactly the outstanding segments that end at or before the absolute position `upTo`. */
  predicate RetiredExactly(s: Sender, t: Sender, upTo: int) {
    && s.retired <= t.retired <= |s.sent|
    && (t.retired > s.retired ==> Start(s.sent, t.retired) <= upTo)
    && (t.retired < |s.sent| ==> upTo < Start(s.sent, t.retired + 1))
  }

  lemma {:induction false} RetireExact(s: Sender, ackno: U32)
    requires SpaceInv(s) && NoWrap(s)
    ensures RetiredExactly(s, Retire(s, ackno), ackno - s.isn)
    decreases |s.sent| - s.retired
  {
    if s.retired < |s.sent| {
      assert Placed(s, s.retired);
      StartMonotone(s.sent, s.retired, |s.sent|);
      SmallWrap(Start(s.sent, s.retired), s.isn);
      if s.sent[s.retired].header.seqno + SeqLength(s.sent[s.retired]) <= ackno {
        var t := s.(retired := s.retired + 1, bytesInFlight := s.bytesInFlight - SeqLength(s.sent[s.retired]));
        RetireOneSpace(s, t);
        RetireExact(t, ackno);
      }
    }
  }

  lemma RetireOneSpace(s: Sender, t: Sender)
    requires SpaceInv(s) && s.retired < |s.sent|
    requires t == s.(retired := s.retired + 1, bytesInFlight := s.bytesInFlight - SeqLength(s.sent[s.retired]))
    ensures SpaceInv(t)
  {
    forall i | 0 <= i < |t.sent| ensures Placed(t, i) {
      assert Placed(s, i);
    }
  }

  /** A segment that reaches the boundary stays outstanding, whatever number arrives. */
  lemma {:induction false} RetireStopsAtBoundary(s: Sender, ackno: U32, b: nat)
    requires SpaceInv(s) && Straddles(s, b)
    ensures Straddles(Retire(s, ackno), b)
    decreases |s.sent| - s.retired
  {
    assert Placed(s, b);
    SmallWrap(Start(s.sent, b), s.isn);
    if s.sent[s.retired].header.seqno + SeqLength(s.sent[s.retired]) <= ackno {
      var t := s.(retired := s.retired + 1, bytesInFlight := s.bytesInFlight - SeqLength(s.sent[s.retired]));
      RetireOneSpace(s, t);
      RetireStopsAtBoundary(t, ackno, b);
    }
  }

  lemma RetireAdvanceAck(s: Sender, ackno: U32)
    requires SpaceInv(s) && AckInv(s) && ackno <= Wrap(s.nextSeqno, s.isn)
    ensures AckInv(Advance(Retire(s, ackno), ackno))
  {
    RetireOnly(s, ackno);
    var r := Retire(s, ackno);
    if NoWrap(s) {
      SmallWrap(s.nextSeqno, s.isn);
      RetireExact(s, ackno);
      StartMonotone(s.sent, r.retired, |s.sent|);
      if ackno <= s.ackGot && r.retired > s.retired {
        StartMonotone(s.sent, s.retired + 1, r.retired);
      }
      assert AckInFront(Advance(r, ackno));
    } else {
      var b: nat :| Straddles(s, b);
      RetireStopsAtBoundary(s, ackno, b);
      assert Straddles(Advance(r, ackno), b);
    }
  }

  // ---------- sending ----------

  lemma SendAck(s: Sender, t: Sender, seg: Segment)
    requires SpaceInv(s) && AckInv(s) && SeqLength(seg) > 0
    requires t.sent == s.sent + [seg] && t.nextSeqno == s.nextSeqno + SeqLength(seg)
    requires t.isn == s.isn && t.retired == s.retired && t.ackGot == s.ackGot
    ensures AckInv(t)
  {
    var n := |s.sent|;
    StartSnoc(s.sent, seg, n);
    StartSnoc(s.sent, seg, s.retired);
    assert Start(t.sent, n + 1) == s.nextSeqno + SeqLength(seg);
    if NoWrap(s) {
      if s.retired < n {
        StartSnoc(s.sent, seg, s.retired + 1);
      }
      assert if NoWrap(t) then AckInFront(t) else Straddles(t, n);
    } else {
      var b: nat :| Straddles(s, b);
      StartSnoc(s.sent, seg, b);
      StartSnoc(s.sent, seg, b + 1);
      assert Straddles(t, b);
    }
  }

  lemma {:induction false} FillLoopAck(s: Sender)
    requires SpaceInv(s) && AckInv(s) && s.synFlag
    ensures AckInv(FillLoop(s))
    decreases |s.stream.history| - s.stream.readCount + (if s.finFlag then 0 else 1)
  {
    if !Blocked(s) && SeqLength(NextSegment(s)) > 0 {
      SendNextSpace(s);
      SendAck(s, SendNext(s), NextSegment(s));
      FillLoopAck(SendNext(s));
    }
  }

  lemma AckFrame(s: Sender, t: Sender)
    requires AckInv(s)
    requires t.isn == s.isn && t.sent == s.sent && t.retired == s.retired
    requires t.nextSeqno == s.nextSeqno && t.ackGot == s.ackGot
    ensures AckInv(t)
  {
    if !NoWrap(s) {
      var b: nat :| Straddles(s, b);
      assert Straddles(t, b);
    }
  }

  lemma FillAck(s: Sender)
    requires SpaceInv(s) && AckInv(s)
    ensures AckInv(Fill(s))
  {
    if !s.finFlag {
      if !s.synFlag {
        SendAck(s, Fill(s), SynSegment(s));
      } else {
        var s' := if s.window == 0 then s.(window := 1) else s;
        SpaceFrame(s, s');
        AckFrame(s, s');
        FillLoopAck(s');
        AckFrame(FillLoop(s'), Fill(s));
      }
    }
  }

  /** What an acknowledgment leaves for the window to be filled from. */
  lemma AdvancedInv(s: Sender, ackno: U32, win: U16)
    requires SpaceInv(s) && AckInv(s) && ackno <= Wrap(s.nextSeqno, s.isn)
    ensures var a := Advance(Retire(s, ackno), ackno).(window := win); SpaceInv(a) && AckInv(a)
  {
    var r := Retire(s, ackno);
    var a := Advance(r, ackno);
    RetireAdvanceAck(s, ackno);
    RetireSpace(s, ackno);
    SpaceFrame(r, a.(window := win));
    AckFrame(a, a.(window := win));
  }

  lemma AcknowledgeAck(s: Sender, ackno: U32, win: U16)
    requires SpaceInv(s) && AckInv(s)
    ensures AckInv(Acknowledge(s, ackno, win))
  {
    if ackno <= Wrap(s.nextSeqno, s.isn) {
      AdvancedInv(s, ackno, win);
      FillAck(Advance(Retire(s, ackno), ackno).(window := win));
    }
  }

  /** In every reachable sender, wherever the boundary lies. */
  lemma {:induction false} RunAck(capacity: nat, rto: U16, isn: U32, es: seq<Event>)
    ensures AckInv(Run(EmptySender(capacity, rto, isn), es))
    decreases |es|
  {
    if es != [] {
      var s, e := Run(EmptySender(capacity, rto, isn), es[..|es| - 1]), es[|es| - 1];
      RunAck(capacity, rto, isn, es[..|es| - 1]);
      RunSpace(capacity, rto, isn, es[..|es| - 1]);
      match e
      case Ack(ackno, win) => AcknowledgeAck(s, ackno, win);
      case FillWindow => FillAck(s);
      case Write(_) => AckFrame(s, Step(s, e));
      case EndInput => AckFrame(s, Step(s, e));
      case Time(_) => AckFrame(s, Step(s, e));
      case TakePending => AckFrame(s, Step(s, e));
      case Fail => AckFrame(s, Step(s, e));
    }
  }

  // ---------- what an acknowledgment does ----------

  /** Filling the window afterwards neither retires nor acknowledges. */
  lemma AcknowledgeRetires(s: Sender, ackno: U32, win: U16)
    requires (s.finFlag ==> s.synFlag) && ackno <= Wrap(s.nextSeqno, s.isn)
    ensures var t := Acknowledge(s, ackno, win);
            && t.retired == Retire(s, ackno).retired
            && t.ackGot == Max(s.ackGot, ackno)
            && s.sent <= t.sent && t.isn == s.isn
  {
    RetireOnly(s, ackno);
    FillKeeps(Advance(Retire(s, ackno), ackno).(window := win));
  }

  /** Before the boundary: an acknowledgment in range retires exactly the fully acknowledged prefix and raises
      `ackGot` to it, a repeated one retires nothing, and one from beyond what was sent changes nothing at all. */
  lemma AcknowledgeExact(s: Sender, ackno: U32, win: U16)
    requires SpaceInv(s) && AckInv(s) && NoWrap(s)
    ensures var t := Acknowledge(s, ackno, win);
            if ackno > s.isn + s.nextSeqno then t == s
            else && RetiredExactly(s, t, ackno - s.isn) && t.ackGot == Max(s.ackGot, ackno)
                 && (ackno <= s.ackGot ==> t.retired == s.retired)
  {
    SmallWrap(s.nextSeqno, s.isn);
    if ackno <= s.isn + s.nextSeqno {
      RetireExact(s, ackno);
      AcknowledgeRetires(s, ackno, win);
      if ackno <= s.ackGot {
        RepeatRetiresNothing(s, ackno);
      }
    }
  }

  lemma RepeatRetiresNothing(s: Sender, ackno: U32)
    requires SpaceInv(s) && AckInv(s) && NoWrap(s) && ackno <= s.ackGot
    ensures Retire(s, ackno).retired == s.retired
  {
    if s.retired < |s.sent| {
      assert Placed(s, s.retired);
      SmallWrap(Start(s.sent, s.retired), s.isn);
      StartMonotone(s.sent, s.retired, |s.sent|);
    }
  }

  lemma {:induction false} FillLoopKeeps(s: Sender)
    ensures var t := FillLoop(s);
            && t.retired == s.retired && t.ackGot == s.ackGot && t.isn == s.isn && t.window == s.window
            && s.sent <= t.sent && s.nextSeqno <= t.nextSeqno && t.synFlag == s.synFlag
            && t.stream == s.stream.(readCount := t.stream.readCount) && s.stream.readCount <= t.stream.readCount
            && t.initialRto == s.initialRto && t.timer.rto == s.timer.rto && t.retx == s.retx
            && (s.finFlag ==> t.finFlag)
    decreases |s.stream.history| - s.stream.readCount + (if s.finFlag then 0 else 1)
  {
    if !Blocked(s) && SeqLength(NextSegment(s)) > 0 {
      FillLoopKeeps(SendNext(s));
    }
  }

  lemma FillKeeps(s: Sender)
    requires s.finFlag ==> s.synFlag
    ensures var t := Fill(s);
            && t.retired == s.retired && t.ackGot == s.ackGot && t.isn == s.isn
            && Max(t.window, 1) == Max(s.window, 1)
            && s.sent <= t.sent && s.nextSeqno <= t.nextSeqno && t.synFlag
            && t.stream == s.stream.(readCount := t.stream.readCount) && s.stream.readCount <= t.stream.readCount
            && t.initialRto == s.initialRto && t.timer.rto == s.timer.rto && t.retx == s.retx
            && (s.finFlag ==> t.finFlag)
  {
    if !s.finFlag && s.synFlag {
      FillLoopKeeps(if s.window == 0 then s.(window := 1) else s);
    }
  }

  /** Past the boundary no genuine acknowledgment retires anything. */
  lemma WrappedRetiresNothing(s: Sender, abs: nat, win: U16)
    requires SpaceInv(s) && AckInv(s) && !NoWrap(s)
    requires Start(s.sent, s.retired) <= abs <= s.nextSeqno < Start(s.sent, s.retired) + TWO32
    ensures Acknowledge(s, Wrap(abs, s.isn), win).retired == s.retired
  {
    var b: nat :| Straddles(s, b);
    var ackno := Wrap(abs, s.isn);
    StartMonotone(s.sent, s.retired, b);
    assert Placed(s, s.retired);
    SmallWrap(Start(s.sent, s.retired), s.isn);
    SmallWrap(abs, s.isn);
    SmallWrap(s.nextSeqno, s.isn);
    if ackno <= Wrap(s.nextSeqno, s.isn) {
      assert Retire(s, ackno) == s;
      FillKeeps(Advance(s, ackno).(window := win));
    }
  }

  /** The last initial sequence number: the acknowledgment of the SYN is 0 and retires nothing. */
  lemma LastIsnIsNeverAcknowledged(capacity: nat, rto: U16, win: U16)
    ensures var s := Fill(EmptySender(capacity, rto, 0xffff_ffff));
            Wrap(s.nextSeqno, s.isn) == 0 && Acknowledge(s, 0, win).retired == 0 < |s.sent|
  {
    var s := Fill(EmptySender(capacity, rto, 0xffff_ffff));
    assert Retire(s, 0) == s;
    FillKeeps(Advance(s, 0).(window := win));
  }

  /** A genuine cumulative acknowledgment of everything before `abs` is honoured exactly, if and only if the raw
      numbers have not wrapped or it completes no segment anyway. */
  lemma HonouredExactly(s: Sender, abs: nat, win: U16)
    requires SpaceInv(s) && AckInv(s)
    requires Start(s.sent, s.retired) <= abs <= s.nextSeqno < Start(s.sent, s.retired) + TWO32
    ensures RetiredExactly(s, Acknowledge(s, Wrap(abs, s.isn), win), abs)
            <==> NoWrap(s) || abs < Start(s.sent, s.retired + 1)
  {
    if NoWrap(s) {
      SmallWrap(abs, s.isn);
      AcknowledgeExact(s, Wrap(abs, s.isn), win);
    } else {
      WrappedRetiresNothing(s, abs, win);
    }
  }
}
