/** What every run of a sender keeps: its sequence space, its acknowledgments and its window. */
module SendingProofs {
  import opened Common
  import opened Wrapping
  import opened ByteStreams
  import opened Segments
  import opened Sending

  // ---------- positions in sequence space ----------

  /** Absolute position of the `i`th segment. */
  function Start(sent: seq<Segment>, i: nat): nat
    requires i <= |sent|
  {
    if i == 0 then 0 else Start(sent, i - 1) + SeqLength(sent[i - 1])
  }

  lemma {:induction false} StartSnoc(sent: seq<Segment>, seg: Segment, i: nat)
    requires i <= |sent|
    ensures Start(sent + [seg], i) == Start(sent, i)
  {
    if i > 0 {
      StartSnoc(sent, seg, i - 1);
    }
  }

  lemma {:induction false} StartMonotone(sent: seq<Segment>, i: nat, j: nat)
    requires i <= j <= |sent|
    ensures Start(sent, i) <= Start(sent, j)
    decreases j
  {
    if i < j {
      StartMonotone(sent, i, j - 1);
    }
  }

  // ---------- the sequence-space invariant ----------

  /** The `i`th segment sits where it should and carries the bytes of the stream found there. */
  predicate Placed(s: Sender, i: nat)
    requires i < |s.sent|
  {
    var seg, at := s.sent[i], Start(s.sent, i);
    && seg.header.seqno == Wrap(at, s.isn)
    && (seg.header.syn <==> i == 0)
    && (i == 0 ==> seg.payload == [] && !seg.header.fin)
    && (i > 0 ==> 1 <= at <= at + |seg.payload| <= s.stream.readCount + 1
                  && seg.payload == s.stream.history[at - 1..at - 1 + |seg.payload|])
    && (seg.header.fin <==> s.finFlag && i == |s.sent| - 1)
    && SeqLength(seg) > 0 && |seg.payload| <= MAX_PAYLOAD_SIZE
    && !seg.header.rst && !seg.header.ack
  }

  ghost predicate SpaceInv(s: Sender) {
    && s.nextSeqno == Start(s.sent, |s.sent|)
    && s.bytesInFlight == s.nextSeqno - Start(s.sent, s.retired)
    && (s.synFlag <==> |s.sent| > 0)
    && s.nextSeqno == (if s.synFlag then 1 else 0) + s.stream.readCount + (if s.finFlag then 1 else 0)
    && (s.finFlag ==> s.synFlag && s.stream.ended)
    && (forall i :: 0 <= i < |s.sent| ==> Placed(s, i))
    && (forall seg :: seg in s.pending ==> seg in s.sent)
  }

  lemma SendNextSpace(s: Sender)
    requires SpaceInv(s) && s.synFlag && !Blocked(s) && SeqLength(NextSegment(s)) > 0
    ensures SpaceInv(SendNext(s))
  {
    var t := SendNext(s);
    var seg := NextSegment(s);
    assert t.sent == s.sent + [seg];
    StartSnoc(s.sent, seg, |s.sent|);
    StartSnoc(s.sent, seg, s.retired);
    NextPlaced(s);
    forall i | 0 <= i < |s.sent| ensures Placed(t, i) {
      StartSnoc(s.sent, seg, i);
      PlacedKept(s, t, i);
    }
  }

  lemma NextPlaced(s: Sender)
    requires SpaceInv(s) && s.synFlag && !Blocked(s) && SeqLength(NextSegment(s)) > 0
    ensures Placed(SendNext(s), |s.sent|)
  {
    StartSnoc(s.sent, NextSegment(s), |s.sent|);
  }

  /** A segment stays in its place while the stream and the list of segments only grow. */
  lemma PlacedKept(s: Sender, t: Sender, i: nat)
    requires i < |s.sent| && Placed(s, i) && s.sent <= t.sent && t.isn == s.isn
    requires Start(t.sent, i) == Start(s.sent, i)
    requires s.stream.history <= t.stream.history && s.stream.readCount <= t.stream.readCount
    requires t.finFlag && i == |t.sent| - 1 <==> s.finFlag && i == |s.sent| - 1
    ensures Placed(t, i)
  {}

  lemma SendSynSpace(s: Sender)
    requires SpaceInv(s) && !s.synFlag
    ensures SpaceInv(Send(s.(synFlag := true), SynSegment(s)))
  {
    var t := Send(s.(synFlag := true), SynSegment(s));
    assert t.sent == [SynSegment(s)];
    assert Start(t.sent, 1) == Start(t.sent, 0) + 1;
  }

  lemma {:induction false} FillLoopSpace(s: Sender)
    requires SpaceInv(s) && s.synFlag
    ensures SpaceInv(FillLoop(s)) && FillLoop(s).synFlag
    decreases |s.stream.history| - s.stream.readCount + (if s.finFlag then 0 else 1)
  {
    if !Blocked(s) && SeqLength(NextSegment(s)) > 0 {
      SendNextSpace(s);
      FillLoopSpace(SendNext(s));
    }
  }

  /** Timer, window, acknowledgment and back-off fields play no part in the sequence space. */
  lemma SpaceFrame(s: Sender, t: Sender)
    requires SpaceInv(s)
    requires t.isn == s.isn && t.sent == s.sent && t.retired == s.retired && t.nextSeqno == s.nextSeqno
    requires t.bytesInFlight == s.bytesInFlight && t.synFlag == s.synFlag && t.finFlag == s.finFlag
    requires t.stream == s.stream && forall seg :: seg in t.pending ==> seg in s.sent
    ensures SpaceInv(t)
  {
    forall i | 0 <= i < |t.sent| ensures Placed(t, i) {
      assert Placed(s, i);
    }
  }

  lemma FillSpace(s: Sender)
    requires SpaceInv(s)
    ensures SpaceInv(Fill(s))
  {
    if !s.finFlag {
      if !s.synFlag {
        SendSynSpace(s);
      } else {
        var s' := if s.window == 0 then s.(window := 1) else s;
        SpaceFrame(s, s');
        FillLoopSpace(s');
        SpaceFrame(FillLoop(s'), FillLoop(s').(window := 0));
      }
    }
  }

  lemma {:induction false} RetireSpace(s: Sender, ackno: U32)
    requires SpaceInv(s)
    ensures SpaceInv(Retire(s, ackno))
    decreases |s.sent| - s.retired
  {
    if s.retired < |s.sent| && s.sent[s.retired].header.seqno + SeqLength(s.sent[s.retired]) <= ackno {
      var t := s.(retired := s.retired + 1, bytesInFlight := s.bytesInFlight - SeqLength(s.sent[s.retired]));
      forall i | 0 <= i < |t.sent| ensures Placed(t, i) {
        assert Placed(s, i);
      }
      RetireSpace(t, ackno);
    }
  }

  lemma AcknowledgeSpace(s: Sender, ackno: U32, win: U16)
    requires SpaceInv(s)
    ensures SpaceInv(Acknowledge(s, ackno, win))
  {
    if ackno <= Wrap(s.nextSeqno, s.isn) {
      RetireSpace(s, ackno);
      var r := Retire(s, ackno);
      var a := Advance(r, ackno).(window := win);
      SpaceFrame(r, a);
      FillSpace(a);
    }
  }

  lemma WriteSpace(s: Sender, data: Bytes)
    requires SpaceInv(s)
    ensures SpaceInv(s.(stream := s.stream.Write(data)))
  {
    var t := s.(stream := s.stream.Write(data));
    forall i | 0 <= i < |t.sent| ensures Placed(t, i) {
      PlacedKept(s, t, i);
    }
  }

  // ---------- runs ----------

  /** All that can happen to a sender, in any order. */
  datatype Event =
    | Write(data: Bytes)
    | EndInput
    | FillWindow
    | Ack(ackno: U32, win: U16)
    | Time(ms: nat)
    | TakePending
    | Fail

  function Step(s: Sender, e: Event): Sender {
    match e
    case Write(data) => s.(stream := s.stream.Write(data))
    case EndInput => s.(stream := s.stream.(ended := true))
    case FillWindow => Fill(s)
    case Ack(ackno, win) => Acknowledge(s, ackno, win)
    case Time(ms) => Elapse(s, ms)
    case TakePending => s.(pending := [])
    case Fail => s.(stream := s.stream.(error := true))
  }

  function Run(s: Sender, es: seq<Event>): Sender {
    if es == [] then s else Step(Run(s, es[..|es| - 1]), es[|es| - 1])
  }

  lemma RunSnoc(s: Sender, es: seq<Event>, e: Event)
    ensures Run(s, es + [e]) == Step(Run(s, es), e)
  {
    var all := es + [e];
    assert all[..|all| - 1] == es;
  }

  lemma StepSpace(s: Sender, e: Event)
    requires SpaceInv(s)
    ensures SpaceInv(Step(s, e))
  {
    match e
    case Write(data) => WriteSpace(s, data);
    case EndInput => StreamMarks(s, s.stream.(ended := true));
    case FillWindow => FillSpace(s);
    case Ack(ackno, win) => AcknowledgeSpace(s, ackno, win);
    case Time(ms) =>
      var t := Elapse(s, ms);
      SpaceFrame(s, t);
    case TakePending => SpaceFrame(s, s.(pending := []));
    case Fail => StreamMarks(s, s.stream.(error := true));
  }

  lemma StreamMarks(s: Sender, stream: Stream)
    requires SpaceInv(s)
    requires stream.history == s.stream.history && stream.readCount == s.stream.readCount
    requires s.stream.ended ==> stream.ended
    ensures SpaceInv(s.(stream := stream))
  {
    var t := s.(stream := stream);
    forall i | 0 <= i < |t.sent| ensures Placed(t, i) {
      assert Placed(s, i);
    }
  }

  /** Every reachable sender has its sequence space in order, whatever its peer and its application do. */
  lemma {:induction false} RunSpace(capacity: nat, rto: U16, isn: U32, es: seq<Event>)
    ensures SpaceInv(Run(EmptySender(capacity, rto, isn), es))
    decreases |es|
  {
    if es != [] {
      RunSpace(capacity, rto, isn, es[..|es| - 1]);
      StepSpace(Run(EmptySender(capacity, rto, isn), es[..|es| - 1]), es[|es| - 1]);
    }
  }

  function Payloads(sent: seq<Segment>): Bytes {
    if sent == [] then [] else Payloads(sent[..|sent| - 1]) + sent[|sent| - 1].payload
  }

  lemma {:induction false} PayloadsUpTo(s: Sender, i: nat)
    requires SpaceInv(s) && 0 < i <= |s.sent|
    ensures var len := |Payloads(s.sent[..i])|;
            && len <= s.stream.readCount
            && Payloads(s.sent[..i]) == s.stream.history[..len]
            && Start(s.sent, i) == 1 + len + (if s.finFlag && i == |s.sent| then 1 else 0)
    decreases i
  {
    assert Placed(s, i - 1);
    assert s.sent[..i][..i - 1] == s.sent[..i - 1];
    if i > 1 {
      PayloadsUpTo(s, i - 1);
    } else {
      assert s.sent[..0] == [];
    }
  }

  /** First transmissions, end to end, are the consumed part of the stream; `next_seqno` counts them. */
  lemma PayloadsAreStream(s: Sender)
    requires SpaceInv(s)
    ensures Payloads(s.sent) == s.stream.history[..s.stream.readCount]
    ensures s.nextSeqno == (if s.synFlag then 1 else 0) + |Payloads(s.sent)| + (if s.finFlag then 1 else 0)
  {
    if |s.sent| > 0 {
      PayloadsUpTo(s, |s.sent|);
      assert s.sent[..|s.sent|] == s.sent;
    }
  }

  /** Once the FIN is out no new segment follows, in any continuation. */
  lemma {:induction false} NothingAfterFin(s: Sender, es: seq<Event>)
    requires s.finFlag
    ensures Run(s, es).finFlag && Run(s, es).sent == s.sent
    decreases |es|
  {
    if es != [] {
      var before, e := Run(s, es[..|es| - 1]), es[|es| - 1];
      NothingAfterFin(s, es[..|es| - 1]);
      if e.Ack? && e.ackno <= Wrap(before.nextSeqno, before.isn) {
        RetireOnly(before, e.ackno);
      }
    }
  }

  lemma {:induction false} RetireOnly(s: Sender, ackno: U32)
    ensures var t := Retire(s, ackno);
            t == s.(retired := t.retired, bytesInFlight := t.bytesInFlight) && s.retired <= t.retired
    decreases |s.sent| - s.retired
  {
    if s.retired < |s.sent| && s.sent[s.retired].header.seqno + SeqLength(s.sent[s.retired]) <= ackno {
      RetireOnly(s.(retired := s.retired + 1, bytesInFlight := s.bytesInFlight - SeqLength(s.sent[s.retired])), ackno);
    }
  }
}
