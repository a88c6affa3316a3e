/** How the window is filled: as few segments as the window, the stream and the maximum size allow. */
module CuttingProofs {
  import opened Common
  import opened Wrapping
  import opened ByteStreams
  import opened Segments
  import opened Sending
  import opened SendingProofs
  import opened AckProofs
  import opened WindowProofs

  function Unread(s: Sender): nat {
    |s.stream.history| - s.stream.readCount
  }

  /** `t` has sent what `room` allows of the stream of `s`: every new segment but the last is full, the FIN is on the
      last one as soon as the stream has ended and fits with it, and is alone only if there was nothing else to send. */
  predicate Cut(s: Sender, t: Sender, room: nat) {
    && s.sent <= t.sent
    && t.stream == s.stream.(readCount := s.stream.readCount + Min(Unread(s), room))
    && (t.finFlag <==> s.finFlag || (s.stream.ended && Unread(s) < room))
    && (forall j :: |s.sent| <= j < |t.sent| - 1 ==> |t.sent[j].payload| == MAX_PAYLOAD_SIZE && !t.sent[j].header.fin)
    && (forall j :: |s.sent| <= j < |t.sent| && t.sent[j].payload == [] ==> Unread(s) == 0)
  }

  lemma RoomShrinks(s: Sender)
    requires !Blocked(s)
    ensures Remain(SendNext(s)) == Remain(s) - SeqLength(NextSegment(s))
  {
    var len, t := SeqLength(NextSegment(s)), SendNext(s);
    NextFits(s);
    WrapPlus(s.nextSeqno, len, s.isn, s.ackGot);
    assert Distance(t) == (Distance(s) + len) % TWO32;
    RoomArithmetic(s.window, Distance(s), len);
  }

  lemma RoomArithmetic(window: int, distance: int, len: nat)
    requires len <= (window - distance) % TWO32
    ensures (window - (distance + len) % TWO32) % TWO32 == (window - distance) % TWO32 - len
  {
    assert (window - (distance + len) % TWO32) % TWO32 == (window - (distance + len)) % TWO32;
  }

  lemma {:induction false} LoopCuts(s: Sender)
    requires !s.finFlag
    ensures Cut(s, FillLoop(s), Remain(s))
    decreases Unread(s)
  {
    if Remain(s) > 0 {
      NextIsEmpty(s);
      if SeqLength(NextSegment(s)) > 0 {
        var t := SendNext(s);
        RoomShrinks(s);
        if t.finFlag || Remain(t) == 0 || Unread(t) == 0 {
          LoopStops(s, t);
        } else {
          LoopCuts(t);
          CutMore(s, t, FillLoop(t));
        }
      }
    }
  }

  lemma LoopStops(s: Sender, t: Sender)
    requires !s.finFlag && Remain(s) > 0 && SeqLength(NextSegment(s)) > 0 && t == SendNext(s)
    requires Remain(t) == Remain(s) - SeqLength(NextSegment(s))
    requires t.finFlag || Remain(t) == 0 || Unread(t) == 0
    ensures FillLoop(s) == t && Cut(s, t, Remain(s))
  {
    if !Blocked(t) {
      NextIsEmpty(t);
    }
    assert FillLoop(t) == t;
  }

  lemma CutMore(s: Sender, t: Sender, v: Sender)
    requires !s.finFlag && Remain(s) > 0 && SeqLength(NextSegment(s)) > 0 && t == SendNext(s)
    requires Remain(t) == Remain(s) - SeqLength(NextSegment(s)) && !t.finFlag && Remain(t) > 0 && Unread(t) > 0
    requires Cut(t, v, Remain(t))
    ensures Cut(s, v, Remain(s))
  {
    var seg := NextSegment(s);
    assert |seg.payload| == MAX_PAYLOAD_SIZE && !seg.header.fin;
    assert v.sent[|s.sent|] == seg by {
      assert t.sent[|s.sent|] == seg;
    }
  }

  /** Filling the window, exactly. */
  lemma FillCuts(s: Sender)
    requires s.synFlag && !s.finFlag
    ensures Cut(s, Fill(s), Remain(s.(window := Limit(s))))
  {
    LoopCuts(s.(window := Limit(s)));
    assert s.window > 0 ==> s.(window := Limit(s)) == s;
  }

  /** A closed window is probed with one; it stays at one exactly if the stream ran dry before the probe was used up. */
  lemma ProbeLeavesWindow(s: Sender)
    requires s.synFlag && !s.finFlag
    ensures Fill(s).window ==
            if s.window == 0 && !s.stream.ended && Unread(s) < Remain(s.(window := 1)) then 1 else s.window
  {
    var p := if s.window == 0 then s.(window := 1) else s;
    LoopCuts(p);
    FillLoopKeeps(p);
    LoopRoom(p);
  }

  lemma {:induction false} LoopRoom(s: Sender)
    requires !s.finFlag
    ensures Blocked(FillLoop(s)) <==> s.stream.ended || Unread(s) >= Remain(s)
    decreases Unread(s)
  {
    if Remain(s) > 0 {
      NextIsEmpty(s);
      if SeqLength(NextSegment(s)) > 0 {
        var t := SendNext(s);
        RoomShrinks(s);
        if t.finFlag {
          assert FillLoop(t) == t;
        } else if Unread(t) < Unread(s) {
          LoopRoom(t);
        }
      }
    }
  }
}
