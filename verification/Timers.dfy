/** The retransmission clock: when it strikes, what it sends again, and how it backs off. */
module TimerProofs {
  import opened Common
  import opened Wrapping
  import opened ByteStreams
  import opened Segments
  import opened Sending
  import opened SendingProofs
  import opened AckProofs

  function Sum(lapses: seq<nat>): nat {
    if lapses == [] then 0 else Sum(lapses[..|lapses| - 1]) + lapses[|lapses| - 1]
  }

  /** The sender after time has passed in the given portions and nothing else happened. */
  function Ticks(s: Sender, lapses: seq<nat>): Sender {
    if lapses == [] then s else Elapse(Ticks(s, lapses[..|lapses| - 1]), lapses[|lapses| - 1])
  }

  predicate Waiting(s: Sender) {
    s.timer.running && s.timer.time < s.timer.rto && s.retired < |s.sent|
  }

  /** A retransmission counts and backs off unless the peer's window is closed; the SYN always counts. */
  predicate Counts(s: Sender) {
    s.window != 0 || s.nextSeqno == 1
  }

  lemma SmallMod(x: nat)
    requires x < TWO32
    ensures x % TWO32 == x
  {}

  lemma ShortLapse(s: Sender, ms: nat)
    requires Waiting(s) && s.timer.time + ms < s.timer.rto
    ensures Elapse(s, ms) == s.(timer := s.timer.(time := s.timer.time + ms))
  {
    SmallMod(ms);
    SmallMod(s.timer.time + ms);
  }

  /** What one strike of the clock does. */
  predicate Struck(s: Sender, t: Sender) {
    && s.retired < |s.sent|
    && t.pending == s.pending + [s.sent[s.retired]] && t.timer.running && t.timer.time == 0
    && t.timer.rto == (if Counts(s) then s.timer.rto * 2 % TWO32 else s.timer.rto)
    && t.retx == (if Counts(s) then (s.retx + 1) % TWO16 else s.retx)
    && t == s.(pending := t.pending, timer := t.timer, retx := t.retx)
  }

  lemma LongLapse(s: Sender, ms: nat)
    requires Waiting(s) && s.timer.rto <= s.timer.time + ms < TWO32
    ensures Struck(s, Elapse(s, ms))
  {
    SmallMod(ms);
    SmallMod(s.timer.time + ms);
    assert s.timer.PassTime(ms) == Timer(s.timer.rto, 0, false);
  }

  lemma TicksSnoc(s: Sender, lapses: seq<nat>, ms: nat)
    ensures Ticks(s, lapses + [ms]) == Elapse(Ticks(s, lapses), ms) && Sum(lapses + [ms]) == Sum(lapses) + ms
  {
    var all := lapses + [ms];
    assert all[..|all| - 1] == lapses;
  }

  /** Portions that do not add up to the timeout only move the clock. */
  lemma {:induction false} TimeAddsUp(s: Sender, lapses: seq<nat>)
    requires Waiting(s) && s.timer.time + Sum(lapses) < s.timer.rto
    ensures Ticks(s, lapses) == s.(timer := s.timer.(time := s.timer.time + Sum(lapses)))
    decreases |lapses|
  {
    if lapses != [] {
      var before, ms := lapses[..|lapses| - 1], lapses[|lapses| - 1];
      TimeAddsUp(s, before);
      ShortLapse(s.(timer := s.timer.(time := s.timer.time + Sum(before))), ms);
    }
  }

  /** The portion that completes the timeout, however the time before was cut up: exactly the oldest outstanding segment
      is sent again, the clock starts over, and the back-off doubles the timeout and counts if it should. */
  lemma StrikesOnTime(s: Sender, lapses: seq<nat>, ms: nat)
    requires Waiting(s) && s.timer.time + Sum(lapses) < s.timer.rto <= s.timer.time + Sum(lapses) + ms < TWO32
    ensures Struck(s, Ticks(s, lapses + [ms]))
  {
    var w := Ticks(s, lapses);
    TimeAddsUp(s, lapses);
    TicksSnoc(s, lapses, ms);
    LongLapse(w, ms);
    StruckFrame(s, w, Elapse(w, ms));
  }

  lemma StruckFrame(s: Sender, w: Sender, t: Sender)
    requires w == s.(timer := s.timer.(time := w.timer.time)) && Struck(w, t)
    ensures Struck(s, t)
  {}

  /** The clock only ever adds to what is to be sent. */
  lemma {:induction false} PendingGrows(s: Sender, lapses: seq<nat>)
    ensures s.pending <= Ticks(s, lapses).pending
    decreases |lapses|
  {
    if lapses != [] {
      PendingGrows(s, lapses[..|lapses| - 1]);
    }
  }

  /** However the time is cut up, nothing is sent again if and only if it does not reach the timeout. */
  lemma {:induction false} SilentExactly(s: Sender, lapses: seq<nat>)
    requires Waiting(s) && s.timer.time + Sum(lapses) < TWO32
    ensures Ticks(s, lapses).pending == s.pending <==> s.timer.time + Sum(lapses) < s.timer.rto
    decreases |lapses|
  {
    if s.timer.time + Sum(lapses) < s.timer.rto {
      TimeAddsUp(s, lapses);
    } else {
      var before, ms := lapses[..|lapses| - 1], lapses[|lapses| - 1];
      SilentExactly(s, before);
      if s.timer.time + Sum(before) < s.timer.rto {
        StrikesOnTime(s, before, ms);
        assert before + [ms] == lapses;
      } else {
        PendingGrows(s, before);
      }
    }
  }

  // ---------- strike after strike ----------

  /** The clock strikes `n` times, each as soon as it can. */
  function Strikes(s: Sender, n: nat): Sender {
    if n == 0 then s
    else
      var t := Strikes(s, n - 1);
      Elapse(t, if t.timer.time < t.timer.rto then t.timer.rto - t.timer.time else 0)
  }

  function Copies(seg: Segment, n: nat): seq<Segment> {
    if n == 0 then [] else Copies(seg, n - 1) + [seg]
  }

  lemma {:induction false} Pow2Grows(n: nat, m: nat)
    requires n <= m
    ensures 1 <= Pow2(n) <= Pow2(m)
    decreases m
  {
    if n < m {
      Pow2Grows(n, m - 1);
    } else if m > 0 {
      Pow2Grows(n - 1, m - 1);
    }
  }

  /** Exponential back-off: `n` strikes without an answer send the oldest segment `n` times more, and while the peer's
      window is open multiply the timeout by 2^n and count to `n`; a closed window leaves both alone. */
  lemma {:induction false} BacksOff(s: Sender, n: nat)
    requires Waiting(s) && s.timer.rto * Pow2(n) < TWO32 && s.retx + n < TWO16
    ensures var t := Strikes(s, n);
            && Waiting(t) && t.pending == s.pending + Copies(s.sent[s.retired], n)
            && t.timer.rto == (if Counts(s) then s.timer.rto * Pow2(n) else s.timer.rto)
            && t.retx == (if Counts(s) then s.retx + n else s.retx)
            && t == s.(pending := t.pending, timer := t.timer, retx := t.retx)
  {
    if n > 0 {
      Pow2Grows(n - 1, n);
      assert s.timer.rto * Pow2(n) == s.timer.rto * Pow2(n - 1) * 2;
      BacksOff(s, n - 1);
      var t := Strikes(s, n - 1);
      LongLapse(t, t.timer.rto - t.timer.time);
      OneMoreStrike(s, t, Strikes(s, n), n);
    }
  }

  lemma OneMoreStrike(s: Sender, t: Sender, v: Sender, n: nat)
    requires n > 0 && s.retired < |s.sent| && Struck(t, v) && Pow2(n) == 2 * Pow2(n - 1)
    requires s.timer.rto > 0 && s.timer.rto * Pow2(n) < TWO32 && s.retx + n < TWO16
    requires t.pending == s.pending + Copies(s.sent[s.retired], n - 1)
    requires t.timer.rto == (if Counts(s) then s.timer.rto * Pow2(n - 1) else s.timer.rto)
    requires t.retx == (if Counts(s) then s.retx + n - 1 else s.retx)
    requires t == s.(pending := t.pending, timer := t.timer, retx := t.retx)
    ensures v.pending == s.pending + Copies(s.sent[s.retired], n)
    ensures v.timer.rto == if Counts(s) then s.timer.rto * Pow2(n) else s.timer.rto
    ensures v.retx == if Counts(s) then s.retx + n else s.retx
    ensures v == s.(pending := v.pending, timer := v.timer, retx := v.retx)
  {
    assert s.timer.rto * Pow2(n) == s.timer.rto * Pow2(n - 1) * 2;
    if Counts(s) {
      SmallMod(t.timer.rto * 2);
    }
  }

  // ---------- the clock over whole runs ----------

  /** Whenever something is outstanding the clock runs, and it has not struck yet. */
  predicate ClockInv(s: Sender) {
    && (s.retired < |s.sent| ==> s.timer.running)
    && (s.timer.time == 0 || s.timer.time < s.timer.rto)
  }

  /** Filling starts a stopped clock from zero if it sends anything, and leaves a running one alone. */
  lemma {:induction false} FillLoopClock(s: Sender)
    ensures var t := FillLoop(s);
            t.timer == if s.timer.running || t.sent == s.sent then s.timer else s.timer.(time := 0, running := true)
    decreases |s.stream.history| - s.stream.readCount + (if s.finFlag then 0 else 1)
  {
    if !Blocked(s) && SeqLength(NextSegment(s)) > 0 {
      var t := SendNext(s);
      FillLoopClock(t);
      FillLoopKeeps(t);
      assert |t.sent| > |s.sent|;
    }
  }

  lemma FillClock(s: Sender)
    ensures var t := Fill(s);
            t.timer == if s.timer.running || t.sent == s.sent then s.timer else s.timer.(time := 0, running := true)
  {
    if !s.finFlag && s.synFlag {
      FillLoopClock(if s.window == 0 then s.(window := 1) else s);
    }
  }

  lemma FillKeepsClock(s: Sender)
    requires ClockInv(s) && (s.finFlag ==> s.synFlag)
    ensures ClockInv(Fill(s))
  {
    FillClock(s);
    FillKeeps(s);
  }

  /** New data acknowledged: the timeout is the configured one again, the clock starts over and the count is zero.
      Anything older leaves count and timeout alone, and a running clock too. */
  lemma NewAckRestores(s: Sender, ackno: U32, win: U16)
    requires SpaceInv(s) && ackno <= Wrap(s.nextSeqno, s.isn)
    ensures var t := Acknowledge(s, ackno, win);
            if ackno > s.ackGot then
              && t.retx == 0 && t.timer.rto == s.initialRto && t.timer.time == 0
              && (t.retired < |t.sent| ==> t.timer.running)
            else
              t.retx == s.retx && t.timer.rto == s.timer.rto && (s.timer.running ==> t.timer == s.timer)
  {
    var a := Advance(Retire(s, ackno), ackno).(window := win);
    RetireOnly(s, ackno);
    FillClock(a);
    FillKeeps(a);
  }

  lemma AckKeepsClock(s: Sender, ackno: U32, win: U16)
    requires SpaceInv(s) && ClockInv(s)
    ensures ClockInv(Acknowledge(s, ackno, win))
  {
    RetireOnly(s, ackno);
    FillKeepsClock(Advance(Retire(s, ackno), ackno).(window := win));
  }

  lemma ElapseKeepsClock(s: Sender, ms: nat)
    requires ClockInv(s)
    ensures ClockInv(Elapse(s, ms))
  {}

  lemma StepKeepsClock(s: Sender, e: Event)
    requires SpaceInv(s) && ClockInv(s)
    ensures ClockInv(Step(s, e))
  {
    match e
    case FillWindow => FillKeepsClock(s);
    case Ack(ackno, win) => AckKeepsClock(s, ackno, win);
    case Time(ms) => ElapseKeepsClock(s, ms);
    case Write(_) =>
    case EndInput =>
    case TakePending =>
    case Fail =>
  }

  /** In every run the clock is running while anything is outstanding. */
  lemma {:induction false} ClockRuns(capacity: nat, rto: U16, isn: U32, es: seq<Event>)
    ensures ClockInv(Run(EmptySender(capacity, rto, isn), es))
    decreases |es|
  {
    if es != [] {
      ClockRuns(capacity, rto, isn, es[..|es| - 1]);
      RunSpace(capacity, rto, isn, es[..|es| - 1]);
      StepKeepsClock(Run(EmptySender(capacity, rto, isn), es[..|es| - 1]), es[|es| - 1]);
    }
  }

  /** The clock runs from construction: time before the SYN counts towards its timeout, unless it was a whole one. */
  lemma ClockRunsFromStart(capacity: nat, rto: U16, isn: U32, early: nat, late: nat)
    requires rto > 0 && early + late < TWO32
    ensures var s := Fill(Elapse(EmptySender(capacity, rto, isn), early));
            Elapse(s, late).pending != s.pending <==> (if early < rto then early else 0) + late >= rto
  {
    SmallMod(early);
    SmallMod(late);
    SmallMod(early + late);
    var s := Fill(Elapse(EmptySender(capacity, rto, isn), early));
    assert s.timer == Timer(rto, if early < rto then early else 0, true);
  }
}
