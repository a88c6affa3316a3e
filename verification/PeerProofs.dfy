/** What two endpoints owe each other: prefixes at any time, everything once one of them has closed cleanly. */
module PeerProofs {
  import opened Common
  import opened Wrapping
  import opened ByteStreams
  import opened Reassembly
  import opened ReassemblyProofs
  import opened Segments
  import opened Receiving
  import opened ReceivingProofs
  import opened Sending
  import S = SendingProofs
  import opened AckProofs
  import opened EndToEnd
  import opened NoLoss
  import C = Connections
  import P = ConnectionProofs
  import T = TcpStates
  import opened Peers

  datatype Pair = Pair(a: C.Connection, b: C.Connection)

  /** Either application or clock acts, or any segment one end ever emitted reaches the other. */
  datatype Turn = AtA(op: P.Op) | AtB(op: P.Op) | ToA(i: nat) | ToB(i: nat)

  /** An application's or a clock's own call. */
  predicate Local(op: P.Op) {
    !op.OpSegment? && !op.OpTakeOut?
  }

  function Take(p: Pair, t: Turn): Pair {
    match t
    case AtA(op) => if Local(op) then p.(a := P.Step(p.a, op)) else p
    case AtB(op) => if Local(op) then p.(b := P.Step(p.b, op)) else p
    case ToA(i) => if i < |p.b.out| then p.(a := P.Step(p.a, P.OpSegment(p.b.out[i]))) else p
    case ToB(i) => if i < |p.a.out| then p.(b := P.Step(p.b, P.OpSegment(p.a.out[i]))) else p
  }

  function TakeAll(p: Pair, ts: seq<Turn>): Pair {
    if ts == [] then p else Take(TakeAll(p, ts[..|ts| - 1]), ts[|ts| - 1])
  }

  // ---------- one direction of a pair ----------

  function AcksIn(out: seq<Segment>): set<(U32, U16)> {
    set x | x in out && x.header.ack :: (x.header.ackno, x.header.win)
  }

  /** What `c` sends and `q` receives, with the acknowledgments `q` has emitted. */
  function Link(c: C.Connection, q: C.Connection): System {
    System(c.sender, q.receiver, AcksIn(q.out))
  }

  ghost predicate AllGenuine(c: C.Connection) {
    forall x :: x in c.out ==> Genuine(x, c.sender)
  }

  ghost predicate Bound(c: C.Connection, q: C.Connection) {
    P.Inv(c) && P.Inv(q) && Safe(Link(c, q)) && Safe(Link(q, c)) && AllGenuine(c) && AllGenuine(q)
  }

  predicate Short(c: C.Connection) {
    |c.sender.stream.history| < TWO31 - 2
  }

  /** A call of `c`'s own application or clock, or a segment its peer `q` has emitted. */
  predicate Possible(q: C.Connection, op: P.Op) {
    !op.OpTakeOut? && (op.OpSegment? ==> op.seg in q.out)
  }

  // ---------- safety ----------

  lemma {:induction false} EventsSafe(u: System, es: seq<S.Event>)
    requires Safe(u)
    ensures Safe(u.(sender := S.Run(u.sender, es))) && u.sender.sent <= S.Run(u.sender, es).sent
    decreases |es|
  {
    if es != [] {
      var before, e := es[..|es| - 1], es[|es| - 1];
      EventsSafe(u, before);
      var v := u.(sender := S.Run(u.sender, before));
      SenderStepSafe(v, e);
      SentGrows(v.sender, e);
    } else {
      assert u.(sender := u.sender) == u;
    }
  }

  lemma SafeButError(u: System, r: Receiver)
    requires Safe(u) && SameButError(u.receiver, r)
    ensures Safe(u.(receiver := r))
  {
    assert forall k: nat :: r.reassembler.Holds(k) == u.receiver.reassembler.Holds(k);
  }

  lemma ReceiveCore(r: Receiver, x: Segment, core: Segment)
    requires Carries(x, core)
    ensures Receive(r, x) == Receive(r, core)
  {}

  /** An empty substring changes nothing, or moves on what is stored. */
  lemma EmptyPush(r: Reassembler, index: nat, src: Bytes)
    requires FromSource(r, src)
    ensures Push(r, [], index, false) == r || Agrees(src, [], index)
  {
    FromSourcePrefix(r, src);
  }

  lemma EmptySafe(u: System, x: Segment)
    requires Safe(u) && Carries(x, C.EMPTY_SEGMENT)
    ensures Safe(u.(receiver := Receive(u.receiver, x)))
  {
    var r := u.receiver;
    if r.isnSet {
      var index := StreamIndex(x, r.isn, |r.Out().history|);
      EmptyPush(r.reassembler, index, Consumed(u.sender));
      if Push(r.reassembler, [], index, false) != r.reassembler {
        PushFromSource(r.reassembler, [], index, false, Consumed(u.sender));
      }
    }
  }

  /** A genuine segment received leaves the link safe. */
  lemma GenuineSafe(u: System, x: Segment)
    requires Safe(u) && Genuine(x, u.sender) && |u.sender.stream.history| < TWO31 - 2
    ensures Safe(u.(receiver := Receive(u.receiver, x)))
  {
    if Carries(x, C.EMPTY_SEGMENT) {
      EmptySafe(u, x);
    } else {
      var i :| 0 <= i < |u.sender.sent| && Carries(x, u.sender.sent[i]);
      ReceiveCore(u.receiver, x, u.sender.sent[i]);
      ShortStreamsStayFresh(u, i);
      StepSafe(u, Deliver(i));
    }
  }

  lemma HeardSafe(c: C.Connection, q: C.Connection, op: P.Op)
    requires Safe(Link(q, c)) && AllGenuine(q) && Possible(q, op) && Short(q)
    ensures Safe(Link(q, c).(receiver := Heard(c, op)))
  {
    var u := Link(q, c);
    assert u.(receiver := c.receiver) == u;
    if op.OpSegment? {
      if TakesIn(c, op.seg) {
        GenuineSafe(u, op.seg);
      }
    } else if op.OpRead? {
      StepSafe(u, AppReads(op.count));
    }
  }

  lemma SafeFrame(u: System, v: System)
    requires Safe(u) && v.sender == u.sender && v.receiver == u.receiver
    ensures Safe(v)
  {}

  /** A step of one end keeps both directions safe. */
  lemma StepBound(c: C.Connection, q: C.Connection, op: P.Op)
    requires Bound(c, q) && Possible(q, op) && Short(q)
    ensures Bound(P.Step(c, op), q)
  {
    var d := P.Step(c, op);
    P.StepInv(c, op);
    StepSender(c, op);
    var es: seq<S.Event> :| AcksFrom(es, op) && S.Run(c.sender, es) == d.sender;
    EventsSafe(Link(c, q), es);
    assert Link(c, q).(sender := d.sender) == Link(d, q);
    HeardSafe(c, q, op);
    StepReceiver(c, op);
    SafeButError(Link(q, c).(receiver := Heard(c, op)), d.receiver);
    SafeFrame(Link(q, c).(receiver := d.receiver), Link(q, d));
    StepGenuine(c, d, op);
  }

  lemma StepGenuine(c: C.Connection, d: C.Connection, op: P.Op)
    requires S.SpaceInv(c.sender) && AllGenuine(c) && d == P.Step(c, op) && !op.OpTakeOut?
    requires c.sender.sent <= d.sender.sent
    ensures AllGenuine(d)
  {
    StepEmits(c, op);
    forall x | x in d.out ensures Genuine(x, d.sender) {
      var i :| 0 <= i < |d.out| && d.out[i] == x;
      if i < |c.out| {
        assert c.out[i] == x;
        GenuineFrame(x, c.sender, d.sender);
      }
    }
  }

  // ---------- no loss ----------

  /** A final segment keeps its last byte, or had it there already. */
  predicate CarefulOp(c: C.Connection, op: P.Op) {
    op.OpSegment? && op.seg.header.fin && c.receiver.isnSet ==>
      FinKept(c.receiver.reassembler, op.seg.payload, StreamIndex(op.seg, c.receiver.isn, |c.receiver.Out().history|))
  }

  ghost predicate Sure(c: C.Connection, q: C.Connection) {
    Bound(c, q) && Sound(Link(c, q)) && Sound(Link(q, c))
  }

  lemma {:induction false} EventsSound(u: System, es: seq<S.Event>)
    requires Sound(u) && forall e :: e in es && e.Ack? ==> (e.ackno, e.win) in u.acks
    ensures Sound(u.(sender := S.Run(u.sender, es)))
    decreases |es|
  {
    if es != [] {
      var before, e := es[..|es| - 1], es[|es| - 1];
      assert forall f :: f in before ==> f in es;
      EventsSound(u, before);
      var v := u.(sender := S.Run(u.sender, before));
      if e.Ack? {
        assert Honest(v, (e.ackno, e.win).0);
        AckSound(v, e.ackno, e.win);
      } else {
        SenderSound(v, e);
      }
    } else {
      assert u.(sender := u.sender) == u;
    }
  }

  /** An empty substring is as harmless as any other that does not claim to be the last. */
  lemma EmptySound(u: System, x: Segment)
    requires Sound(u) && Carries(x, C.EMPTY_SEGMENT)
    ensures Sound(u.(receiver := Receive(u.receiver, x)))
  {
    var r, src := u.receiver, Consumed(u.sender);
    var v := u.(receiver := Receive(r, x));
    EmptySafe(u, x);
    StepAdvances(r, Arrives(x));
    HonestFrame(u, v);
    if r.isnSet {
      var index := StreamIndex(x, r.isn, |r.Out().history|);
      EmptyPush(r.reassembler, index, src);
      if Push(r.reassembler, [], index, false) != r.reassembler {
        if u.sender.finFlag {
          PushEndSound(r.reassembler, [], index, false, src);
        } else {
          PushFlag(r.reassembler, [], index, false);
          PushEnded(r.reassembler, [], index, false);
        }
      }
    }
  }

  lemma GenuineSound(u: System, x: Segment)
    requires Sound(u) && Genuine(x, u.sender) && |u.sender.stream.history| < TWO31 - 2
    requires x.header.fin && u.receiver.isnSet ==>
               FinKept(u.receiver.reassembler, x.payload, StreamIndex(x, u.receiver.isn, |u.receiver.Out().history|))
    ensures Sound(u.(receiver := Receive(u.receiver, x)))
  {
    if Carries(x, C.EMPTY_SEGMENT) {
      EmptySound(u, x);
    } else {
      var i :| 0 <= i < |u.sender.sent| && Carries(x, u.sender.sent[i]);
      ReceiveCore(u.receiver, x, u.sender.sent[i]);
      ShortStreamsStayFresh(u, i);
      CarefulCore(u, x, i);
      DeliverSound(u, i);
    }
  }

  lemma CarefulCore(u: System, x: Segment, i: nat)
    requires Safe(u) && i < |u.sender.sent| && Carries(x, u.sender.sent[i]) && Fresh(u, i)
    requires x.header.fin && u.receiver.isnSet ==>
               FinKept(u.receiver.reassembler, x.payload, StreamIndex(x, u.receiver.isn, |u.receiver.Out().history|))
    ensures Careful(u, Deliver(i))
  {
    CarriesStream(u.sender, i);
    FromSourcePrefix(u.receiver.reassembler, Consumed(u.sender));
    if x.header.fin && u.receiver.isnSet {
      TrueIndex(x, u.receiver.isn, |u.receiver.Out().history|, FirstPos(u.sender, i));
    }
  }

  lemma SoundButError(u: System, r: Receiver)
    requires Sound(u) && SameButError(u.receiver, r)
    ensures Sound(u.(receiver := r))
  {
    SafeButError(u, r);
    HonestFrame(u, u.(receiver := r));
    assert forall k: nat :: r.reassembler.Holds(k) == u.receiver.reassembler.Holds(k);
  }

  lemma HeardSound(c: C.Connection, q: C.Connection, op: P.Op)
    requires Sound(Link(q, c)) && AllGenuine(q) && Possible(q, op) && Short(q) && CarefulOp(c, op)
    ensures Sound(Link(q, c).(receiver := Heard(c, op)))
  {
    var u := Link(q, c);
    assert u.(receiver := c.receiver) == u;
    if op.OpSegment? {
      if TakesIn(c, op.seg) {
        GenuineSound(u, op.seg);
      }
    } else if op.OpRead? {
      ReadSound(u, op.count);
    }
  }

  /** New acknowledgments that state the receiver's own position are honest. */
  lemma SoundWithAcks(u: System, acks: set<(U32, U16)>)
    requires Sound(u)
    requires forall p :: p in acks ==> p in u.acks || (u.receiver.isnSet && Some(p.0) == u.receiver.Ackno())
    ensures Sound(u.(acks := acks))
  {
    var v := u.(acks := acks);
    forall p | p in acks ensures Honest(v, p.0) {
      if p in u.acks {
        assert Honest(u, p.0);
        var abs: nat :| abs <= AckAbs(u.receiver) && p.0 == Wrap(abs, u.sender.isn);
        assert abs <= AckAbs(v.receiver) && p.0 == Wrap(abs, v.sender.isn);
      } else {
        AcknoWraps(u.receiver);
        assert p.0 == Wrap(AckAbs(v.receiver), v.sender.isn);
      }
    }
  }

  lemma NewAcks(c: C.Connection, d: C.Connection, p: (U32, U16))
    requires Emits(c, d) && p in AcksIn(d.out)
    ensures p in AcksIn(c.out) || (d.receiver.isnSet && Some(p.0) == d.receiver.Ackno())
  {
    var x :| x in d.out && x.header.ack && p == (x.header.ackno, x.header.win);
    var i :| 0 <= i < |d.out| && d.out[i] == x;
    if i < |c.out| {
      assert c.out[i] == x;
    }
  }

  /** A step of one end keeps both directions sound. */
  lemma StepSure(c: C.Connection, q: C.Connection, op: P.Op)
    requires Sure(c, q) && Possible(q, op) && Short(q) && CarefulOp(c, op)
    ensures Sure(P.Step(c, op), q)
  {
    var d := P.Step(c, op);
    StepBound(c, q, op);
    OutgoingSound(c, q, op);
    IncomingSound(c, q, op);
  }

  lemma OutgoingSound(c: C.Connection, q: C.Connection, op: P.Op)
    requires Sure(c, q) && Possible(q, op)
    ensures Sound(Link(P.Step(c, op), q))
  {
    var d := P.Step(c, op);
    StepSender(c, op);
    var es: seq<S.Event> :| AcksFrom(es, op) && S.Run(c.sender, es) == d.sender;
    forall e | e in es && e.Ack? ensures (e.ackno, e.win) in AcksIn(q.out) {
      assert op.seg in q.out && op.seg.header.ack;
    }
    EventsSound(Link(c, q), es);
    assert Link(c, q).(sender := d.sender) == Link(d, q);
  }

  lemma IncomingSound(c: C.Connection, q: C.Connection, op: P.Op)
    requires Sure(c, q) && Possible(q, op) && Short(q) && CarefulOp(c, op)
    ensures Sound(Link(q, P.Step(c, op)))
  {
    var d := P.Step(c, op);
    HeardSound(c, q, op);
    StepReceiver(c, op);
    SoundButError(Link(q, c).(receiver := Heard(c, op)), d.receiver);
    StepEmits(c, op);
    forall p | p in AcksIn(d.out) ensures p in AcksIn(c.out) || (d.receiver.isnSet && Some(p.0) == d.receiver.Ackno()) {
      NewAcks(c, d, p);
    }
    SoundWithAcks(Link(q, c).(receiver := d.receiver), AcksIn(d.out));
    assert Link(q, c).(receiver := d.receiver).(acks := AcksIn(d.out)) == Link(q, d);
  }

  // ---------- whole runs ----------

  /** Two fresh endpoints with the given timeouts, capacities and initial sequence numbers. */
  predicate BothNew(p: Pair) {
    && p.a == C.NewConnection(p.a.rtTimeout, p.a.sender.stream.capacity, p.a.receiver.Out().capacity, p.a.sender.isn)
    && p.b == C.NewConnection(p.b.rtTimeout, p.b.sender.stream.capacity, p.b.receiver.Out().capacity, p.b.sender.isn)
  }

  lemma NewIsSure(c: C.Connection, q: C.Connection)
    requires c == C.NewConnection(c.rtTimeout, c.sender.stream.capacity, c.receiver.Out().capacity, c.sender.isn)
    requires q == C.NewConnection(q.rtTimeout, q.sender.stream.capacity, q.receiver.Out().capacity, q.sender.isn)
    ensures Sure(c, q)
  {
    P.RunInv(c.rtTimeout, c.sender.stream.capacity, c.receiver.Out().capacity, c.sender.isn, []);
    P.RunInv(q.rtTimeout, q.sender.stream.capacity, q.receiver.Out().capacity, q.sender.isn, []);
  }

  predicate BothShort(p: Pair) {
    Short(p.a) && Short(p.b)
  }

  lemma {:induction false} EventsKeepHistory(s: Sender, es: seq<S.Event>)
    requires S.SpaceInv(s)
    ensures S.SpaceInv(S.Run(s, es)) && s.stream.history <= S.Run(s, es).stream.history
    decreases |es|
  {
    if es != [] {
      var t := S.Run(s, es[..|es| - 1]);
      EventsKeepHistory(s, es[..|es| - 1]);
      S.StepSpace(t, es[|es| - 1]);
      SentGrows(t, es[|es| - 1]);
    }
  }

  lemma StepKeepsHistory(c: C.Connection, op: P.Op)
    requires P.Inv(c)
    ensures P.Inv(P.Step(c, op)) && c.sender.stream.history <= P.Step(c, op).sender.stream.history
  {
    P.StepInv(c, op);
    StepSender(c, op);
    var es: seq<S.Event> :| AcksFrom(es, op) && S.Run(c.sender, es) == P.Step(c, op).sender;
    EventsKeepHistory(c.sender, es);
  }

  lemma TakeGrows(p: Pair, t: Turn)
    requires P.Inv(p.a) && P.Inv(p.b)
    ensures P.Inv(Take(p, t).a) && P.Inv(Take(p, t).b) && (BothShort(Take(p, t)) ==> BothShort(p))
  {
    match t
    case AtA(op) => if Local(op) { StepKeepsHistory(p.a, op); }
    case AtB(op) => if Local(op) { StepKeepsHistory(p.b, op); }
    case ToA(i) => if i < |p.b.out| { StepKeepsHistory(p.a, P.OpSegment(p.b.out[i])); }
    case ToB(i) => if i < |p.a.out| { StepKeepsHistory(p.b, P.OpSegment(p.a.out[i])); }
  }

  lemma {:induction false} TakeAllInv(p: Pair, ts: seq<Turn>)
    requires P.Inv(p.a) && P.Inv(p.b)
    ensures P.Inv(TakeAll(p, ts).a) && P.Inv(TakeAll(p, ts).b)
    decreases |ts|
  {
    if ts != [] {
      TakeAllInv(p, ts[..|ts| - 1]);
      TakeGrows(TakeAll(p, ts[..|ts| - 1]), ts[|ts| - 1]);
    }
  }

  lemma TakeBound(p: Pair, t: Turn)
    requires Bound(p.a, p.b) && BothShort(p)
    ensures Bound(Take(p, t).a, Take(p, t).b)
  {
    match t
    case AtA(op) => if Local(op) { StepBound(p.a, p.b, op); }
    case AtB(op) => if Local(op) { StepBound(p.b, p.a, op); }
    case ToA(i) => if i < |p.b.out| { StepBound(p.a, p.b, P.OpSegment(p.b.out[i])); }
    case ToB(i) => if i < |p.a.out| { StepBound(p.b, p.a, P.OpSegment(p.a.out[i])); }
  }

  lemma {:induction false} TakeAllBound(p: Pair, ts: seq<Turn>)
    requires Bound(p.a, p.b) && BothShort(TakeAll(p, ts))
    ensures var v := TakeAll(p, ts); Bound(v.a, v.b)
    decreases |ts|
  {
    if ts != [] {
      var before := TakeAll(p, ts[..|ts| - 1]);
      TakeAllInv(p, ts[..|ts| - 1]);
      TakeGrows(before, ts[|ts| - 1]);
      TakeAllBound(p, ts[..|ts| - 1]);
      TakeBound(before, ts[|ts| - 1]);
    }
  }

  /** At any time, whatever the network does, each end has received a prefix of what the other's application wrote. */
  lemma PeersReceivePrefixes(p: Pair, ts: seq<Turn>)
    requires BothNew(p) && BothShort(TakeAll(p, ts))
    ensures var v := TakeAll(p, ts);
            && v.b.receiver.Out().history <= v.a.sender.stream.history
            && v.a.receiver.Out().history <= v.b.sender.stream.history
  {
    NewIsSure(p.a, p.b);
    TakeAllBound(p, ts);
    var v := TakeAll(p, ts);
    FromSourcePrefix(v.b.receiver.reassembler, Consumed(v.a.sender));
    FromSourcePrefix(v.a.receiver.reassembler, Consumed(v.b.sender));
  }

  predicate CarefulTurn(p: Pair, t: Turn) {
    match t
    case ToA(i) => i < |p.b.out| ==> CarefulOp(p.a, P.OpSegment(p.b.out[i]))
    case ToB(i) => i < |p.a.out| ==> CarefulOp(p.b, P.OpSegment(p.a.out[i]))
    case _ => true
  }

  predicate CarefulTurns(p: Pair, ts: seq<Turn>) {
    ts == [] || (CarefulTurns(p, ts[..|ts| - 1]) && CarefulTurn(TakeAll(p, ts[..|ts| - 1]), ts[|ts| - 1]))
  }

  lemma TakeSure(p: Pair, t: Turn)
    requires Sure(p.a, p.b) && BothShort(p) && CarefulTurn(p, t)
    ensures Sure(Take(p, t).a, Take(p, t).b)
  {
    match t
    case AtA(op) => if Local(op) { StepSure(p.a, p.b, op); }
    case AtB(op) => if Local(op) { StepSure(p.b, p.a, op); }
    case ToA(i) => if i < |p.b.out| { StepSure(p.a, p.b, P.OpSegment(p.b.out[i])); }
    case ToB(i) => if i < |p.a.out| { StepSure(p.b, p.a, P.OpSegment(p.a.out[i])); }
  }

  lemma {:induction false} TakeAllSure(p: Pair, ts: seq<Turn>)
    requires Sure(p.a, p.b) && BothShort(TakeAll(p, ts)) && CarefulTurns(p, ts)
    ensures var v := TakeAll(p, ts); Sure(v.a, v.b)
    decreases |ts|
  {
    if ts != [] {
      var before := TakeAll(p, ts[..|ts| - 1]);
      TakeAllInv(p, ts[..|ts| - 1]);
      TakeGrows(before, ts[|ts| - 1]);
      TakeAllSure(p, ts[..|ts| - 1]);
      TakeSure(before, ts[|ts| - 1]);
    }
  }

  /** Everything sent either way has arrived: each output is all the other end has cut into segments, and has ended. */
  predicate Complete(c: C.Connection, q: C.Connection) {
    && q.receiver.Out().ended && q.receiver.Out().history == Consumed(c.sender)
    && c.receiver.Out().ended && c.receiver.Out().history == Consumed(q.sender)
  }

  lemma CleanMeansComplete(c: C.Connection, q: C.Connection)
    requires Sure(c, q) && !c.active && !c.rstSet
    ensures Complete(c, q)
  {
    EndMeansDelivered(Link(c, q));
    EndMeansDelivered(Link(q, c));
  }

  /** Once either end has closed cleanly, both directions are complete at both ends. If it is CLOSED besides, the other
      end has every byte its application ever wrote. */
  lemma CleanCloseIsMutual(p: Pair, ts: seq<Turn>)
    requires BothNew(p) && BothShort(TakeAll(p, ts)) && CarefulTurns(p, ts)
    ensures var v := TakeAll(p, ts);
            && ((!v.a.active && !v.a.rstSet) || (!v.b.active && !v.b.rstSet) ==> Complete(v.a, v.b))
            && (T.Summarize(v.a) == T.Official(T.CLOSED) ==> v.b.receiver.Out().history == v.a.sender.stream.history)
            && (T.Summarize(v.b) == T.Official(T.CLOSED) ==> v.a.receiver.Out().history == v.b.sender.stream.history)
  {
    NewIsSure(p.a, p.b);
    TakeAllSure(p, ts);
    var v := TakeAll(p, ts);
    ClosedMeansAll(v.a, v.b);
    ClosedMeansAll(v.b, v.a);
    if !v.a.active && !v.a.rstSet {
      CleanMeansComplete(v.a, v.b);
    }
    if !v.b.active && !v.b.rstSet {
      CleanMeansComplete(v.b, v.a);
    }
  }

  lemma ClosedMeansAll(c: C.Connection, q: C.Connection)
    requires Sure(c, q)
    ensures T.Summarize(c) == T.Official(T.CLOSED) ==> q.receiver.Out().history == c.sender.stream.history
  {
    if T.Summarize(c) == T.Official(T.CLOSED) {
      assert !c.active && !c.rstSet;
      CleanMeansComplete(c, q);
      P.ClosedSummary(c);
    }
  }
}
