/** A sender and a receiver joined by a network that drops, repeats, delays and reorders in both directions. */
module EndToEnd {
  import opened Common
  import opened Wrapping
  import opened ByteStreams
  import opened Reassembly
  import opened ReassemblyProofs
  import opened Segments
  import opened Receiving
  import opened ReceivingProofs
  import opened Sending
  import S = SendingProofs
  import opened AckProofs

  /** Any segment ever sent may arrive at any time and any number of times, and so may any acknowledgment in `acks`. */
  datatype System = System(sender: Sender, receiver: Receiver, acks: set<(U32, U16)>)

  datatype Action =
    | SenderDoes(event: S.Event)
    | Deliver(i: nat)
    | EmitAck
    | DeliverAck(ackno: U32, win: U16)
    | AppReads(count: nat)

  function Initial(sendCapacity: nat, rto: U16, isn: U32, recvCapacity: nat): System {
    System(EmptySender(sendCapacity, rto, isn), EmptyReceiver(recvCapacity), {})
  }

  /** Absolute position of the first payload byte of the `i`th segment. */
  function FirstPos(s: Sender, i: nat): nat
    requires i < |s.sent|
  {
    S.Start(s.sent, i) + (if s.sent[i].header.syn then 1 else 0)
  }

  /** A segment does not outlive half the 32-bit sequence space, and the 64-bit counters do not overflow. */
  predicate Fresh(u: System, i: nat)
    requires i < |u.sender.sent|
  {
    && u.sender.nextSeqno < TWO64
    && -TWO31 < FirstPos(u.sender, i) - |u.receiver.Out().history| < TWO31
  }

  /** What the network and the applications can do at all. */
  predicate Offered(u: System, a: Action) {
    match a
    case SenderDoes(event) => !event.Ack?
    case Deliver(i) => i < |u.sender.sent|
    case EmitAck => u.receiver.isnSet
    case DeliverAck(ackno, win) => (ackno, win) in u.acks
    case AppReads(_) => true
  }

  predicate Enabled(u: System, a: Action) {
    Offered(u, a) && (a.Deliver? ==> Fresh(u, a.i))
  }

  function Do(u: System, a: Action): System
    requires Offered(u, a)
  {
    match a
    case SenderDoes(event) => u.(sender := S.Step(u.sender, event))
    case Deliver(i) => u.(receiver := Receive(u.receiver, u.sender.sent[i]))
    case EmitAck => u.(acks := u.acks + {(u.receiver.Ackno().value, (u.receiver.WindowSize() % TWO16) as U16)})
    case DeliverAck(ackno, win) => u.(sender := Acknowledge(u.sender, ackno, win))
    case AppReads(count) => u.(receiver := ReceivingProofs.Step(u.receiver, Reads(count)))
  }

  predicate Runnable(u: System, actions: seq<Action>)
    decreases |actions|, 0
  {
    actions == [] ||
    (Runnable(u, actions[..|actions| - 1]) && Enabled(Run(u, actions[..|actions| - 1]), actions[|actions| - 1]))
  }

  function Run(u: System, actions: seq<Action>): System
    requires Runnable(u, actions)
    decreases |actions|, 1
  {
    if actions == [] then u
    else Do(Run(u, actions[..|actions| - 1]), actions[|actions| - 1])
  }

  // ---------- safety ----------

  /** The part of the stream that has been cut into segments. */
  function Consumed(s: Sender): Bytes {
    s.stream.history[..s.stream.readCount]
  }

  ghost predicate Safe(u: System) {
    && S.SpaceInv(u.sender)
    && (u.receiver.isnSet ==> u.receiver.isn == u.sender.isn && u.sender.synFlag)
    && (!u.receiver.isnSet ==> u.receiver.Out().history == [] && u.receiver.reassembler.stored == map[])
    && FromSource(u.receiver.reassembler, Consumed(u.sender))
  }

  /** A segment carries the bytes of the stream found at its position. */
  lemma CarriesStream(s: Sender, i: nat)
    requires S.SpaceInv(s) && i < |s.sent|
    ensures var seg, index := s.sent[i], FirstPos(s, i) - 1;
            && 0 <= index < s.nextSeqno
            && Agrees(Consumed(s), seg.payload, index)
            && (seg.header.fin ==> index + |seg.payload| == |Consumed(s)|)
            && FirstSeqno(seg) == Wrap(index + 1, s.isn)
  {
    assert S.Placed(s, i);
    S.StartMonotone(s.sent, i, |s.sent|);
    assert S.Start(s.sent, i + 1) == S.Start(s.sent, i) + SeqLength(s.sent[i]);
    S.StartMonotone(s.sent, i + 1, |s.sent|);
    FirstSeqnoWraps(s.sent[i], s.isn, S.Start(s.sent, i));
  }

  /** A delivered segment is pushed at its true index. */
  lemma DeliveredIndex(u: System, i: nat)
    requires Safe(u) && i < |u.sender.sent| && Fresh(u, i)
    ensures var seg, index := u.sender.sent[i], FirstPos(u.sender, i) - 1;
            && index >= 0
            && Receive(u.receiver, seg) == (
                 if !seg.header.syn && !u.receiver.isnSet then u.receiver
                 else Receiver(Push(u.receiver.reassembler, seg.payload, index, seg.header.fin), u.sender.isn, true))
  {
    IndexIsTrue(u, i);
    if u.sender.sent[i].header.syn {
      SynAtIsn(u.sender, i);
    }
  }

  /** The same for the reassembler alone. */
  lemma DeliveredPiece(u: System, i: nat)
    requires Safe(u) && Enabled(u, Deliver(i))
    ensures FirstPos(u.sender, i) > 0 && Do(u, Deliver(i)).sender == u.sender
    ensures Do(u, Deliver(i)).receiver.isnSet == (u.sender.sent[i].header.syn || u.receiver.isnSet)
    ensures var seg, r := u.sender.sent[i], u.receiver.reassembler;
            Do(u, Deliver(i)).receiver.reassembler ==
            if seg.header.syn || u.receiver.isnSet then Push(r, seg.payload, FirstPos(u.sender, i) - 1, seg.header.fin)
            else r
  {
    DeliveredIndex(u, i);
  }

  lemma IndexIsTrue(u: System, i: nat)
    requires Safe(u) && i < |u.sender.sent| && Fresh(u, i)
    ensures FirstPos(u.sender, i) > 0
    ensures StreamIndex(u.sender.sent[i], u.sender.isn, |u.receiver.Out().history|) == FirstPos(u.sender, i) - 1
  {
    CarriesStream(u.sender, i);
    FromSourcePrefix(u.receiver.reassembler, Consumed(u.sender));
    TrueIndex(u.sender.sent[i], u.sender.isn, |u.receiver.Out().history|, FirstPos(u.sender, i));
  }

  lemma SynAtIsn(s: Sender, i: nat)
    requires S.SpaceInv(s) && i < |s.sent| && s.sent[i].header.syn
    ensures s.sent[i].header.seqno == s.isn
  {
    assert S.Placed(s, i);
  }

  lemma FromLongerSource(r: Reassembler, src: Bytes, longer: Bytes)
    requires FromSource(r, src) && src <= longer
    ensures FromSource(r, longer)
  {}

  /** A sender's own steps only append to what it has consumed. */
  lemma ConsumedGrows(s: Sender, e: S.Event)
    requires S.SpaceInv(s)
    ensures Consumed(s) <= Consumed(S.Step(s, e))
    ensures S.Step(s, e).isn == s.isn && (s.synFlag ==> S.Step(s, e).synFlag)
    ensures s.finFlag ==> S.Step(s, e).finFlag && Consumed(S.Step(s, e)) == Consumed(s)
  {
    match e
    case FillWindow => FillKeeps(s);
    case Ack(ackno, win) =>
      S.RetireOnly(s, ackno);
      FillKeeps(Advance(Retire(s, ackno), ackno).(window := win));
    case Write(_) =>
    case EndInput =>
    case Time(_) =>
    case TakePending =>
    case Fail =>
  }

  /** Nothing is taken back, neither from the list of segments nor from the stream. */
  lemma SentGrows(s: Sender, e: S.Event)
    requires S.SpaceInv(s)
    ensures s.sent <= S.Step(s, e).sent && s.stream.history <= S.Step(s, e).stream.history
  {
    match e
    case FillWindow => FillKeeps(s);
    case Ack(ackno, win) =>
      S.RetireOnly(s, ackno);
      FillKeeps(Advance(Retire(s, ackno), ackno).(window := win));
    case Write(_) =>
    case EndInput =>
    case Time(_) =>
    case TakePending =>
    case Fail =>
  }

  lemma StepSafe(u: System, a: Action)
    requires Safe(u) && Enabled(u, a)
    ensures Safe(Do(u, a))
  {
    match a
    case SenderDoes(event) => SenderStepSafe(u, event);
    case DeliverAck(ackno, win) => SenderStepSafe(u, S.Ack(ackno, win));
    case Deliver(i) => DeliverSafe(u, i);
    case EmitAck =>
    case AppReads(count) =>
      var r, t := u.receiver.reassembler, Do(u, a).receiver.reassembler;
      assert forall k: nat :: t.Holds(k) == r.Holds(k);
  }

  lemma DeliverSafe(u: System, i: nat)
    requires Safe(u) && i < |u.sender.sent| && Fresh(u, i)
    ensures Safe(Do(u, Deliver(i)))
  {
    var seg := u.sender.sent[i];
    DeliveredIndex(u, i);
    CarriesStream(u.sender, i);
    PushFromSource(u.receiver.reassembler, seg.payload, FirstPos(u.sender, i) - 1, seg.header.fin, Consumed(u.sender));
  }

  lemma SenderStepSafe(u: System, e: S.Event)
    requires Safe(u)
    ensures Safe(u.(sender := S.Step(u.sender, e)))
  {
    S.StepSpace(u.sender, e);
    ConsumedGrows(u.sender, e);
    FromLongerSource(u.receiver.reassembler, Consumed(u.sender), Consumed(S.Step(u.sender, e)));
  }

  lemma {:induction false} RunSafe(u: System, actions: seq<Action>)
    requires Safe(u) && Runnable(u, actions)
    ensures Safe(Run(u, actions))
    decreases |actions|
  {
    if actions != [] {
      RunSafe(u, actions[..|actions| - 1]);
      StepSafe(Run(u, actions[..|actions| - 1]), actions[|actions| - 1]);
    }
  }

  lemma InitialSafe(sendCapacity: nat, rto: U16, isn: U32, recvCapacity: nat)
    ensures Safe(Initial(sendCapacity, rto, isn, recvCapacity))
  {}

  /** In every run the receiver's stream is a prefix of the sender's. */
  lemma DeliveredIsPrefix(sendCapacity: nat, rto: U16, isn: U32, recvCapacity: nat, actions: seq<Action>)
    requires Runnable(Initial(sendCapacity, rto, isn, recvCapacity), actions)
    ensures var u := Run(Initial(sendCapacity, rto, isn, recvCapacity), actions);
            u.receiver.Out().history <= u.sender.stream.history
  {
    var u0 := Initial(sendCapacity, rto, isn, recvCapacity);
    InitialSafe(sendCapacity, rto, isn, recvCapacity);
    RunSafe(u0, actions);
    var u := Run(u0, actions);
    FromSourcePrefix(u.receiver.reassembler, Consumed(u.sender));
  }

  /** Streams shorter than 2^31 - 2 bytes meet the lifetime condition whatever the network does. */
  lemma ShortStreamsStayFresh(u: System, i: nat)
    requires Safe(u) && i < |u.sender.sent| && |u.sender.stream.history| < TWO31 - 2
    ensures Fresh(u, i)
  {
    assert S.Placed(u.sender, i);
    S.StartMonotone(u.sender.sent, i, |u.sender.sent|);
    FromSourcePrefix(u.receiver.reassembler, Consumed(u.sender));
  }

  /** A run with no condition on the age of segments; what is not on offer is skipped. */
  function FreeRun(u: System, actions: seq<Action>): System {
    if actions == [] then u
    else
      var before, a := FreeRun(u, actions[..|actions| - 1]), actions[|actions| - 1];
      if Offered(before, a) then Do(before, a) else before
  }

  /** How many bytes the application tries to write. */
  function Written(actions: seq<Action>): nat {
    if actions == [] then 0
    else
      var a := actions[|actions| - 1];
      Written(actions[..|actions| - 1]) + (if a.SenderDoes? && a.event.Write? then |a.event.data| else 0)
  }

  lemma HistoryGrows(u: System, a: Action)
    requires S.SpaceInv(u.sender) && Offered(u, a)
    ensures |Do(u, a).sender.stream.history| <=
            |u.sender.stream.history| + (if a.SenderDoes? && a.event.Write? then |a.event.data| else 0)
  {
    match a
    case SenderDoes(event) =>
      if event.FillWindow? {
        FillKeeps(u.sender);
      }
    case DeliverAck(ackno, win) =>
      S.RetireOnly(u.sender, ackno);
      FillKeeps(Advance(Retire(u.sender, ackno), ackno).(window := win));
    case Deliver(_) =>
    case EmitAck =>
    case AppReads(_) =>
  }

  lemma {:induction false} FreeRunSafe(u: System, actions: seq<Action>)
    requires Safe(u) && |u.sender.stream.history| + Written(actions) < TWO31 - 2
    ensures var v := FreeRun(u, actions);
            Safe(v) && |v.sender.stream.history| <= |u.sender.stream.history| + Written(actions)
    decreases |actions|
  {
    if actions != [] {
      var before, a := actions[..|actions| - 1], actions[|actions| - 1];
      FreeRunSafe(u, before);
      var v := FreeRun(u, before);
      if Offered(v, a) {
        if a.Deliver? {
          ShortStreamsStayFresh(v, a.i);
        }
        StepSafe(v, a);
        HistoryGrows(v, a);
      }
    }
  }

  /** Short streams: whatever the network does to segments and acknowledgments of any age, a prefix is delivered. */
  lemma ShortStreamsDeliverPrefix(sendCapacity: nat, rto: U16, isn: U32, recvCapacity: nat, actions: seq<Action>)
    requires Written(actions) < TWO31 - 2
    ensures var u := FreeRun(Initial(sendCapacity, rto, isn, recvCapacity), actions);
            u.receiver.Out().history <= u.sender.stream.history
  {
    var u0 := Initial(sendCapacity, rto, isn, recvCapacity);
    InitialSafe(sendCapacity, rto, isn, recvCapacity);
    FreeRunSafe(u0, actions);
    var u := FreeRun(u0, actions);
    FromSourcePrefix(u.receiver.reassembler, Consumed(u.sender));
  }
}
