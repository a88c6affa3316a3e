/** The state names of RFC 793 as summaries of the two halves. */
module TcpStates {
  import opened Common
  import opened ByteStreams
  import opened Segments
  import opened Receiving
  import opened Sending
  import opened Connections

  datatype SenderSummary = SenderError | NoSynSent | SynSent | SynAcked | FinSent | FinAcked
  datatype ReceiverSummary = ReceiverError | AwaitingSyn | SynRecv | FinRecv
  datatype State = State(sender: SenderSummary, receiver: ReceiverSummary, active: bool, linger: bool)

  datatype Name =
    | LISTEN | SYN_RCVD | SYN_SENT | ESTABLISHED | CLOSE_WAIT | LAST_ACK
    | CLOSING | FIN_WAIT_1 | FIN_WAIT_2 | TIME_WAIT | RESET | CLOSED

  function Official(name: Name): State {
    match name
    case LISTEN => State(NoSynSent, AwaitingSyn, true, true)
    case SYN_RCVD => State(SynSent, SynRecv, true, true)
    case SYN_SENT => State(SynSent, AwaitingSyn, true, true)
    case ESTABLISHED => State(SynAcked, SynRecv, true, true)
    case CLOSE_WAIT => State(SynAcked, FinRecv, true, false)
    case LAST_ACK => State(FinSent, FinRecv, true, false)
    case CLOSING => State(FinSent, FinRecv, true, true)
    case FIN_WAIT_1 => State(FinSent, SynRecv, true, true)
    case FIN_WAIT_2 => State(FinAcked, SynRecv, true, true)
    case TIME_WAIT => State(FinAcked, FinRecv, true, true)
    case RESET => State(SenderError, ReceiverError, false, false)
    case CLOSED => State(FinAcked, FinRecv, false, false)
  }

  function SummarizeReceiver(r: Receiver): ReceiverSummary {
    if r.Out().error then ReceiverError
    else if r.Ackno().None? then AwaitingSyn
    else if r.Out().ended then FinRecv
    else SynRecv
  }

  function SummarizeSender(s: Sender): SenderSummary {
    if s.stream.error then SenderError
    else if s.nextSeqno == 0 then NoSynSent
    else if s.nextSeqno == s.bytesInFlight then SynSent
    else if !s.stream.Eof() then SynAcked
    else if s.nextSeqno < |s.stream.history| + 2 then SynAcked
    else if s.bytesInFlight != 0 then FinSent
    else FinAcked
  }

  function Summarize(c: Connection): State {
    State(SummarizeSender(c.sender), SummarizeReceiver(c.receiver), c.active, c.active && c.linger)
  }
}

/** The sender's summary only moves forward. */
module StateProofs {
  import opened Common
  import opened Wrapping
  import opened ByteStreams
  import opened Segments
  import opened Sending
  import opened SendingProofs
  import opened AckProofs
  import opened WindowProofs
  import opened TcpStates

  function Rank(x: SenderSummary): nat {
    match x
    case NoSynSent => 0
    case SynSent => 1
    case SynAcked => 2
    case FinSent => 3
    case FinAcked => 4
    case SenderError => 5
  }

  /** The summary in terms of what was sent and retired. */
  lemma SummaryMeaning(s: Sender)
    requires SpaceInv(s)
    ensures SummarizeSender(s) ==
            if s.stream.error then SenderError
            else if |s.sent| == 0 then NoSynSent
            else if s.retired == 0 then SynSent
            else if !s.finFlag || !Drained(s) then SynAcked
            else if s.retired < |s.sent| then FinSent
            else FinAcked
  {
    InFlightPositive(s);
    if |s.sent| > 0 {
      assert Placed(s, 0);
      assert Start(s.sent, 1) == 1;
      StartMonotone(s.sent, 1, |s.sent|);
      if s.retired > 0 {
        StartMonotone(s.sent, 1, s.retired);
      }
    }
  }

  /** Bytes written after the FIN went out, which can then never be sent. */
  predicate WritesPastFin(s: Sender, e: Event) {
    e.Write? && |e.data| > 0 && s.stream.Remaining() > 0
    && !s.stream.error && s.finFlag && s.retired > 0 && Drained(s)
  }

  /** What every step keeps of the facts the summary is made of. */
  lemma StepProgress(s: Sender, e: Event)
    requires SpaceInv(s)
    ensures var t := Step(s, e);
            && |s.sent| <= |t.sent| && s.retired <= t.retired
            && (s.stream.error ==> t.stream.error)
            && (s.finFlag ==> t.finFlag && |t.sent| == |s.sent| && t.stream.readCount == s.stream.readCount)
            && (!e.Write? ==> |t.stream.history| == |s.stream.history|)
  {
    match e
    case FillWindow => FillKeeps(s);
    case Ack(ackno, win) =>
      RetireOnly(s, ackno);
      FillKeeps(Advance(Retire(s, ackno), ackno).(window := win));
    case Write(_) =>
    case EndInput =>
    case Time(_) =>
    case TakePending =>
    case Fail =>
  }

  /** A step moves the summary back exactly when it writes past the FIN. */
  lemma SummaryForward(s: Sender, e: Event)
    requires SpaceInv(s)
    ensures Rank(SummarizeSender(Step(s, e))) < Rank(SummarizeSender(s)) <==> WritesPastFin(s, e)
  {
    var t := Step(s, e);
    SummaryMeaning(s);
    StepSpace(s, e);
    SummaryMeaning(t);
    StepProgress(s, e);
  }

  predicate NeverWritesPastFin(s: Sender, es: seq<Event>) {
    es == [] || (NeverWritesPastFin(s, es[..|es| - 1]) && !WritesPastFin(Run(s, es[..|es| - 1]), es[|es| - 1]))
  }

  /** Over any run: no SYN, SYN sent, SYN acknowledged, FIN sent, FIN acknowledged, with error last and for good. */
  lemma {:induction false} RunForward(s: Sender, es: seq<Event>)
    requires SpaceInv(s) && NeverWritesPastFin(s, es)
    ensures SpaceInv(Run(s, es)) && Rank(SummarizeSender(s)) <= Rank(SummarizeSender(Run(s, es)))
    decreases |es|
  {
    if es != [] {
      var before := es[..|es| - 1];
      RunForward(s, before);
      StepSpace(Run(s, before), es[|es| - 1]);
      SummaryForward(Run(s, before), es[|es| - 1]);
    }
  }
}

/** What each name says of the two halves of a reachable connection. */
module StateNames {
  import opened ByteStreams
  import opened Receiving
  import opened Sending
  import opened SendingProofs
  import opened WindowProofs
  import opened Connections
  import opened TcpStates
  import opened StateProofs
  import P = ConnectionProofs

  /** The whole stream has been sent, FIN and all. */
  predicate FinOut(s: Sender) {
    s.finFlag && Drained(s)
  }

  predicate Means(c: Connection, name: Name) {
    var s, open := c.sender, c.active && c.linger;
    var heard, ended := c.receiver.isnSet, c.receiver.Out().ended;
    match name
    case LISTEN => open && s.sent == [] && !heard
    case SYN_SENT => open && s.sent != [] && s.retired == 0 && !heard
    case SYN_RCVD => open && s.sent != [] && s.retired == 0 && heard && !ended
    case ESTABLISHED => open && s.retired > 0 && !FinOut(s) && heard && !ended
    case FIN_WAIT_1 => open && 0 < s.retired < |s.sent| && FinOut(s) && heard && !ended
    case FIN_WAIT_2 => open && 0 < s.retired == |s.sent| && FinOut(s) && heard && !ended
    case CLOSING => open && 0 < s.retired < |s.sent| && FinOut(s) && ended
    case TIME_WAIT => open && 0 < s.retired == |s.sent| && FinOut(s) && ended
    case CLOSE_WAIT => c.active && !c.linger && s.retired > 0 && !FinOut(s) && ended
    case LAST_ACK => c.active && !c.linger && 0 < s.retired < |s.sent| && FinOut(s) && ended
    case RESET => c.rstSet
    case CLOSED => !c.active && !c.rstSet && Drained(s)
  }

  /** Every name, exactly: from what was sent and acknowledged, what was heard, and how the connection stands. */
  lemma NameMeaning(c: Connection, name: Name)
    requires P.Inv(c)
    ensures Summarize(c) == Official(name) <==> Means(c, name)
  {
    SummaryMeaning(c.sender);
    InFlightPositive(c.sender);
  }

  /** No connection has two names. */
  lemma NamesDiffer(x: Name, y: Name)
    requires Official(x) == Official(y)
    ensures x == y
  {}
}
