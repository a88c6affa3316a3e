/** Over whole runs: what was written, how long a connection has waited, whether it must linger, when it is over. */
module RunProofs {
  import opened Common
  import opened ByteStreams
  import opened Segments
  import opened Receiving
  import opened Sending
  import S = SendingProofs
  import opened AckProofs
  import opened Connections
  import P = ConnectionProofs
  import opened Peers
  import opened ConnectionLaws
  import opened CallProofs

  predicate Fresh(c: Connection) {
    c == NewConnection(c.rtTimeout, c.sender.stream.capacity, c.receiver.Out().capacity, c.sender.isn)
  }

  /** The connection as the first `k` calls left it. */
  function After(c: Connection, ops: seq<P.Op>, k: nat): Connection
    requires k <= |ops|
  {
    P.Run(c, ops[..k])
  }

  lemma AfterInv(c: Connection, ops: seq<P.Op>, k: nat)
    requires Fresh(c) && k <= |ops|
    ensures P.Inv(After(c, ops, k))
  {
    P.RunInv(c.rtTimeout, c.sender.stream.capacity, c.receiver.Out().capacity, c.sender.isn, ops[..k]);
  }

  lemma AfterStep(c: Connection, ops: seq<P.Op>, k: nat)
    requires k < |ops|
    ensures After(c, ops, k + 1) == P.Step(After(c, ops, k), ops[k])
  {
    assert ops[..k + 1][..k] == ops[..k];
  }

  lemma StepOfRun(c: Connection, ops: seq<P.Op>, k: nat)
    requires Fresh(c) && k < |ops|
    ensures Marks(After(c, ops, k), ops[k], After(c, ops, k + 1))
  {
    AfterInv(c, ops, k);
    AfterStep(c, ops, k);
    StepMarks(After(c, ops, k), ops[k]);
  }

  // ---------- the clock ----------

  /** The milliseconds ticked, while active, since the last of the first `k` calls that let a segment in. */
  function Waited(c: Connection, ops: seq<P.Op>, k: nat): nat
    requires k <= |ops|
  {
    if k == 0 then 0
    else
      var d := After(c, ops, k - 1);
      match ops[k - 1]
      case OpTick(ms) => Waited(c, ops, k - 1) + (if d.active then ms else 0)
      case OpSegment(seg) => if LetIn(d, seg) then 0 else Waited(c, ops, k - 1)
      case _ => Waited(c, ops, k - 1)
  }

  /** The clock says how long nothing has been let in. */
  lemma {:induction false} TimeIsWaited(c: Connection, ops: seq<P.Op>, k: nat)
    requires Fresh(c) && k <= |ops|
    ensures After(c, ops, k).time == Waited(c, ops, k) && After(c, ops, k).rtTimeout == c.rtTimeout
  {
    if k > 0 {
      TimeIsWaited(c, ops, k - 1);
      StepOfRun(c, ops, k - 1);
    }
  }

  // ---------- lingering ----------

  /** At the `k`th call the connection saw the peer done before itself. */
  predicate SawPeerFirst(c: Connection, ops: seq<P.Op>, k: nat)
    requires k < |ops|
  {
    Attends(After(c, ops, k), ops[k]) && PeerFirst(After(c, ops, k + 1))
  }

  lemma LingerStep(c: Connection, ops: seq<P.Op>, k: nat)
    requires Fresh(c) && k < |ops|
    ensures After(c, ops, k + 1).linger == (After(c, ops, k).linger && !SawPeerFirst(c, ops, k))
  {
    StepOfRun(c, ops, k);
  }

  lemma {:induction false} LingeringNeverSaw(c: Connection, ops: seq<P.Op>, n: nat, k: nat)
    requires Fresh(c) && k < n <= |ops| && After(c, ops, n).linger
    ensures !SawPeerFirst(c, ops, k)
  {
    LingerStep(c, ops, n - 1);
    if k < n - 1 {
      LingeringNeverSaw(c, ops, n - 1, k);
    }
  }

  lemma {:induction false} OnceSaw(c: Connection, ops: seq<P.Op>, n: nat) returns (k: nat)
    requires Fresh(c) && n <= |ops| && !After(c, ops, n).linger
    ensures k < n && SawPeerFirst(c, ops, k)
  {
    assert n > 0 by {
      assert ops[..0] == [];
    }
    LingerStep(c, ops, n - 1);
    k := n - 1;
    if !SawPeerFirst(c, ops, k) {
      k := OnceSaw(c, ops, n - 1);
    }
  }

  /** A connection means to linger exactly as long as it has never seen the peer done before itself. */
  lemma LingerExactly(c: Connection, ops: seq<P.Op>, n: nat)
    requires Fresh(c) && n <= |ops|
    ensures After(c, ops, n).linger <==> forall k :: 0 <= k < n ==> !SawPeerFirst(c, ops, k)
  {
    if After(c, ops, n).linger {
      forall k | 0 <= k < n ensures !SawPeerFirst(c, ops, k) {
        LingeringNeverSaw(c, ops, n, k);
      }
    } else {
      var k := OnceSaw(c, ops, n);
    }
  }

  /** The one call that may end the peer's stream and not look: a segment with neither ACK nor FIN once the FIN is taken
      for acknowledged. */
  predicate Overlooks(c: Connection, op: P.Op) {
    op.OpSegment? && TakesIn(c, op.seg) && !op.seg.header.ack && !op.seg.header.fin && c.finAckSent
  }

  /** Calls that do not look leave the peer no further ahead, with that one exception. */
  lemma UnattendedChange(c: Connection, op: P.Op)
    requires P.Inv(c) && !Attends(c, op) && !Overlooks(c, op)
    ensures PeerFirst(P.Step(c, op)) ==> PeerFirst(c)
  {
    if op.OpSegment? && LetIn(c, op.seg) {
      FillKeeps(c.sender);
    }
  }

  lemma {:induction false} SeenOrNever(c: Connection, ops: seq<P.Op>, n: nat)
    requires Fresh(c) && n <= |ops|
    requires forall k :: 0 <= k < n ==> !Overlooks(After(c, ops, k), ops[k])
    ensures PeerFirst(After(c, ops, n)) ==> exists k :: 0 <= k < n && SawPeerFirst(c, ops, k)
  {
    if n > 0 {
      SeenOrNever(c, ops, n - 1);
      AfterInv(c, ops, n - 1);
      AfterStep(c, ops, n - 1);
      if Attends(After(c, ops, n - 1), ops[n - 1]) {
        assert PeerFirst(After(c, ops, n)) ==> SawPeerFirst(c, ops, n - 1);
      } else {
        UnattendedChange(After(c, ops, n - 1), ops[n - 1]);
      }
    }
  }

  /** In the streams' own terms, for any run in which nothing was overlooked: the connection means to linger exactly if
      at no point was the peer's stream over before its own was read to the end. */
  lemma LingerFromStreams(c: Connection, ops: seq<P.Op>, n: nat)
    requires Fresh(c) && n <= |ops|
    requires forall k :: 0 <= k < n ==> !Overlooks(After(c, ops, k), ops[k])
    ensures After(c, ops, n).linger <==> forall k :: 0 <= k <= n ==> !PeerFirst(After(c, ops, k))
  {
    LingerExactly(c, ops, n);
    forall k | 0 <= k <= n ensures PeerFirst(After(c, ops, k)) ==> !After(c, ops, n).linger {
      SeenOrNever(c, ops, k);
    }
    if !After(c, ops, n).linger {
      var k :| 0 <= k < n && SawPeerFirst(c, ops, k);
      assert PeerFirst(After(c, ops, k + 1));
    }
  }

  // ---------- ending ----------

  /** Without a reset, a connection goes on until a call looks and finds it over. */
  lemma EndsExactly(c: Connection, ops: seq<P.Op>, k: nat)
    requires Fresh(c) && k < |ops|
    ensures var d, e := After(c, ops, k), After(c, ops, k + 1);
            e.active <==> d.active && !e.rstSet && !(Attends(d, ops[k]) && Over(e))
  {
    StepOfRun(c, ops, k);
  }

  /** TIME_WAIT: an end that was not reset, and whose own stream was never behind the peer's, closed only after ten
      timeouts in which nothing was let in. */
  lemma TimeWaitKept(c: Connection, ops: seq<P.Op>, n: nat)
    requires Fresh(c) && n <= |ops|
    requires forall k :: 0 <= k <= n ==> !PeerFirst(After(c, ops, k))
    requires !After(c, ops, n).active && !After(c, ops, n).rstSet
    ensures Waited(c, ops, n) >= 10 * c.rtTimeout
  {
    LingerExactly(c, ops, n);
    AfterInv(c, ops, n);
    TimeIsWaited(c, ops, n);
  }

  // ---------- the application's bytes ----------

  /** What the first `k` calls wrote, each as far as it fitted. */
  function Written(c: Connection, ops: seq<P.Op>, k: nat): Bytes
    requires k <= |ops|
  {
    if k == 0 then [] else Written(c, ops, k - 1) + Taken(After(c, ops, k - 1), ops[k - 1])
  }

  lemma {:induction false} OutboundHistory(c: Connection, ops: seq<P.Op>, k: nat)
    requires Fresh(c) && k <= |ops|
    ensures After(c, ops, k).sender.stream.history == Written(c, ops, k)
  {
    if k > 0 {
      OutboundHistory(c, ops, k - 1);
      WrittenStep(c, ops, k - 1);
    }
  }

  lemma {:induction false} OutboundEnded(c: Connection, ops: seq<P.Op>, k: nat)
    requires Fresh(c) && k <= |ops|
    ensures After(c, ops, k).sender.stream.ended <==> P.OpEndInput in ops[..k]
  {
    if k > 0 {
      OutboundEnded(c, ops, k - 1);
      EndedStep(c, ops, k - 1);
      PrefixSnoc(ops, k - 1, P.OpEndInput);
    }
  }

  lemma EndedStep(c: Connection, ops: seq<P.Op>, k: nat)
    requires Fresh(c) && k < |ops|
    ensures After(c, ops, k + 1).sender.stream.ended == (After(c, ops, k).sender.stream.ended || ops[k] == P.OpEndInput)
  {
    WrittenStep(c, ops, k);
  }

  lemma PrefixSnoc(ops: seq<P.Op>, k: nat, op: P.Op)
    requires k < |ops|
    ensures op in ops[..k + 1] <==> op in ops[..k] || op == ops[k]
  {
    assert ops[..k + 1] == ops[..k] + [ops[k]];
  }

  /** The outbound stream of any run is what was written, and has ended exactly if it was told to. */
  lemma OutboundIsWritten(c: Connection, ops: seq<P.Op>, k: nat)
    requires Fresh(c) && k <= |ops|
    ensures var s := After(c, ops, k).sender.stream;
            s.history == Written(c, ops, k) && (s.ended <==> P.OpEndInput in ops[..k])
  {
    OutboundHistory(c, ops, k);
    OutboundEnded(c, ops, k);
  }

  lemma WrittenStep(c: Connection, ops: seq<P.Op>, k: nat)
    requires Fresh(c) && k < |ops|
    ensures var s, t := After(c, ops, k).sender.stream, After(c, ops, k + 1).sender.stream;
            t.history == s.history + Taken(After(c, ops, k), ops[k]) && t.ended == (s.ended || ops[k].OpEndInput?)
  {
    AfterInv(c, ops, k);
    AfterStep(c, ops, k);
    OutboundExact(After(c, ops, k), ops[k]);
  }
}
