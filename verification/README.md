# A verified model of the sponge TCP endpoint

`libsponge` is a user-space TCP endpoint in three layers. This project models each of them in Dafny and proves what the
layers promise.

* **Transport.** A bounded byte stream, a reassembler for out-of-order substrings, 32-bit wrapping sequence numbers, the
  receiver, the sender with its retransmission timer, and the connection that joins the two halves and closes them.
* **Composition.** One sender and one receiver, and then two complete connections, joined by a network that may drop,
  repeat, delay and reorder segments and acknowledgments. The theorems here range over every run.
* **Wire format.** Chunked buffers, the Internet checksum, integers in network byte order, TCP segments, IPv4 datagrams,
  and the adapter that puts one inside the other.

## How the model is built

Every stateful class of the original is a Dafny class with the same fields, loops and branches. Beside it stands a value
(a datatype) and a pure step function, and each method is proved to take the value exactly where the step function takes
it. The theorems are about the step functions and about runs, which are sequences of steps. Class state that only the
proofs need is ghost: the history of a stream, and the list of all first transmissions of a sender.

The connection's step functions are nested as the original's methods are. `Calls.dfy` and `ConnectionLaws.dfy` prove them
equal to a flat description of each call: how its sender and receiver move (`Moved`, `Heard`), whether it hands anything
over (`Sends`), and what becomes of the clock, the wish to linger, the reset mark, the handshake marks and `active`. Every
clause is an equality or an if and only if over the parts, and the description uses none of the nested functions.

A sender's outstanding segments are a suffix of that list, so "anything ever emitted" is any element of it. The network of
`EndToEnd.dfy` may deliver any of them, and any acknowledgment ever issued, at any time and any number of times. That is
the right reading of "every run". For "there is a run" it would be too kind: the network would stand in for the sender's
own retransmission. `Retransmission.dfy` therefore takes every copy away: a segment arrives only when the clock has just
re-emitted it, and the clock re-emits only the oldest.

| file | what it holds |
|---|---|
| `Common.dfy`, `Segments.dfy` | integer widths, bytes, TCP headers and segments |
| `Wrapping.dfy`, `ByteStream.dfy` | sequence numbers, the byte stream |
| `Reassembler.dfy`, `ReassemblerProofs.dfy` | reassembly and its theorems |
| `Receiver.dfy` | the receiver, acknowledgment number and window |
| `Sender.dfy`, `SenderProofs.dfy`, `SenderAcks.dfy`, `SenderWindow.dfy` | the sender, its sequence space, acknowledgments and window |
| `SenderCuts.dfy`, `Timers.dfy` | how the stream is cut into segments, when the clock strikes and how it backs off |
| `EndToEnd.dfy`, `NoLoss.dfy`, `Progress.dfy` | the composed system: safety, no loss, progress |
| `Retransmission.dfy` | the composed system when only the clock sends anything again |
| `FlowControl.dfy` | the composed system when acknowledgments arrive in order |
| `Careless.dfy` | what a FIN past a hole does to the composed system |
| `Connection.dfy`, `ConnectionProofs.dfy`, `TcpState.dfy` | the endpoint, its closing, its RFC 793 state names |
| `ConnectionLaws.dfy`, `Calls.dfy` | every call of a connection in one flat description: answers, marks, halves |
| `ConnectionRuns.dfy`, `Lifecycle.dfy` | whole runs: what was written, waiting, lingering, ending; handshakes and resets |
| `Peers.dfy`, `PeerProofs.dfy` | two connections talking to each other |
| `Scenarios.dfy` | runs from the initial state that reach the exceptional cases |
| `Buffers.dfy`, `Checksum.dfy`, `Parser.dfy` | chunked strings, RFC 1071 checksum, integer parsing |
| `TcpWire.dfy`, `Ipv4Wire.dfy`, `TcpOverIp.dfy`, `WireLayout.dfy` | segments and datagrams on the wire, field by field |

## Where the code and its documentation part

* `unwrap` promises the closest 64-bit number. It returns it if and only if that number does not lie past 2^64
  (`UnwrapNearest`, with the input of `UnwrapPastTheTop`).
* The reassembler promises to stay within its capacity. For every capacity of at least two it can store
  2 * capacity - 2 bytes (`StoredBeyondCapacity`), and never more than 2 * capacity - 1 (`StoredBounded`). The promise holds
  of settled states (`SettledWithinCapacity`), and a push leaves one if and only if it keeps no byte from past the window
  edge (`PushSettled`).
* The output should be ended only when complete. A final substring whose last byte is discarded, or an empty one past a
  hole, breaks that (`BareFinPastHole`). Whatever arrives after it, the output is ended only when complete if and only if
  the substring satisfies `FinKept` (`FinalPushSafe`; `RunEndsOnlyWhenComplete` for any state of any run).
* A final substring all of whose bytes were assembled before never ends the stream (`RepeatedFinNeverEnds`); otherwise a
  completing one does (`FinalPushEnds`). In the composed system an end missed that way is lost for good (`EndLostForGood`,
  `FinCanBeMissed`). While the network still holds a copy of every segment it is the only way to lose it
  (`EndReachable`). With the sender's own retransmission there is one more: the last segment was taken in without its mark,
  ahead of data that will carry the output past it in one go (`FinCanBeOvertaken`). The two together are exact
  (`EndByOldest`). With acknowledgments in order neither happens (`FinNeverMissed`).
* A FIN without data that overtakes data can cost a byte, even if everything arrives in the order of emission and only
  first copies are dropped (`ByteCanBeLost`). With nothing of the last data there, it does so in some continuation if and
  only if that data is not all that is missing, or nothing has been assembled (`CarelessExactly`). With acknowledgments in
  order it is the only delivery that can do harm (`CarefulExactly`).
* Substrings kept from past the window edge stall the output until the next in-order arrival (`OverrunStalls`); the exact
  condition is in `PushSettled`.
* The sender compares raw 32-bit numbers. Once they wrap, the segment that reached 2^32 is never retired, so nothing is
  lost but nothing more is acknowledged either. `HonouredExactly` gives the exact condition,
  `LastIsnIsNeverAcknowledged` the first SYN it happens to, and no loss and clean closing are proved on both sides of the
  boundary.
* A peer that takes window back makes the unsigned subtraction wrap, and the sender sends on (`ShrunkWindowOverruns`,
  `WindowCanBeOverrun`). The window is respected if and only if it covered what was in flight (`FillRespectsWindow`).
* Bytes written after the FIN are accepted and never sent. A connection closed after that does not summarise to CLOSED
  (`InactiveMeans`, `CleanCloseNotClosed`), and such a write is the only step that moves the sender's summary back
  (`SummaryForward`).
* A connection with nothing to send answers with an empty segment whose sequence number is 0, whatever its own numbers
  are. It does no harm (`StepBound`, `StepSure`).
* A connection gives up its wish to linger when it sees the peer done before itself (`LingerExactly`). One call does not
  look: a segment with neither ACK nor FIN once the peer's FIN counts as acknowledged. Because that is decided by comparing
  raw 32-bit numbers, it can be the call that ends the peer's stream (`LingerNotCleared`). Without such a call the wish is
  exactly what the two streams say it should be (`LingerFromStreams`).
* A pure acknowledgment is taken in and not answered, so segments it makes room for wait for the next tick or call
  (`AnswerExact`, `StepHalves`).
* The retransmission clock runs from construction and is not stopped when everything is acknowledged, so a segment may be
  sent again early by as much as the clock had run (`ClockRunsFromStart`, `SilentExactly`). It never gives up on a closed
  window (`ProbesForEver`); with an open one it resets at the ninth strike in a row (`GivesUpOnNinth`).
* With the last sequence number as initial number a handshake leaves that end in SYN_RCVD (`ThreeWayHandshake`).
* Printing a TCP segment and parsing it back needs no bound on the running sum: adding the checksum never carries out of
  32 bits (`ComplementVerifies`).
* `TCPSegment::parse` and `IPv4Datagram::parse` drop the header parser's verdict, and so does the model. A TCP header that
  claims fewer than twenty bytes is taken as twenty (`SegmentVerdict`), and a datagram whose only fault is its header
  checksum is taken like a good one (`DatagramVerdict`).

## Model

| member | source | states |
|---|---|---|
| Wrapping.UnwrapWraps | libsponge/wrapping_integers.cc:16-45 | unwrapping gives a position that wraps back to the given number, for all inputs |
| Wrapping.UnwrapNearest | libsponge/wrapping_integers.cc:31-45 | the result is a nearest 64-bit position to the checkpoint if and only if the nearest one does not overflow 64 bits |
| Wrapping.UnwrapLap | libsponge/wrapping_integers.cc:31-45 | the lap chosen, in closed form: a tie goes to the checkpoint's own lap |
| Wrapping.UnwrapPastTheTop | libsponge/wrapping_integers.cc:31-45 | at the top of the range 0 is returned and is not nearest |
| Wrapping.UnwrapWrapRoundTrip | libsponge/wrapping_integers.cc:16-45 | wrap then unwrap is the identity for any two 64-bit positions less than 2^31 apart |
| ByteStreams.ByteStream.Write | libsponge/byte_stream.cc:24-32 | appends exactly the longest prefix of the data that the free space holds, and returns its length |
| ByteStreams.ByteStream.Read | libsponge/byte_stream.cc:49-54 | returns the next bytes, as many as asked for and there are, and removes exactly those |
| ByteStreams.ByteStream.PopOutput | libsponge/byte_stream.cc:41-44 | counts in full even past the end; the books balance afterwards if and only if it did not go past the end |
| ByteStreams.ByteStream.PeekOutput | libsponge/byte_stream.cc:35-37 | the next bytes, as many as asked for and there are |
| ByteStreams.ByteStream.RemainingCapacity | libsponge/byte_stream.cc:70 | the free space of the stream value |
| ByteStreams.ByteStream.Eof | libsponge/byte_stream.cc:64 | ended and everything read |
| ByteStreamProofs.OutputIsInput | libsponge/byte_stream.cc:24-54 | over any run, all reads end to end and then the buffer are the accepted prefixes of the writes, given by the calls and the free space alone |
| ByteStreamProofs.Retry | libsponge/byte_stream.cc:24-32 | writing again what did not fit, after any reading, leaves no gap and repeats nothing |
| Reassembly.StreamReassembler.PushSubstring | libsponge/stream_reassembler.cc:20-77 | the recursive, looping method computes the step function, and its counters stay equal to the number of stored bytes and of bytes written |
| Reassembly.StreamReassembler.StoreAhead | libsponge/stream_reassembler.cc:39-48 | bytes ahead of the output are stored one by one, earlier ones winning |
| Reassembly.StreamReassembler.WriteNext | libsponge/stream_reassembler.cc:51-60 | in-order bytes are written and dropped from storage |
| Reassembly.StreamReassembler.DrainStored | libsponge/stream_reassembler.cc:62-72 | stored bytes follow as far as they are contiguous and fit |
| ReassemblyProofs.DrainKeeps | libsponge/stream_reassembler.cc:62-72 | draining adds and loses no byte and stops only at a gap or at the edge |
| ReassemblyProofs.PushKeeps | libsponge/stream_reassembler.cc:20-77 | exactly which positions a push adds, with which values, for any substring in any state |
| ReassemblyProofs.PushValues | libsponge/stream_reassembler.cc:38-72 | which of two bytes for one position wins: the one stored first, unless the new one is written to the output at once |
| ReassemblyProofs.PushKeepsWindow | libsponge/stream_reassembler.cc:22-29 | no byte below the window edge is discarded |
| ReassemblyProofs.PushFromSource | libsponge/stream_reassembler.cc:20-77 | substrings of one source leave only bytes of that source, each at its own index |
| ReassemblyProofs.PushKeepsBound | libsponge/stream_reassembler.cc:22-47 | stored positions are ahead of the output and less than 2 * capacity - 1 ahead, kept by every push |
| ReassemblyProofs.StoredBeyondCapacity | libsponge/stream_reassembler.hh:21-28 | for every capacity of at least two, two substrings of that length leave 2 * capacity - 2 bytes stored |
| ReassemblyProofs.StoredBounded | libsponge/stream_reassembler.cc:22-47 | fewer than 2 * capacity bytes are ever stored |
| ReassemblyProofs.SettledWithinCapacity | libsponge/stream_reassembler.hh:21-28 | in a settled state stored and unread bytes together fit the capacity |
| ReassemblyProofs.PushSettled | libsponge/stream_reassembler.cc:38-72 | a push leaves nothing waiting at the next index or past the edge, if and only if it keeps no byte from past the edge |
| ReassemblyProofs.AssembledIsLeastUncovered | libsponge/stream_reassembler.cc:20-72 | over any interleaving of fitting arrivals and reads, the output is the source up to the first position no substring covers |
| ReassemblyProofs.OrderIndependent | libsponge/stream_reassembler.cc:20-72 | two runs that cover the same positions assemble the same bytes |
| ReassemblyProofs.OverrunStalls | libsponge/stream_reassembler.cc:39-48 | a byte kept from past the edge sits at the next index with room to spare and is not written |
| ReassemblyProofs.PushFlagSound | libsponge/stream_reassembler.cc:26-27 | the end mark stays truthful if and only if the final substring keeps its last byte or had it already |
| ReassemblyProofs.EndedMeansComplete | libsponge/stream_reassembler.cc:26-75 | over any run whose final substrings keep their last byte, an ended output is the whole source |
| ReassemblyProofs.UnsoundFlagEndsEarly | libsponge/stream_reassembler.cc:73-75 | from any state whose end mark is up too early, whatever is stored, the next bytes of the source itself, none marked as last, end the output incomplete |
| ReassemblyProofs.RunEndsOnlyWhenComplete | libsponge/stream_reassembler.cc:26-75 | after any run, the output is ended only when complete in every continuation if and only if both marks are truthful now |
| ReassemblyProofs.FinalPushSafe | libsponge/stream_reassembler.cc:26-75 | after a final substring the output is ended only when complete in every continuation, if and only if the substring keeps its last byte, had it already, or raises no mark |
| ReassemblyProofs.MarksStaySound | libsponge/stream_reassembler.cc:26-75 | truthful marks stay truthful over any continuation whose final substrings keep their last byte |
| ReassemblyProofs.BareFinPastHole | libsponge/stream_reassembler.cc:26-27 | an empty final substring at index 2, then one byte at index 0, ends the stream after one byte |
| ReassemblyProofs.FinalPushEnds | libsponge/stream_reassembler.cc:31-75 | a final substring inside the window that completes the output ends the stream if and only if it is not a pure repeat |
| ReassemblyProofs.RepeatedFinNeverEnds | libsponge/stream_reassembler.cc:31-36 | the repeat of an assembled byte with the end mark changes nothing, for ever |
| Receiving.TCPReceiver.SegmentReceived | libsponge/tcp_receiver.cc:14-33 | SYN handling, unwrapping against the bytes written, and the push, as one step function |
| Receiving.TCPReceiver.Ackno | libsponge/tcp_receiver.cc:35-42 | the acknowledgment of the receiver value, none before a SYN |
| Receiving.TCPReceiver.WindowSize | libsponge/tcp_receiver.cc:44-48 | the window of the receiver value |
| ReceivingProofs.AcknoWraps | libsponge/tcp_receiver.cc:35-42 | the acknowledgment number is the wrapped count of SYN, assembled bytes and FIN |
| ReceivingProofs.TrueIndex | libsponge/tcp_receiver.cc:27-32 | a segment less than 2^31 from the bytes written is pushed at its true stream index |
| ReceivingProofs.RunBounded | libsponge/tcp_receiver.cc:14-33 | the storage bound holds after any segments and reads |
| ReceivingProofs.EdgeNeverRetreats | libsponge/tcp_receiver.cc:35-48 | over any interleaving of arrivals and reads neither the window edge nor the acknowledged position moves back |
| ReceivingProofs.WindowIsHonest | libsponge/tcp_receiver.cc:44-48 | a byte inside the advertised window, in a segment less than 2^31 from the bytes written, is held once the segment has arrived |
| ReceivingProofs.WindowIsTight | libsponge/tcp_receiver.cc:44-48 | a new byte of an in-order segment is kept if and only if it lies inside the advertised window |
| Sending.RETimer.PassTime | libsponge/tcp_sender.cc:148-156 | 32-bit time, expiry stops and clears the timer; `SilentExactly` and `StrikesOnTime` say when |
| Sending.RETimer.DoubleRTO | libsponge/tcp_sender.cc:157-159 | 32-bit doubling of the timeout |
| Sending.TCPSender.SendSegment | libsponge/tcp_sender.cc:132-141 | a first transmission, its accounting and the timer |
| Sending.TCPSender.FillWindow | libsponge/tcp_sender.cc:33-80 | SYN first, a zero window counted as one, the early return that leaves it at one |
| Sending.TCPSender.SendWhileRoom | libsponge/tcp_sender.cc:54-75 | the sending loop with its unsigned room, and why it stopped |
| Sending.TCPSender.AckReceived | libsponge/tcp_sender.cc:84-108 | guard, retirement, timer reset, window update and refill as one step function |
| Sending.TCPSender.DropAcknowledged | libsponge/tcp_sender.cc:88-96 | the retirement loop |
| Sending.TCPSender.NoteNewAck | libsponge/tcp_sender.cc:98-105 | newest acknowledgment, timer and retransmission count |
| Sending.TCPSender.TakeNext | libsponge/tcp_sender.cc:57-67 | the next segment, its payload taken from the stream and FIN if it fits |
| Sending.TCPSender.Tick | libsponge/tcp_sender.cc:111-123 | re-emission of the oldest outstanding segment and back-off |
| CuttingProofs.FillCuts | libsponge/tcp_sender.cc:49-75 | filling the window sends exactly what the room allows: all new segments but the last full, FIN on the last as soon as the stream has ended and fits, alone only if nothing else is left |
| CuttingProofs.ProbeLeavesWindow | libsponge/tcp_sender.cc:49-79 | a closed window counts as one while filling and stays so exactly if the stream ran dry first |
| TimerProofs.SilentExactly | libsponge/tcp_sender.cc:111-156 | however the time is cut into ticks, nothing is sent again if and only if it does not reach the timeout |
| TimerProofs.StrikesOnTime | libsponge/tcp_sender.cc:111-156 | the tick that completes the timeout sends exactly the oldest outstanding segment again, restarts the clock, and doubles and counts if it should |
| TimerProofs.BacksOff | libsponge/tcp_sender.cc:111-159 | n strikes send the oldest segment n times and multiply the timeout by 2^n while the window is open, and leave timeout and count alone while it is closed |
| TimerProofs.NewAckRestores | libsponge/tcp_sender.cc:98-105 | new data acknowledged restores timeout and count and restarts the clock; anything older leaves them alone |
| TimerProofs.ClockRuns | libsponge/tcp_sender.cc:33-156 | in every run the clock is running while anything is outstanding, and has not struck yet |
| TimerProofs.ClockRunsFromStart | libsponge/tcp_sender.cc:143-156 | time before the SYN counts towards its timeout, unless it was a whole one |
| SendingProofs.RunSpace | libsponge/tcp_sender.cc:33-141 | in every run: next_seqno = SYN + bytes read + FIN, segments contiguous modulo 2^32 with the stream's bytes at their positions, bytes in flight their sum, only the last carries FIN, nothing pending that was not first sent |
| SendingProofs.StepSpace | libsponge/tcp_sender.cc:33-141 | every single event keeps that invariant, from any state that has it |
| SendingProofs.PayloadsAreStream | libsponge/tcp_sender.cc:56-75 | first transmissions, end to end, are the consumed stream |
| SendingProofs.NothingAfterFin | libsponge/tcp_sender.cc:34-35 | no continuation sends anything new after the FIN |
| AckProofs.RunAck | libsponge/tcp_sender.cc:84-108 | in every run: before the boundary the newest acknowledgment lies in the oldest outstanding segment, before its end; after it the segment that reached 2^32 is still outstanding |
| AckProofs.AcknowledgeExact | libsponge/tcp_sender.cc:84-105 | exactly the fully acknowledged prefix is retired, `ackGot` is the maximum, repeats retire nothing, impossible acknowledgments change nothing |
| AckProofs.RetireExact | libsponge/tcp_sender.cc:88-96 | before the boundary the loop drops exactly the segments that end at or before the number |
| AckProofs.RetireStopsAtBoundary | libsponge/tcp_sender.cc:90-93 | no number whatever retires the segment that reaches 2^32 |
| AckProofs.WrappedRetiresNothing | libsponge/tcp_sender.cc:85-96 | past the boundary no genuine acknowledgment retires anything |
| AckProofs.HonouredExactly | libsponge/tcp_sender.cc:85-96 | a genuine cumulative acknowledgment is honoured exactly if and only if the numbers have not wrapped or it completes no segment |
| AckProofs.LastIsnIsNeverAcknowledged | libsponge/tcp_sender.cc:85-96 | with the last initial number the acknowledgment of the SYN is 0 and retires nothing |
| WindowProofs.FillMaximal | libsponge/tcp_sender.cc:49-79 | filling stops only with FIN sent, window full, or everything sent and the stream open |
| WindowProofs.FillBounded | libsponge/tcp_sender.cc:54-75 | a window that covers what is in flight is not overrun, on both sides of the boundary |
| WindowProofs.FillRespectsWindow | libsponge/tcp_sender.cc:54-75 | before the numbers wrap, the window is respected afterwards if and only if it covered what was in flight |
| WindowProofs.ShrunkWindowOverruns | libsponge/tcp_sender.cc:56 | with less window than in flight and data to send, more is sent |
| Scenarios.WindowCanBeOverrun | libsponge/tcp_sender.cc:56 | a run whose peer never advertises more than two has three in flight |
| WindowProofs.RunRespectsWindow | libsponge/tcp_sender.cc:33-108 | over every run with a peer whose right edge never moves left, before the numbers wrap, at most max(window, 1) is in flight |
| WindowProofs.FillQuiet | libsponge/tcp_sender.cc:33-80 | filling never leaves data or FIN unsent with nothing in flight |
| EndToEnd.DeliveredIndex | libsponge/tcp_receiver.cc:14-33 | in the composed system every delivered segment is pushed at its true index |
| EndToEnd.CarriesStream | libsponge/tcp_sender.cc:56-75 | each segment carries the bytes of the stream found at its position, and FIN sits at its end |
| EndToEnd.RunSafe | libsponge/tcp_sender.cc:33-141 | the invariant behind delivery holds in every run |
| EndToEnd.DeliveredIsPrefix | libsponge/tcp_sender.cc:33-141 | in every run of sender, unreliable network and receiver, the receiver's stream is a prefix of the sender's |
| EndToEnd.ShortStreamsStayFresh | libsponge/tcp_receiver.cc:27-30 | streams below 2^31 - 2 bytes meet the lifetime condition whatever the network does |
| EndToEnd.ShortStreamsDeliverPrefix | libsponge/tcp_receiver.cc:14-33 | when fewer than 2^31 - 2 bytes are written, every run delivers a prefix, with no condition on the age of segments |
| NoLoss.RetireOnlyDelivered | libsponge/tcp_sender.cc:88-96 | raw comparison never retires past an honest acknowledgment, wrapped or not |
| NoLoss.RunSound | libsponge/tcp_sender.cc:84-108 | careful runs keep soundness: retired segments were delivered, acknowledgments are honest and end marks truthful |
| NoLoss.AcksOnlySent | libsponge/tcp_receiver.cc:35-42 | the receiver acknowledges nothing that was not sent |
| NoLoss.ByteAccountedFor | libsponge/tcp_sender.cc:84-108 | each accepted byte is delivered, in an outstanding segment, or still buffered |
| NoLoss.NothingIsLost | libsponge/tcp_sender.cc:33-141 | every accepted byte is delivered intact, outstanding or still buffered, in every careful run |
| NoLoss.EndMeansDelivered | libsponge/stream_reassembler.cc:73-75 | an ended receiver has everything and the FIN; a sender whose FIN is acknowledged has had everything delivered |
| Scenarios.ByteCanBeLost | libsponge/stream_reassembler.cc:26-75 | a run in which a bare FIN overtakes data, all in the order of emission: a byte is sent and retired, never delivered, and the output has ended |
| Carelessness.CarelessExactly | libsponge/stream_reassembler.cc:26-75 | after a bare FIN past a hole, with nothing of the last data there, some continuation ends the output before it is complete if and only if that data is not all that is missing, or nothing has been assembled |
| Progress.CatchUp | libsponge/stream_reassembler.cc:20-77 | while the network still holds a copy of every outstanding segment, delivering them in order, with reads in between and the FIN repeated where its mark was lost, assembles all of them |
| Progress.EndLostForGood | libsponge/stream_reassembler.cc:31-36 | once everything is assembled with the end unnoticed, and the FIN came with data, no continuation of any kind ends the stream |
| Progress.EndReachable | libsponge/stream_reassembler.cc:26-75 | while the network still holds a copy of every segment, a sent FIN can still end the stream in some run if and only if it came alone, the stream has ended already, or some byte is still to be assembled |
| Progress.FinalPushMarks | libsponge/stream_reassembler.cc:26-27 | repeating the final substring before the output is complete ends the stream or restores its mark |
| Scenarios.FinCanBeMissed | libsponge/stream_reassembler.cc:26-36 | a run, careful throughout, after which all of the stream is assembled and no continuation ends the output |
| Retransmission.Reemits | libsponge/tcp_sender.cc:111-123 | some lapse of time makes the clock emit the oldest outstanding segment once more and changes nothing else but timer and count |
| Retransmission.ClockCompletes | libsponge/tcp_sender.cc:33-123 | from every sound state, a run in which segments arrive only when the clock has just re-emitted them: every accepted byte not written past a FIN is cut and delivered, and every segment is retired and an ended stream has ended at the receiver if and only if the end was not lost before |
| Retransmission.LostForTheOldest | libsponge/stream_reassembler.cc:26-36 | a lost end stays lost in every run that delivers only oldest outstanding segments |
| Retransmission.EndByOldest | libsponge/tcp_sender.cc:111-123 | a sent FIN ends the stream in some run of oldest segments if and only if it is not lost: neither passed unnoticed nor overtaken |
| Scenarios.FinCanBeOvertaken | libsponge/stream_reassembler.cc:26-36 | a careful run after which some byte is still to come and yet no run of oldest segments ends the output |
| FlowControl.HeardEdgeHolds | libsponge/tcp_receiver.cc:35-48 | reports heard in order never move the right edge the sender works with back |
| FlowControl.SentWithinWindow | libsponge/tcp_sender.cc:33-108 | with acknowledgments in order, in every run, every segment sent ends inside the receiver's window but for the one byte that probes an empty one, and the data of a FIN segment ends inside it |
| FlowControl.FinNeverMissed | libsponge/stream_reassembler.cc:26-36 | with acknowledgments in order the end is never lost, in any reachable state |
| FlowControl.CarefulExactly | libsponge/stream_reassembler.cc:26-27 | with acknowledgments in order a delivery keeps the end marks truthful if and only if it is no bare FIN past a hole |
| FlowControl.OrderedCompletes | libsponge/tcp_sender.cc:33-123 | with acknowledgments in order and no such FIN, every reachable state is completed by the clock alone, acknowledgments still in order: every accepted byte not written past a FIN is delivered, the stream ended and every segment retired |
| ConnectionObjects.TCPConnection.SegmentReceived | libsponge/tcp_connection.cc:23-63 | the whole reaction to a segment as one step function; `AnswerExact`, `AckTaken`, `ResetObeyed` and the `Step` laws say what it does |
| ConnectionObjects.TCPConnection.Write | libsponge/tcp_connection.cc:67-72 | writes what fits, fills the window, sends, and returns the count |
| ConnectionObjects.TCPConnection.Tick | libsponge/tcp_connection.cc:75-92 | time, retransmission, giving up, closing and sending |
| ConnectionObjects.TCPConnection.EndInputStream | libsponge/tcp_connection.cc:94-99 | ends the outbound stream and sends |
| ConnectionObjects.TCPConnection.Connect | libsponge/tcp_connection.cc:101-105 | fills the window and sends |
| ConnectionObjects.TCPConnection.SendSegs | libsponge/tcp_connection.cc:120-146 | drains pending segments, or one empty one, with feedback and RST filled in |
| ConnectionObjects.TCPConnection.CleanShutdown | libsponge/tcp_connection.cc:148-168 | the linger flag and the four conditions for closing; `LingerExactly`, `EndsExactly` and `TimeWaitKept` say when they are met |
| ConnectionObjects.TCPConnection.Destroy | libsponge/tcp_connection.cc:107-118 | an active connection is reset when destroyed |
| ConnectionProofs.RunInv | libsponge/tcp_connection.cc:23-168 | every reachable connection, with any peer, keeps the sender's, receiver's and status invariants |
| ConnectionProofs.StepInv | libsponge/tcp_connection.cc:23-168 | each call keeps these invariants |
| ConnectionLaws.HandsOverAll | libsponge/tcp_connection.cc:120-146 | everything pending is handed over in order, or one empty segment if nothing was, each with the receiver's number and window if there is one and RST exactly if resetting; nothing stays pending |
| ConnectionLaws.AnswerExact | libsponge/tcp_connection.cc:46-61 | a segment taken in is answered if and only if it takes up sequence space and the peer's FIN is not acknowledged already (or it is a FIN); the answer leaves nothing pending and each segment of it carries the number and window of the receiver after the arrival |
| ConnectionLaws.StepMarks | libsponge/tcp_connection.cc:23-168 | every call, exactly: clock, wish to linger, reset mark, and whether the connection goes on |
| CallProofs.StepHalves | libsponge/tcp_connection.cc:23-146 | every call, exactly: how each half moves and fails, and which segments are handed over with which feedback |
| CallProofs.StepSigns | libsponge/tcp_connection.cc:23-146 | every call, exactly: when the connection counts as opened, which FIN it remembers, and when that counts as acknowledged |
| CallProofs.PastFinMeans | libsponge/tcp_connection.cc:130-135 | before the numbers wrap, the test for having acknowledged the FIN holds if and only if something of the FIN segment has been received |
| CallProofs.AckTaken | libsponge/tcp_connection.cc:46-53 | before the numbers wrap, an arriving acknowledgment retires exactly the segments it covers and its window is taken; without one, or with one for what was never sent, the sender is left alone |
| CallProofs.OutboundExact | libsponge/tcp_connection.cc:67-99 | the outbound stream grows by what fits of each write and ends when told to; no other call touches it |
| RunProofs.OutboundIsWritten | libsponge/tcp_connection.cc:67-99 | over any run the outbound stream is what was written, as far as each write fitted, and has ended if and only if it was told to |
| RunProofs.TimeIsWaited | libsponge/tcp_connection.cc:34-78 | over any run the clock is the milliseconds ticked since the last segment let in |
| RunProofs.LingerExactly | libsponge/tcp_connection.cc:148-158 | over any run the connection means to linger if and only if no call that looked found the inbound stream ended and the outbound one not at its end |
| RunProofs.LingerFromStreams | libsponge/tcp_connection.cc:157-158 | over any run in which nothing was overlooked, it means to linger if and only if no state of the run had the inbound stream ended and the outbound one not at its end |
| LingerScenario.LingerNotCleared | libsponge/tcp_connection.cc:49-62 | a run that ends with the inbound stream over, the outbound one not, and the wish to linger still set |
| RunProofs.EndsExactly | libsponge/tcp_connection.cc:148-168 | a connection ends at a call if and only if it is reset, or the call looks and finds everything sent, received and acknowledged with ten timeouts waited or no wish to linger |
| RunProofs.TimeWaitKept | libsponge/tcp_connection.cc:157-163 | over any run, an end that was not reset, and whose stream was never behind the peer's, closed only after ten timeouts in which nothing was let in |
| HandshakeProofs.ConnectSends | libsponge/tcp_connection.cc:101-105 | connecting sends one bare SYN with the initial number and no acknowledgment |
| HandshakeProofs.PassiveOpen | libsponge/tcp_connection.cc:26-61 | a listening end answers a bare SYN with one SYN of its own that acknowledges it |
| HandshakeProofs.ThreeWayHandshake | libsponge/tcp_connection.cc:23-105 | any two fresh ends pass through LISTEN, SYN_SENT and SYN_RCVD to ESTABLISHED in three segments; an end whose initial number is the last of all stays in SYN_RCVD |
| HandshakeProofs.SimultaneousOpen | libsponge/tcp_connection.cc:23-105 | two fresh ends that call at once reach ESTABLISHED too, with the same exception |
| ResetProofs.ResetObeyed | libsponge/tcp_connection.cc:24-44 | an arriving RST fails both streams, deactivates the connection and is not answered; before any SYN it changes nothing |
| ResetProofs.DestroyResets | libsponge/tcp_connection.cc:107-118 | destroying an active connection resets it and everything it then emits, at least one segment, carries RST; an inactive one is left alone |
| ResetProofs.StrikeExact | libsponge/tcp_connection.cc:75-92 | when the clock strikes the oldest segment goes out again; if the strike counts and eight went before it does so with RST and the connection is reset, and otherwise it waits on |
| ResetProofs.GivesUpOnNinth | libsponge/tcp_connection.cc:80-83 | with no answer and an open window, eight strikes leave the connection waiting and the ninth resets it |
| ResetProofs.ProbesForEver | libsponge/tcp_connection.cc:75-92 | into a closed window it retransmits for ever, with the same timeout, and never resets |
| ConnectionProofs.InactiveMeans | libsponge/tcp_connection.cc:148-168 | a reachable inactive connection is RESET if reset; otherwise FIN acknowledged with next_seqno = bytes read + 2, nothing in flight, inbound complete, lingered if it had to, and CLOSED if and only if nothing was written past the FIN |
| ConnectionProofs.CleanCloseNeverWrapped | libsponge/tcp_connection.cc:160-166 | a cleanly closed connection has not wrapped its numbers |
| ClosingScenario.CleanCloseNotClosed | libsponge/tcp_connection.cc:148-168 | a run that closes cleanly and is not CLOSED, after one byte written past the FIN |
| Peers.StepSender | libsponge/tcp_connection.cc:23-168 | every call moves the sending half by its own events and at most the acknowledgment it was given |
| Peers.StepReceiver | libsponge/tcp_connection.cc:23-168 | every call gives the receiving half what it was given and nothing else, but for the error mark of a reset |
| Peers.StepEmits | libsponge/tcp_connection.cc:120-146 | every call emits only segments that were first sent, or empty ones, stamped with the receiver's feedback of the moment |
| PeerProofs.StepBound | libsponge/tcp_connection.cc:23-168 | a call of one connection keeps both directions safe, empty segments with sequence number 0 included |
| PeerProofs.StepSure | libsponge/tcp_connection.cc:23-168 | and keeps both directions free of loss when final segments keep their last byte |
| PeerProofs.PeersReceivePrefixes | libsponge/tcp_connection.cc:23-168 | two connections over any network: at any time each has received a prefix of what the other's application wrote |
| PeerProofs.CleanCloseIsMutual | libsponge/tcp_connection.cc:148-168 | once either has closed cleanly, both directions are complete at both ends, and CLOSED means the other end has every byte ever written |
| ConnectionProofs.BackoffBounded | libsponge/tcp_connection.cc:75-86 | in every reachable state the timeout is the configured one times 2^retransmissions, at most nine of them and eight while active |
| StateProofs.SummaryMeaning | libsponge/tcp_helpers/tcp_state.cc:94-110 | the sender's summary in terms of what was sent and retired |
| StateProofs.SummaryForward | libsponge/tcp_helpers/tcp_state.cc:94-110 | a step moves the summary back if and only if it writes past the FIN |
| StateProofs.RunForward | libsponge/tcp_helpers/tcp_state.cc:94-110 | over any run without such a write the summary only moves forward |
| StateNames.NameMeaning | libsponge/tcp_helpers/tcp_state.cc:17-110 | each of the twelve names, if and only if: what was sent and acknowledged, what was heard, and how the connection stands |
| StateNames.NamesDiffer | libsponge/tcp_helpers/tcp_state.cc:17-74 | no connection has two names |
| ConnectionProofs.ClosedSummary | libsponge/tcp_helpers/tcp_state.cc:61-92 | a clean inactive connection equals the official CLOSED state if and only if its stream is drained |
| Buffers.RawBuffer.RemovePrefix | libsponge/util/buffer.cc:5-13 | succeeds if and only if there are enough bytes, and drops exactly those |
| Buffers.BufferList.Append | libsponge/util/buffer.cc:15-19 | concatenates the contents |
| Buffers.BufferList.ToBuffer | libsponge/util/buffer.cc:21-32 | succeeds if and only if there is at most one chunk |
| Buffers.BufferList.Concatenate | libsponge/util/buffer.cc:34-41 | the flat string |
| Buffers.BufferList.Size | libsponge/util/buffer.cc:43-49 | its length |
| Buffers.BufferList.RemovePrefix | libsponge/util/buffer.cc:51-65 | for any chunking, empty chunks included, drops exactly n bytes, and fails if and only if there were fewer |
| Checksums.InternetChecksum.Add | libsponge/util/util.cc:89-98 | the 32-bit running sum and the parity after any chunk |
| Checksums.InternetChecksum.Value | libsponge/util/util.cc:100-108 | the complement of the folded sum |
| Checksums.WordSumAppend | libsponge/util/util.cc:89-98 | summing chunk by chunk, odd lengths included, equals summing the whole |
| Checksums.FoldClosed | libsponge/util/util.cc:103-105 | folding is reduction modulo 65535, with 65535 for non-zero multiples |
| Checksums.ComplementVerifies | libsponge/util/util.cc:100-108 | adding the checksum to any 32-bit sum does not overflow and folds to all ones |
| Parsing.NetParser.ParseInt | libsponge/util/parser.cc:26-43 | big-endian value and consumption, sticky error and zero past the end |
| Parsing.NetParser.RemovePrefix | libsponge/util/parser.cc:45-51 | skips bytes or records the error |
| Parsing.UnparseInt | libsponge/util/parser.cc:53-60 | appends the base-256 digits, most significant first |
| Parsing.DecodeEncode | libsponge/util/parser.cc:26-60 | decoding the digits of a number of that width gives the number |
| Parsing.TakeEncoded | libsponge/util/parser.cc:26-60 | reading back what was written gives the value and the rest |
| TcpWireMethods.ParseTcpHeader | libsponge/tcp_helpers/tcp_header.cc:17-48 | the field-by-field parse computes the parsing function |
| TcpWireMethods.SerializeTcpHeader | libsponge/tcp_helpers/tcp_header.cc:51-78 | the field-by-field print computes the printing function |
| TcpWireMethods.ParseTcpSegment | libsponge/tcp_helpers/tcp_segment.cc:12-23 | checksum first, then header, then payload |
| TcpWireMethods.SerializeTcpSegment | libsponge/tcp_helpers/tcp_segment.cc:30-45 | header with computed checksum, then payload |
| TcpWire.HeaderRoundTrip | libsponge/tcp_helpers/tcp_header.cc:17-78 | a printed header of expressible length parses back to itself with the rest untouched |
| TcpWire.PrintedVerifies | libsponge/tcp_helpers/tcp_segment.cc:12-45 | every printed segment passes the checksum test, for any payload and pseudo-header sum |
| TcpWire.SegmentRoundTrip | libsponge/tcp_helpers/tcp_segment.cc:12-45 | print then parse returns the segment with its checksum filled in, if and only if the header length fits its field |
| WireLayout.TcpParsed | libsponge/tcp_helpers/tcp_header.cc:17-48 | parsing any twenty bytes or more finds every field at its place in RFC 793, and the verdict and the rest are given by the length field |
| WireLayout.TcpPrinted | libsponge/tcp_helpers/tcp_header.cc:51-78 | printing puts every field at that place, unused bits zero |
| WireLayout.SegmentVerdict | libsponge/tcp_helpers/tcp_segment.cc:12-23 | for any bytes: refused if the sum is bad, too short exactly if shorter than the header or its length field, and otherwise the fields and the payload after them |
| WireLayout.CorruptionDetected | libsponge/tcp_helpers/tcp_segment.cc:12-23 | one changed sixteen-bit word makes an accepted segment refused if and only if it is not a change between the two forms of zero |
| Ipv4WireMethods.ParseIpv4Header | libsponge/tcp_helpers/ipv4_header.cc:23-75 | the parse with its checks in order computes the parsing function |
| Ipv4WireMethods.CheckFields | libsponge/tcp_helpers/ipv4_header.cc:49-74 | version, lengths, options and checksum, judged in order |
| Ipv4WireMethods.SerializeIpv4Header | libsponge/tcp_helpers/ipv4_header.cc:78-110 | the field-by-field print computes the printing function |
| Ipv4WireMethods.ParseIpv4Datagram | libsponge/tcp_helpers/ipv4_datagram.cc:11-21 | the header's verdict dropped, payload size and parser error reported |
| Ipv4WireMethods.SerializeIpv4Datagram | libsponge/tcp_helpers/ipv4_datagram.cc:23-41 | refusal of a wrong payload size, header checksum, payload |
| Ipv4Wire.DatagramRoundTrip | libsponge/tcp_helpers/ipv4_datagram.cc:11-41 | print then parse returns the datagram with its checksum, if and only if the format can express it |
| Ipv4Wire.PrintedHeaderAccepted | libsponge/tcp_helpers/ipv4_header.cc:23-75 | the header parser accepts every printed datagram whose header length is expressible and whose total length covers its header, checksum included |
| WireLayout.IpParsed | libsponge/tcp_helpers/ipv4_header.cc:23-75 | for any bytes: the verdict is the first fault there is, every field is found at its place in RFC 791, and the payload is left |
| WireLayout.IpPrinted | libsponge/tcp_helpers/ipv4_header.cc:78-110 | printing puts every field at that place and leaves no fault |
| WireLayout.DatagramVerdict | libsponge/tcp_helpers/ipv4_datagram.cc:11-21 | a datagram whose only fault is its header checksum is taken like a good one |
| WireLayout.PseudoIsPseudoHeader | libsponge/tcp_helpers/ipv4_header.cc:125-131 | the pseudo-header sum is the word sum of addresses, protocol and length laid out as RFC 793 has them |
| WireLayout.Refusals | libsponge/tcp_helpers/ipv4_datagram.cc:23-30 | exactly which headers and datagrams cannot be printed |
| TcpOverIp.TCPOverIPv4Adapter.UnwrapTcpInIp | libsponge/tcp_helpers/tcp_over_ip.cc:26-71 | all filters in order, and locking on to the first SYN when listening; `FilterExact`, `LocksOn` and `StrangersKeptOut` say what gets through and who is faced afterwards |
| TcpOverIp.TCPOverIPv4Adapter.WrapTcpInIp | libsponge/tcp_helpers/tcp_over_ip.cc:75-90 | ports set in the caller's segment, addresses, 16-bit length and payload |
| TcpOverIp.TransmitExact | libsponge/tcp_helpers/tcp_over_ip.cc:26-90 | wrapped, printed, parsed and unwrapped by the mirrored or listening adapter, a segment is returned unchanged but for ports and checksum, if and only if its header length is expressible and it fits |
| TcpOverIp.FilterExact | libsponge/tcp_helpers/tcp_over_ip.cc:26-71 | a segment comes out if and only if the datagram parses and is let in, and it is the one inside; only a listening adapter changes, and then faces whoever sent it |
| TcpOverIp.LocksOn | libsponge/tcp_helpers/tcp_over_ip.cc:53-64 | a listening adapter that takes in a SYN over the wire becomes the mirror of the one that sent it |
| TcpOverIp.Converse | libsponge/tcp_helpers/tcp_over_ip.cc:26-90 | from then on every segment that fits arrives, either way, and neither adapter changes again |
| TcpOverIp.StrangersKeptOut | libsponge/tcp_helpers/tcp_over_ip.cc:26-69 | nothing wrapped by a third party gets through to an adapter that is not listening |

## Left out

- NoLoss.NothingIsLost: assumes that a FIN segment reaching the reassembler satisfies `FinKept`; without it the code can
  lose a byte, as `ByteCanBeLost` shows. `CarefulExactly` says what the assumption comes to.
- PeerProofs.CleanCloseIsMutual: assumes the same of both directions, and fewer than 2^31 - 2 bytes written each way.
- PeerProofs.PeersReceivePrefixes: assumes fewer than 2^31 - 2 bytes written each way.
- FlowControl.SentWithinWindow: assumes a receive capacity below 2^16, acknowledgments heard in the order of their
  emission (lost and repeated ones allowed), and unwrapped numbers; the theorems of the other files have no such order.
- EndToEnd.DeliveredIsPrefix: assumes that a delivered segment is less than 2^31 positions from the bytes written and that
  64-bit counters do not overflow; sequence numbers are ambiguous beyond that. `ShortStreamsDeliverPrefix` does without.
- Retransmission.ClockCompletes: assumes a receive capacity of at least one full payload and a stream short enough that
  its numbers neither wrap nor span 2^31 - 1; past the boundary nothing more is retired (`WrappedRetiresNothing`).
- Progress.EndReachable: speaks of a network that still holds a copy of every segment; `EndByOldest` does without.
- Carelessness.CarelessExactly: assumes that nothing of the last data is held and that the window has room for it.
- WindowProofs.RunRespectsWindow: assumes unwrapped numbers and a peer that takes no window back; `ShrunkWindowOverruns`
  and `FillBounded` say what happens otherwise.
- Reassembly.StreamReassembler.PushSubstring: 64-bit overflow of `index + data.size()` is not modelled; indices are
  unbounded there.
- Sending.TCPSender.SendSegment: 64-bit counters are unbounded; `bytesInFlight` is an integer proved non-negative.
- Segment payloads and datagram payloads are flat byte strings on the wire; sharing of storage between buffers is modelled
  only in `Buffers.dfy`.
- That two connections can always finish: a connection that has acknowledged the peer's FIN answers nothing but a FIN, so
  a peer whose oldest outstanding segment is data gets no answer. `CleanCloseIsMutual` says what a close means, not that
  there is one.
- `BufferViewList` repeats the loops of `BufferList` over views, and `as_iovecs` hands them to the system.
- `TCPSender::send_empty_segment` is never called by the connection and would queue a segment of length zero.
- The flag that records a close by the application is written and never read.
- Random choice of the initial sequence number: it is a parameter.
- Applications, sockets, event loop, file descriptors, tunnel and lossy adapters: system calls and threads. The network of
  the composed system covers loss.
- TimerProofs.SilentExactly: assumes that the ticks and the time already run add up to less than 2^32 milliseconds, where
  the timer's own sum would wrap; `BacksOff` likewise bounds the backed-off timeout and the 16-bit count.
- CallProofs.AckTaken: assumes unwrapped numbers; `HonouredExactly` says what an acknowledgment does past the boundary.
- WireLayout.CorruptionDetected: assumes a running sum below 2^32, which any segment that fits a datagram has.
- Urgent data, TCP and IP options and fragmentation are carried or skipped, never acted on, as in the original.
- Textual summaries, hex dumps and logging.
