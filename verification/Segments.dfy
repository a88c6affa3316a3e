/** TCP segments as the transport layer sees them. */
module Segments {
  import opened Common

  datatype Header = Header(
    sport: U16, dport: U16, seqno: U32, ackno: U32, doff: U8,
    urg: bool, ack: bool, psh: bool, rst: bool, syn: bool, fin: bool,
    win: U16, cksum: U16, uptr: U16)

  datatype Segment = Segment(header: Header, payload: Bytes)

  const DEFAULT_HEADER: Header :=
    Header(0, 0, 0, 0, 5, false, false, false, false, false, false, 0, 0, 0)

  const MAX_PAYLOAD_SIZE: nat := 1452
  const MAX_RETX_ATTEMPTS: nat := 8

  /** Sequence numbers a segment occupies: its bytes, and one each for SYN and FIN. */
  function SeqLength(seg: Segment): nat {
    |seg.payload| + (if seg.header.syn then 1 else 0) + (if seg.header.fin then 1 else 0)
  }
}
