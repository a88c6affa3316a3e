/** TCP segments wrapped in IPv4 datagrams, and the filter that takes them out again. */
module TcpOverIp {
  import opened Common
  import opened Segments
  import opened Parsing
  import opened TcpWire
  import TcpWireMethods
  import opened Ipv4Wire

  datatype Endpoint = Endpoint(address: U32, port: U16)

  datatype Adapter = Adapter(source: Endpoint, destination: Endpoint, listening: bool)

  function WithPorts(seg: Segment, a: Adapter): Segment {
    seg.(header := seg.header.(sport := a.source.port, dport := a.destination.port))
  }

  /** The IP header of a wrapped segment; its length field has sixteen bits. */
  function OuterHeader(a: Adapter, seg: Segment): IpHeader {
    DEFAULT_IP_HEADER.(src := a.source.address, dst := a.destination.address,
                       len := (20 + seg.header.doff * 4 + |seg.payload|) % TWO16)
  }

  function WrapTcp(a: Adapter, seg: Segment): Option<Datagram> {
    var h := OuterHeader(a, seg);
    match SerializeSegment(WithPorts(seg, a), PseudoChecksum(h))
    case Some(bytes) => Some(Datagram(h, bytes))
    case None => None
  }

  /** The segment inside, if the datagram is for us; a listening adapter locks on to the first SYN. */
  function UnwrapTcp(a: Adapter, d: Datagram): (Option<Segment>, Adapter) {
    if !a.listening && (d.header.dst != a.source.address || d.header.src != a.destination.address) then (None, a)
    else if d.header.proto != PROTO_TCP then (None, a)
    else
      var (res, parsed) := ParseSegment(d.payload, PseudoChecksum(d.header));
      if res != NoError || parsed.None? then (None, a)
      else
        var seg := parsed.value;
        if seg.header.dport != a.source.port then (None, a)
        else if a.listening && !(seg.header.syn && !seg.header.rst) then (None, a)
        else
          var b := if a.listening
                   then Adapter(Endpoint(d.header.dst, a.source.port), Endpoint(d.header.src, seg.header.sport), false)
                   else a;
          if seg.header.sport != b.destination.port then (None, b) else (Some(seg), b)
  }

  class TCPOverIPv4Adapter {
    var source: Endpoint
    var destination: Endpoint
    var listening: bool

    ghost function Value(): Adapter
      reads this
    {
      Adapter(source, destination, listening)
    }

    constructor (source: Endpoint, destination: Endpoint, listening: bool)
      ensures Value() == Adapter(source, destination, listening)
    {
      this.source, this.destination, this.listening := source, destination, listening;
    }

    method UnwrapTcpInIp(d: Datagram) returns (r: Option<Segment>)
      modifies this
      ensures (r, Value()) == UnwrapTcp(old(Value()), d)
    {
      if !listening && d.header.dst != source.address {
        return None;
      }
      if !listening && d.header.src != destination.address {
        return None;
      }
      if d.header.proto != PROTO_TCP {
        return None;
      }
      var res, parsed := TcpWireMethods.ParseTcpSegment(d.payload, PseudoChecksum(d.header));
      if res != NoError || parsed.None? {
        return None;
      }
      var seg := parsed.value;
      if seg.header.dport != source.port {
        return None;
      }
      if listening {
        if seg.header.syn && !seg.header.rst {
          source := Endpoint(d.header.dst, source.port);
          destination := Endpoint(d.header.src, seg.header.sport);
          listening := false;
        } else {
          return None;
        }
      }
      if seg.header.sport != destination.port {
        return None;
      }
      return Some(seg);
    }

    /** Also returns the segment itself, whose ports are set in the caller's hands. */
    method WrapTcpInIp(seg: Segment) returns (r: Option<Datagram>, out: Segment)
      ensures r == WrapTcp(Value(), seg)
      ensures out == WithPorts(seg, Value())
    {
      out := WithPorts(seg, Adapter(source, destination, listening));
      var h := OuterHeader(Adapter(source, destination, listening), out);
      var bytes := TcpWireMethods.SerializeTcpSegment(out, PseudoChecksum(h));
      if bytes.None? {
        return None, out;
      }
      return Some(Datagram(h, bytes.value)), out;
    }
  }

  // ---------- from one adapter to the other ----------

  /** Wrapped and printed at one end, parsed and unwrapped at the other: the segment that comes out, and the receiving
      adapter afterwards. */
  function Carry(a: Adapter, b: Adapter, seg: Segment): (Option<Segment>, Adapter) {
    match WrapTcp(a, seg)
    case None => (None, b)
    case Some(d) =>
      match SerializeDatagram(d)
      case None => (None, b)
      case Some(bytes) =>
        var (res, e) := ParseDatagram(bytes);
        if res != NoError then (None, b) else UnwrapTcp(b, e)
  }

  function Transmit(a: Adapter, b: Adapter, seg: Segment): Option<Segment> {
    Carry(a, b, seg).0
  }

  /** The other end of `a`'s connection. */
  function Mirror(a: Adapter): Adapter {
    Adapter(a.destination, a.source, false)
  }

  /** `b` is the other end of `a`'s connection, or listens on the port `a` calls. */
  predicate Mirrored(a: Adapter, b: Adapter, seg: Segment) {
    && b.source.port == a.destination.port
    && (if b.listening then seg.header.syn && !seg.header.rst
        else b.source == a.destination && b.destination == a.source)
  }

  function Expected(a: Adapter, seg: Segment): Segment
    requires seg.header.doff >= 5
  {
    WithChecksum(WithPorts(seg, a), PseudoChecksum(OuterHeader(a, seg)))
  }

  lemma OuterFacts(a: Adapter, seg: Segment)
    requires seg.header.doff >= 5
    ensures WrapTcp(a, seg).Some?
    ensures var d := WrapTcp(a, seg).value;
            && d == Datagram(OuterHeader(a, seg),
                             SerializeSegment(WithPorts(seg, a), PseudoChecksum(OuterHeader(a, seg))).value)
            && |d.payload| == 4 * seg.header.doff + |seg.payload|
            && (Printable(d) <==> 4 * seg.header.doff + |seg.payload| < TWO16)
  {
    var h := OuterHeader(a, seg);
    SegmentLength(WithPorts(seg, a), PseudoChecksum(h));
  }

  lemma SegmentLength(seg: Segment, pseudo: U32)
    requires seg.header.doff >= 5
    ensures |SerializeSegment(seg, pseudo).value| == 4 * seg.header.doff + |seg.payload|
  {}

  /** A segment that fits in a datagram arrives at the other end unchanged but for ports and checksum; it fails to
      exactly when its header length cannot be expressed or it is too long. */
  lemma TransmitExact(a: Adapter, b: Adapter, seg: Segment)
    requires seg.header.doff >= 5 && Mirrored(a, b, seg)
    ensures Transmit(a, b, seg) == Some(Expected(a, seg))
            <==> seg.header.doff <= 15 && 4 * seg.header.doff + |seg.payload| < TWO16
  {
    OuterFacts(a, seg);
    var d := WrapTcp(a, seg).value;
    if Printable(d) {
      DatagramRoundTrip(d);
      var e := d.(header := WithIpChecksum(d.header));
      assert ParseDatagram(SerializeDatagram(d).value) == (NoError, e);
      assert Transmit(a, b, seg) == UnwrapTcp(b, e).0;
      UnwrapExact(a, b, seg, e);
    }
  }

  lemma UnwrapExact(a: Adapter, b: Adapter, seg: Segment, e: Datagram)
    requires seg.header.doff >= 5 && Mirrored(a, b, seg)
    requires e.header.(cksum := 0) == OuterHeader(a, seg)
    requires e.payload == SerializeSegment(WithPorts(seg, a), PseudoChecksum(OuterHeader(a, seg))).value
    ensures UnwrapTcp(b, e).0 == Some(Expected(a, seg)) <==> seg.header.doff <= 15
  {
    var pseudo := PseudoChecksum(e.header);
    assert pseudo == PseudoChecksum(OuterHeader(a, seg));
    SegmentRoundTrip(WithPorts(seg, a), pseudo);
  }

  // ---------- the filter and the lock-on ----------

  /** The addresses, ports and flags that `a` lets in. */
  predicate LetsIn(a: Adapter, h: IpHeader, seg: Segment) {
    && h.proto == PROTO_TCP && seg.header.dport == a.source.port
    && (if a.listening then seg.header.syn && !seg.header.rst
        else h.dst == a.source.address && Endpoint(h.src, seg.header.sport) == a.destination)
  }

  /** A segment comes out if and only if the datagram parses and is let in, and it is the one inside. The adapter stays
      as it is unless it was listening and let a segment in, and then it faces whoever sent it. */
  lemma FilterExact(a: Adapter, d: Datagram)
    ensures var (res, parsed) := ParseSegment(d.payload, PseudoChecksum(d.header));
            var (out, b) := UnwrapTcp(a, d);
            && (out.Some? <==> res == NoError && parsed.Some? && LetsIn(a, d.header, parsed.value))
            && (out.Some? ==> out == parsed)
            && b == (if a.listening && out.Some?
                     then Adapter(Endpoint(d.header.dst, a.source.port),
                                  Endpoint(d.header.src, out.value.header.sport), false)
                     else a)
  {}

  predicate Fits(seg: Segment) {
    5 <= seg.header.doff <= 15 && 4 * seg.header.doff + |seg.payload| < TWO16
  }

  lemma CarryUnwraps(a: Adapter, b: Adapter, seg: Segment)
    requires Fits(seg)
    ensures var d := WrapTcp(a, seg);
            && d.Some? && Printable(d.value)
            && d.value == Datagram(OuterHeader(a, seg),
                                   SerializeSegment(WithPorts(seg, a), PseudoChecksum(OuterHeader(a, seg))).value)
            && Carry(a, b, seg) == UnwrapTcp(b, d.value.(header := WithIpChecksum(d.value.header)))
  {
    OuterFacts(a, seg);
    DatagramRoundTrip(WrapTcp(a, seg).value);
  }

  /** A listening adapter that takes in a SYN becomes the mirror of the one that sent it. */
  lemma LocksOn(a: Adapter, b: Adapter, seg: Segment)
    requires Fits(seg) && b.listening && Mirrored(a, b, seg)
    ensures Carry(a, b, seg) == (Some(Expected(a, seg)), Mirror(a))
  {
    TransmitExact(a, b, seg);
    CarryUnwraps(a, b, seg);
  }

  /** From then on every segment arrives, either way, and neither adapter changes again. */
  lemma Converse(a: Adapter, b: Adapter, syn: Segment, seg: Segment)
    requires !a.listening && b.listening && Fits(syn) && Mirrored(a, b, syn) && Fits(seg)
    ensures var c := Carry(a, b, syn).1;
            && Carry(a, c, seg) == (Some(Expected(a, seg)), c)
            && Carry(c, a, seg) == (Some(Expected(c, seg)), a)
  {
    LocksOn(a, b, syn);
    Arrives(a, Mirror(a), seg);
    Arrives(Mirror(a), a, seg);
  }

  lemma Arrives(a: Adapter, b: Adapter, seg: Segment)
    requires Fits(seg) && !b.listening && b == Mirror(a).(listening := false)
    ensures Carry(a, b, seg) == (Some(Expected(a, seg)), b)
  {
    TransmitExact(a, b, seg);
    CarryUnwraps(a, b, seg);
  }

  /** Nothing from a third party gets through to an adapter that is not listening. */
  lemma StrangersKeptOut(c: Adapter, b: Adapter, seg: Segment)
    requires Fits(seg) && !b.listening && !(c.destination == b.source && c.source == b.destination)
    ensures Carry(c, b, seg) == (None, b)
  {
    CarryUnwraps(c, b, seg);
    var d := WrapTcp(c, seg).value;
    var e := d.(header := WithIpChecksum(d.header));
    Inside(c, seg, e);
    FilterExact(b, e);
  }

  /** What a wrapped segment holds, however it is addressed. */
  lemma Inside(a: Adapter, seg: Segment, e: Datagram)
    requires Fits(seg) && e.header.(cksum := 0) == OuterHeader(a, seg)
    requires e.payload == SerializeSegment(WithPorts(seg, a), PseudoChecksum(OuterHeader(a, seg))).value
    ensures ParseSegment(e.payload, PseudoChecksum(e.header)) == (NoError, Some(Expected(a, seg)))
    ensures Expected(a, seg).header.sport == a.source.port && Expected(a, seg).header.dport == a.destination.port
  {
    assert PseudoChecksum(e.header) == PseudoChecksum(OuterHeader(a, seg));
    SegmentRoundTrip(WithPorts(seg, a), PseudoChecksum(e.header));
  }
}
