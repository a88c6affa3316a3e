/** IPv4 datagrams on the wire, section 3.1 of RFC 791. */
module Ipv4Wire {
  import opened Common
  import opened Checksums
  import opened Parsing
  import opened TcpWire

  const PROTO_TCP: U8 := 6

  datatype IpHeader = IpHeader(
    ver: U8, hlen: U8, tos: U8, len: U16, id: U16, df: bool, mf: bool, offset: U16,
    ttl: U8, proto: U8, cksum: U16, src: U32, dst: U32)

  datatype Datagram = Datagram(header: IpHeader, payload: Bytes)

  const DEFAULT_IP_HEADER: IpHeader := IpHeader(4, 5, 0, 0, 0, true, false, 0, 128, PROTO_TCP, 0, 0, 0)

  function PayloadLength(h: IpHeader): U16 {
    (h.len - 4 * h.hlen) % TWO16
  }

  /** The pseudo-header's share of the TCP checksum. */
  function PseudoChecksum(h: IpHeader): U32 {
    h.src / TWO16 + h.src % TWO16 + h.dst / TWO16 + h.dst % TWO16 + h.proto + PayloadLength(h)
  }

  // ---------- printing ----------

  function FirstByte(h: IpHeader): U8 {
    h.ver % 16 * 16 + h.hlen % 16
  }

  function FragmentWord(h: IpHeader): U16 {
    Bit(h.df, 0x4000) + Bit(h.mf, 0x2000) + h.offset % 0x2000
  }

  /** The ten bytes before the checksum. */
  function IpHead(h: IpHeader): (r: Bytes)
    ensures |r| == 10
  {
    Encode(FirstByte(h), 1) + (Encode(h.tos, 1) + (Encode(h.len, 2) + (Encode(h.id, 2) +
    (Encode(FragmentWord(h), 2) + (Encode(h.ttl, 1) + Encode(h.proto, 1))))))
  }

  function IpTail(h: IpHeader): Bytes
    requires h.hlen >= 5
  {
    Encode(h.src, 4) + (Encode(h.dst, 4) + Zeros(4 * h.hlen - HEADER_LENGTH))
  }

  /** Refused, as an exception in the original, for another version or a size below the minimum. */
  function SerializeIpHeader(h: IpHeader): Option<Bytes> {
    if h.ver != 4 || 4 * h.hlen < HEADER_LENGTH then None else Some(IpHead(h) + (Encode(h.cksum, 2) + IpTail(h)))
  }

  predicate Printable(d: Datagram) {
    |d.payload| == PayloadLength(d.header) && d.header.ver == 4 && d.header.hlen >= 5
  }

  function WithIpChecksum(h: IpHeader): IpHeader
    requires h.ver == 4 && h.hlen >= 5
  {
    var sum := WordSum(SerializeIpHeader(h.(cksum := 0)).value, false) % TWO32;
    FoldClosed(sum);
    h.(cksum := 0xffff - Fold(sum))
  }

  function SerializeDatagram(d: Datagram): Option<Bytes> {
    if !Printable(d) then None else Some(SerializeIpHeader(WithIpChecksum(d.header)).value + d.payload)
  }

  // ---------- parsing ----------

  /** Version and sizes, identification and fragment word, time to live and protocol. */
  function ParseIpFront(p: Parser): ((U8, U8, U16, U16, U16, U8, U8), Parser) {
    var (first, p1) := TakeU8(p);
    var (tos, p2) := TakeU8(p1);
    var (len, p3) := TakeU16(p2);
    var (id, p4) := TakeU16(p3);
    var (fo, p5) := TakeU16(p4);
    var (ttl, p6) := TakeU8(p5);
    var (proto, p7) := TakeU8(p6);
    ((first, tos, len, id, fo, ttl, proto), p7)
  }

  function ParseIpBack(p: Parser): ((U16, U32, U32), Parser) {
    var (cksum, p1) := TakeU16(p);
    var (src, p2) := TakeU32(p1);
    var (dst, p3) := TakeU32(p2);
    ((cksum, src, dst), p3)
  }

  function BuildIpHeader(f: (U8, U8, U16, U16, U16, U8, U8), b: (U16, U32, U32)): IpHeader {
    IpHeader(f.0 / 16, f.0 % 16, f.1, f.2, f.3, f.4 / 0x4000 % 2 == 1, f.4 / 0x2000 % 2 == 1, f.4 % 0x2000,
             f.5, f.6, b.0, b.1, b.2)
  }

  /** The checks on the fields of a packet `whole`, with the parser standing after its fixed part. */
  function JudgeIpHeader(h: IpHeader, whole: Bytes, p: Parser): (ParseResult, Parser) {
    if |whole| < 4 * h.hlen then (PacketTooShort, p)
    else if h.ver != 4 then (WrongIPVersion, p)
    else if h.hlen < 5 then (HeaderTooShort, p)
    else if |whole| != h.len then (TruncatedPacket, p)
    else
      var q := Skip(p, h.hlen * 4 - HEADER_LENGTH);
      if q.error != NoError then (q.error, q)
      else if Fold(WordSum(whole[..4 * h.hlen], false) % TWO32) != 0xffff then (BadChecksum, q)
      else (NoError, q)
  }

  /** `prev` is what the header held before; too short a packet leaves it alone. */
  function ParseIpHeader(p: Parser, prev: IpHeader): (ParseResult, IpHeader, Parser) {
    if |p.buffer| < HEADER_LENGTH then (PacketTooShort, prev, p)
    else
      var (f, p1) := ParseIpFront(p);
      var (b, p2) := ParseIpBack(p1);
      var h := BuildIpHeader(f, b);
      var (res, q) := JudgeIpHeader(h, p.buffer, p2);
      (res, h, q)
  }

  function Settle(h: IpHeader, p: Parser): (ParseResult, Datagram) {
    if |p.buffer| != PayloadLength(h) then (PacketTooShort, Datagram(h, p.buffer)) else (p.error, Datagram(h, p.buffer))
  }

  /** The header's own verdict is dropped; only the payload size and the parser's error count. */
  function ParseDatagram(bytes: Bytes): (ParseResult, Datagram) {
    var (_, h, p) := ParseIpHeader(Parser(bytes, NoError), DEFAULT_IP_HEADER);
    Settle(h, p)
  }

  // ---------- print, then parse ----------

  lemma IpHeadLayout(h: IpHeader, rest: Bytes)
    ensures IpHead(h) + rest ==
            Encode(FirstByte(h), 1) + (Encode(h.tos, 1) + (Encode(h.len, 2) + (Encode(h.id, 2) +
            (Encode(FragmentWord(h), 2) + (Encode(h.ttl, 1) + (Encode(h.proto, 1) + rest))))))
  {
    var x5 := Encode(h.ttl, 1) + Encode(h.proto, 1);
    var x4 := Encode(FragmentWord(h), 2) + x5;
    var x3 := Encode(h.id, 2) + x4;
    var x2 := Encode(h.len, 2) + x3;
    var x1 := Encode(h.tos, 1) + x2;
    Assoc(Encode(FirstByte(h), 1), x1, rest);
    Assoc(Encode(h.tos, 1), x2, rest);
    Assoc(Encode(h.len, 2), x3, rest);
    Assoc(Encode(h.id, 2), x4, rest);
    Assoc(Encode(FragmentWord(h), 2), x5, rest);
    Assoc(Encode(h.ttl, 1), Encode(h.proto, 1), rest);
  }

  lemma IpHeaderLayout(h: IpHeader, rest: Bytes)
    requires h.ver == 4 && h.hlen >= 5
    ensures SerializeIpHeader(h).value + rest ==
            IpHead(h) + (Encode(h.cksum, 2) + (Encode(h.src, 4) + (Encode(h.dst, 4) +
                          (Zeros(4 * h.hlen - HEADER_LENGTH) + rest))))
  {
    var z := Zeros(4 * h.hlen - HEADER_LENGTH);
    Assoc(IpHead(h), Encode(h.cksum, 2) + IpTail(h), rest);
    Assoc(Encode(h.cksum, 2), IpTail(h), rest);
    Assoc(Encode(h.src, 4), Encode(h.dst, 4) + z, rest);
    Assoc(Encode(h.dst, 4), z, rest);
  }

  lemma IpFrontRoundTrip(h: IpHeader, rest: Bytes)
    ensures ParseIpFront(Parser(IpHead(h) + rest, NoError))
            == ((FirstByte(h), h.tos, h.len, h.id, FragmentWord(h), h.ttl, h.proto), Parser(rest, NoError))
  {
    IpHeadLayout(h, rest);
    var r6 := Encode(h.proto, 1) + rest;
    var r5 := Encode(h.ttl, 1) + r6;
    var r4 := Encode(FragmentWord(h), 2) + r5;
    var r3 := Encode(h.id, 2) + r4;
    var r2 := Encode(h.len, 2) + r3;
    TakeU8Encoded(FirstByte(h), Encode(h.tos, 1) + r2);
    TakeU8Encoded(h.tos, r2);
    TakeU16Encoded(h.len, r3);
    TakeU16Encoded(h.id, r4);
    TakeU16Encoded(FragmentWord(h), r5);
    TakeU8Encoded(h.ttl, r6);
    TakeU8Encoded(h.proto, rest);
  }

  lemma IpBackRoundTrip(h: IpHeader, rest: Bytes)
    ensures ParseIpBack(Parser(Encode(h.cksum, 2) + (Encode(h.src, 4) + (Encode(h.dst, 4) + rest)), NoError))
            == ((h.cksum, h.src, h.dst), Parser(rest, NoError))
  {
    TakeU16Encoded(h.cksum, Encode(h.src, 4) + (Encode(h.dst, 4) + rest));
    TakeU32Encoded(h.src, Encode(h.dst, 4) + rest);
    TakeU32Encoded(h.dst, rest);
  }

  /** What the parser makes of a printed header: the fields as far as their widths can hold them. */
  function Narrowed(h: IpHeader): IpHeader {
    h.(hlen := h.hlen % 16, offset := h.offset % 0x2000)
  }

  lemma BuildIpRoundTrip(h: IpHeader)
    requires h.ver == 4
    ensures BuildIpHeader((FirstByte(h), h.tos, h.len, h.id, FragmentWord(h), h.ttl, h.proto), (h.cksum, h.src, h.dst))
            == Narrowed(h)
  {}

  /** Reading the twenty fixed bytes of a printed header. */
  lemma IpFixedPart(h: IpHeader, payload: Bytes)
    requires h.ver == 4 && h.hlen >= 5
    ensures var p := Parser(SerializeIpHeader(h).value + payload, NoError);
            var (f, p1) := ParseIpFront(p);
            var (b, p2) := ParseIpBack(p1);
            BuildIpHeader(f, b) == Narrowed(h) && p2 == Parser(Zeros(4 * h.hlen - HEADER_LENGTH) + payload, NoError)
  {
    var pad := Zeros(4 * h.hlen - HEADER_LENGTH) + payload;
    var r := Encode(h.cksum, 2) + (Encode(h.src, 4) + (Encode(h.dst, 4) + pad));
    var p := Parser(SerializeIpHeader(h).value + payload, NoError);
    var f, b := (FirstByte(h), h.tos, h.len, h.id, FragmentWord(h), h.ttl, h.proto), (h.cksum, h.src, h.dst);
    assert ParseIpFront(p) == (f, Parser(r, NoError)) by {
      IpHeaderLayout(h, payload);
      IpFrontRoundTrip(h, r);
    }
    assert ParseIpBack(Parser(r, NoError)) == (b, Parser(pad, NoError)) by { IpBackRoundTrip(h, pad); }
    assert BuildIpHeader(f, b) == Narrowed(h) by { BuildIpRoundTrip(h); }
  }

  lemma PrintedIpLength(h: IpHeader)
    requires h.ver == 4 && h.hlen >= 5
    ensures |SerializeIpHeader(h).value| == 4 * h.hlen
  {}

  /** The length field tells the size, which fails only when it wrapped below the header length. */
  predicate LengthTrue(h: IpHeader) {
    h.len >= 4 * h.hlen
  }

  lemma JudgePrinted(h: IpHeader, whole: Bytes, payload: Bytes)
    requires h.ver == 4 && 5 <= h.hlen <= 15 && |payload| == PayloadLength(h) && |whole| == 4 * h.hlen + |payload|
    ensures var pad := Zeros(4 * h.hlen - HEADER_LENGTH) + payload;
            var (res, q) := JudgeIpHeader(h, whole, Parser(pad, NoError));
            && q == Parser(if LengthTrue(h) then payload else pad, NoError)
            && (LengthTrue(h) && Fold(WordSum(whole[..4 * h.hlen], false) % TWO32) == 0xffff ==> res == NoError)
  {
    SkipExact(4 * h.hlen - HEADER_LENGTH, payload);
  }

  lemma ParseOfPrinted(h: IpHeader, payload: Bytes)
    requires h.ver == 4 && h.hlen >= 5
    ensures var p := Parser(SerializeIpHeader(h).value + payload, NoError);
            var pad := Zeros(4 * h.hlen - HEADER_LENGTH) + payload;
            var judged := JudgeIpHeader(Narrowed(h), p.buffer, Parser(pad, NoError));
            ParseIpHeader(p, DEFAULT_IP_HEADER) == (judged.0, Narrowed(h), judged.1)
  {
    var p := Parser(SerializeIpHeader(h).value + payload, NoError);
    var (f, p1) := ParseIpFront(p);
    var (b, p2) := ParseIpBack(p1);
    assert BuildIpHeader(f, b) == Narrowed(h) && p2 == Parser(Zeros(4 * h.hlen - HEADER_LENGTH) + payload, NoError) by {
      IpFixedPart(h, payload);
    }
    assert |p.buffer| >= HEADER_LENGTH by { PrintedIpLength(h); }
  }

  /** Fields fit their widths, and the length field did not wrap or there is no padding to skip. */
  predicate Expressible(h: IpHeader) {
    h.hlen <= 15 && h.offset < 0x2000 && (LengthTrue(h) || h.hlen == 5)
  }

  /** The payload that remains when all fields but the length are sound. */
  lemma SettlePrinted(h: IpHeader, whole: Bytes, payload: Bytes)
    requires h.ver == 4 && 5 <= h.hlen <= 15 && |payload| == PayloadLength(h) && |whole| == 4 * h.hlen + |payload|
    ensures var q := JudgeIpHeader(h, whole, Parser(Zeros(4 * h.hlen - HEADER_LENGTH) + payload, NoError)).1;
            Settle(h, q) == (NoError, Datagram(h, payload)) <==> LengthTrue(h) || h.hlen == 5
  {
    JudgePrinted(h, whole, payload);
    assert h.hlen == 5 ==> Zeros(0) + payload == payload;
  }

  lemma ParseDatagramPrinted(h: IpHeader, payload: Bytes)
    requires h.ver == 4 && h.hlen >= 5
    ensures var whole := SerializeIpHeader(h).value + payload;
            var q := JudgeIpHeader(Narrowed(h), whole, Parser(Zeros(4 * h.hlen - HEADER_LENGTH) + payload, NoError)).1;
            ParseDatagram(whole) == Settle(Narrowed(h), q)
  {
    ParseOfPrinted(h, payload);
  }

  lemma SettleExpressible(h: IpHeader, whole: Bytes, payload: Bytes)
    requires h.ver == 4 && h.hlen >= 5 && |payload| == PayloadLength(h) && |whole| == 4 * h.hlen + |payload|
    ensures var q := JudgeIpHeader(Narrowed(h), whole, Parser(Zeros(4 * h.hlen - HEADER_LENGTH) + payload, NoError)).1;
            Settle(Narrowed(h), q) == (NoError, Datagram(h, payload)) <==> Expressible(h)
  {
    if h.hlen <= 15 && h.offset < 0x2000 {
      assert Narrowed(h) == h;
      SettlePrinted(h, whole, payload);
    } else {
      assert Narrowed(h) != h;
    }
  }

  lemma PrintedRoundTrip(h: IpHeader, payload: Bytes)
    requires h.ver == 4 && h.hlen >= 5 && |payload| == PayloadLength(h)
    ensures ParseDatagram(SerializeIpHeader(h).value + payload) == (NoError, Datagram(h, payload)) <==> Expressible(h)
  {
    var whole := SerializeIpHeader(h).value + payload;
    assert |whole| == 4 * h.hlen + |payload| by { PrintedIpLength(h); }
    ParseDatagramPrinted(h, payload);
    SettleExpressible(h, whole, payload);
  }

  /** A printed datagram comes back unchanged but for the checksum, exactly when the format can express it. */
  lemma DatagramRoundTrip(d: Datagram)
    requires Printable(d)
    ensures ParseDatagram(SerializeDatagram(d).value) == (NoError, d.(header := WithIpChecksum(d.header)))
            <==> Expressible(d.header)
  {
    PrintedRoundTrip(WithIpChecksum(d.header), d.payload);
  }

  lemma IpChecksumFieldAdds(h: IpHeader, c: U16)
    requires h.ver == 4 && h.hlen >= 5
    ensures WordSum(SerializeIpHeader(h.(cksum := c)).value, false)
            == WordSum(SerializeIpHeader(h.(cksum := 0)).value, false) + c
  {
    FieldSum(IpHead(h), c, IpTail(h));
    FieldSum(IpHead(h), 0, IpTail(h));
  }

  lemma PrintedIpSumVerifies(h: IpHeader)
    requires h.ver == 4 && h.hlen >= 5
    ensures Fold(WordSum(SerializeIpHeader(WithIpChecksum(h)).value, false) % TWO32) == 0xffff
  {
    var c := WithIpChecksum(h).cksum;
    var sum := WordSum(SerializeIpHeader(h.(cksum := 0)).value, false);
    assert WordSum(SerializeIpHeader(h.(cksum := c)).value, false) == sum + c by { IpChecksumFieldAdds(h, c); }
    SumVerifies(sum, c);
  }

  /** The header parser itself accepts every printed datagram: its checksum verifies. */
  lemma PrintedHeaderAccepted(d: Datagram)
    requires Printable(d) && d.header.hlen <= 15 && LengthTrue(d.header)
    ensures ParseIpHeader(Parser(SerializeDatagram(d).value, NoError), DEFAULT_IP_HEADER).0 == NoError
  {
    PrintedIpSumVerifies(d.header);
    AcceptedIfVerified(WithIpChecksum(d.header), d.payload);
  }

  lemma AcceptedIfVerified(h: IpHeader, payload: Bytes)
    requires h.ver == 4 && 5 <= h.hlen <= 15 && LengthTrue(h) && |payload| == PayloadLength(h)
    requires Fold(WordSum(SerializeIpHeader(h).value, false) % TWO32) == 0xffff
    ensures ParseIpHeader(Parser(SerializeIpHeader(h).value + payload, NoError), DEFAULT_IP_HEADER).0 == NoError
  {
    var whole := SerializeIpHeader(h).value + payload;
    PrintedIpLength(h);
    assert whole[..4 * h.hlen] == SerializeIpHeader(h).value;
    JudgePrinted(Narrowed(h), whole, payload);
    ParseOfPrinted(h, payload);
  }
}

/** The same as the original does it: field by field on a parser object and a growing string. */
module Ipv4WireMethods {
  import opened Common
  import opened Checksums
  import opened Parsing
  import opened TcpWire
  import opened Ipv4Wire

  lemma IpHeadByAppends(h: IpHeader)
    ensures [] + Encode(FirstByte(h), 1) + Encode(h.tos, 1) + Encode(h.len, 2) + Encode(h.id, 2)
            + Encode(FragmentWord(h), 2) + Encode(h.ttl, 1) + Encode(h.proto, 1) == IpHead(h)
  {}

  method SerializeIpv4Header(h: IpHeader) returns (r: Option<Bytes>)
    ensures r == SerializeIpHeader(h)
  {
    if h.ver != 4 || 4 * h.hlen < HEADER_LENGTH {
      return None;
    }
    var s := UnparseInt([], FirstByte(h), 1);
    s := UnparseInt(s, h.tos, 1);
    s := UnparseInt(s, h.len, 2);
    s := UnparseInt(s, h.id, 2);
    s := UnparseInt(s, FragmentWord(h), 2);
    s := UnparseInt(s, h.ttl, 1);
    s := UnparseInt(s, h.proto, 1);
    IpHeadByAppends(h);
    assert s == IpHead(h);
    s := UnparseInt(s, h.cksum, 2);
    s := UnparseInt(s, h.src, 4);
    s := UnparseInt(s, h.dst, 4);
    var pad := Zeros(4 * h.hlen - HEADER_LENGTH);
    r := Some(s + pad);
    Assoc(IpHead(h) + Encode(h.cksum, 2) + Encode(h.src, 4), Encode(h.dst, 4), pad);
    Assoc(IpHead(h) + Encode(h.cksum, 2), Encode(h.src, 4), Encode(h.dst, 4) + pad);
    Assoc(IpHead(h), Encode(h.cksum, 2), IpTail(h));
  }

  method ParseIpv4Header(p: NetParser, prev: IpHeader) returns (res: ParseResult, h: IpHeader)
    modifies p
    ensures (res, h, p.Value()) == ParseIpHeader(old(p.Value()), prev)
  {
    var whole := p.buffer;
    if |whole| < HEADER_LENGTH {
      return PacketTooShort, prev;
    }
    h := ParseFixedPart(p);
    res := CheckFields(p, h, whole);
  }

  method CheckFields(p: NetParser, h: IpHeader, whole: Bytes) returns (res: ParseResult)
    modifies p
    ensures (res, p.Value()) == JudgeIpHeader(h, whole, old(p.Value()))
  {
    if |whole| < 4 * h.hlen {
      return PacketTooShort;
    }
    if h.ver != 4 {
      return WrongIPVersion;
    }
    if h.hlen < 5 {
      return HeaderTooShort;
    }
    if |whole| != h.len {
      return TruncatedPacket;
    }
    p.RemovePrefix(h.hlen * 4 - HEADER_LENGTH);
    if p.error != NoError {
      return p.error;
    }
    var good := Verifies(0, whole[..4 * h.hlen]);
    return if good then NoError else BadChecksum;
  }

  method ParseFixedPart(p: NetParser) returns (h: IpHeader)
    modifies p
    ensures var (f, p1) := ParseIpFront(old(p.Value()));
            var (b, p2) := ParseIpBack(p1);
            h == BuildIpHeader(f, b) && p.Value() == p2
  {
    Widths();
    var first := p.ParseInt(1);
    var tos := p.ParseInt(1);
    var len := p.ParseInt(2);
    var id := p.ParseInt(2);
    var fo := p.ParseInt(2);
    var ttl := p.ParseInt(1);
    var proto := p.ParseInt(1);
    assert ((first, tos, len, id, fo, ttl, proto), p.Value()) == ParseIpFront(old(p.Value()));
    var cksum := p.ParseInt(2);
    var src := p.ParseInt(4);
    var dst := p.ParseInt(4);
    h := BuildIpHeader((first, tos, len, id, fo, ttl, proto), (cksum, src, dst));
  }

  method SerializeIpv4Datagram(d: Datagram) returns (r: Option<Bytes>)
    ensures r == SerializeDatagram(d)
  {
    if |d.payload| != PayloadLength(d.header) {
      return None;
    }
    var zeroed := SerializeIpv4Header(d.header.(cksum := 0));
    if zeroed.None? {
      return None;
    }
    var check := new InternetChecksum(0);
    check.Add(zeroed.value);
    var cksum := check.Value();
    var header := SerializeIpv4Header(d.header.(cksum := cksum));
    r := Some(header.value + d.payload);
  }

  method ParseIpv4Datagram(bytes: Bytes) returns (res: ParseResult, d: Datagram)
    ensures (res, d) == ParseDatagram(bytes)
  {
    var p := new NetParser(bytes);
    var _, h := ParseIpv4Header(p, DEFAULT_IP_HEADER);
    d := Datagram(h, p.buffer);
    if |d.payload| != PayloadLength(h) {
      return PacketTooShort, d;
    }
    return p.error, d;
  }
}
