/** TCP segments on the wire, section 3.1 of RFC 793. */
module TcpWire {
  import opened Common
  import opened Segments
  import opened Checksums
  import opened Parsing

  const HEADER_LENGTH: nat := 20

  function Zeros(n: nat): (r: Bytes)
    ensures |r| == n
  {
    if n == 0 then [] else [0] + Zeros(n - 1)
  }

  function Bit(b: bool, weight: nat): nat {
    if b then weight else 0
  }

  function FlagByte(h: Header): U8 {
    Bit(h.urg, 32) + Bit(h.ack, 16) + Bit(h.psh, 8) + Bit(h.rst, 4) + Bit(h.syn, 2) + Bit(h.fin, 1)
  }

  // ---------- printing ----------

  /** The sixteen bytes before the checksum. */
  function Head(h: Header): (r: Bytes)
    ensures |r| == 16
  {
    Encode(h.sport, 2) + (Encode(h.dport, 2) + (Encode(h.seqno, 4) + (Encode(h.ackno, 4) +
    (Encode(h.doff * 16 % 0x100, 1) + (Encode(FlagByte(h), 1) + Encode(h.win, 2))))))
  }

  /** The bytes after the checksum: the urgent field, and padding up to the advertised size. */
  function Tail(h: Header): Bytes
    requires h.doff >= 5
  {
    Encode(h.uptr, 2) + Zeros(4 * h.doff - HEADER_LENGTH)
  }

  /** Refused, as an exception in the original, when the advertised size is below the minimum. */
  function SerializeHeader(h: Header): Option<Bytes> {
    if h.doff < 5 then None else Some(Head(h) + (Encode(h.cksum, 2) + Tail(h)))
  }

  function ChecksumOf(seg: Segment, pseudo: U32): U16
    requires seg.header.doff >= 5
  {
    var header := SerializeHeader(seg.header.(cksum := 0)).value;
    var sum := (pseudo + WordSum(header, false)) % TWO32;
    var total := (sum + WordSum(seg.payload, Flips(false, |header|))) % TWO32;
    FoldClosed(total);
    0xffff - Fold(total)
  }

  function WithChecksum(seg: Segment, pseudo: U32): Segment
    requires seg.header.doff >= 5
  {
    seg.(header := seg.header.(cksum := ChecksumOf(seg, pseudo)))
  }

  function SerializeSegment(seg: Segment, pseudo: U32): Option<Bytes> {
    if seg.header.doff < 5 then None
    else Some(SerializeHeader(WithChecksum(seg, pseudo).header).value + seg.payload)
  }

  // ---------- parsing ----------

  function TakeU8(p: Parser): (U8, Parser) {
    var r := Take(p, 1);
    TakeBound(p, 1);
    Widths();
    (r.0, r.1)
  }

  function TakeU16(p: Parser): (U16, Parser) {
    var r := Take(p, 2);
    TakeBound(p, 2);
    Widths();
    (r.0, r.1)
  }

  function TakeU32(p: Parser): (U32, Parser) {
    var r := Take(p, 4);
    TakeBound(p, 4);
    Widths();
    (r.0, r.1)
  }

  lemma TakeBound(p: Parser, len: nat)
    ensures Take(p, len).0 < Pow256(len)
  {
    Pow256Positive(len);
    if len <= |p.buffer| {
      DecodeBound(p.buffer[..len]);
    }
  }

  predicate BitSet(b: U8, weight: nat)
    requires weight > 0
  {
    b / weight % 2 == 1
  }

  /** Ports and numbers. */
  function ParseAddresses(p: Parser): ((U16, U16, U32, U32), Parser) {
    var (sport, p1) := TakeU16(p);
    var (dport, p2) := TakeU16(p1);
    var (seqno, p3) := TakeU32(p2);
    var (ackno, p4) := TakeU32(p3);
    ((sport, dport, seqno, ackno), p4)
  }

  /** Offset byte, flag byte, window, checksum and urgent field. */
  function ParseControl(p: Parser): ((U8, U8, U16, U16, U16), Parser) {
    var (off, p1) := TakeU8(p);
    var (fl, p2) := TakeU8(p1);
    var (win, p3) := TakeU16(p2);
    var (cksum, p4) := TakeU16(p3);
    var (uptr, p5) := TakeU16(p4);
    ((off, fl, win, cksum, uptr), p5)
  }

  function BuildHeader(a: (U16, U16, U32, U32), c: (U8, U8, U16, U16, U16)): Header {
    Header(a.0, a.1, a.2, a.3, c.0 / 16,
           BitSet(c.1, 32), BitSet(c.1, 16), BitSet(c.1, 8), BitSet(c.1, 4), BitSet(c.1, 2), BitSet(c.1, 1),
           c.2, c.3, c.4)
  }

  function ParseHeader(p: Parser): (ParseResult, Header, Parser) {
    var (a, p1) := ParseAddresses(p);
    var (c, p2) := ParseControl(p1);
    var h := BuildHeader(a, c);
    if h.doff < 5 then (HeaderTooShort, h, p2)
    else
      var q := Skip(p2, h.doff * 4 - HEADER_LENGTH);
      (q.error, h, q)
  }

  /** The checksum comes first; after that only the parser's own error is reported. */
  function ParseSegment(bytes: Bytes, pseudo: U32): (ParseResult, Option<Segment>) {
    if Fold((pseudo + WordSum(bytes, false)) % TWO32) != 0xffff then (BadChecksum, None)
    else
      var (_, h, p) := ParseHeader(Parser(bytes, NoError));
      (p.error, Some(Segment(h, p.buffer)))
  }

  // ---------- print, then parse ----------

  lemma FlagsRoundTrip(h: Header)
    ensures var fl := FlagByte(h);
            && BitSet(fl, 32) == h.urg && BitSet(fl, 16) == h.ack && BitSet(fl, 8) == h.psh
            && BitSet(fl, 4) == h.rst && BitSet(fl, 2) == h.syn && BitSet(fl, 1) == h.fin
  {}

  lemma SkipExact(n: nat, rest: Bytes)
    ensures Skip(Parser(Zeros(n) + rest, NoError), n) == Parser(rest, NoError)
  {
    assert (Zeros(n) + rest)[n..] == rest;
  }

  lemma TakeU8Encoded(v: U8, rest: Bytes)
    ensures TakeU8(Parser(Encode(v, 1) + rest, NoError)) == (v, Parser(rest, NoError))
  {
    Widths();
    TakeEncoded(v, 1, rest);
  }

  lemma TakeU16Encoded(v: U16, rest: Bytes)
    ensures TakeU16(Parser(Encode(v, 2) + rest, NoError)) == (v, Parser(rest, NoError))
  {
    Widths();
    TakeEncoded(v, 2, rest);
  }

  lemma TakeU32Encoded(v: U32, rest: Bytes)
    ensures TakeU32(Parser(Encode(v, 4) + rest, NoError)) == (v, Parser(rest, NoError))
  {
    Widths();
    TakeEncoded(v, 4, rest);
  }

  lemma Assoc(a: Bytes, b: Bytes, c: Bytes)
    ensures a + b + c == a + (b + c)
  {}

  /** The bytes before the checksum, in front of `rest`. */
  lemma HeadLayout(h: Header, rest: Bytes)
    ensures Head(h) + rest ==
            Encode(h.sport, 2) + (Encode(h.dport, 2) + (Encode(h.seqno, 4) + (Encode(h.ackno, 4) +
            (Encode(h.doff * 16 % 0x100, 1) + (Encode(FlagByte(h), 1) + (Encode(h.win, 2) + rest))))))
  {
    var x5 := Encode(FlagByte(h), 1) + Encode(h.win, 2);
    var x4 := Encode(h.doff * 16 % 0x100, 1) + x5;
    var x3 := Encode(h.ackno, 4) + x4;
    var x2 := Encode(h.seqno, 4) + x3;
    var x1 := Encode(h.dport, 2) + x2;
    Assoc(Encode(h.sport, 2), x1, rest);
    Assoc(Encode(h.dport, 2), x2, rest);
    Assoc(Encode(h.seqno, 4), x3, rest);
    Assoc(Encode(h.ackno, 4), x4, rest);
    Assoc(Encode(h.doff * 16 % 0x100, 1), x5, rest);
    Assoc(Encode(FlagByte(h), 1), Encode(h.win, 2), rest);
  }

  lemma HeaderLayout(h: Header, rest: Bytes)
    requires h.doff >= 5
    ensures SerializeHeader(h).value + rest ==
            Head(h) + (Encode(h.cksum, 2) + (Encode(h.uptr, 2) + (Zeros(4 * h.doff - HEADER_LENGTH) + rest)))
  {
    Assoc(Head(h), Encode(h.cksum, 2) + Tail(h), rest);
    Assoc(Encode(h.cksum, 2), Tail(h), rest);
    Assoc(Encode(h.uptr, 2), Zeros(4 * h.doff - HEADER_LENGTH), rest);
  }

  lemma AddressesRoundTrip(h: Header, rest: Bytes)
    ensures var bytes := Encode(h.sport, 2) + (Encode(h.dport, 2) + (Encode(h.seqno, 4) + (Encode(h.ackno, 4) + rest)));
            ParseAddresses(Parser(bytes, NoError))
            == ((h.sport, h.dport, h.seqno, h.ackno), Parser(rest, NoError))
  {
    var r3 := Encode(h.ackno, 4) + rest;
    var r2 := Encode(h.seqno, 4) + r3;
    TakeU16Encoded(h.sport, Encode(h.dport, 2) + r2);
    TakeU16Encoded(h.dport, r2);
    TakeU32Encoded(h.seqno, r3);
    TakeU32Encoded(h.ackno, rest);
  }

  lemma ControlRoundTrip(h: Header, rest: Bytes)
    ensures ParseControl(Parser(Encode(h.doff * 16 % 0x100, 1) + (Encode(FlagByte(h), 1) + (Encode(h.win, 2) +
                         (Encode(h.cksum, 2) + (Encode(h.uptr, 2) + rest)))), NoError))
            == ((h.doff * 16 % 0x100, FlagByte(h), h.win, h.cksum, h.uptr), Parser(rest, NoError))
  {
    var r8 := Encode(h.uptr, 2) + rest;
    var r7 := Encode(h.cksum, 2) + r8;
    var r6 := Encode(h.win, 2) + r7;
    TakeU8Encoded(h.doff * 16 % 0x100, Encode(FlagByte(h), 1) + r6);
    TakeU8Encoded(FlagByte(h), r6);
    TakeU16Encoded(h.win, r7);
    TakeU16Encoded(h.cksum, r8);
    TakeU16Encoded(h.uptr, rest);
  }

  lemma BuildRoundTrip(h: Header)
    requires h.doff <= 15
    ensures BuildHeader((h.sport, h.dport, h.seqno, h.ackno),
                        (h.doff * 16 % 0x100, FlagByte(h), h.win, h.cksum, h.uptr)) == h
  {
    FlagsRoundTrip(h);
  }

  lemma HeaderRoundTrip(h: Header, rest: Bytes)
    requires 5 <= h.doff <= 15
    ensures ParseHeader(Parser(SerializeHeader(h).value + rest, NoError)) == (NoError, h, Parser(rest, NoError))
  {
    var pad := Zeros(4 * h.doff - HEADER_LENGTH) + rest;
    var r7 := Encode(h.cksum, 2) + (Encode(h.uptr, 2) + pad);
    var r4 := Encode(h.doff * 16 % 0x100, 1) + (Encode(FlagByte(h), 1) + (Encode(h.win, 2) + r7));
    var p := Parser(SerializeHeader(h).value + rest, NoError);
    var a, c := (h.sport, h.dport, h.seqno, h.ackno), (h.doff * 16 % 0x100, FlagByte(h), h.win, h.cksum, h.uptr);
    assert ParseAddresses(p) == (a, Parser(r4, NoError)) by {
      HeaderLayout(h, rest);
      HeadLayout(h, r7);
      AddressesRoundTrip(h, r4);
    }
    assert ParseControl(Parser(r4, NoError)) == (c, Parser(pad, NoError)) by { ControlRoundTrip(h, pad); }
    assert BuildHeader(a, c) == h by { BuildRoundTrip(h); }
    assert Skip(Parser(pad, NoError), 4 * h.doff - HEADER_LENGTH) == Parser(rest, NoError) by {
      SkipExact(4 * h.doff - HEADER_LENGTH, rest);
    }
    HeaderFromParts(p, a, Parser(r4, NoError), c, Parser(pad, NoError), h, rest);
  }

  /** A header parsed part by part. */
  lemma HeaderFromParts(p: Parser, a: (U16, U16, U32, U32), p1: Parser, c: (U8, U8, U16, U16, U16), p2: Parser,
                        h: Header, rest: Bytes)
    requires ParseAddresses(p) == (a, p1) && ParseControl(p1) == (c, p2) && BuildHeader(a, c) == h && h.doff >= 5
    requires Skip(p2, 4 * h.doff - HEADER_LENGTH) == Parser(rest, NoError)
    ensures ParseHeader(p) == (NoError, h, Parser(rest, NoError))
  {}

  // ---------- the checksum of what is printed ----------

  lemma WordSumOfWord(c: U16)
    ensures WordSum(Encode(c, 2), false) == c
  {
    assert Encode(c, 2) == Encode(c / 0x100, 1) + [c % 0x100];
    assert Encode(c / 0x100, 1) == Encode(c / 0x100 / 0x100, 0) + [c / 0x100 % 0x100];
    var hi: Byte, lo: Byte := c / 0x100, c % 0x100;
    assert Encode(c, 2) == [hi, lo];
    assert [hi, lo][1..] == [lo] && [lo][1..] == [];
    assert WordSum([lo], true) == lo + WordSum([], false);
    assert WordSum([hi, lo], false) == hi * 0x100 + WordSum([lo], true);
  }

  /** Setting the checksum field adds exactly its value to the word sum. */
  lemma ChecksumFieldAdds(h: Header, c: U16, payload: Bytes)
    requires h.doff >= 5
    ensures WordSum(SerializeHeader(h.(cksum := c)).value + payload, false)
            == WordSum(SerializeHeader(h.(cksum := 0)).value + payload, false) + c
  {
    FieldInHeader(h, c, payload);
    FieldInHeader(h, 0, payload);
  }

  lemma FieldInHeader(h: Header, c: U16, payload: Bytes)
    requires h.doff >= 5
    ensures WordSum(SerializeHeader(h.(cksum := c)).value + payload, false)
            == WordSum(Head(h), false) + c
               + WordSum(Encode(h.uptr, 2) + (Zeros(4 * h.doff - HEADER_LENGTH) + payload), false)
  {
    HeaderLayout(h.(cksum := c), payload);
    FieldSum(Head(h), c, Encode(h.uptr, 2) + (Zeros(4 * h.doff - HEADER_LENGTH) + payload));
  }

  lemma FieldSum(a: Bytes, c: U16, t: Bytes)
    requires |a| % 2 == 0
    ensures WordSum(a + (Encode(c, 2) + t), false) == WordSum(a, false) + c + WordSum(t, false)
  {
    WordSumAppend(a, Encode(c, 2) + t, false);
    WordSumAppend(Encode(c, 2), t, false);
    WordSumOfWord(c);
  }

  /** The two additions of header and payload are one addition of the whole. */
  lemma ChecksumOfWhole(seg: Segment, pseudo: U32)
    requires seg.header.doff >= 5
    ensures var whole := SerializeHeader(seg.header.(cksum := 0)).value + seg.payload;
            ChecksumOf(seg, pseudo) == 0xffff - Fold((pseudo + WordSum(whole, false)) % TWO32)
  {
    var h0 := SerializeHeader(seg.header.(cksum := 0)).value;
    WordSumAppend(h0, seg.payload, false);
    ModPlus(pseudo + WordSum(h0, false), WordSum(seg.payload, Flips(false, |h0|)));
  }

  lemma SumVerifies(sum: nat, c: U16)
    requires c == 0xffff - Fold(sum % TWO32)
    ensures Fold((sum + c) % TWO32) == 0xffff
  {
    var low := sum % TWO32;
    assert low + c < TWO32 && Fold(low + c) == 0xffff by { ComplementVerifies(low); }
    assert (sum + c) % TWO32 == low + c by { ModPlus(sum, c); }
  }

  /** A printed segment sums to all ones, for every payload and every pseudo-header sum. */
  lemma PrintedVerifies(seg: Segment, pseudo: U32)
    requires seg.header.doff >= 5
    ensures Fold((pseudo + WordSum(SerializeSegment(seg, pseudo).value, false)) % TWO32) == 0xffff
  {
    var whole := SerializeHeader(seg.header.(cksum := 0)).value + seg.payload;
    var c := ChecksumOf(seg, pseudo);
    var printed := SerializeSegment(seg, pseudo).value;
    assert c == 0xffff - Fold((pseudo + WordSum(whole, false)) % TWO32) by { ChecksumOfWhole(seg, pseudo); }
    assert WordSum(printed, false) == WordSum(whole, false) + c by { ChecksumFieldAdds(seg.header, c, seg.payload); }
    SumVerifies(pseudo + WordSum(whole, false), c);
  }

  lemma ParsePrinted(seg: Segment, pseudo: U32)
    requires seg.header.doff >= 5
    ensures var printed := SerializeSegment(seg, pseudo).value;
            var parsed := ParseHeader(Parser(printed, NoError));
            ParseSegment(printed, pseudo) == (parsed.2.error, Some(Segment(parsed.1, parsed.2.buffer)))
  {
    PrintedVerifies(seg, pseudo);
    ParseVerified(SerializeSegment(seg, pseudo).value, pseudo);
  }

  lemma ParseVerified(bytes: Bytes, pseudo: U32)
    requires Fold((pseudo + WordSum(bytes, false)) % TWO32) == 0xffff
    ensures var parsed := ParseHeader(Parser(bytes, NoError));
            ParseSegment(bytes, pseudo) == (parsed.2.error, Some(Segment(parsed.1, parsed.2.buffer)))
  {}

  /** Every segment whose header length the field can express comes back unchanged but for the checksum; one whose
      length it cannot express never does. */
  lemma SegmentRoundTrip(seg: Segment, pseudo: U32)
    requires seg.header.doff >= 5
    ensures ParseSegment(SerializeSegment(seg, pseudo).value, pseudo) == (NoError, Some(WithChecksum(seg, pseudo)))
            <==> seg.header.doff <= 15
  {
    var printed, out := SerializeSegment(seg, pseudo).value, WithChecksum(seg, pseudo);
    var p := Parser(printed, NoError);
    var parsed := ParseHeader(p);
    ParsePrinted(seg, pseudo);
    if seg.header.doff <= 15 {
      assert parsed == (NoError, out.header, Parser(seg.payload, NoError)) by {
        HeaderRoundTrip(out.header, seg.payload);
      }
    } else {
      assert parsed.1.doff <= 15 by { ParsedDoffSmall(p); }
    }
  }

  lemma ParsedDoffSmall(p: Parser)
    ensures ParseHeader(p).1.doff <= 15
  {}
}

/** The same as the original does it: field by field on a parser object and a growing string. */
module TcpWireMethods {
  import opened Common
  import opened Segments
  import opened Checksums
  import opened Parsing
  import opened TcpWire

  method SerializeTcpHeader(h: Header) returns (r: Option<Bytes>)
    ensures r == SerializeHeader(h)
  {
    if h.doff < 5 {
      return None;
    }
    var s := UnparseInt([], h.sport, 2);
    s := UnparseInt(s, h.dport, 2);
    s := UnparseInt(s, h.seqno, 4);
    s := UnparseInt(s, h.ackno, 4);
    s := UnparseInt(s, h.doff * 16 % 0x100, 1);
    s := UnparseInt(s, FlagByte(h), 1);
    s := UnparseInt(s, h.win, 2);
    HeadByAppends(h);
    assert s == Head(h);
    s := UnparseInt(s, h.cksum, 2);
    s := UnparseInt(s, h.uptr, 2);
    r := Some(s + Zeros(4 * h.doff - HEADER_LENGTH));
    HeaderLayout(h, []);
    Assoc(Head(h) + Encode(h.cksum, 2), Encode(h.uptr, 2), Zeros(4 * h.doff - HEADER_LENGTH));
    Assoc(Head(h), Encode(h.cksum, 2), Tail(h));
  }

  lemma HeadByAppends(h: Header)
    ensures [] + Encode(h.sport, 2) + Encode(h.dport, 2) + Encode(h.seqno, 4) + Encode(h.ackno, 4)
            + Encode(h.doff * 16 % 0x100, 1) + Encode(FlagByte(h), 1) + Encode(h.win, 2) == Head(h)
  {}

  method ParseTcpHeader(p: NetParser) returns (res: ParseResult, h: Header)
    modifies p
    ensures (res, h, p.Value()) == ParseHeader(old(p.Value()))
  {
    Widths();
    var sport := p.ParseInt(2);
    var dport := p.ParseInt(2);
    var seqno := p.ParseInt(4);
    var ackno := p.ParseInt(4);
    assert ((sport, dport, seqno, ackno), p.Value()) == ParseAddresses(old(p.Value()));
    label control:
    var off := p.ParseInt(1);
    var fl := p.ParseInt(1);
    var win := p.ParseInt(2);
    var cksum := p.ParseInt(2);
    var uptr := p.ParseInt(2);
    assert ((off, fl, win, cksum, uptr), p.Value()) == ParseControl(old@control(p.Value()));
    h := BuildHeader((sport, dport, seqno, ackno), (off, fl, win, cksum, uptr));
    if h.doff < 5 {
      return HeaderTooShort, h;
    }
    p.RemovePrefix(h.doff * 4 - HEADER_LENGTH);
    return p.error, h;
  }

  method SerializeTcpSegment(seg: Segment, pseudo: U32) returns (r: Option<Bytes>)
    ensures r == SerializeSegment(seg, pseudo)
  {
    var headerOut := seg.header.(cksum := 0);
    var zeroed := SerializeTcpHeader(headerOut);
    if zeroed.None? {
      return None;
    }
    var check := new InternetChecksum(pseudo);
    check.Add(zeroed.value);
    check.Add(seg.payload);
    var cksum := check.Value();
    headerOut := headerOut.(cksum := cksum);
    var header := SerializeTcpHeader(headerOut);
    r := Some(header.value + seg.payload);
  }

  /** On a bad checksum the segment is left alone. */
  method ParseTcpSegment(bytes: Bytes, pseudo: U32) returns (res: ParseResult, seg: Option<Segment>)
    ensures (res, seg) == ParseSegment(bytes, pseudo)
  {
    var good := Verifies(pseudo, bytes);
    if !good {
      return BadChecksum, None;
    }
    var p := new NetParser(bytes);
    var _, h := ParseTcpHeader(p);
    return p.error, Some(Segment(h, p.buffer));
  }
}
