/** Where every field of a TCP and an IPv4 header lies on the wire, for printing and for parsing any bytes at all, and
    what makes the parsers refuse. */
module WireLayout {
  import opened Common
  import opened Segments
  import opened Checksums
  import opened Parsing
  import opened TcpWire
  import opened Ipv4Wire

  /** The big-endian number in `bytes[at..at + n]`. */
  function Field(bytes: Bytes, at: nat, n: nat): nat
    requires at + n <= |bytes|
  {
    Decode(bytes[at..at + n])
  }

  // ---------- reading fields ----------

  lemma TakeAt(bytes: Bytes, at: nat, n: nat)
    requires at + n <= |bytes|
    ensures Take(Parser(bytes[at..], NoError), n) == (Field(bytes, at, n), Parser(bytes[at + n..], NoError))
  {
    assert bytes[at..][..n] == bytes[at..at + n];
    assert bytes[at..][n..] == bytes[at + n..];
  }

  lemma FieldOne(bytes: Bytes, at: nat)
    requires at < |bytes|
    ensures Field(bytes, at, 1) == bytes[at]
  {
    var one := bytes[at..at + 1];
    assert one[..0] == [] && one[0] == bytes[at];
    assert Decode(one) == Decode(one[..0]) * 0x100 + one[0];
  }

  lemma AddressesAt(bytes: Bytes)
    requires |bytes| >= 20
    ensures ParseAddresses(Parser(bytes, NoError)) ==
            ((Field(bytes, 0, 2), Field(bytes, 2, 2), Field(bytes, 4, 4), Field(bytes, 8, 4)),
             Parser(bytes[12..], NoError))
  {
    assert bytes[0..] == bytes;
    TakeAt(bytes, 0, 2);
    TakeAt(bytes, 2, 2);
    TakeAt(bytes, 4, 4);
    TakeAt(bytes, 8, 4);
  }

  lemma ControlAt(bytes: Bytes)
    requires |bytes| >= 20
    ensures ParseControl(Parser(bytes[12..], NoError)) ==
            ((bytes[12], bytes[13], Field(bytes, 14, 2), Field(bytes, 16, 2), Field(bytes, 18, 2)),
             Parser(bytes[20..], NoError))
  {
    TakeAt(bytes, 12, 1);
    TakeAt(bytes, 13, 1);
    TakeAt(bytes, 14, 2);
    TakeAt(bytes, 16, 2);
    TakeAt(bytes, 18, 2);
    FieldOne(bytes, 12);
    FieldOne(bytes, 13);
  }

  /** The header of section 3.1 of RFC 793, found in any twenty bytes. */
  predicate TcpFields(bytes: Bytes, h: Header)
    requires |bytes| >= 20
  {
    && h.sport == Field(bytes, 0, 2) && h.dport == Field(bytes, 2, 2)
    && h.seqno == Field(bytes, 4, 4) && h.ackno == Field(bytes, 8, 4)
    && h.doff == bytes[12] / 16
    && h.urg == (bytes[13] / 32 % 2 == 1) && h.ack == (bytes[13] / 16 % 2 == 1) && h.psh == (bytes[13] / 8 % 2 == 1)
    && h.rst == (bytes[13] / 4 % 2 == 1) && h.syn == (bytes[13] / 2 % 2 == 1) && h.fin == (bytes[13] % 2 == 1)
    && h.win == Field(bytes, 14, 2) && h.cksum == Field(bytes, 16, 2) && h.uptr == Field(bytes, 18, 2)
  }

  /** Parsing finds every field where it belongs. */
  lemma TcpParsed(bytes: Bytes)
    requires |bytes| >= 20
    ensures var (res, h, p) := ParseHeader(Parser(bytes, NoError));
            && TcpFields(bytes, h)
            && (res == HeaderTooShort <==> h.doff < 5)
            && (h.doff >= 5 ==> (res == NoError <==> 4 * h.doff <= |bytes|))
            && (h.doff >= 5 && 4 * h.doff > |bytes| ==> res == PacketTooShort == p.error)
            && (h.doff < 5 ==> p == Parser(bytes[20..], NoError))
            && (5 <= h.doff && 4 * h.doff <= |bytes| ==> p == Parser(bytes[4 * h.doff..], NoError))
  {
    AddressesAt(bytes);
    ControlAt(bytes);
    assert 5 <= bytes[12] / 16 && 4 * (bytes[12] / 16) <= |bytes| ==>
        bytes[20..][4 * (bytes[12] / 16) - 20..] == bytes[4 * (bytes[12] / 16)..];
  }

  /** What a printed header looks like. */
  lemma TcpPrinted(h: Header)
    requires 5 <= h.doff <= 15
    ensures var bytes := SerializeHeader(h).value;
            |bytes| == 4 * h.doff && TcpFields(bytes, h) && bytes[12] % 16 == 0 && bytes[13] < 64
  {
    LastBytes(h);
    assert TcpFields(SerializeHeader(h).value, h) by {
      ParsedIsPrinted(h, SerializeHeader(h).value);
    }
  }

  lemma ParsedIsPrinted(h: Header, bytes: Bytes)
    requires 5 <= h.doff <= 15 && bytes == SerializeHeader(h).value && |bytes| >= 20
    ensures TcpFields(bytes, h)
  {
    HeaderRoundTrip(h, []);
    assert bytes + [] == bytes;
    TcpParsed(bytes);
  }

  lemma LastBytes(h: Header)
    requires 5 <= h.doff <= 15
    ensures var bytes := SerializeHeader(h).value;
            |bytes| == 4 * h.doff && bytes[12] == h.doff * 16 && bytes[13] == FlagByte(h)
  {
    var head := Head(h);
    assert SerializeHeader(h).value[..16] == head;
    var tail := Encode(FlagByte(h), 1) + Encode(h.win, 2);
    var front := Encode(h.sport, 2) + (Encode(h.dport, 2) + (Encode(h.seqno, 4) + Encode(h.ackno, 4)));
    assert head == front + (Encode(h.doff * 16 % 0x100, 1) + tail);
    OneByte(h.doff * 16);
    OneByte(FlagByte(h));
  }

  lemma OneByte(v: U8)
    ensures Encode(v, 1) == [v]
  {
    assert Encode(v / 0x100, 0) == [];
  }

  // ---------- what is refused ----------

  /** A segment is refused if its sum is bad, and otherwise only if it is shorter than its own header. The payload is
      what follows that header; a header that claims to be too short counts as twenty bytes. */
  lemma SegmentVerdict(bytes: Bytes, pseudo: U32)
    ensures var (res, seg) := ParseSegment(bytes, pseudo);
            if Fold((pseudo + WordSum(bytes, false)) % TWO32) != 0xffff then res == BadChecksum && seg == None
            else if |bytes| < 20 then res == PacketTooShort
            else
              var doff := bytes[12] / 16;
              && seg.Some? && TcpFields(bytes, seg.value.header)
              && res == (if 4 * doff <= |bytes| then NoError else PacketTooShort)
              && (res == NoError ==> seg.value.payload == bytes[if doff < 5 then 20 else 4 * doff..])
  {
    if |bytes| < 20 {
      ShortHeader(bytes);
    } else {
      TcpParsed(bytes);
    }
  }

  lemma TakeFails(p: Parser, n: nat)
    ensures p.error != NoError ==> Take(p, n).1.error != NoError
    ensures p.error == NoError && n > |p.buffer| ==> Take(p, n).1 == p.(error := PacketTooShort)
    ensures Take(p, n).1.error == NoError ==>
              p.error == NoError && n <= |p.buffer| && |Take(p, n).1.buffer| == |p.buffer| - n
    ensures p.error == PacketTooShort ==> Take(p, n).1.error == PacketTooShort
    ensures p.error == NoError ==> Take(p, n).1.error == NoError || Take(p, n).1.error == PacketTooShort
  {}

  /** Too few bytes for a header leave the parser in error. */
  lemma ShortHeader(bytes: Bytes)
    requires |bytes| < 20
    ensures ParseHeader(Parser(bytes, NoError)).2.error == PacketTooShort
  {
    var p := Parser(bytes, NoError);
    var p1 := AddressErrors(p);
    ControlErrors(p1);
  }

  lemma AddressErrors(p: Parser) returns (q: Parser)
    requires p.error == NoError
    ensures q == ParseAddresses(p).1
    ensures q.error == PacketTooShort || (q.error == NoError && |q.buffer| == |p.buffer| - 12)
  {
    TakeFails(p, 2);
    var p1 := Take(p, 2).1;
    TakeFails(p1, 2);
    var p2 := Take(p1, 2).1;
    TakeFails(p2, 4);
    var p3 := Take(p2, 4).1;
    TakeFails(p3, 4);
    q := Take(p3, 4).1;
  }

  lemma ControlErrors(p: Parser)
    requires p.error == PacketTooShort || (p.error == NoError && |p.buffer| < 8)
    ensures ParseControl(p).1.error == PacketTooShort
  {
    TakeFails(p, 1);
    var p1 := Take(p, 1).1;
    TakeFails(p1, 1);
    var p2 := Take(p1, 1).1;
    TakeFails(p2, 2);
    var p3 := Take(p2, 2).1;
    TakeFails(p3, 2);
    var p4 := Take(p3, 2).1;
    TakeFails(p4, 2);
  }

  // ---------- corruption ----------

  /** One aligned sixteen-bit word changed. */
  predicate WordChanged(a: Bytes, b: Bytes, at: nat) {
    && at % 2 == 0 && at + 2 <= |a| == |b|
    && a[..at] == b[..at] && a[at + 2..] == b[at + 2..]
  }

  lemma SumAround(bytes: Bytes, at: nat)
    requires at % 2 == 0 && at + 2 <= |bytes|
    ensures WordSum(bytes, false) == WordSum(bytes[..at], false) + Field(bytes, at, 2) + WordSum(bytes[at + 2..], false)
  {
    SplitAround(bytes, at);
    SumOfThree(bytes[..at], bytes[at..at + 2], bytes[at + 2..]);
  }

  lemma SplitAround(bytes: Bytes, at: nat)
    requires at + 2 <= |bytes|
    ensures bytes == bytes[..at] + (bytes[at..at + 2] + bytes[at + 2..])
  {}

  lemma SumOfThree(front: Bytes, word: Bytes, rest: Bytes)
    requires |front| % 2 == 0 && |word| == 2
    ensures WordSum(front + (word + rest), false) == WordSum(front, false) + Decode(word) + WordSum(rest, false)
  {
    EvenAppend(front, word + rest);
    EvenAppend(word, rest);
    WordIsField(word);
  }

  lemma EvenAppend(a: Bytes, b: Bytes)
    requires |a| % 2 == 0
    ensures WordSum(a + b, false) == WordSum(a, false) + WordSum(b, false)
  {
    WordSumAppend(a, b, false);
  }

  lemma WordIsField(word: Bytes)
    requires |word| == 2
    ensures WordSum(word, false) == Decode(word)
  {
    var first, second := word[..1], word[1..];
    assert second[1..] == [] && first[..0] == [];
    assert WordSum(second, true) == second[0];
    assert Decode(first) == first[0];
  }

  lemma ResidueTells(x: nat, y: nat)
    requires x > 0 && y > 0 && -0x1_0000 < x - y < 0x1_0000 && Fold(x) == 0xffff
    ensures Fold(y) == 0xffff <==> x == y || Abs(x - y) == 0xffff
  {
    FoldClosed(x);
    FoldClosed(y);
    NearMultiples(x, y);
  }

  lemma NearMultiples(x: nat, y: nat)
    requires x % 0xffff == 0 && -0x1_0000 < x - y < 0x1_0000
    ensures y % 0xffff == 0 <==> x == y || Abs(x - y) == 0xffff
  {
    assert y == x + (y - x);
  }

  /** The checksum catches the change of any one word, except between the two forms of zero. */
  lemma CorruptionDetected(a: Bytes, b: Bytes, at: nat, pseudo: nat)
    requires WordChanged(a, b, at) && 0 < pseudo
    requires pseudo + WordSum(a, false) < TWO32 && pseudo + WordSum(b, false) < TWO32
    requires ParseSegment(a, pseudo).0 != BadChecksum
    ensures ParseSegment(b, pseudo) == (BadChecksum, None) <==>
            Field(a, at, 2) != Field(b, at, 2) && Abs(Field(a, at, 2) - Field(b, at, 2)) != 0xffff
  {
    SumRefused(a, pseudo);
    SumRefused(b, pseudo);
    SumsTell(a, b, at, pseudo);
  }

  lemma SumsTell(a: Bytes, b: Bytes, at: nat, pseudo: nat)
    requires WordChanged(a, b, at) && 0 < pseudo && Fold(pseudo + WordSum(a, false)) == 0xffff
    ensures Fold(pseudo + WordSum(b, false)) == 0xffff <==>
            Field(a, at, 2) == Field(b, at, 2) || Abs(Field(a, at, 2) - Field(b, at, 2)) == 0xffff
  {
    var f: int, g: int := Field(a, at, 2), Field(b, at, 2);
    assert WordSum(a, false) - WordSum(b, false) == f - g by {
      SumAround(a, at);
      SumAround(b, at);
    }
    assert f < 0x1_0000 && g < 0x1_0000 by {
      DecodeBound(a[at..at + 2]);
      DecodeBound(b[at..at + 2]);
      Widths();
    }
    ResidueTells(pseudo + WordSum(a, false), pseudo + WordSum(b, false));
  }

  lemma SumRefused(bytes: Bytes, pseudo: nat)
    requires pseudo + WordSum(bytes, false) < TWO32
    ensures ParseSegment(bytes, pseudo) == (BadChecksum, None) <==> Fold(pseudo + WordSum(bytes, false)) != 0xffff
    ensures ParseSegment(bytes, pseudo).0 == BadChecksum ==> Fold(pseudo + WordSum(bytes, false)) != 0xffff
  {
    var total := pseudo + WordSum(bytes, false);
    assert total % TWO32 == total;
    SegmentVerdict(bytes, pseudo);
  }

  // ---------- IPv4 ----------

  /** The header of section 3.1 of RFC 791, found in any twenty bytes. */
  predicate IpFields(bytes: Bytes, h: IpHeader)
    requires |bytes| >= 20
  {
    && h.ver == bytes[0] / 16 && h.hlen == bytes[0] % 16 && h.tos == bytes[1]
    && h.len == Field(bytes, 2, 2) && h.id == Field(bytes, 4, 2)
    && h.df == (Field(bytes, 6, 2) / 0x4000 % 2 == 1) && h.mf == (Field(bytes, 6, 2) / 0x2000 % 2 == 1)
    && h.offset == Field(bytes, 6, 2) % 0x2000
    && h.ttl == bytes[8] && h.proto == bytes[9] && h.cksum == Field(bytes, 10, 2)
    && h.src == Field(bytes, 12, 4) && h.dst == Field(bytes, 16, 4)
  }

  lemma FrontAt(bytes: Bytes)
    requires |bytes| >= 20
    ensures ParseIpFront(Parser(bytes, NoError)) ==
            ((bytes[0], bytes[1], Field(bytes, 2, 2), Field(bytes, 4, 2), Field(bytes, 6, 2), bytes[8], bytes[9]),
             Parser(bytes[10..], NoError))
  {
    assert bytes[0..] == bytes;
    TakeAt(bytes, 0, 1);
    TakeAt(bytes, 1, 1);
    TakeAt(bytes, 2, 2);
    TakeAt(bytes, 4, 2);
    TakeAt(bytes, 6, 2);
    TakeAt(bytes, 8, 1);
    TakeAt(bytes, 9, 1);
    FieldOne(bytes, 0);
    FieldOne(bytes, 1);
    FieldOne(bytes, 8);
    FieldOne(bytes, 9);
  }

  lemma BackAt(bytes: Bytes)
    requires |bytes| >= 20
    ensures ParseIpBack(Parser(bytes[10..], NoError)) ==
            ((Field(bytes, 10, 2), Field(bytes, 12, 4), Field(bytes, 16, 4)), Parser(bytes[20..], NoError))
  {
    TakeAt(bytes, 10, 2);
    TakeAt(bytes, 12, 4);
    TakeAt(bytes, 16, 4);
  }

  /** The verdict on a packet, by the first thing that is wrong with it. */
  function IpVerdict(bytes: Bytes): ParseResult {
    if |bytes| < 20 then PacketTooShort
    else
      var hlen := 4 * (bytes[0] % 16);
      if |bytes| < hlen then PacketTooShort
      else if bytes[0] / 16 != 4 then WrongIPVersion
      else if hlen < 20 then HeaderTooShort
      else if |bytes| != Field(bytes, 2, 2) then TruncatedPacket
      else if Fold(WordSum(bytes[..hlen], false) % TWO32) != 0xffff then BadChecksum
      else NoError
  }

  lemma IpBuilt(bytes: Bytes, prev: IpHeader) returns (h: IpHeader)
    requires |bytes| >= 20
    ensures IpFields(bytes, h)
    ensures var (res, q) := JudgeIpHeader(h, bytes, Parser(bytes[20..], NoError));
            ParseIpHeader(Parser(bytes, NoError), prev) == (res, h, q)
  {
    FrontAt(bytes);
    BackAt(bytes);
    h := ParseIpHeader(Parser(bytes, NoError), prev).1;
  }

  lemma IpJudged(bytes: Bytes, h: IpHeader)
    requires |bytes| >= 20 && IpFields(bytes, h)
    ensures var (res, q) := JudgeIpHeader(h, bytes, Parser(bytes[20..], NoError));
            && res == IpVerdict(bytes)
            && (res == NoError || res == BadChecksum ==> q == Parser(bytes[4 * h.hlen..], NoError))
  {
    var hlen := 4 * h.hlen;
    assert 20 <= hlen <= |bytes| ==> bytes[20..][hlen - 20..] == bytes[hlen..];
  }

  /** Parsing any packet finds every field where it belongs, judges it as it should, and leaves the payload if all is
      well. */
  lemma IpParsed(bytes: Bytes, prev: IpHeader)
    ensures var (res, h, p) := ParseIpHeader(Parser(bytes, NoError), prev);
            && res == IpVerdict(bytes)
            && (if |bytes| >= 20 then IpFields(bytes, h) else h == prev)
            && (res == NoError || res == BadChecksum ==> p == Parser(bytes[4 * h.hlen..], NoError))
  {
    if |bytes| >= 20 {
      var h := IpBuilt(bytes, prev);
      IpJudged(bytes, h);
    }
  }

  /** The header's verdict is dropped: a datagram whose only fault is its header checksum is taken like a good one. */
  lemma DatagramVerdict(bytes: Bytes)
    requires IpVerdict(bytes) == NoError || IpVerdict(bytes) == BadChecksum
    ensures ParseDatagram(bytes).0 == NoError && IpFields(bytes, ParseDatagram(bytes).1.header)
    ensures ParseDatagram(bytes).1.payload == bytes[4 * (bytes[0] % 16)..]
  {
    IpParsed(bytes, DEFAULT_IP_HEADER);
    SettleWhole(ParseIpHeader(Parser(bytes, NoError), DEFAULT_IP_HEADER).1, bytes);
  }

  lemma SettleWhole(h: IpHeader, bytes: Bytes)
    requires h.hlen <= 15 && 4 * h.hlen <= |bytes| == h.len
    ensures Settle(h, Parser(bytes[4 * h.hlen..], NoError)) == (NoError, Datagram(h, bytes[4 * h.hlen..]))
  {}

  /** What a printed header looks like. */
  lemma IpPrinted(d: Datagram)
    requires Printable(d) && d.header.hlen <= 15 && d.header.offset < 0x2000 && LengthTrue(d.header)
    ensures var bytes := SerializeDatagram(d).value;
            && |bytes| == d.header.len && IpFields(bytes, WithIpChecksum(d.header)) && IpVerdict(bytes) == NoError
            && bytes[4 * d.header.hlen..] == d.payload
  {
    var bytes := SerializeDatagram(d).value;
    PrintedIpLength(WithIpChecksum(d.header));
    IpVerdictPrinted(d, bytes);
    IpFieldsPrinted(d, bytes);
  }

  lemma IpVerdictPrinted(d: Datagram, bytes: Bytes)
    requires Printable(d) && d.header.hlen <= 15 && LengthTrue(d.header) && bytes == SerializeDatagram(d).value
    ensures IpVerdict(bytes) == NoError
  {
    PrintedHeaderAccepted(d);
    IpParsed(bytes, DEFAULT_IP_HEADER);
  }

  lemma IpFieldsPrinted(d: Datagram, bytes: Bytes)
    requires Printable(d) && Expressible(d.header) && bytes == SerializeDatagram(d).value && |bytes| >= 20
    ensures IpFields(bytes, WithIpChecksum(d.header))
  {
    DatagramRoundTrip(d);
    IpParsed(bytes, DEFAULT_IP_HEADER);
  }

  /** The pseudo-header of section 3.1 of RFC 793: addresses, protocol and length, summed as the bytes they are. */
  lemma PseudoIsPseudoHeader(h: IpHeader)
    ensures PseudoChecksum(h) ==
            WordSum(Encode(h.src, 4) + (Encode(h.dst, 4) + ([0, h.proto] + Encode(PayloadLength(h), 2))), false)
  {
    var length := Encode(PayloadLength(h), 2);
    LongSum(h.src);
    LongSum(h.dst);
    WordSumAppend(Encode(h.src, 4), Encode(h.dst, 4) + ([0, h.proto] + length), false);
    WordSumAppend(Encode(h.dst, 4), [0, h.proto] + length, false);
    WordSumAppend([0, h.proto], length, false);
    WordIsField([0, h.proto]);
    WordIsField(length);
    Widths();
    DecodeEncode(PayloadLength(h), 2);
    assert [0, h.proto][..1] == [0] && [0][..0] == [];
    assert Decode([0]) == 0;
  }

  lemma LongSum(v: U32)
    ensures WordSum(Encode(v, 4), false) == v / TWO16 + v % TWO16
  {
    var high, low := Encode(v / TWO16, 2), Encode(v % TWO16, 2);
    assert Encode(v, 4) == high + low by {
      SplitLong(v);
    }
    WordSumAppend(high, low, false);
    WordIsField(high);
    WordIsField(low);
    Widths();
    DecodeEncode(v / TWO16, 2);
    DecodeEncode(v % TWO16, 2);
  }

  lemma SplitLong(v: U32)
    ensures Encode(v, 4) == Encode(v / TWO16, 2) + Encode(v % TWO16, 2)
  {
    assert Encode(v, 4) == Encode(v / 0x100, 3) + [v % 0x100];
    assert Encode(v / 0x100, 3) == Encode(v / 0x100 / 0x100, 2) + [v / 0x100 % 0x100];
    assert v / 0x100 / 0x100 == v / TWO16;
    var low := v % TWO16;
    assert Encode(low, 2) == Encode(low / 0x100, 1) + [low % 0x100];
    assert Encode(low / 0x100, 1) == Encode(low / 0x100 / 0x100, 0) + [low / 0x100 % 0x100];
    assert low % 0x100 == v % 0x100 && low / 0x100 % 0x100 == v / 0x100 % 0x100;
  }

  /** What cannot be printed is refused. */
  lemma Refusals(h: Header, d: Datagram)
    ensures SerializeHeader(h) == None <==> h.doff < 5
    ensures SerializeDatagram(d) == None <==>
            d.header.ver != 4 || d.header.hlen < 5 || |d.payload| != (d.header.len - 4 * d.header.hlen) % TWO16
  {}
}
