/** Integers in network byte order, read from and appended to byte strings. */
module Parsing {
  import opened Common

  datatype ParseResult =
    NoError | BadChecksum | PacketTooShort | WrongIPVersion | HeaderTooShort | TruncatedPacket | Unsupported

  function Pow256(n: nat): nat {
    if n == 0 then 1 else 0x100 * Pow256(n - 1)
  }

  /** The last `len` base-256 digits of `val`, most significant first. */
  function Encode(val: nat, len: nat): (r: Bytes)
    ensures |r| == len
  {
    if len == 0 then [] else Encode(val / 0x100, len - 1) + [val % 0x100]
  }

  function Decode(bytes: Bytes): nat {
    if bytes == [] then 0 else Decode(bytes[..|bytes| - 1]) * 0x100 + bytes[|bytes| - 1]
  }

  lemma {:induction false} DecodeEncode(val: nat, len: nat)
    requires val < Pow256(len)
    ensures Decode(Encode(val, len)) == val
  {
    if len > 0 {
      DecodeEncode(val / 0x100, len - 1);
      assert Encode(val, len)[..len - 1] == Encode(val / 0x100, len - 1);
    }
  }

  lemma {:induction false} DecodeBound(bytes: Bytes)
    ensures Decode(bytes) < Pow256(|bytes|)
  {
    if bytes != [] {
      DecodeBound(bytes[..|bytes| - 1]);
    }
  }

  lemma Widths()
    ensures Pow256(1) == 0x100 && Pow256(2) == 0x1_0000 && Pow256(4) == 0x1_0000_0000
  {
    assert Pow256(1) == 0x100 * Pow256(0);
    assert Pow256(2) == 0x100 * Pow256(1);
    assert Pow256(3) == 0x100 * Pow256(2);
    assert Pow256(4) == 0x100 * Pow256(3);
  }

  // ---------- the parser ----------

  datatype Parser = Parser(buffer: Bytes, error: ParseResult)

  /** A request past the end is a sticky error. */
  function CheckSize(p: Parser, n: nat): Parser {
    if n > |p.buffer| then p.(error := PacketTooShort) else p
  }

  function Skip(p: Parser, n: nat): Parser {
    var q := CheckSize(p, n);
    if q.error != NoError then q else q.(buffer := q.buffer[n..])
  }

  /** The next `len` bytes as a number; 0 and no progress after an error. */
  function Take(p: Parser, len: nat): (nat, Parser) {
    var q := CheckSize(p, len);
    if q.error != NoError then (0, q) else (Decode(q.buffer[..len]), q.(buffer := q.buffer[len..]))
  }

  /** Reading back what was written. */
  lemma TakeEncoded(val: nat, len: nat, rest: Bytes)
    requires val < Pow256(len)
    ensures Take(Parser(Encode(val, len) + rest, NoError), len) == (val, Parser(rest, NoError))
  {
    DecodeEncode(val, len);
    var all := Encode(val, len) + rest;
    assert all[..len] == Encode(val, len) && all[len..] == rest;
  }

  class NetParser {
    var buffer: Bytes
    var error: ParseResult

    ghost function Value(): Parser
      reads this
    {
      Parser(buffer, error)
    }

    constructor (buffer: Bytes)
      ensures Value() == Parser(buffer, NoError)
    {
      this.buffer, error := buffer, NoError;
    }

    method ParseInt(len: nat) returns (ret: nat)
      modifies this
      ensures (ret, Value()) == Take(old(Value()), len)
      ensures ret < Pow256(len)
    {
      DecodeBound([]);
      if len > |buffer| {
        error := PacketTooShort;
      }
      if error != NoError {
        Pow256Positive(len);
        return 0;
      }
      ret := 0;
      var i := 0;
      while i < len
        invariant 0 <= i <= len
        invariant ret == Decode(buffer[..i])
      {
        assert buffer[..i + 1][..i] == buffer[..i];
        ret := ret * 0x100 + buffer[i];
        i := i + 1;
      }
      DecodeBound(buffer[..len]);
      buffer := buffer[len..];
    }

    method RemovePrefix(n: nat)
      modifies this
      ensures Value() == Skip(old(Value()), n)
    {
      if n > |buffer| {
        error := PacketTooShort;
      }
      if error != NoError {
        return;
      }
      buffer := buffer[n..];
    }
  }

  lemma {:induction false} Pow256Positive(n: nat)
    ensures Pow256(n) > 0
  {
    if n > 0 {
      Pow256Positive(n - 1);
    }
  }

  // ---------- the unparser ----------

  /** `val` shifted right by `n` bytes. */
  function ShiftRight(val: nat, n: nat): nat {
    if n == 0 then val else ShiftRight(val / 0x100, n - 1)
  }

  /** Digit `i` of an encoding, by shifting. */
  lemma {:induction false} EncodeDigit(val: nat, len: nat, i: nat)
    requires i < len
    ensures Encode(val, len)[i] == ShiftRight(val, len - 1 - i) % 0x100
    decreases len
  {
    if i < len - 1 {
      EncodeDigit(val / 0x100, len - 1, i);
    }
  }

  method UnparseInt(s: Bytes, val: nat, len: nat) returns (r: Bytes)
    ensures r == s + Encode(val, len)
  {
    r := s;
    var i := 0;
    while i < len
      invariant 0 <= i <= len
      invariant r == s + Encode(val, len)[..i]
    {
      EncodeDigit(val, len, i);
      r := r + [ShiftRight(val, len - 1 - i) % 0x100];
      i := i + 1;
    }
  }
}
