/** Out-of-order, overlapping and repeated substrings stitched back into one in-order stream. */
module Reassembly {
  import opened Common
  import opened ByteStreams

  /** The output stream, the bytes stored ahead of it, and whether a final substring has been accepted. */
  datatype Reassembler = Reassembler(out: Stream, stored: map<nat, Byte>, eofFlag: bool)
  {
    /** Index of the first byte not yet assembled. */
    function Next(): nat {
      |out.history|
    }

    /** First index the reassembler has no room for. */
    function Edge(): nat {
      out.readCount + out.capacity
    }

    predicate Holds(k: nat) {
      k < Next() || k in stored
    }
  }

  function EmptyReassembler(capacity: nat): Reassembler {
    Reassembler(EmptyStream(capacity), map[], false)
  }

  /** `stored` extended with `data` at `index`; bytes already there win. */
  function Store(stored: map<nat, Byte>, data: Bytes, index: nat): map<nat, Byte> {
    if data == [] then stored
    else
      var last := |data| - 1;
      var before := Store(stored, data[..last], index);
      if index + last in before then before else before[index + last := data[last]]
  }

  /** `stored` without the indices in `[lo, hi)`. */
  function Without(stored: map<nat, Byte>, lo: nat, hi: nat): map<nat, Byte> {
    if hi <= lo then stored else Without(stored, lo, hi - 1) - {hi - 1}
  }

  /** Moves stored bytes into the output for as long as the next one is present and fits. */
  function Drain(s: Reassembler): Reassembler
    decreases s.out.Remaining()
  {
    if s.Next() in s.stored && s.out.Remaining() > 0 then
      Drain(s.(out := s.out.Write([s.stored[s.Next()]]), stored := s.stored - {s.Next()}))
    else
      s
  }

  function Finish(s: Reassembler): Reassembler {
    if s.eofFlag && s.stored == map[] then s.(out := s.out.(ended := true)) else s
  }

  /** The first `n` bytes of `data` written to the output, and no longer stored. */
  function WriteUpTo(s: Reassembler, data: Bytes, n: nat): Reassembler
    requires n <= |data|
  {
    s.(out := s.out.Write(data[..n]), stored := Without(s.stored, s.Next(), s.Next() + n))
  }

  /** The part of `data` from `Next()` on is at hand: write what fits, then drain. */
  function Assemble(s: Reassembler, data: Bytes): Reassembler {
    Finish(Drain(WriteUpTo(s, data, Min(|data|, s.out.Remaining()))))
  }

  predicate Rejected(s: Reassembler, data: Bytes, index: nat) {
    (index > s.Next() && index - s.Next() >= s.out.capacity) || index + |data| < s.Next()
  }

  function MarkEof(s: Reassembler, data: Bytes, index: nat, eof: bool): Reassembler {
    if eof && |data| + index - s.Next() <= s.out.capacity then s.(eofFlag := true) else s
  }

  /** What becomes of a substring that was not rejected, once the end mark is settled. */
  function Accept(s: Reassembler, data: Bytes, index: nat): Reassembler {
    if index > s.Next() then
      s.(stored := Store(s.stored, data[..Min(|data|, s.out.Remaining())], index))
    else if index < s.Next() && index + |data| <= s.Next() then
      s
    else
      Assemble(s, data[s.Next() - index..])
  }

  function Push(s: Reassembler, data: Bytes, index: nat, eof: bool): Reassembler {
    if Rejected(s, data, index) then s else Accept(MarkEof(s, data, index, eof), data, index)
  }

  class StreamReassembler {
    const output: ByteStream
    const capacity: nat
    var nextIndex: nat
    var bytesUnassembled: nat
    var eofFlag: bool
    var stored: map<nat, Byte>

    ghost predicate Valid()
      reads this, output
    {
      && output.Valid()
      && output.capacity == capacity
      && nextIndex == output.writeCount
      && bytesUnassembled == |stored|
    }

    ghost function Value(): Reassembler
      requires output.Valid()
      reads this, output
    {
      Reassembler(output.Value(), stored, eofFlag)
    }

    constructor (capacity: nat)
      ensures Valid() && fresh(output) && Value() == EmptyReassembler(capacity)
    {
      output := new ByteStream(capacity);
      this.capacity := capacity;
      nextIndex, bytesUnassembled, eofFlag, stored := 0, 0, false, map[];
    }

    method PushSubstring(data: Bytes, index: nat, eof: bool)
      requires Valid()
      modifies this, output
      ensures Valid()
      ensures Value() == Push(old(Value()), data, index, eof)
      decreases index < nextIndex
    {
      if index > nextIndex && index - nextIndex >= capacity {
        return;
      }
      if index + |data| < nextIndex {
        return;
      }
      if eof && |data| - nextIndex + index <= capacity {
        eofFlag := true;
      }
      assert Value() == MarkEof(old(Value()), data, index, eof);
      if index < nextIndex {
        if index + |data| > nextIndex {
          PushTrimmed(old(Value()), data, index, eof);
          PushSubstring(data[nextIndex - index..], nextIndex, eof);
        }
        return;
      }
      PushFresh(data, index);
    }

    /** The two branches for a substring with nothing already assembled in it. */
    method PushFresh(data: Bytes, index: nat)
      requires Valid() && nextIndex <= index
      modifies this, output
      ensures Valid()
      ensures Value() == Accept(old(Value()), data, index)
    {
      var maxLen := Min(|data|, output.RemainingCapacity());
      if index > nextIndex {
        StoreAhead(data, index, maxLen);
      } else {
        assert data[0..] == data;
        AssembleNext(data, maxLen);
      }
    }

    method AssembleNext(data: Bytes, maxLen: nat)
      requires Valid()
      requires maxLen == Min(|data|, output.RemainingCapacity())
      modifies this, output
      ensures Valid()
      ensures Value() == Assemble(old(Value()), data)
    {
      WriteNext(data, maxLen);
      DrainStored();
      if eofFlag && bytesUnassembled == 0 {
        output.EndInput();
      }
    }

    method StoreAhead(data: Bytes, index: nat, maxLen: nat)
      requires Valid()
      requires maxLen == Min(|data|, output.RemainingCapacity())
      requires nextIndex < index
      modifies this
      ensures Valid()
      ensures Value() == old(Value()).(stored := Store(old(stored), data[..maxLen], index))
    {
      var i := 0;
      while i < maxLen
        invariant 0 <= i <= maxLen
        invariant stored == Store(old(stored), data[..i], index)
        invariant bytesUnassembled == |stored|
        invariant nextIndex == old(nextIndex) && eofFlag == old(eofFlag)
      {
        assert data[..i + 1][..i] == data[..i];
        if index + i !in stored {
          stored := stored[index + i := data[i]];
          bytesUnassembled := bytesUnassembled + 1;
        }
        i := i + 1;
      }
    }

    method WriteNext(data: Bytes, maxLen: nat)
      requires Valid()
      requires maxLen == Min(|data|, output.RemainingCapacity())
      modifies this, output
      ensures Valid()
      ensures Value() == WriteUpTo(old(Value()), data, maxLen)
    {
      var i := 0;
      while i < maxLen
        invariant 0 <= i <= maxLen
        invariant Valid()
        invariant Value() == WriteUpTo(old(Value()), data, i)
      {
        WriteOneMore(old(output.Value()), data, i);
        WriteByte(data[i]);
        i := i + 1;
      }
    }

    method WriteByte(b: Byte)
      requires Valid() && output.RemainingCapacity() > 0
      modifies this, output
      ensures Valid()
      ensures Value() == old(Value()).(out := old(output.Value()).Write([b]), stored := old(stored) - {old(nextIndex)})
    {
      var _ := output.Write([b]);
      assert output.Value() == old(output.Value()).Write([b]);
      nextIndex := nextIndex + 1;
      assert nextIndex == output.writeCount;
      Erase(nextIndex - 1);
    }

    method Erase(k: nat)
      requires bytesUnassembled == |stored|
      modifies this`stored, this`bytesUnassembled
      ensures stored == old(stored) - {k} && bytesUnassembled == |stored|
    {
      RemoveAbsent(stored, k);
      if k in stored {
        RemoveShrinks(stored, k);
        stored := stored - {k};
        bytesUnassembled := bytesUnassembled - 1;
      }
    }

    method DrainStored()
      requires Valid()
      modifies this, output
      ensures Valid()
      ensures Value() == Drain(old(Value()))
    {
      while nextIndex in stored
        invariant Valid()
        invariant Drain(Value()) == Drain(old(Value()))
        invariant eofFlag == old(eofFlag)
        decreases |stored|
      {
        if output.RemainingCapacity() > 0 {
          var _ := output.Write([stored[nextIndex]]);
          RemoveShrinks(stored, nextIndex);
          stored := stored - {nextIndex};
          nextIndex := nextIndex + 1;
          bytesUnassembled := bytesUnassembled - 1;
        } else {
          break;
        }
      }
    }
  }

  /** Writing byte by byte is writing at once. */
  lemma WriteOneMore(s: Stream, data: Bytes, i: nat)
    requires i < Min(|data|, s.Remaining())
    ensures s.Write(data[..i]).Write([data[i]]) == s.Write(data[..i + 1])
  {
    var before := s.Write(data[..i]);
    assert before.history == s.history + data[..i];
    assert [data[i]][..1] == [data[i]];
    assert s.history + data[..i + 1] == s.history + data[..i] + [data[i]];
  }

  /** Cutting off what was already assembled does not change what a push does. */
  lemma PushTrimmed(s: Reassembler, data: Bytes, index: nat, eof: bool)
    requires index < s.Next() < index + |data|
    ensures Push(s, data, index, eof) ==
            Push(MarkEof(s, data, index, eof), data[s.Next() - index..], s.Next(), eof)
  {
    var rest := data[s.Next() - index..];
    assert rest[0..] == rest;
  }

  lemma RemoveAbsent(m: map<nat, Byte>, k: nat)
    ensures k !in m ==> m - {k} == m
  {}

  lemma RemoveShrinks(m: map<nat, Byte>, k: nat)
    requires k in m
    ensures |m - {k}| == |m| - 1
  {
    assert (m - {k}).Keys == m.Keys - {k};
  }
}
