/** Read-only strings that share storage and lose bytes from the front, alone and in chunks. */
module Buffers {
  import opened Common

  datatype RawBuffer = RawBuffer(storage: Option<Bytes>, offset: nat)
  {
    predicate Valid() {
      storage.Some? ==> offset <= |storage.value|
    }

    function Str(): Bytes
      requires Valid()
    {
      if storage.None? then [] else storage.value[offset..]
    }

    /** Fails when asked for more than there is; releases the storage once nothing is left. */
    function RemovePrefix(n: nat): (r: Option<Buffer>)
      requires Valid()
      ensures r.Some? <==> n <= |Str()|
      ensures r.Some? ==> r.value.Str() == Str()[n..]
    {
      if n > |Str()| then None
      else if storage.Some? && offset + n == |storage.value| then Some(RawBuffer(None, offset + n))
      else Some(RawBuffer(storage, offset + n))
    }
  }

  type Buffer = b: RawBuffer | b.Valid() witness RawBuffer(None, 0)

  /** The string a list of chunks stands for. */
  function Flatten(bs: seq<Buffer>): Bytes {
    if bs == [] then [] else bs[0].Str() + Flatten(bs[1..])
  }

  lemma {:induction false} FlattenAppend(a: seq<Buffer>, b: seq<Buffer>)
    ensures Flatten(a + b) == Flatten(a) + Flatten(b)
  {
    if a == [] {
      assert a + b == b;
    } else {
      assert (a + b)[1..] == a[1..] + b;
      FlattenAppend(a[1..], b);
    }
  }

  lemma FlattenSnoc(bs: seq<Buffer>, i: nat)
    requires i < |bs|
    ensures Flatten(bs[..i + 1]) == Flatten(bs[..i]) + bs[i].Str()
  {
    assert bs[..i + 1] == bs[..i] + [bs[i]];
    FlattenAppend(bs[..i], [bs[i]]);
    assert [bs[i]][1..] == [];
  }

  lemma FlattenOne(b: Buffer)
    ensures Flatten([b]) == b.Str()
  {
    assert [b][1..] == [];
  }

  class BufferList {
    var buffers: seq<Buffer>

    ghost function Contents(): Bytes
      reads this
    {
      Flatten(buffers)
    }

    constructor (buffer: Buffer)
      ensures buffers == [buffer] && Contents() == buffer.Str()
    {
      buffers := [buffer];
      FlattenOne(buffer);
    }

    method Append(other: BufferList)
      modifies this
      ensures Contents() == old(Contents()) + old(other.Contents())
      ensures buffers == old(buffers) + old(other.buffers)
    {
      FlattenAppend(buffers, other.buffers);
      var added := other.buffers;
      ghost var before := buffers;
      var i := 0;
      while i < |added|
        invariant 0 <= i <= |added|
        invariant buffers == before + added[..i]
      {
        assert added[..i + 1] == added[..i] + [added[i]];
        buffers := buffers + [added[i]];
        i := i + 1;
      }
      assert added[..i] == added;
    }

    method Size() returns (r: nat)
      ensures r == |Contents()|
    {
      r := 0;
      var i := 0;
      while i < |buffers|
        invariant 0 <= i <= |buffers|
        invariant r == |Flatten(buffers[..i])|
      {
        FlattenSnoc(buffers, i);
        r := r + |buffers[i].Str()|;
        i := i + 1;
      }
      assert buffers[..i] == buffers;
    }

    method Concatenate() returns (r: Bytes)
      ensures r == Contents()
    {
      r := [];
      var i := 0;
      while i < |buffers|
        invariant 0 <= i <= |buffers|
        invariant r == Flatten(buffers[..i])
      {
        FlattenSnoc(buffers, i);
        r := r + buffers[i].Str();
        i := i + 1;
      }
      assert buffers[..i] == buffers;
    }

    /** One buffer, unless there are several chunks. */
    method ToBuffer() returns (r: Option<Buffer>)
      ensures r.Some? <==> |buffers| <= 1
      ensures r.Some? ==> r.value.Str() == Contents()
    {
      if |buffers| == 0 {
        r := Some(RawBuffer(None, 0));
      } else if |buffers| == 1 {
        r := Some(buffers[0]);
        assert buffers == [buffers[0]];
        FlattenOne(buffers[0]);
      } else {
        r := None;
      }
    }

    /** Drops the first `n` bytes for any chunking, empty chunks included; `ok` is false when there were fewer. */
    method RemovePrefix(n: nat) returns (ok: bool)
      modifies this
      ensures ok <==> n <= |old(Contents())|
      ensures Contents() == if ok then old(Contents())[n..] else []
    {
      ghost var all := Contents();
      var left: nat := n;
      while left > 0
        invariant n <= |all| ==> left <= |Flatten(buffers)| && Flatten(buffers)[left..] == all[n..]
        invariant n > |all| ==> left > |Flatten(buffers)|
        decreases left, |buffers|
      {
        if buffers == [] {
          return false;
        }
        var front := buffers[0];
        if left < |front.Str()| {
          var rest := front.RemovePrefix(left).value;
          assert buffers[0 := rest][1..] == buffers[1..];
          buffers := buffers[0 := rest];
          left := 0;
        } else {
          left := left - |front.Str()|;
          buffers := buffers[1..];
        }
      }
      return true;
    }
  }
}
