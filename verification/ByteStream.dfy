/** The bounded first-in first-out byte stream under both ends of a connection. */
module ByteStreams {
  import opened Common

  /** Everything ever written, and how far the reader has got. */
  datatype RawStream = RawStream(history: Bytes, readCount: nat, capacity: nat, ended: bool, error: bool)
  {
    predicate Valid() {
      readCount <= |history| <= readCount + capacity
    }

    function Remaining(): int {
      capacity - (|history| - readCount)
    }

    predicate Eof() {
      ended && readCount == |history|
    }

    /** Accepts the longest prefix of `data` that fits. */
    function Write(data: Bytes): Stream
      requires Valid()
    {
      this.(history := history + data[..Min(|data|, Remaining())])
    }

    /** The next bytes a reader asking for `len` obtains. */
    function Peek(len: nat): Bytes
      requires Valid()
    {
      history[readCount..readCount + Min(len, |history| - readCount)]
    }

    function Read(len: nat): Stream
      requires Valid()
    {
      this.(readCount := readCount + Min(len, |history| - readCount))
    }
  }

  type Stream = s: RawStream | s.Valid() witness RawStream([], 0, 0, false, false)

  function EmptyStream(capacity: nat): Stream {
    RawStream([], 0, capacity, false, false)
  }

  class ByteStream {
    var buf: Bytes
    const capacity: nat
    var writeCount: nat
    var readCount: nat
    var inputEnded: bool
    var error: bool
    ghost var history: Bytes

    ghost predicate Valid()
      reads this
    {
      && writeCount == |history|
      && readCount <= writeCount
      && buf == history[readCount..]
      && |buf| <= capacity
    }

    ghost function Value(): Stream
      requires Valid()
      reads this
    {
      RawStream(history, readCount, capacity, inputEnded, error)
    }

    constructor (capacity: nat)
      ensures Valid() && Value() == EmptyStream(capacity)
    {
      this.capacity := capacity;
      buf, writeCount, readCount, inputEnded, error := [], 0, 0, false, false;
      history := [];
    }

    method Write(data: Bytes) returns (len: nat)
      requires Valid()
      modifies this
      ensures Valid() && Value() == old(Value()).Write(data)
      ensures len == Min(|data|, capacity - |old(buf)|)
      ensures buf == old(buf) + data[..len]
    {
      len := |data|;
      if len > capacity - |buf| {
        len := capacity - |buf|;
      }
      buf := buf + data[..len];
      writeCount := writeCount + len;
      history := history + data[..len];
    }

    function PeekOutput(len: nat): (r: Bytes)
      reads this
      ensures r <= buf && |r| == Min(len, |buf|)
      ensures Valid() ==> r == Value().Peek(len)
    {
      buf[..Min(len, |buf|)]
    }

    /** Popping more than is buffered still counts in full, and that is exactly when the books stop balancing. */
    method PopOutput(len: nat)
      modifies this
      ensures buf == old(buf)[Min(len, |old(buf)|)..] && readCount == old(readCount) + len
      ensures history == old(history) && writeCount == old(writeCount)
      ensures inputEnded == old(inputEnded) && error == old(error)
      ensures old(Valid()) ==> (Valid() <==> len <= |old(buf)|)
    {
      readCount := readCount + len;
      buf := buf[Min(len, |buf|)..];
    }

    method Read(len: nat) returns (ans: Bytes)
      requires Valid()
      modifies this
      ensures Valid() && Value() == old(Value()).Read(len)
      ensures ans == old(Value()).Peek(len)
      ensures old(buf) == ans + buf && |ans| == Min(len, |old(buf)|)
    {
      var readLen := if len > |buf| then |buf| else len;
      ans := PeekOutput(readLen);
      PopOutput(readLen);
    }

    method EndInput()
      requires Valid()
      modifies this
      ensures Valid() && Value() == old(Value()).(ended := true)
    {
      inputEnded := true;
    }

    method SetError()
      requires Valid()
      modifies this
      ensures Valid() && Value() == old(Value()).(error := true)
    {
      error := true;
    }

    function RemainingCapacity(): (r: nat)
      requires Valid()
      reads this
      ensures r == Value().Remaining()
    {
      capacity - |buf|
    }

    predicate Eof()
      requires Valid()
      reads this
      ensures Eof() == Value().Eof()
    {
      inputEnded && |buf| == 0
    }
  }
}

/** First in, first out, over whole runs. */
module ByteStreamProofs {
  import opened Common
  import opened ByteStreams

  datatype StreamOp = Put(data: Bytes) | Get(len: nat)

  function Apply(s: Stream, op: StreamOp): Stream {
    match op
    case Put(data) => s.Write(data)
    case Get(len) => s.Read(len)
  }

  function Run(s: Stream, ops: seq<StreamOp>): Stream {
    if ops == [] then s else Apply(Run(s, ops[..|ops| - 1]), ops[|ops| - 1])
  }

  /** All that the reads of a run return, end to end. */
  function Output(s: Stream, ops: seq<StreamOp>): Bytes {
    if ops == [] then []
    else
      var before, op := ops[..|ops| - 1], ops[|ops| - 1];
      Output(s, before) + (if op.Get? then Run(s, before).Peek(op.len) else [])
  }

  /** How much is buffered after a run, from the sizes of its writes and reads alone. */
  function Buffered(capacity: nat, ops: seq<StreamOp>): (n: nat)
    ensures n <= capacity
  {
    if ops == [] then 0
    else
      var before := Buffered(capacity, ops[..|ops| - 1]);
      match ops[|ops| - 1]
      case Put(data) => Min(before + |data|, capacity)
      case Get(len) => Max(before - len, 0)
  }

  /** What a run accepts: of each write, as long a prefix as there is free space for. */
  function Accepted(capacity: nat, ops: seq<StreamOp>): Bytes {
    if ops == [] then []
    else
      var before, op := ops[..|ops| - 1], ops[|ops| - 1];
      Accepted(capacity, before) +
      (if op.Put? then op.data[..Min(|op.data|, capacity - Buffered(capacity, before))] else [])
  }

  lemma {:induction false} HistoryIsAccepted(capacity: nat, ops: seq<StreamOp>)
    ensures var s := Run(EmptyStream(capacity), ops);
            && s.history == Accepted(capacity, ops) && s.capacity == capacity
            && |s.history| - s.readCount == Buffered(capacity, ops)
    decreases |ops|
  {
    if ops != [] {
      HistoryIsAccepted(capacity, ops[..|ops| - 1]);
    }
  }

  lemma {:induction false} OutputIsHistory(capacity: nat, ops: seq<StreamOp>)
    ensures var s := Run(EmptyStream(capacity), ops); Output(EmptyStream(capacity), ops) == s.history[..s.readCount]
    decreases |ops|
  {
    if ops != [] {
      var before, op := ops[..|ops| - 1], ops[|ops| - 1];
      OutputIsHistory(capacity, before);
      PeekExtends(Run(EmptyStream(capacity), before), op);
    }
  }

  lemma PeekExtends(s: Stream, op: StreamOp)
    ensures var t := Apply(s, op);
            t.history[..t.readCount] == s.history[..s.readCount] + (if op.Get? then s.Peek(op.len) else [])
  {}

  /** First in, first out: the reads of any run, end to end, and then what is left in the buffer are the accepted
      prefixes of its writes. */
  lemma OutputIsInput(capacity: nat, ops: seq<StreamOp>)
    ensures var s := Run(EmptyStream(capacity), ops);
            && Output(EmptyStream(capacity), ops) + s.history[s.readCount..] == Accepted(capacity, ops)
            && |s.history| - s.readCount == Buffered(capacity, ops)
  {
    var s := Run(EmptyStream(capacity), ops);
    assert s.history == s.history[..s.readCount] + s.history[s.readCount..];
    HistoryIsAccepted(capacity, ops);
    OutputIsHistory(capacity, ops);
  }

  /** Writing what did not fit again after some reading leaves no gap and repeats nothing. */
  lemma Retry(s: Stream, data: Bytes, count: nat)
    ensures var len := Min(|data|, s.Remaining());
            var t := s.Write(data).Read(count);
            t.Write(data[len..]).history == s.history + data[..Min(|data|, len + t.Remaining())]
  {
    var len := Min(|data|, s.Remaining());
    var t := s.Write(data).Read(count);
    var more := Min(|data| - len, t.Remaining());
    assert data[..len] + data[len..][..more] == data[..len + more];
  }
}
