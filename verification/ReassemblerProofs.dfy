/** What reassembly keeps, whatever arrives and in whatever order. */
module ReassemblyProofs {
  import opened Common
  import opened ByteStreams
  import opened Reassembly

  // ---------- which bytes a push keeps ----------

  predicate KeysAhead(s: Reassembler) {
    forall k :: k in s.stored ==> s.Next() <= k
  }

  /** The byte held at position `k`, assembled or stored. */
  function At(s: Reassembler, k: nat): Byte
    requires s.Holds(k)
  {
    if k < s.Next() then s.out.history[k] else s.stored[k]
  }

  /** `t` holds what `s` held and the bytes of `data` at positions `[index, hi)`, and nothing else. */
  ghost predicate Merges(s: Reassembler, t: Reassembler, data: Bytes, index: nat, hi: nat)
    requires hi <= index + |data|
  {
    && (forall k: nat :: t.Holds(k) <==> s.Holds(k) || index <= k < hi)
    && (forall k: nat :: t.Holds(k) ==>
          (s.Holds(k) && At(t, k) == At(s, k)) || (index <= k < hi && At(t, k) == data[k - index]))
  }

  /** Everything but the held bytes and the two end marks. */
  predicate SameFrame(s: Reassembler, t: Reassembler) {
    && t.out.readCount == s.out.readCount
    && t.out.capacity == s.out.capacity
    && t.out.error == s.out.error
    && s.out.history <= t.out.history
  }

  lemma {:induction false} StoreContents(stored: map<nat, Byte>, data: Bytes, index: nat)
    ensures forall k :: k in Store(stored, data, index) <==> k in stored || index <= k < index + |data|
    ensures forall k :: k in stored ==> k in Store(stored, data, index) && Store(stored, data, index)[k] == stored[k]
    ensures forall k :: index <= k < index + |data| && k !in stored ==>
              k in Store(stored, data, index) && Store(stored, data, index)[k] == data[k - index]
    decreases |data|
  {
    if data != [] {
      StoreContents(stored, data[..|data| - 1], index);
    }
  }

  lemma {:induction false} WithoutContents(stored: map<nat, Byte>, lo: nat, hi: nat)
    ensures forall k :: k in Without(stored, lo, hi) <==> k in stored && !(lo <= k < hi)
    ensures forall k :: k in Without(stored, lo, hi) ==> Without(stored, lo, hi)[k] == stored[k]
    decreases hi
  {
    if lo < hi {
      WithoutContents(stored, lo, hi - 1);
    }
  }

  /** Draining moves held bytes without adding or losing one, and goes as far as it can. */
  lemma {:induction false} DrainKeeps(s: Reassembler)
    requires KeysAhead(s)
    ensures KeysAhead(Drain(s)) && SameFrame(s, Drain(s))
    ensures Merges(s, Drain(s), [], 0, 0)
    ensures Drain(s).eofFlag == s.eofFlag && Drain(s).out.ended == s.out.ended
    ensures Drain(s).Next() == s.Edge() || Drain(s).Next() !in Drain(s).stored
    decreases s.out.Remaining()
  {
    if s.Next() in s.stored && s.out.Remaining() > 0 {
      var t := s.(out := s.out.Write([s.stored[s.Next()]]), stored := s.stored - {s.Next()});
      assert t.out.history == s.out.history + [s.stored[s.Next()]];
      DrainKeeps(t);
    }
  }

  lemma WriteUpToKeeps(s: Reassembler, data: Bytes)
    requires KeysAhead(s)
    ensures var n := Min(|data|, s.out.Remaining());
            var t := WriteUpTo(s, data, n);
            && KeysAhead(t) && SameFrame(s, t) && t.Next() == s.Next() + n
            && t.eofFlag == s.eofFlag && t.out.ended == s.out.ended
            && Merges(s, t, data, s.Next(), s.Next() + n)
  {
    var n := Min(|data|, s.out.Remaining());
    var t := WriteUpTo(s, data, n);
    assert t.out.history == s.out.history + data[..n];
    WithoutContents(s.stored, s.Next(), s.Next() + n);
  }

  /** First position after those of `data` that a push has room for. */
  function KeptEnd(s: Reassembler, data: Bytes, index: nat): (hi: nat)
    ensures hi <= index + |data|
  {
    if Rejected(s, data, index) then index
    else if index > s.Next() then index + Min(|data|, s.out.Remaining())
    else Min(index + |data|, s.Edge())
  }

  lemma AssembleKeeps(s: Reassembler, data: Bytes)
    requires KeysAhead(s)
    ensures var t := Assemble(s, data);
            && KeysAhead(t) && SameFrame(s, t) && t.eofFlag == s.eofFlag
            && Merges(s, t, data, s.Next(), Min(s.Next() + |data|, s.Edge()))
            && t.Next() >= Min(s.Next() + |data|, s.Edge())
            && (t.Next() == s.Edge() || t.Next() !in t.stored)
            && (t.out.ended <==> s.out.ended || (s.eofFlag && t.stored == map[]))
  {
    WriteUpToKeeps(s, data);
    var w := WriteUpTo(s, data, Min(|data|, s.out.Remaining()));
    DrainKeeps(w);
    var d := Drain(w);
    var t := Finish(d);
    assert forall k: nat :: t.Holds(k) == d.Holds(k);
  }

  /** Merging what is left of `data` after the assembled part is merging all of it. */
  lemma MergesUntrimmed(s: Reassembler, t: Reassembler, data: Bytes, index: nat, hi: nat)
    requires index <= s.Next() <= hi <= index + |data|
    requires Merges(s, t, data[s.Next() - index..], s.Next(), hi)
    ensures Merges(s, t, data, index, hi)
  {}

  lemma AcceptKeeps(s: Reassembler, data: Bytes, index: nat)
    requires KeysAhead(s) && !Rejected(s, data, index)
    ensures var t := Accept(s, data, index);
            && KeysAhead(t) && SameFrame(s, t) && t.eofFlag == s.eofFlag
            && Merges(s, t, data, index, KeptEnd(s, data, index))
  {
    var t := Accept(s, data, index);
    var hi := KeptEnd(s, data, index);
    if index > s.Next() {
      StoreContents(s.stored, data[..Min(|data|, s.out.Remaining())], index);
    } else if index < s.Next() && index + |data| <= s.Next() {
      assert t == s;
    } else {
      AssembleKeeps(s, data[s.Next() - index..]);
      MergesUntrimmed(s, t, data, index, hi);
    }
  }

  /** Exactly which bytes a push adds, for any substring at any index in any state. */
  lemma PushKeeps(s: Reassembler, data: Bytes, index: nat, eof: bool)
    requires KeysAhead(s)
    ensures var t := Push(s, data, index, eof);
            && KeysAhead(t) && SameFrame(s, t)
            && Merges(s, t, data, index, KeptEnd(s, data, index))
  {
    if !Rejected(s, data, index) {
      AcceptKeeps(MarkEof(s, data, index, eof), data, index);
    }
  }

  /** Nothing inside the advertised window is discarded: all of `data` below the edge is held afterwards. */
  lemma PushKeepsWindow(s: Reassembler, data: Bytes, index: nat, eof: bool, k: nat)
    requires KeysAhead(s) && index <= k < index + |data| && k < s.Edge()
    ensures Push(s, data, index, eof).Holds(k)
  {
    PushKeeps(s, data, index, eof);
  }

  lemma AssembleWrites(s: Reassembler, data: Bytes)
    requires KeysAhead(s)
    ensures s.out.history + data[..Min(|data|, s.out.Remaining())] <= Assemble(s, data).out.history
  {
    var w := WriteUpTo(s, data, Min(|data|, s.out.Remaining()));
    WriteUpToKeeps(s, data);
    DrainKeeps(w);
  }

  lemma StoredValues(s: Reassembler, data: Bytes, index: nat, k: nat)
    requires KeysAhead(s) && index > s.Next()
    requires s.(stored := Store(s.stored, data, index)).Holds(k)
    ensures s.Holds(k) || index <= k < index + |data|
    ensures At(s.(stored := Store(s.stored, data, index)), k) == if s.Holds(k) then At(s, k) else data[k - index]
  {
    StoreContents(s.stored, data, index);
  }

  /** Bytes at hand are written to the output over any copy stored; all else keeps its value. */
  lemma AssembledValues(s: Reassembler, data: Bytes, k: nat)
    requires KeysAhead(s) && Assemble(s, data).Holds(k)
    ensures var hi := Min(s.Next() + |data|, s.Edge());
            && (s.Holds(k) || s.Next() <= k < hi)
            && At(Assemble(s, data), k) == if s.Next() <= k < hi then data[k - s.Next()] else At(s, k)
  {
    AssembleKeeps(s, data);
    AssembleWrites(s, data);
  }

  /** Which of two bytes for the same position wins: the one stored first, unless the new one is written to the output
      at once. */
  lemma PushValues(s: Reassembler, data: Bytes, index: nat, eof: bool, k: nat)
    requires KeysAhead(s) && Push(s, data, index, eof).Holds(k)
    ensures var hi := KeptEnd(s, data, index);
            && (s.Holds(k) || index <= k < hi)
            && At(Push(s, data, index, eof), k) ==
               if s.Holds(k) && !(index <= s.Next() <= k < hi) then At(s, k) else data[k - index]
  {
    if !Rejected(s, data, index) {
      var m := MarkEof(s, data, index, eof);
      if index > s.Next() {
        StoredValues(m, data[..Min(|data|, s.out.Remaining())], index, k);
      } else if !(index < s.Next() && index + |data| <= s.Next()) {
        AssembledValues(m, data[s.Next() - index..], k);
      }
    }
  }

  // ---------- the representation invariant ----------

  /** Stored positions are ahead of the output, and less than twice the capacity ahead. */
  predicate KeysBounded(s: Reassembler) {
    && KeysAhead(s)
    && forall k :: k in s.stored ==> k < s.Next() + 2 * s.out.capacity - 1
  }

  lemma PushKeepsBound(s: Reassembler, data: Bytes, index: nat, eof: bool)
    requires KeysBounded(s)
    ensures KeysBounded(Push(s, data, index, eof))
  {
    PushKeeps(s, data, index, eof);
    var t := Push(s, data, index, eof);
    forall k | k in t.stored ensures k < t.Next() + 2 * t.out.capacity - 1 {
      assert t.Holds(k);
    }
  }

  lemma {:induction false} RangeSize(keys: set<nat>, lo: nat, hi: nat)
    requires lo <= hi && forall k :: k in keys <==> lo <= k < hi
    ensures |keys| == hi - lo
    decreases hi
  {
    if lo < hi {
      RangeSize(keys - {hi - 1}, lo, hi - 1);
    } else {
      assert keys == {};
    }
  }

  lemma {:induction false} SubrangeSize(keys: set<nat>, lo: nat, hi: nat)
    requires lo <= hi && forall k :: k in keys ==> lo <= k < hi
    ensures |keys| <= hi - lo
    decreases hi
  {
    if lo < hi {
      SubrangeSize(keys - {hi - 1}, lo, hi - 1);
    } else {
      assert keys == {};
    }
  }

  /** How many bytes can be stored at most. */
  lemma StoredBounded(s: Reassembler)
    requires KeysBounded(s)
    ensures |s.stored| < 2 * s.out.capacity || s.stored == map[]
  {
    if s.stored != map[] {
      SubrangeSize(s.stored.Keys, s.Next(), s.Next() + 2 * s.out.capacity - 1);
    }
  }

  /** The documented memory limit is not kept: two substrings of full capacity leave all but two bytes stored. */
  lemma StoredBeyondCapacity(capacity: nat, first: Bytes, second: Bytes)
    requires |first| == |second| == capacity >= 2
    ensures var s := Push(Push(EmptyReassembler(capacity), first, 1, false), second, capacity - 1, false);
            |s.stored| == 2 * capacity - 2
  {
    var e := EmptyReassembler(capacity);
    var s1 := Push(e, first, 1, false);
    PushKeeps(e, first, 1, false);
    assert s1.Next() == 0;
    var s2 := Push(s1, second, capacity - 1, false);
    PushKeeps(s1, second, capacity - 1, false);
    assert s2.Next() == 0 by {
      assert !s2.Holds(0);
    }
    assert forall k: nat :: k in s2.stored <==> s2.Holds(k);
    RangeSize(s2.stored.Keys, 1, 2 * capacity - 1);
  }

  // ---------- one source stream ----------

  /** Every held byte is the byte of `src` at its position. */
  ghost predicate FromSource(s: Reassembler, src: Bytes) {
    && KeysAhead(s)
    && forall k: nat :: s.Holds(k) ==> k < |src| && At(s, k) == src[k]
  }

  predicate Agrees(src: Bytes, data: Bytes, index: nat) {
    index + |data| <= |src| && data == src[index..index + |data|]
  }

  lemma FromSourcePrefix(s: Reassembler, src: Bytes)
    requires FromSource(s, src)
    ensures s.out.history <= src
  {
    if s.Next() > 0 {
      assert s.Holds(s.Next() - 1);
    }
    forall k: nat | k < s.Next() ensures s.out.history[k] == src[k] {
      assert s.Holds(k);
    }
  }

  lemma PushFromSource(s: Reassembler, data: Bytes, index: nat, eof: bool, src: Bytes)
    requires FromSource(s, src) && Agrees(src, data, index)
    ensures FromSource(Push(s, data, index, eof), src)
  {
    PushKeeps(s, data, index, eof);
  }

  // ---------- order, overlap and repetition do not matter ----------

  datatype Event = Arrive(data: Bytes, index: nat, eof: bool) | Consume(count: nat)

  function Step(s: Reassembler, e: Event): Reassembler {
    match e
    case Arrive(data, index, eof) => Push(s, data, index, eof)
    case Consume(count) => s.(out := s.out.Read(count))
  }

  function Run(s: Reassembler, es: seq<Event>): Reassembler {
    if es == [] then s else Step(Run(s, es[..|es| - 1]), es[|es| - 1])
  }

  /** Each substring ends inside the window that is open when it arrives. */
  predicate AllFit(s: Reassembler, es: seq<Event>) {
    es == [] ||
    var before, e := es[..|es| - 1], es[|es| - 1];
    && AllFit(s, before)
    && (e.Arrive? ==> e.index + |e.data| <= Run(s, before).Edge())
  }

  predicate AllAgree(es: seq<Event>, src: Bytes) {
    forall i :: 0 <= i < |es| && es[i].Arrive? ==> Agrees(src, es[i].data, es[i].index)
  }

  ghost predicate Covered(es: seq<Event>, k: nat) {
    exists i :: 0 <= i < |es| && es[i].Arrive? && es[i].index <= k < es[i].index + |es[i].data|
  }

  /** Nothing is held at the next index or past the edge. */
  predicate Settled(s: Reassembler) {
    && KeysAhead(s)
    && s.Next() !in s.stored
    && forall k :: k in s.stored ==> k < s.Edge()
  }

  /** Once a push has run, the next index is stored only if the output is full. */
  lemma PushDrains(s: Reassembler, data: Bytes, index: nat, eof: bool)
    requires KeysAhead(s) && s.Next() !in s.stored
    ensures var t := Push(s, data, index, eof); t.Next() == t.Edge() || t.Next() !in t.stored
  {
    if !Rejected(s, data, index) {
      var m := MarkEof(s, data, index, eof);
      if index > s.Next() {
        StoreContents(s.stored, data[..Min(|data|, s.out.Remaining())], index);
      } else if !(index < s.Next() && index + |data| <= s.Next()) {
        AssembleKeeps(m, data[s.Next() - index..]);
      }
    }
  }

  /** A push leaves a settled reassembler settled exactly when it keeps no byte from past the edge. */
  lemma PushSettled(s: Reassembler, data: Bytes, index: nat, eof: bool)
    requires Settled(s)
    ensures Settled(Push(s, data, index, eof)) <==> KeptEnd(s, data, index) <= Max(s.Edge(), index)
  {
    var t := Push(s, data, index, eof);
    var hi := KeptEnd(s, data, index);
    PushKeeps(s, data, index, eof);
    PushDrains(s, data, index, eof);
    if hi <= Max(s.Edge(), index) {
      forall k | k in t.stored ensures k < t.Edge() {
        assert t.Holds(k);
      }
    } else {
      assert t.Holds(hi - 1);
    }
  }

  /** The documented memory limit holds of every settled state: stored and unread bytes together fit the capacity. */
  lemma SettledWithinCapacity(s: Reassembler)
    requires Settled(s)
    ensures |s.stored| + (s.Next() - s.out.readCount) <= s.out.capacity
  {
    SubrangeSize(s.stored.Keys, s.Next(), s.Edge());
  }

  lemma {:induction false} RunCovers(capacity: nat, es: seq<Event>, src: Bytes)
    requires AllFit(EmptyReassembler(capacity), es) && AllAgree(es, src)
    ensures var s := Run(EmptyReassembler(capacity), es);
            && Settled(s) && FromSource(s, src)
            && forall k: nat :: s.Holds(k) <==> Covered(es, k)
    decreases |es|
  {
    if es != [] {
      var before, e := es[..|es| - 1], es[|es| - 1];
      RunCovers(capacity, before, src);
      var s := Run(EmptyReassembler(capacity), before);
      var t := Run(EmptyReassembler(capacity), es);
      CoveredSnoc(before, e);
      assert es == before + [e];
      match e
      case Arrive(data, index, eof) =>
        PushSettled(s, data, index, eof);
        PushFromSource(s, data, index, eof, src);
        PushKeeps(s, data, index, eof);
        forall k: nat | index <= k < index + |data| ensures t.Holds(k) {
          FittingIsKept(s, data, index, k);
        }
      case Consume(count) =>
        assert forall k: nat :: t.Holds(k) == s.Holds(k);
    }
  }

  lemma CoveredSnoc(es: seq<Event>, e: Event)
    ensures forall k: nat :: Covered(es + [e], k) <==>
              Covered(es, k) || (e.Arrive? && e.index <= k < e.index + |e.data|)
  {
    var all := es + [e];
    forall k: nat ensures Covered(all, k) <==>
                            Covered(es, k) || (e.Arrive? && e.index <= k < e.index + |e.data|)
    {
      if Covered(es, k) {
        var i :| 0 <= i < |es| && es[i].Arrive? && es[i].index <= k < es[i].index + |es[i].data|;
        assert all[i] == es[i];
      }
      assert all[|es|] == e;
    }
  }

  /** A substring that fits the window is kept whole, or was assembled before. */
  lemma FittingIsKept(s: Reassembler, data: Bytes, index: nat, k: nat)
    requires index <= k < index + |data| <= s.Edge()
    ensures k < KeptEnd(s, data, index) || k < s.Next()
  {
    assert s.out.Valid();
  }

  /** The output is the source up to the first position no substring covered, in any order of arrival. */
  lemma AssembledIsLeastUncovered(capacity: nat, es: seq<Event>, src: Bytes)
    requires AllFit(EmptyReassembler(capacity), es) && AllAgree(es, src)
    ensures var s := Run(EmptyReassembler(capacity), es);
            && s.Next() <= |src| && s.out.history == src[..s.Next()]
            && !Covered(es, s.Next())
            && forall k: nat :: k < s.Next() ==> Covered(es, k)
  {
    RunCovers(capacity, es, src);
    var s := Run(EmptyReassembler(capacity), es);
    FromSourcePrefix(s, src);
    assert forall k: nat :: k < s.Next() ==> s.Holds(k);
    assert !s.Holds(s.Next());
  }

  /** Two histories of arrivals and reads covering the same positions assemble the same bytes. */
  lemma OrderIndependent(capacity: nat, es: seq<Event>, fs: seq<Event>, src: Bytes)
    requires AllFit(EmptyReassembler(capacity), es) && AllAgree(es, src)
    requires AllFit(EmptyReassembler(capacity), fs) && AllAgree(fs, src)
    requires forall k: nat :: Covered(es, k) <==> Covered(fs, k)
    ensures Run(EmptyReassembler(capacity), es).out.history == Run(EmptyReassembler(capacity), fs).out.history
  {
    AssembledIsLeastUncovered(capacity, es, src);
    AssembledIsLeastUncovered(capacity, fs, src);
    var n, m := Run(EmptyReassembler(capacity), es).Next(), Run(EmptyReassembler(capacity), fs).Next();
    assert Covered(es, n) <==> Covered(fs, n);
    assert Covered(es, m) <==> Covered(fs, m);
  }

  // ---------- the end of the stream ----------

  /** The end mark is up only when the last byte of a stream of `len` bytes is at hand. */
  predicate FlagSound(s: Reassembler, len: nat) {
    s.eofFlag ==> s.Next() == len || (len > 0 && s.Holds(len - 1))
  }

  predicate EndSound(s: Reassembler, len: nat) {
    s.out.ended ==> s.Next() == len
  }

  /** A final substring that raises the end mark must have its last byte kept or already at hand. */
  predicate FinKept(s: Reassembler, data: Bytes, index: nat) {
    var len := index + |data|;
    || Rejected(s, data, index)
    || len - s.Next() > s.out.capacity
    || len == s.Next()
    || (len > 0 && s.Holds(len - 1))
    || (|data| > 0 && KeptEnd(s, data, index) == len)
  }

  /** The end mark stays truthful exactly when the final substring keeps its last byte. */
  lemma PushFlagSound(s: Reassembler, data: Bytes, index: nat, eof: bool, src: Bytes)
    requires FromSource(s, src) && Agrees(src, data, index) && FlagSound(s, |src|)
    requires eof ==> index + |data| == |src|
    ensures FlagSound(Push(s, data, index, eof), |src|) <==> !eof || FinKept(s, data, index)
  {
    var t := Push(s, data, index, eof);
    PushKeeps(s, data, index, eof);
    PushFromSource(s, data, index, eof, src);
    FromSourcePrefix(s, src);
    FromSourcePrefix(t, src);
    PushFlag(s, data, index, eof);
  }

  lemma PushFlag(s: Reassembler, data: Bytes, index: nat, eof: bool)
    requires KeysAhead(s)
    ensures Push(s, data, index, eof).eofFlag <==>
            s.eofFlag || (eof && !Rejected(s, data, index) && index + |data| - s.Next() <= s.out.capacity)
  {
    if !Rejected(s, data, index) {
      AcceptKeeps(MarkEof(s, data, index, eof), data, index);
    }
  }

  lemma PushEnded(s: Reassembler, data: Bytes, index: nat, eof: bool)
    requires KeysAhead(s)
    ensures var t := Push(s, data, index, eof);
            && (t.out.ended ==> s.out.ended || (t.eofFlag && t.stored == map[]))
            && (s.out.ended ==> t.out.ended)
  {
    if !Rejected(s, data, index) && index <= s.Next() && !(index < s.Next() && index + |data| <= s.Next()) {
      AssembleKeeps(MarkEof(s, data, index, eof), data[s.Next() - index..]);
    }
  }

  /** The output is ended only when all of the source has been assembled. */
  lemma PushEndSound(s: Reassembler, data: Bytes, index: nat, eof: bool, src: Bytes)
    requires FromSource(s, src) && Agrees(src, data, index)
    requires FlagSound(s, |src|) && EndSound(s, |src|)
    requires eof ==> index + |data| == |src| && FinKept(s, data, index)
    ensures var t := Push(s, data, index, eof); FlagSound(t, |src|) && EndSound(t, |src|)
  {
    var t := Push(s, data, index, eof);
    PushFlagSound(s, data, index, eof, src);
    PushEnded(s, data, index, eof);
    PushKeeps(s, data, index, eof);
    PushFromSource(s, data, index, eof, src);
    FromSourcePrefix(t, src);
  }

  predicate AllFinsKept(s: Reassembler, es: seq<Event>, len: nat) {
    es == [] ||
    var before, e := es[..|es| - 1], es[|es| - 1];
    && AllFinsKept(s, before, len)
    && (e.Arrive? && e.eof ==> e.index + |e.data| == len && FinKept(Run(s, before), e.data, e.index))
  }

  lemma {:induction false} RunAppend(s: Reassembler, es: seq<Event>, fs: seq<Event>)
    ensures Run(s, es + fs) == Run(Run(s, es), fs)
    decreases |fs|
  {
    if fs == [] {
      assert es + fs == es;
    } else {
      var all := es + fs;
      assert all[..|all| - 1] == es + fs[..|fs| - 1];
      RunAppend(s, es, fs[..|fs| - 1]);
    }
  }

  /** Reads, and arrivals from the source that do not claim to be its end. */
  predicate Harmless(es: seq<Event>, src: Bytes) {
    && AllAgree(es, src)
    && forall i :: 0 <= i < |es| && es[i].Arrive? ==> !es[i].eof
  }

  /** Truthful marks stay truthful over any continuation whose final substrings keep their last byte. */
  lemma {:induction false} MarksStaySound(s: Reassembler, es: seq<Event>, src: Bytes)
    requires FromSource(s, src) && FlagSound(s, |src|) && EndSound(s, |src|)
    requires AllAgree(es, src) && AllFinsKept(s, es, |src|)
    ensures var t := Run(s, es); FromSource(t, src) && FlagSound(t, |src|) && EndSound(t, |src|)
    decreases |es|
  {
    if es != [] {
      var before, e := es[..|es| - 1], es[|es| - 1];
      MarksStaySound(s, before, src);
      var t, v := Run(s, before), Run(s, es);
      match e
      case Arrive(data, index, eof) =>
        PushEndSound(t, data, index, eof, src);
        PushFromSource(t, data, index, eof, src);
      case Consume(_) =>
        assert forall k: nat :: v.Holds(k) == t.Holds(k);
    }
  }

  /** Over any run in which final substrings keep their last byte, `ended` means the whole source is there. */
  lemma EndedMeansComplete(capacity: nat, es: seq<Event>, src: Bytes)
    requires AllAgree(es, src) && AllFinsKept(EmptyReassembler(capacity), es, |src|)
    ensures var s := Run(EmptyReassembler(capacity), es);
            && FromSource(s, src) && FlagSound(s, |src|)
            && (s.out.ended ==> s.out.history == src)
  {
    MarksStaySound(EmptyReassembler(capacity), es, src);
    FromSourcePrefix(Run(EmptyReassembler(capacity), es), src);
  }

  lemma {:induction false} HarmlessKeepsFins(s: Reassembler, es: seq<Event>, src: Bytes)
    requires Harmless(es, src)
    ensures AllFinsKept(s, es, |src|)
    decreases |es|
  {
    if es != [] {
      HarmlessKeepsFins(s, es[..|es| - 1], src);
    }
  }

  /** With everything read, the next byte of the source moves a reassembler on whose end mark is up too early. */
  lemma NextByteKeepsUnsound(s: Reassembler, src: Bytes)
    requires FromSource(s, src) && s.eofFlag && !FlagSound(s, |src|) && s.stored != map[] && s.out.capacity > 0
    requires s.out.readCount == s.Next()
    ensures s.Next() < |src|
    ensures var t := Push(s, src[s.Next()..s.Next() + 1], s.Next(), false);
            && FromSource(t, src) && t.eofFlag && !FlagSound(t, |src|) && t.out.capacity == s.out.capacity
            && t.Next() > s.Next()
  {
    FromSourcePrefix(s, src);
    var data := src[s.Next()..s.Next() + 1];
    var t := Push(s, data, s.Next(), false);
    PushKeeps(s, data, s.Next(), false);
    PushFlag(s, data, s.Next(), false);
    PushFromSource(s, data, s.Next(), false, src);
    FromSourcePrefix(t, src);
    PushAdvances(s, data);
    var k :| k in s.stored;
    assert s.Holds(k) && k != |src| - 1;
    assert !t.Holds(|src| - 1);
  }

  lemma PushAdvances(s: Reassembler, data: Bytes)
    requires KeysAhead(s) && data != [] && s.out.Remaining() > 0
    ensures Push(s, data, s.Next(), false).Next() > s.Next()
  {
    assert data[0..] == data;
    AssembleKeeps(s, data);
  }

  /** Read everything, then take the next byte of the source. */
  lemma AdvanceUnsound(s: Reassembler, src: Bytes) returns (es: seq<Event>)
    requires FromSource(s, src) && s.eofFlag && !FlagSound(s, |src|) && s.stored != map[] && s.out.capacity > 0
    ensures Harmless(es, src)
    ensures var t := Run(s, es);
            && FromSource(t, src) && t.eofFlag && !FlagSound(t, |src|) && t.out.capacity == s.out.capacity
            && s.Next() < t.Next()
  {
    var read := Consume(s.Next());
    var t := Step(s, read);
    assert forall k: nat :: t.Holds(k) == s.Holds(k);
    NextByteKeepsUnsound(t, src);
    var arrive := Arrive(src[t.Next()..t.Next() + 1], t.Next(), false);
    es := [read, arrive];
    assert es[..1] == [read] && [read][..0] == [];
    assert Run(s, [read]) == t;
    assert Run(s, es) == Step(t, arrive);
  }

  /** An end mark raised too early ends the output early: the source's own next bytes bring it about. */
  lemma {:induction false} UnsoundFlagEndsEarly(s: Reassembler, src: Bytes) returns (es: seq<Event>)
    requires FromSource(s, src) && s.eofFlag && !FlagSound(s, |src|)
    requires s.out.capacity > 0 || s.stored == map[]
    ensures Harmless(es, src) && Run(s, es).out.ended && Run(s, es).Next() < |src|
    decreases |src| - s.Next()
  {
    FromSourcePrefix(s, src);
    if s.stored == map[] {
      es := [Arrive([], s.Next(), false)];
      assert Run(s, es[..0]) == s;
      EmptyPushEnds(s);
    } else {
      var two := AdvanceUnsound(s, src);
      FromSourcePrefix(Run(s, two), src);
      var rest := UnsoundFlagEndsEarly(Run(s, two), src);
      RunAppend(s, two, rest);
      es := two + rest;
    }
  }

  lemma EmptyPushEnds(s: Reassembler)
    requires s.eofFlag && s.stored == map[]
    ensures var t := Push(s, [], s.Next(), false); t.out.ended && t.Next() == s.Next()
  {
    var w := WriteUpTo(s, [], 0);
    assert w.out.history == s.out.history;
    assert Drain(w) == w;
  }

  /** Whatever of the source arrives next, the output is ended only when complete, exactly if the marks are truthful. */
  lemma EndsOnlyWhenComplete(s: Reassembler, src: Bytes)
    requires FromSource(s, src) && KeysBounded(s)
    ensures (forall es :: Harmless(es, src) ==> EndSound(Run(s, es), |src|))
            <==> FlagSound(s, |src|) && EndSound(s, |src|)
  {
    if FlagSound(s, |src|) && EndSound(s, |src|) {
      forall es | Harmless(es, src) ensures EndSound(Run(s, es), |src|) {
        HarmlessKeepsFins(s, es, src);
        MarksStaySound(s, es, src);
      }
    } else if !EndSound(s, |src|) {
      assert Harmless([], src) && Run(s, []) == s;
    } else {
      assert s.out.capacity == 0 ==> s.stored == map[] by {
        assert s.out.capacity == 0 ==> forall k :: k !in s.stored;
      }
      var es := UnsoundFlagEndsEarly(s, src);
      assert Harmless(es, src) && !EndSound(Run(s, es), |src|);
    }
  }

  lemma {:induction false} RunFromSource(capacity: nat, es: seq<Event>, src: Bytes)
    requires AllAgree(es, src)
    ensures var s := Run(EmptyReassembler(capacity), es); FromSource(s, src) && KeysBounded(s)
    decreases |es|
  {
    if es != [] {
      RunFromSource(capacity, es[..|es| - 1], src);
      var s, t := Run(EmptyReassembler(capacity), es[..|es| - 1]), Run(EmptyReassembler(capacity), es);
      match es[|es| - 1]
      case Arrive(data, index, eof) =>
        PushFromSource(s, data, index, eof, src);
        PushKeepsBound(s, data, index, eof);
      case Consume(_) =>
        assert forall k: nat :: t.Holds(k) == s.Holds(k);
    }
  }

  /** The same after any arrivals from the source, in any order, and any reads. */
  lemma RunEndsOnlyWhenComplete(capacity: nat, es: seq<Event>, src: Bytes)
    requires AllAgree(es, src)
    ensures var s := Run(EmptyReassembler(capacity), es);
            (forall more :: Harmless(more, src) ==> EndSound(Run(s, more), |src|))
            <==> FlagSound(s, |src|) && EndSound(s, |src|)
  {
    RunFromSource(capacity, es, src);
    EndsOnlyWhenComplete(Run(EmptyReassembler(capacity), es), src);
  }

  /** The exact condition on a final substring: afterwards the output is ended only when complete, whatever arrives,
      if and only if the substring keeps its last byte or does not raise the end mark. */
  lemma FinalPushSafe(s: Reassembler, data: Bytes, index: nat, src: Bytes)
    requires FromSource(s, src) && KeysBounded(s) && FlagSound(s, |src|) && EndSound(s, |src|)
    requires Agrees(src, data, index) && index + |data| == |src|
    ensures (forall es :: Harmless(es, src) ==> EndSound(Run(Push(s, data, index, true), es), |src|))
            <==> FinKept(s, data, index)
  {
    PushFromSource(s, data, index, true, src);
    PushKeepsBound(s, data, index, true);
    EndsOnlyWhenComplete(Push(s, data, index, true), src);
    PushFlagSound(s, data, index, true, src);
    if FinKept(s, data, index) {
      PushEndSound(s, data, index, true, src);
    }
  }

  /** An empty final substring past a two-byte hole: one byte of three arrives and the output is ended. */
  lemma BareFinPastHole()
    ensures var s := Push(Push(EmptyReassembler(8), [], 2, true), [7], 0, false);
            s.out.ended && s.Next() == 1
    ensures !FinKept(EmptyReassembler(8), [], 2)
  {
    var s := Push(EmptyReassembler(8), [], 2, true);
    assert s == EmptyReassembler(8).(eofFlag := true);
    var w := WriteUpTo(s, [7], 1);
    assert w.out.history == [7];
    assert [7][0..] == [7];
    assert Drain(w) == w;
  }

  /** A final substring that completes the stream ends it, unless every byte of it had been assembled before. */
  lemma FinalPushEnds(s: Reassembler, data: Bytes, index: nat, src: Bytes)
    requires FromSource(s, src) && Agrees(src, data, index) && index + |data| == |src| <= s.Edge()
    requires Push(s, data, index, true).Next() == |src|
    ensures Push(s, data, index, true).out.ended <==> s.out.ended || !(index < s.Next() == |src|)
  {
    var t := Push(s, data, index, true);
    FromSourcePrefix(s, src);
    PushFromSource(s, data, index, true, src);
    assert t.stored == map[] by {
      forall k | k in t.stored ensures false {
        assert t.Holds(k);
      }
    }
    PushKeeps(s, data, index, true);
    if index <= s.Next() && !(index < s.Next() == |src|) {
      AssembleKeeps(MarkEof(s, data, index, true), data[s.Next() - index..]);
    }
  }

  /** The same byte first without and then with the end mark: assembled, and never ended however often it repeats. */
  lemma RepeatedFinNeverEnds()
    ensures var s := Push(Push(EmptyReassembler(8), [7], 0, false), [7], 0, true);
            s.out.history == [7] && s.eofFlag && !s.out.ended && Push(s, [7], 0, true) == s
  {
    var w := WriteUpTo(EmptyReassembler(8), [7], 1);
    assert [7][0..] == [7];
    assert w.out.history == [7];
    assert Drain(w) == w;
  }

  /** A substring kept from past the edge stalls: the next byte is stored and never moves by itself. */
  lemma OverrunStalls()
    ensures var s := Step(Push(Push(EmptyReassembler(2), [1, 2], 1, false), [0], 0, false), Consume(2));
            s.Next() == 2 && 2 in s.stored && s.out.Remaining() == 2
  {
    var e := EmptyReassembler(2);
    var s1 := Push(e, [1, 2], 1, false);
    PushKeeps(e, [1, 2], 1, false);
    assert s1.Next() == 0;
    assert s1.Holds(1) && s1.Holds(2) && !s1.Holds(0);
    AssembleKeeps(s1, [0]);
    var s2 := Push(s1, [0], 0, false);
    assert [0][0..] == [0];
    assert s2 == Assemble(s1, [0]);
    assert s2.Holds(2) && s2.Holds(1);
  }
}
