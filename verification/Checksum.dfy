/** The one's-complement checksum of RFC 1071. */
module Checksums {
  import opened Common

  /** The contribution of one byte: high half of a 16-bit word when the position is even. */
  function ByteWeight(b: Byte, parity: bool): nat {
    if parity then b else b * 0x100
  }

  /** Sum of the 16-bit words of `data`, the first byte being the low half when `parity` is set. */
  function WordSum(data: Bytes, parity: bool): nat {
    if data == [] then 0 else ByteWeight(data[0], parity) + WordSum(data[1..], !parity)
  }

  function Flips(parity: bool, n: nat): bool {
    if n % 2 == 0 then parity else !parity
  }

  /** Folds the carries back until 16 bits are left. */
  function Fold(x: nat): nat {
    if x > 0xffff then Fold(x / 0x1_0000 + x % 0x1_0000) else x
  }

  class InternetChecksum {
    var sum: U32
    var parity: bool

    constructor (initialSum: U32)
      ensures sum == initialSum && !parity
    {
      sum, parity := initialSum, false;
    }

    method Add(data: Bytes)
      modifies this
      ensures sum == (old(sum) + WordSum(data, old(parity))) % TWO32
      ensures parity == Flips(old(parity), |data|)
    {
      var i := 0;
      while i < |data|
        invariant 0 <= i <= |data|
        invariant sum == (old(sum) + WordSum(data[..i], old(parity))) % TWO32
        invariant parity == Flips(old(parity), i)
      {
        assert data[..i + 1] == data[..i] + [data[i]];
        WordSumAppend(data[..i], [data[i]], old(parity));
        assert WordSum([data[i]], parity) == ByteWeight(data[i], parity);
        var byte: nat := data[i];
        var val := if parity then byte else byte * 0x100;
        ModPlus(old(sum) + WordSum(data[..i], old(parity)), val);
        sum := (sum + val) % TWO32;
        parity := !parity;
        i := i + 1;
      }
      assert data[..i] == data;
    }

    method Value() returns (v: U16)
      ensures v == 0xffff - Fold(sum)
    {
      var ret: nat := sum;
      FoldClosed(sum);
      while ret > 0xffff
        invariant Fold(ret) == Fold(sum)
        decreases ret
      {
        ret := ret / 0x1_0000 + ret % 0x1_0000;
      }
      v := 0xffff - ret;
    }
  }

  /** Receiver's side: the running sum over everything folds to all ones. */
  method Verifies(initialSum: U32, bytes: Bytes) returns (good: bool)
    ensures good <==> Fold((initialSum + WordSum(bytes, false)) % TWO32) == 0xffff
  {
    var check := new InternetChecksum(initialSum);
    check.Add(bytes);
    var v := check.Value();
    good := v == 0;
  }

  lemma {:induction false} WordSumAppend(a: Bytes, b: Bytes, parity: bool)
    ensures WordSum(a + b, parity) == WordSum(a, parity) + WordSum(b, Flips(parity, |a|))
  {
    if a == [] {
      assert a + b == b;
    } else {
      assert (a + b)[1..] == a[1..] + b;
      WordSumAppend(a[1..], b, !parity);
    }
  }

  // ---------- folding is arithmetic modulo 65535 ----------

  /** The residue class of `x` modulo 65535, written with 65535 rather than 0 unless `x` is 0. */
  function Residue(x: nat): nat {
    if x == 0 then 0 else if x % 0xffff == 0 then 0xffff else x % 0xffff
  }

  lemma {:induction false} FoldClosed(x: nat)
    ensures Fold(x) == Residue(x) <= 0xffff
    decreases x
  {
    if x > 0xffff {
      var y := x / 0x1_0000 + x % 0x1_0000;
      assert x == x / 0x1_0000 * 0xffff + y;
      FoldClosed(y);
      SameResidue(x, y, x / 0x1_0000);
    }
  }

  lemma SameResidue(x: nat, y: nat, q: nat)
    requires x == q * 0xffff + y && y > 0
    ensures Residue(x) == Residue(y)
  {}

  /** Adding the complement of a folded sum never carries out of 32 bits, and folds to all ones: any sum whatever. */
  lemma ComplementVerifies(sum: U32)
    ensures var c := 0xffff - Fold(sum);
            0 <= c <= 0xffff && sum + c < TWO32 && Fold(sum + c) == 0xffff
  {
    FoldClosed(sum);
    var k := NextMultiple(sum);
    MultipleFolds(k);
  }

  /** What completes a sum to the next multiple of 65535, or to 65535 itself. */
  lemma NextMultiple(sum: U32) returns (k: nat)
    ensures k > 0 && sum + 0xffff - Residue(sum) == k * 0xffff < TWO32
  {
    k := sum / 0xffff + (if sum % 0xffff > 0 || sum == 0 then 1 else 0);
    assert sum == sum / 0xffff * 0xffff + sum % 0xffff;
    assert TWO32 - 1 == 0x10001 * 0xffff;
  }

  lemma MultipleFolds(k: nat)
    requires k > 0
    ensures Fold(k * 0xffff) == 0xffff
  {
    FoldClosed(k * 0xffff);
    assert k * 0xffff % 0xffff == 0;
  }
}
