/** 32-bit sequence numbers that wrap around, and their 64-bit absolute counterparts. */
module Wrapping {
  import opened Common

  /** The 32-bit sequence number of absolute position `n` in a stream that starts at `isn`. */
  function Wrap(n: nat, isn: U32): U32 {
    (n % TWO32 + isn) % TWO32
  }

  /** Reinterpretation of a 64-bit word as a signed number. */
  function AsInt64(x: int): int {
    var word := x % TWO64;
    if word < TWO63 then word else word - TWO64
  }

  /** The candidate with the upper half of `checkpoint`, moved up or down one lap when that is nearer. */
  function Unwrap(n: U32, isn: U32, checkpoint: U64): U64 {
    var back := (n - isn) % TWO32;
    var ans := checkpoint - checkpoint % TWO32 + back;
    if Abs(AsInt64(ans + TWO32 - checkpoint)) < Abs(AsInt64(ans - checkpoint)) then
      (ans + TWO32) % TWO64
    else if ans >= TWO32 && Abs(AsInt64(ans - TWO32 - checkpoint)) < Abs(AsInt64(ans - checkpoint)) then
      ans - TWO32
    else
      ans
  }

  /** The nearest candidate lies past the end of the 64-bit range. */
  predicate NearestOverflows(n: U32, isn: U32, checkpoint: U64) {
    checkpoint >= TWO64 - TWO32 && (n - isn) % TWO32 + TWO31 < checkpoint % TWO32
  }

  /** `v` is a closest 64-bit position to `checkpoint` among those with sequence number `n`. */
  ghost predicate IsNearest(v: U64, n: U32, isn: U32, checkpoint: U64) {
    && Wrap(v, isn) == n
    && forall w: U64 :: Wrap(w, isn) == n ==> Abs(v - checkpoint) <= Abs(w - checkpoint)
  }

  /** The lap Unwrap settles on, given the checkpoint's lap `q` and the offsets `back` and `r` inside a lap. */
  function ChosenLap(back: int, q: int, r: int): int {
    if back - r < -TWO31 then (q + 1) % TWO32
    else if back - r > TWO31 && q > 0 then q - 1
    else q
  }

  lemma AsInt64Small(x: int)
    requires -TWO63 <= x < TWO63
    ensures AsInt64(x) == x
  {}

  lemma UnwrapLap(n: U32, isn: U32, checkpoint: U64)
    ensures var back, q, r := (n - isn) % TWO32, checkpoint / TWO32, checkpoint % TWO32;
            Unwrap(n, isn, checkpoint) == back + ChosenLap(back, q, r) * TWO32
  {
    var back, q, r := (n - isn) % TWO32, checkpoint / TWO32, checkpoint % TWO32;
    var ans := checkpoint - r + back;
    var d := back - r;
    assert checkpoint == q * TWO32 + r && ans == q * TWO32 + back;
    AsInt64Small(d);
    AsInt64Small(d + TWO32);
    AsInt64Small(d - TWO32);
    assert ans - checkpoint == d;
    assert ans + TWO32 - checkpoint == d + TWO32;
    assert ans - TWO32 - checkpoint == d - TWO32;
  }

  /** A position has sequence number `n` exactly when it sits at offset `n - isn` of its lap. */
  lemma WrapOffset(v: nat, n: U32, isn: U32)
    ensures Wrap(v, isn) == n <==> v % TWO32 == (n - isn) % TWO32
  {}

  lemma LapOffset(back: int, lap: nat)
    requires 0 <= back < TWO32
    ensures (back + lap * TWO32) % TWO32 == back && (back + lap * TWO32) / TWO32 == lap
  {}

  lemma UnwrapWraps(n: U32, isn: U32, checkpoint: U64)
    ensures Wrap(Unwrap(n, isn, checkpoint), isn) == n
  {
    var back, q, r := (n - isn) % TWO32, checkpoint / TWO32, checkpoint % TWO32;
    var u := Unwrap(n, isn, checkpoint);
    assert u % TWO32 == back by {
      UnwrapLap(n, isn, checkpoint);
      LapOffset(back, ChosenLap(back, q, r));
    }
    WrapOffset(u, n, isn);
  }

  /** No lap gives a 64-bit position closer to `q * 2^32 + r` than the chosen one, unless that one ran off the end. */
  lemma ChosenLapNearest(back: int, q: int, r: int, lap: int)
    requires 0 <= back < TWO32 && 0 <= r < TWO32 && 0 <= q < TWO32 && 0 <= lap < TWO32
    requires q + 1 < TWO32 || back - r >= -TWO31
    ensures var best := ChosenLap(back, q, r);
            Abs(back + best * TWO32 - (q * TWO32 + r)) <= Abs(back + lap * TWO32 - (q * TWO32 + r))
  {}

  /** The documented promise holds exactly when the nearest candidate is a 64-bit number. */
  lemma UnwrapNearest(n: U32, isn: U32, checkpoint: U64)
    ensures IsNearest(Unwrap(n, isn, checkpoint), n, isn, checkpoint)
            <==> !NearestOverflows(n, isn, checkpoint)
  {
    var back, q, r := (n - isn) % TWO32, checkpoint / TWO32, checkpoint % TWO32;
    var u := Unwrap(n, isn, checkpoint);
    UnwrapWraps(n, isn, checkpoint);
    assert u == back + ChosenLap(back, q, r) * TWO32 by { UnwrapLap(n, isn, checkpoint); }
    assert NearestOverflows(n, isn, checkpoint) <==> q + 1 == TWO32 && back - r < -TWO31;
    if NearestOverflows(n, isn, checkpoint) {
      var near: U64 := back + q * TWO32;
      LapOffset(back, q);
      WrapOffset(near, n, isn);
      assert Abs(near - checkpoint) < Abs(u - checkpoint);
    } else {
      forall w: U64 | Wrap(w, isn) == n ensures Abs(u - checkpoint) <= Abs(w - checkpoint) {
        WrapOffset(w, n, isn);
        ChosenLapNearest(back, q, r, w / TWO32);
      }
    }
  }

  /** At the very top of the range the nearest position would be 2^64, and 0 is returned. */
  lemma UnwrapPastTheTop()
    ensures Unwrap(0, 0, TWO64 - 1) == 0 && !IsNearest(0, 0, 0, TWO64 - 1)
  {
    UnwrapLap(0, 0, TWO64 - 1);
    UnwrapNearest(0, 0, TWO64 - 1);
  }

  /** The lap of a position less than 2^31 away is the chosen one. */
  lemma NearLapChosen(back: int, q: int, r: int, lap: int)
    requires 0 <= back < TWO32 && 0 <= r < TWO32 && 0 <= q < TWO32 && 0 <= lap < TWO32
    requires -TWO31 < back + lap * TWO32 - (q * TWO32 + r) < TWO31
    ensures lap == ChosenLap(back, q, r)
  {}

  /** Any two 64-bit positions less than 2^31 apart: the round trip is exact, up to the very top. */
  lemma UnwrapWrapRoundTrip(v: U64, isn: U32, checkpoint: U64)
    requires -TWO31 < v - checkpoint < TWO31
    ensures Unwrap(Wrap(v, isn), isn, checkpoint) == v
  {
    var n := Wrap(v, isn);
    var back, q, r := (n - isn) % TWO32, checkpoint / TWO32, checkpoint % TWO32;
    var lap := v / TWO32;
    assert v % TWO32 == back by { WrapOffset(v, n, isn); }
    assert lap == ChosenLap(back, q, r) by { NearLapChosen(back, q, r, lap); }
    assert Unwrap(n, isn, checkpoint) == back + lap * TWO32 by { UnwrapLap(n, isn, checkpoint); }
  }
}
