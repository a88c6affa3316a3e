/** Fixed-width integers, bytes and small helpers shared by every layer. */
module Common {

  const TWO16: int := 0x1_0000
  const TWO31: int := 0x8000_0000
  const TWO32: int := 0x1_0000_0000
  const TWO63: int := 0x8000_0000_0000_0000
  const TWO64: int := 0x1_0000_0000_0000_0000

  type Byte = x: int | 0 <= x < 0x100
  type Bytes = seq<Byte>
  type U8 = Byte
  type U16 = x: int | 0 <= x < 0x1_0000
  type U32 = x: int | 0 <= x < 0x1_0000_0000
  type U64 = x: int | 0 <= x < 0x1_0000_0000_0000_0000

  datatype Option<+T> = None | Some(value: T)

  function Min(a: int, b: int): int {
    if a <= b then a else b
  }

  function Max(a: int, b: int): int {
    if a <= b then b else a
  }

  function Abs(a: int): int {
    if a < 0 then -a else a
  }

  function Pow2(n: nat): nat {
    if n == 0 then 1 else 2 * Pow2(n - 1)
  }

  lemma ModPlus(a: int, b: int)
    ensures (a % TWO32 + b) % TWO32 == (a + b) % TWO32
  {}
}
