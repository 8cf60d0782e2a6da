/**
 * The fixed-width Java arithmetic that the sweeper relies on: the signed
 * `byte`, the 32-bit `int`, Java's truncating remainder and `++`.
 */
module JavaInts {
  /** The bit pattern of a Java `byte`, read as an unsigned value. */
  type byte = x: int | 0 <= x < 256

  /** A Java `int`. */
  type int32 = x: int | -0x8000_0000 <= x < 0x8000_0000

  const MaxInt32: int32 := 0x7fff_ffff

  /** The value Java gives a `byte` whose bits are `b` (two's complement). */
  function ToSigned(b: byte): (r: int)
    ensures -128 <= r < 128
    ensures r % 256 == b
  {
    if b < 128 then b else b - 256
  }

  /** Java's `a % 256`: the remainder of division truncated toward zero. */
  function JavaRem256(a: int): (r: int)
    ensures -256 < r < 256
    ensures (a - r) % 256 == 0
    ensures r != 0 ==> (r > 0 <==> a > 0)
  {
    if a >= 0 then a % 256 else -((-a) % 256)
  }

  /** Java's `x++` on an `int`: wraps from the largest value to the smallest. */
  function Inc32(x: int32): (r: int32)
    ensures (r - x - 1) % 0x1_0000_0000 == 0
    ensures x < MaxInt32 ==> r == x + 1
  {
    if x == MaxInt32 then -0x8000_0000 else x + 1
  }
}
