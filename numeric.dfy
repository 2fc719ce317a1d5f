/** Machine integers of the renderer, the two's-complement conversions the
    border rule performs on neighbour coordinates, and the bit arithmetic
    behind the braille encoder. Dafny's `int` is unbounded, so every width
    and every wrap-around of the source is written out here. */
module Numeric {

  const I32Max: int := 0x7FFF_FFFF
  const I32Min: int := -0x8000_0000
  const U32Max: int := 0xFFFF_FFFF
  const U32Modulus: int := 0x1_0000_0000

  /** Rust `u8`. */
  type uint8 = x: int | 0 <= x < 0x100
  /** Rust `i32`. */
  type int32 = x: int | I32Min <= x <= I32Max
  /** Rust `u32`. */
  type uint32 = x: int | 0 <= x <= U32Max

  /** The `i32` whose bit pattern is the low 32 bits of `v`: what `as i32`
      and a wrapping (release-build) `i32` addition produce. Every value the
      border rule wraps lies within 2^32 of zero. */
  function WrapI32(v: int): int32
    requires -U32Modulus <= v < U32Modulus
  {
    if v > I32Max then v - U32Modulus
    else if v < I32Min then v + U32Modulus
    else v
  }

  /** Wrapping keeps a value that fits and otherwise moves it by exactly 2^32:
      the result is the one `i32` congruent to `v` modulo 2^32. */
  lemma WrapI32Congruent(v: int)
    requires -U32Modulus <= v < U32Modulus
    ensures I32Min <= v <= I32Max ==> WrapI32(v) == v
    ensures WrapI32(v) == v || WrapI32(v) == v - U32Modulus || WrapI32(v) == v + U32Modulus
    ensures (WrapI32(v) - v) % U32Modulus == 0
  {
  }

  /** `u32::try_from(v).unwrap_or(0)` for an `i32` value `v`. */
  function TryU32OrZero(v: int32): uint32
  {
    if v < 0 then 0 else v
  }

  /** The neighbour coordinate the border rule computes from coordinate `c`
      and signed offset `delta`: `u32::try_from(c as i32 + delta).unwrap_or(0)`,
      with both the cast and the addition wrapping modulo 2^32. */
  function NeighbourCoord(c: uint32, delta: int32): uint32
  {
    TryU32OrZero(WrapI32(WrapI32(c) + delta))
  }

  /** For a coordinate within the `i32` range, a neighbour coordinate that
      stays in range is the plain sum clamped below at 0, and one past
      `i32::MAX` wraps to a negative value and is clamped to 0 as well. */
  lemma NeighbourCoordClamp(c: uint32, delta: int32)
    requires c <= I32Max
    ensures I32Min <= c + delta <= I32Max ==>
              NeighbourCoord(c, delta) == (if c + delta < 0 then 0 else c + delta)
    ensures I32Max < c + delta ==> NeighbourCoord(c, delta) == 0
  {
  }

  function Pow2(n: nat): (r: nat)
    ensures r >= 1
  {
    if n == 0 then 1 else 2 * Pow2(n - 1)
  }

  /** Bit `i` of `n`, counted from the least significant bit. */
  predicate TestBit(n: nat, i: nat)
  {
    if i == 0 then n % 2 == 1 else TestBit(n / 2, i - 1)
  }

  function Max(a: int, b: int): int
  {
    if a >= b then a else b
  }
}
