/** `region_braille` (src/main.rs:61-87): packs the eight dots of one 2 x 4
    braille cell into a code point of the Unicode braille block. */
module Braille {
  import opened Numeric
  import opened Results

  /** `OFF_0`: the code point of the empty braille cell. */
  const Off0: nat := 0x2800
  /** The code point of the full braille cell. */
  const AllOn: nat := 0x28FF

  /** The `(dy, dx)` offset of each dot from the cell's top-left pixel, in
      bit order (src/main.rs:69-78). */
  const DotOffsets: seq<(nat, nat)> := [(0, 0), (1, 0), (2, 0), (0, 1), (1, 1), (2, 1), (3, 0), (3, 1)]

  /** A dot sampler: given `(row, column)` of a pixel, whether it is on,
      or `None` past the edge of the image. */
  type Sampler = (nat, nat) -> Option<bool>

  /** `(b as u8) << i`, widened to `u32`. */
  function DotTerm(b: bool, i: nat): nat
  {
    if b then Pow2(i) else 0
  }

  /** `.sum()` of the terms `bits[i..]` contribute. */
  function SumFrom(bits: seq<bool>, i: nat): nat
    requires i <= |bits|
    decreases |bits| - i
  {
    if i == |bits| then 0 else DotTerm(bits[i], i) + SumFrom(bits, i + 1)
  }

  /** The number whose binary digits, least significant first, are `bits`. */
  function BinaryValue(bits: seq<bool>): nat
  {
    if bits == [] then 0 else (if bits[0] then 1 else 0) + 2 * BinaryValue(bits[1..])
  }

  lemma {:induction false} BinaryValueBound(bits: seq<bool>)
    ensures BinaryValue(bits) < Pow2(|bits|)
  {
    if bits != [] {
      BinaryValueBound(bits[1..]);
    }
  }

  /** Bit `i` of the binary value is exactly `bits[i]`. */
  lemma {:induction false} BinaryValueBit(bits: seq<bool>, i: nat)
    requires i < |bits|
    ensures TestBit(BinaryValue(bits), i) <==> bits[i]
  {
    if i > 0 {
      BinaryValueBit(bits[1..], i - 1);
      assert BinaryValue(bits) / 2 == BinaryValue(bits[1..]);
    }
  }

  /** The sum of the shifted dot terms from position `i` on is the binary
      value of `bits[i..]` shifted left by `i`. */
  lemma {:induction false} SumFromIsShiftedBinary(bits: seq<bool>, i: nat)
    requires i <= |bits|
    ensures SumFrom(bits, i) == Pow2(i) * BinaryValue(bits[i..])
    decreases |bits| - i
  {
    if i < |bits| {
      SumFromIsShiftedBinary(bits, i + 1);
      assert bits[i..][1..] == bits[i + 1..];
      var p, b := Pow2(i), BinaryValue(bits[i + 1..]);
      var low := if bits[i] then 1 else 0;
      assert BinaryValue(bits[i..]) == low + 2 * b;
      assert DotTerm(bits[i], i) == p * low;
      Distribute(p, low, b);
    }
  }

  lemma Distribute(p: nat, low: nat, b: nat)
    ensures p * low + (2 * p) * b == p * (low + 2 * b)
  {
  }

  /** Dot `i` of cell `(x, y)`: the sample at pixel
      `(y * 4 + dy, x * 2 + dx)` for entry `i` of `DotOffsets`, an absent
      pixel counting as off (`unwrap_or(false)`). */
  function Dot(x: nat, y: nat, f: Sampler, i: nat): bool
    requires i < 8
  {
    f(y * 4 + DotOffsets[i].0, x * 2 + DotOffsets[i].1).GetOr(false)
  }

  /** The eight dots of cell `(x, y)` in bit order. */
  function CellDots(x: nat, y: nat, f: Sampler): seq<bool>
  {
    seq(8, i requires 0 <= i < 8 => Dot(x, y, f, i))
  }

  /** `region_braille(x, y, f)`. The coordinates are `u32` in the source:
      every sampled row and column must fit. */
  function RegionBraille(x: nat, y: nat, f: Sampler): nat
    requires y * 4 + 3 <= U32Max && x * 2 + 1 <= U32Max
  {
    Off0 + SumFrom(CellDots(x, y, f), 0)
  }

  /** Every cell is a code point of the braille block `U+2800..U+28FF`. */
  lemma RegionBrailleRange(x: nat, y: nat, f: Sampler)
    requires y * 4 + 3 <= U32Max && x * 2 + 1 <= U32Max
    ensures Off0 <= RegionBraille(x, y, f) <= AllOn
  {
    var bits := CellDots(x, y, f);
    SumFromIsShiftedBinary(bits, 0);
    assert bits[0..] == bits;
    BinaryValueBound(bits);
    assert Pow2(8) == 256;
  }

  /** Bit `i` of the cell's code point above `OFF_0` is set exactly when the
      sampler reports the `i`-th dot pixel as `Some(true)`; `None` and
      `Some(false)` both leave it clear. */
  lemma RegionBrailleBit(x: nat, y: nat, f: Sampler, i: nat)
    requires y * 4 + 3 <= U32Max && x * 2 + 1 <= U32Max
    requires i < 8
    ensures TestBit(RegionBraille(x, y, f) - Off0, i) <==>
            f(y * 4 + DotOffsets[i].0, x * 2 + DotOffsets[i].1) == Some(true)
  {
    var bits := CellDots(x, y, f);
    SumFromIsShiftedBinary(bits, 0);
    assert bits[0..] == bits;
    BinaryValueBit(bits, i);
  }

  /** No dot on (all off or absent) gives the empty cell `U+2800`. */
  lemma RegionBrailleAllOff(x: nat, y: nat, f: Sampler)
    requires y * 4 + 3 <= U32Max && x * 2 + 1 <= U32Max
    requires forall i :: 0 <= i < 8 ==> f(y * 4 + DotOffsets[i].0, x * 2 + DotOffsets[i].1) != Some(true)
    ensures RegionBraille(x, y, f) == Off0
  {
    var bits := CellDots(x, y, f);
    SumFromIsShiftedBinary(bits, 0);
    assert bits[0..] == bits;
    forall i | 0 <= i < |bits|
      ensures !bits[i]
    {
    }
    BinaryValueAllOff(bits);
  }

  /** Every dot on gives the full cell `U+28FF`. */
  lemma RegionBrailleAllOn(x: nat, y: nat, f: Sampler)
    requires y * 4 + 3 <= U32Max && x * 2 + 1 <= U32Max
    requires forall i :: 0 <= i < 8 ==> f(y * 4 + DotOffsets[i].0, x * 2 + DotOffsets[i].1) == Some(true)
    ensures RegionBraille(x, y, f) == AllOn
  {
    var bits := CellDots(x, y, f);
    SumFromIsShiftedBinary(bits, 0);
    assert bits[0..] == bits;
    forall i | 0 <= i < |bits|
      ensures bits[i]
    {
    }
    BinaryValueAllOn(bits);
    assert Pow2(8) == 256;
  }

  lemma {:induction false} BinaryValueAllOff(bits: seq<bool>)
    requires forall i :: 0 <= i < |bits| ==> !bits[i]
    ensures BinaryValue(bits) == 0
  {
    if bits != [] {
      BinaryValueAllOff(bits[1..]);
    }
  }

  lemma {:induction false} BinaryValueAllOn(bits: seq<bool>)
    requires forall i :: 0 <= i < |bits| ==> bits[i]
    ensures BinaryValue(bits) == Pow2(|bits|) - 1
  {
    if bits != [] {
      BinaryValueAllOn(bits[1..]);
    }
  }

  /** Turning dot `i` on or off moves the sum by exactly `2^i`. */
  lemma {:induction false} SumFromFlip(bits: seq<bool>, i: nat, j: nat)
    requires j <= |bits| && i < |bits|
    ensures SumFrom(bits[i := !bits[i]], j) ==
            SumFrom(bits, j) + (if i < j then 0 else if bits[i] then -(Pow2(i) as int) else Pow2(i))
    decreases |bits| - j
  {
    if j < |bits| {
      SumFromFlip(bits, i, j + 1);
    }
  }

  /** The code point depends on the eight sampled dots alone: two samplers
      that agree on whether each dot pixel is `Some(true)`, at whatever cells
      they are read, give the same code point. */
  lemma RegionBrailleDependsOnDots(x: nat, y: nat, f: Sampler, x': nat, y': nat, g: Sampler)
    requires y * 4 + 3 <= U32Max && x * 2 + 1 <= U32Max
    requires y' * 4 + 3 <= U32Max && x' * 2 + 1 <= U32Max
    requires forall j :: 0 <= j < 8 ==> Dot(x, y, f, j) == Dot(x', y', g, j)
    ensures RegionBraille(x, y, f) == RegionBraille(x', y', g)
  {
    assert CellDots(x, y, f) == CellDots(x', y', g);
  }

  /** Two samplers that agree on every dot but dot `i` give code points
      exactly `2^i` apart, the one with dot `i` on being the larger. */
  lemma RegionBrailleFlip(x: nat, y: nat, f: Sampler, x': nat, y': nat, g: Sampler, i: nat)
    requires y * 4 + 3 <= U32Max && x * 2 + 1 <= U32Max
    requires y' * 4 + 3 <= U32Max && x' * 2 + 1 <= U32Max
    requires i < 8
    requires forall j :: 0 <= j < 8 && j != i ==> Dot(x, y, f, j) == Dot(x', y', g, j)
    requires Dot(x', y', g, i) != Dot(x, y, f, i)
    ensures RegionBraille(x', y', g) == RegionBraille(x, y, f) + (if Dot(x, y, f, i) then -(Pow2(i) as int) else Pow2(i))
  {
    var bits := CellDots(x, y, f);
    assert CellDots(x', y', g) == bits[i := !bits[i]];
    SumFromFlip(bits, i, 0);
  }

  /** `std::char::from_u32`: `None` for a surrogate or a value past U+10FFFF. */
  function CharFromU32(v: nat): (r: Option<char>)
    ensures r.Some? <==> v < 0xD800 || 0xE000 <= v <= 0x10FFFF
    ensures r.Some? ==> r.value as int == v
  {
    if v < 0xD800 || 0xE000 <= v <= 0x10FFFF then Some(v as char) else None
  }

  /** Every code point of the braille block is a `char`: the
      `from_u32(..).unwrap()` of the render loop never fails. */
  lemma BrailleIsChar(v: nat)
    requires Off0 <= v <= AllOn
    ensures CharFromU32(v) == Some(v as char)
  {
  }
}
