/**
 The SSE2 and SSSE3 intrinsics the frame conversion uses, lane by lane.  A vector is its sixteen bytes
 in memory order; a 16-bit lane has its low-order byte first.
 */
module Sse {
  import opened Bits

  type M128 = v: seq<bv8> | |v| == 16 witness seq(16, _ => 0)

  /** Control bytes: 128 and above clear the byte, smaller ones select one. */
  type Control = c: seq<nat> | |c| == 16 witness seq(16, _ => 0)

  function ShiftRight(w: bv16, count: nat): bv16 {
    if count > 15 then 0 else w >> count
  }

  function LowProduct(a: int, b: int): (p: int)
    ensures 0 <= p < 0x1_0000
  {
    a * b % 0x1_0000
  }

  lemma NoCarry(a: int, b: int, product: int)
    requires product == a * b && 0 <= product < 0x1_0000
    ensures LowProduct(a, b) == product
  {}

  /** The low 16 bits of a product. */
  function MulLow(x: bv16, y: bv16): (p: bv16)
    ensures Num16(p) == LowProduct(Num16(x), Num16(y))
  {
    var p := LowProduct(Num16(x), Num16(y));
    NumberOfWord(p);
    p as bv16
  }

  function Join(low: bv8, high: bv8): bv16 {
    (high as bv16 << 8) | low as bv16
  }

  lemma JoinValue(low: bv8, high: bv8)
    ensures Num16(Join(low, high)) == Num8(low) + 256 * Num8(high)
  {
    hide Join, LowByte, HighByte, Num8, Num16;
    JoinBytes(low, high);
    LowValue(Join(low, high));
    HighValue(Join(low, high));
  }

  lemma JoinBytes(low: bv8, high: bv8)
    ensures LowByte(Join(low, high)) == low && HighByte(Join(low, high)) == high
  {}

  function Lane(v: M128, k: nat): bv16
    requires k < 8
  {
    Join(v[2 * k], v[2 * k + 1])
  }

  /** Byte i of a vector whose 16-bit lane i / 2 is w. */
  function Half(w: bv16, i: nat): bv8 {
    if i % 2 == 0 then LowByte(w) else HighByte(w)
  }

  /** Bytes 2k and 2k + 1 make up lane k. */
  lemma LaneOfHalves(v: M128, k: nat, w: bv16)
    requires k < 8 && v[2 * k] == Half(w, 2 * k) && v[2 * k + 1] == Half(w, 2 * k + 1)
    ensures Lane(v, k) == w
  {}

  function Set1Epi16(w: bv16): M128 {
    seq(16, i requires 0 <= i < 16 => Half(w, i))
  }

  function AndSi128(a: M128, b: M128): M128 {
    seq(16, i requires 0 <= i < 16 => a[i] & b[i])
  }

  function OrSi128(a: M128, b: M128): M128 {
    seq(16, i requires 0 <= i < 16 => a[i] | b[i])
  }

  /** Shift every 16-bit lane right; a count above 15 clears the lane. */
  function SrliEpi16(a: M128, count: nat): M128 {
    seq(16, i requires 0 <= i < 16 => Half(ShiftRight(Lane(a, i / 2), count), i))
  }

  /** The low 16 bits of the product of every pair of lanes. */
  function MulloEpi16(a: M128, b: M128): M128 {
    seq(16, i requires 0 <= i < 16 => Half(MulLow(Lane(a, i / 2), Lane(b, i / 2)), i))
  }

  function ShuffleEpi8(a: M128, control: Control): M128 {
    seq(16, i requires 0 <= i < 16 => if control[i] >= 128 then 0 else a[control[i] % 16])
  }

  /** Result lane k of four bytes is the lane that bits 2k and 2k + 1 of imm name. */
  function ShuffleEpi32(a: M128, imm: nat): M128 {
    seq(16, i requires 0 <= i < 16 => a[4 * Select(imm, i / 4) + i % 4])
  }

  function Select(imm: nat, k: nat): (lane: nat)
    requires k < 4
    ensures lane < 4
  {
    if k == 0 then imm % 4 else if k == 1 then imm / 4 % 4 else if k == 2 then imm / 16 % 4 else imm / 64 % 4
  }

  // ----- What one lane of each 16-bit operation holds

  lemma Set1Lane(w: bv16, k: nat)
    requires k < 8
    ensures Lane(Set1Epi16(w), k) == w
  {}

  lemma AndLane(a: M128, b: M128, k: nat)
    requires k < 8
    ensures Lane(AndSi128(a, b), k) == Lane(a, k) & Lane(b, k)
  {}

  lemma SrliLane(a: M128, count: nat, k: nat)
    requires k < 8
    ensures Lane(SrliEpi16(a, count), k) == ShiftRight(Lane(a, k), count)
  {
    hide ShiftRight, Half, Lane;
    LaneOfHalves(SrliEpi16(a, count), k, ShiftRight(Lane(a, k), count));
  }

  lemma MulloLowByte(a: M128, b: M128, k: nat)
    requires k < 8
    ensures MulloEpi16(a, b)[2 * k] == LowByte(MulLow(Lane(a, k), Lane(b, k)))
  {}
}
