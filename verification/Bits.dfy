/** Numbers and their bits: powers of two, division, bitwise or, and machine words read as numbers. */
module Bits {
  function Pow2(n: nat): (p: nat)
    ensures p > 0
  {
    if n == 0 then 1 else 2 * Pow2(n - 1)
  }

  lemma {:induction false} PowSum(m: nat, n: nat)
    ensures Pow2(m + n) == Pow2(m) * Pow2(n)
  {
    if m > 0 {
      PowSum(m - 1, n);
    }
  }

  lemma Times(a: int, b: int, m: int)
    requires a <= b && m >= 0
    ensures a * m <= b * m
  {}

  /** Division is the one way to write x as a multiple of m and a rest. */
  lemma Quotient(x: int, m: int, q: int, r: int)
    requires 0 <= r < m && x == q * m + r
    ensures x / m == q && x % m == r
  {
    if x / m < q {
      Times(x / m + 1, q, m);
    } else if x / m > q {
      Times(q + 1, x / m, m);
    }
  }

  lemma DivTwice(x: nat, m: nat, p: nat)
    requires m > 0 && p > 0
    ensures x / m / p == x / (m * p)
  {
    var q, r := x / m / p, x / m % p;
    assert x / m == q * p + r;
    assert x == x / m * m + x % m;
    Times(r + 1, p, m);
    assert q * (m * p) == q * p * m;
    Quotient(x, m * p, q, r * m + x % m);
  }

  lemma PowStep(n: nat)
    requires n > 0
    ensures Pow2(n) == 2 * Pow2(n - 1)
  {}

  // ----- Bitwise or

  function Or(x: nat, y: nat): nat {
    if x == 0 && y == 0 then 0 else 2 * Or(x / 2, y / 2) + if x % 2 == 1 || y % 2 == 1 then 1 else 0
  }

  lemma {:induction false} OrZero(x: nat)
    ensures Or(x, 0) == x && Or(0, x) == x
  {
    if x > 0 {
      OrZero(x / 2);
    }
  }

  /** Where no bit is set on both sides, or is addition. */
  lemma {:induction false} OrDisjoint(a: nat, b: nat, n: nat)
    requires b < Pow2(n)
    ensures Or(a * Pow2(n), b) == a * Pow2(n) + b
  {
    if n == 0 {
      OrZero(a);
    } else {
      var h := a * Pow2(n - 1);
      assert a * Pow2(n) == 2 * h;
      OrDisjoint(a, b / 2, n - 1);
    }
  }

  // ----- The bytes of a 16-bit word, as numbers

  function LowByte(w: bv16): bv8 {
    (w & 0xff) as bv8
  }

  function HighByte(w: bv16): bv8 {
    (w >> 8) as bv8
  }

  function Num8(b: bv8): (n: int)
    ensures 0 <= n < 0x100
  {
    b as int
  }

  function Num16(w: bv16): (n: int)
    ensures 0 <= n < 0x1_0000
  {
    w as int
  }

  lemma Bits0To7(x: int)
    requires 0 <= x < 0x1_0000
    ensures x % 2 == 1 <==> x as bv16 & 0x1 != 0
    ensures x / 0x2 % 2 == 1 <==> x as bv16 & 0x2 != 0
    ensures x / 0x4 % 2 == 1 <==> x as bv16 & 0x4 != 0
    ensures x / 0x8 % 2 == 1 <==> x as bv16 & 0x8 != 0
    ensures x / 0x10 % 2 == 1 <==> x as bv16 & 0x10 != 0
    ensures x / 0x20 % 2 == 1 <==> x as bv16 & 0x20 != 0
    ensures x / 0x40 % 2 == 1 <==> x as bv16 & 0x40 != 0
    ensures x / 0x80 % 2 == 1 <==> x as bv16 & 0x80 != 0
  {}

  lemma Bits8To15(x: int)
    requires 0 <= x < 0x1_0000
    ensures x / 0x100 % 2 == 1 <==> x as bv16 & 0x100 != 0
    ensures x / 0x200 % 2 == 1 <==> x as bv16 & 0x200 != 0
    ensures x / 0x400 % 2 == 1 <==> x as bv16 & 0x400 != 0
    ensures x / 0x800 % 2 == 1 <==> x as bv16 & 0x800 != 0
    ensures x / 0x1000 % 2 == 1 <==> x as bv16 & 0x1000 != 0
    ensures x / 0x2000 % 2 == 1 <==> x as bv16 & 0x2000 != 0
    ensures x / 0x4000 % 2 == 1 <==> x as bv16 & 0x4000 != 0
    ensures x / 0x8000 % 2 == 1 <==> x as bv16 & 0x8000 != 0
  {}

  lemma BitsOfByte(x: int)
    requires 0 <= x < 0x100
    ensures x % 2 == 1 <==> x as bv8 & 0x1 != 0
    ensures x / 0x2 % 2 == 1 <==> x as bv8 & 0x2 != 0
    ensures x / 0x4 % 2 == 1 <==> x as bv8 & 0x4 != 0
    ensures x / 0x8 % 2 == 1 <==> x as bv8 & 0x8 != 0
    ensures x / 0x10 % 2 == 1 <==> x as bv8 & 0x10 != 0
    ensures x / 0x20 % 2 == 1 <==> x as bv8 & 0x20 != 0
    ensures x / 0x40 % 2 == 1 <==> x as bv8 & 0x40 != 0
    ensures x / 0x80 % 2 == 1 <==> x as bv8 & 0x80 != 0
  {}

  lemma Halves(x: int)
    requires x >= 0
    ensures x / 4 == x / 2 / 2 && x / 8 == x / 4 / 2 && x / 16 == x / 8 / 2
  {}

  /** A number is twice its half and its last bit. */
  lemma Double(x: int, w: int, m: int)
    requires x >= 0 && w >= 0 && m > 0 && x % 2 == w % 2 && x / 2 == w / 2 % m
    ensures x == w % (2 * m)
  {
    var q := w / 2 / m;
    assert w == q * (2 * m) + x;
    Quotient(w, 2 * m, q, x);
  }

  /** Four more bits. */
  lemma Nibble(x: int, w: int, m: int)
    requires x >= 0 && w >= 0 && m > 0 && x / 16 == w / 16 % m
    requires x % 2 == w % 2 && x / 2 % 2 == w / 2 % 2 && x / 4 % 2 == w / 4 % 2 && x / 8 % 2 == w / 8 % 2
    ensures x == w % (16 * m)
  {
    Halves(x);
    Halves(w);
    Double(x / 8, w / 8, m);
    Double(x / 4, w / 4, 2 * m);
    Double(x / 2, w / 2, 4 * m);
    Double(x, w, 8 * m);
  }

  lemma SameByte(y: int, x: int)
    requires 0 <= y < 256 && x >= 0
    requires y % 2 == x % 2 && y / 2 % 2 == x / 2 % 2 && y / 4 % 2 == x / 4 % 2 && y / 8 % 2 == x / 8 % 2
    requires y / 16 % 2 == x / 16 % 2 && y / 32 % 2 == x / 32 % 2
    requires y / 64 % 2 == x / 64 % 2 && y / 128 % 2 == x / 128 % 2
    ensures y == x % 256
  {
    Sixteenths(x);
    Sixteenths(y);
    Nibble(y / 16, x / 16, 1);
    Nibble(y, x, 16);
  }

  lemma Sixteenths(x: int)
    requires x >= 0
    ensures x / 16 / 2 == x / 32 && x / 16 / 4 == x / 64 && x / 16 / 8 == x / 128
  {}

  lemma ReadBack(w: bv16, b: bv8)
    ensures Num16(w) as bv16 == w && Num8(b) as bv8 == b
  {}

  lemma LowBits(x: int, y: int)
    requires 0 <= x < 0x1_0000 && 0 <= y < 256 && y as bv8 == LowByte(x as bv16)
    ensures y % 2 == x % 2 && y / 2 % 2 == x / 2 % 2 && y / 4 % 2 == x / 4 % 2 && y / 8 % 2 == x / 8 % 2
    ensures y / 16 % 2 == x / 16 % 2 && y / 32 % 2 == x / 32 % 2
    ensures y / 64 % 2 == x / 64 % 2 && y / 128 % 2 == x / 128 % 2
  {
    Bits0To7(x);
    BitsOfByte(y);
  }

  lemma HighBits(x: int, y: int)
    requires 0 <= x < 0x1_0000 && 0 <= y < 256 && y as bv8 == HighByte(x as bv16)
    ensures y % 2 == x / 256 % 2 && y / 2 % 2 == x / 512 % 2 && y / 4 % 2 == x / 1024 % 2 && y / 8 % 2 == x / 2048 % 2
    ensures y / 16 % 2 == x / 4096 % 2 && y / 32 % 2 == x / 8192 % 2
    ensures y / 64 % 2 == x / 16384 % 2 && y / 128 % 2 == x / 32768 % 2
  {
    Bits8To15(x);
    BitsOfByte(y);
  }

  lemma LowNumber(x: int, y: int)
    requires 0 <= x < 0x1_0000 && 0 <= y < 256 && y as bv8 == LowByte(x as bv16)
    ensures y == x % 256
  {
    LowBits(x, y);
    SameByte(y, x);
  }

  lemma HighNumber(x: int, y: int)
    requires 0 <= x < 0x1_0000 && 0 <= y < 256 && y as bv8 == HighByte(x as bv16)
    ensures y == x / 256
  {
    HighBits(x, y);
    Eighths(x);
    SameByte(y, x / 256);
  }

  lemma LowValue(w: bv16)
    ensures Num8(LowByte(w)) == Num16(w) % 256
  {
    hide LowByte, Num8, Num16;
    ReadBack(w, LowByte(w));
    LowNumber(Num16(w), Num8(LowByte(w)));
  }

  lemma HighValue(w: bv16)
    ensures Num8(HighByte(w)) == Num16(w) / 256
  {
    hide HighByte, Num8, Num16;
    ReadBack(w, HighByte(w));
    HighNumber(Num16(w), Num8(HighByte(w)));
  }

  lemma Eighths(x: int)
    requires 0 <= x < 0x1_0000
    ensures x / 256 / 2 == x / 512 && x / 256 / 4 == x / 1024 && x / 256 / 8 == x / 2048 && x / 256 / 16 == x / 4096
    ensures x / 256 / 32 == x / 8192 && x / 256 / 64 == x / 16384 && x / 256 / 128 == x / 32768
    ensures x / 256 % 256 == x / 256
  {}

  /** A number below 2^16 is the value of the word made from it. */
  lemma NumberOfWord(n: int)
    requires 0 <= n < 0x1_0000
    ensures Num16(n as bv16) == n
  {
    hide LowByte, HighByte, Num8, Num16;
    var w := n as bv16;
    ReadBack(w, LowByte(w));
    ReadBack(w, HighByte(w));
    LowNumber(n, Num8(LowByte(w)));
    HighNumber(n, Num8(HighByte(w)));
    LowValue(w);
    HighValue(w);
  }
}
