/**
 The MD5 message-digest algorithm as RFC 1321 states it: little-endian words (section 2), padding and
 the 64-bit length (sections 3.1 and 3.2), the initial registers (3.3), the 64 steps driven by tables
 (3.4) and the digest (3.5).  Words are integers below 2^32, so every wrap-around is written out.
 */
module Rfc1321 {
  import opened Bits

  type Byte = x: int | 0 <= x < 0x100
  type Word = x: int | 0 <= x < 0x1_0000_0000

  const TWO32 := 0x1_0000_0000
  const TWO64 := 0x1_0000_0000_0000_0000

  lemma Remainder(x: int, q: int, r: int, d: int)
    requires d == 64 || d == TWO32 || d == TWO64
    requires x == d * q + r && 0 <= r < d
    ensures x % d == r && x / d == q
  {}

  lemma DivMod(x: int, d: int)
    requires d == 64 || d == TWO32 || d == TWO64
    ensures x == d * (x / d) + x % d && 0 <= x % d < d
  {}

  /** The four registers A, B, C, D. */
  datatype Registers = Registers(a: Word, b: Word, c: Word, d: Word)

  const INITIAL := Registers(0x6745_2301, 0xefcd_ab89, 0x98ba_dcfe, 0x1032_5476)

  // ----- Section 3.4: the auxiliary functions, the tables and one step

  function F(x: Word, y: Word, z: Word): Word {
    ((x as bv32 & y as bv32) | (!(x as bv32) & z as bv32)) as Word
  }

  function G(x: Word, y: Word, z: Word): Word {
    ((x as bv32 & z as bv32) | (y as bv32 & !(z as bv32))) as Word
  }

  function H(x: Word, y: Word, z: Word): Word {
    (x as bv32 ^ y as bv32 ^ z as bv32) as Word
  }

  function I(x: Word, y: Word, z: Word): Word {
    (y as bv32 ^ (x as bv32 | !(z as bv32))) as Word
  }

  /** x << n; what leaves the word is lost. */
  function ShiftLeft(x: Word, n: nat): Word
    decreases n
  {
    if n == 0 then x else ShiftLeft(2 * x % TWO32, n - 1)
  }

  /** x >> n */
  function ShiftRight(x: Word, n: nat): Word {
    if n == 0 then x else ShiftRight(x / 2, n - 1)
  }

  lemma {:induction false} ShiftRightValue(x: Word, n: nat)
    ensures ShiftRight(x, n) == x / Pow2(n)
  {
    if n == 0 {
      assert x / 1 == x;
    } else {
      ShiftRightValue(x / 2, n - 1);
      DivTwice(x, 2, Pow2(n - 1));
    }
  }

  lemma {:induction false} ShiftLeftValue(x: Word, n: nat)
    ensures ShiftLeft(x, n) == x * Pow2(n) % TWO32
    decreases n
  {
    if n > 0 {
      ShiftLeftValue(2 * x % TWO32, n - 1);
      hide ShiftLeft, Pow2;
      assert Pow2(n) == 2 * Pow2(n - 1) by { PowStep(n); }
      CarriesLost(2 * x, Pow2(n - 1));
      Doubled(x, Pow2(n - 1));
    }
  }

  lemma Doubled(x: nat, p: nat)
    ensures 2 * x * p == x * (2 * p)
  {}

  lemma CarriesLost(x: nat, p: nat)
    ensures x % TWO32 * p % TWO32 == x * p % TWO32
  {
    var q, r := x / TWO32, x % TWO32;
    assert x * p == q * p * TWO32 + r * p;
    var k := r * p / TWO32;
    assert r * p == k * TWO32 + r * p % TWO32;
    Quotient(x * p, TWO32, q * p + k, r * p % TWO32);
  }

  lemma PowersMakeWord(n: nat)
    requires n <= 32
    ensures Pow2(32 - n) * Pow2(n) == TWO32
  {
    Pow2Of32();
    hide Pow2;
    PowSum(32 - n, n);
  }

  lemma Pow2Of32()
    ensures Pow2(32) == TWO32
  {
    assert Pow2(8) == 0x100 by {
      assert Pow2(4) == 0x10;
    }
    hide Pow2;
    PowSum(8, 8);
    PowSum(16, 16);
  }

  /** (x << n) | (x >> (32 - n)) */
  function RotateLeft(x: Word, n: nat): Word
    requires 0 < n < 32
  {
    RotationIsSum(x, n);
    Or(ShiftLeft(x, n), ShiftRight(x, 32 - n))
  }

  lemma RotationIsSum(x: Word, n: nat)
    requires 0 < n < 32
    ensures Or(ShiftLeft(x, n), ShiftRight(x, 32 - n)) == ShiftLeft(x, n) + ShiftRight(x, 32 - n) < TWO32
  {
    var p, q := Pow2(32 - n), Pow2(n);
    PowersMakeWord(n);
    ShiftLeftValue(x, n);
    ShiftRightValue(x, 32 - n);
    hide Or, Pow2, ShiftLeft, ShiftRight;
    var low := ShiftedOut(x, p, q, ShiftRight(x, 32 - n));
    OrDisjoint(low, ShiftRight(x, 32 - n), n);
  }

  /** With x in two parts, the shift to the left keeps the low one and the shift to the right the high one. */
  lemma ShiftedOut(x: Word, p: nat, q: nat, high: nat) returns (low: nat)
    requires p > 0 && q > 0 && p * q == TWO32 && high == x / p
    ensures high < q && low * q + high < TWO32 && x * q % TWO32 == low * q
  {
    low := x % p;
    assert x == high * p + low;
    if high >= q {
      Times(q, high, p);
    }
    Times(low + 1, p, q);
    Distribute(high, p, low, q);
    Quotient(x * q, TWO32, high, low * q);
  }

  lemma Distribute(high: nat, p: nat, low: nat, q: nat)
    ensures (high * p + low) * q == high * (p * q) + low * q
    ensures (low + 1) * q == low * q + q
  {}

  /** The n bits that leave on the left come back on the right. */
  lemma RotateLeftValue(x: Word, n: nat)
    requires 0 < n < 32
    ensures RotateLeft(x, n) == x * Pow2(n) % TWO32 + x / Pow2(32 - n)
  {
    hide Or, Pow2, ShiftLeft, ShiftRight;
    RotationIsSum(x, n);
    ShiftLeftValue(x, n);
    ShiftRightValue(x, 32 - n);
  }

  // What the auxiliary functions do, bit by bit

  predicate Bit(w: Word, k: nat)
    requires k < 32
  {
    w as bv32 & (1 << k) != 0
  }

  lemma OneBit(k: nat)
    requires k < 32
    ensures var m: bv32 := 1 << k; m != 0 && m & (m - 1) == 0
  {}

  lemma FMasked(x: Word, y: Word, z: Word, a: bv32, b: bv32, c: bv32, w: bv32, m: bv32)
    requires a == x as bv32 && b == y as bv32 && c == z as bv32 && w == F(x, y, z) as bv32
    requires m != 0 && m & (m - 1) == 0
    ensures w & m != 0 <==> if a & m != 0 then b & m != 0 else c & m != 0
  {
    hide F;
    FWord(x, y, z);
    FBit(a, b, c, m);
  }

  lemma FWord(x: Word, y: Word, z: Word)
    ensures F(x, y, z) as bv32 == (x as bv32 & y as bv32) | (!(x as bv32) & z as bv32)
  {}

  lemma FBit(a: bv32, b: bv32, c: bv32, m: bv32)
    requires m != 0 && m & (m - 1) == 0
    ensures ((a & b) | (!a & c)) & m != 0 <==> if a & m != 0 then b & m != 0 else c & m != 0
  {}

  /** F takes each bit from y where x has a 1 and from z elsewhere. */
  lemma FBits(x: Word, y: Word, z: Word, k: nat)
    requires k < 32
    ensures Bit(F(x, y, z), k) <==> if Bit(x, k) then Bit(y, k) else Bit(z, k)
  {
    hide F;
    OneBit(k);
    FMasked(x, y, z, x as bv32, y as bv32, z as bv32, F(x, y, z) as bv32, 1 << k);
  }

  lemma GMasked(x: Word, y: Word, z: Word, a: bv32, b: bv32, c: bv32, w: bv32, m: bv32)
    requires a == x as bv32 && b == y as bv32 && c == z as bv32 && w == G(x, y, z) as bv32
    requires m != 0 && m & (m - 1) == 0
    ensures w & m != 0 <==> if c & m != 0 then a & m != 0 else b & m != 0
  {
    hide G;
    GWord(x, y, z);
    GBit(a, b, c, m);
  }

  lemma GWord(x: Word, y: Word, z: Word)
    ensures G(x, y, z) as bv32 == (x as bv32 & z as bv32) | (y as bv32 & !(z as bv32))
  {}

  lemma GBit(a: bv32, b: bv32, c: bv32, m: bv32)
    requires m != 0 && m & (m - 1) == 0
    ensures ((a & c) | (b & !c)) & m != 0 <==> if c & m != 0 then a & m != 0 else b & m != 0
  {}

  /** G takes each bit from x where z has a 1 and from y elsewhere. */
  lemma GBits(x: Word, y: Word, z: Word, k: nat)
    requires k < 32
    ensures Bit(G(x, y, z), k) <==> if Bit(z, k) then Bit(x, k) else Bit(y, k)
  {
    hide G;
    OneBit(k);
    GMasked(x, y, z, x as bv32, y as bv32, z as bv32, G(x, y, z) as bv32, 1 << k);
  }

  lemma HMasked(x: Word, y: Word, z: Word, a: bv32, b: bv32, c: bv32, w: bv32, m: bv32)
    requires a == x as bv32 && b == y as bv32 && c == z as bv32 && w == H(x, y, z) as bv32
    requires m != 0 && m & (m - 1) == 0
    ensures w & m != 0 <==> ((a & m != 0) != ((b & m != 0) != (c & m != 0)))
  {
    hide H;
    HWord(x, y, z);
    HBit(a, b, c, m);
  }

  lemma HWord(x: Word, y: Word, z: Word)
    ensures H(x, y, z) as bv32 == x as bv32 ^ y as bv32 ^ z as bv32
  {}

  lemma HBit(a: bv32, b: bv32, c: bv32, m: bv32)
    requires m != 0 && m & (m - 1) == 0
    ensures (a ^ b ^ c) & m != 0 <==> ((a & m != 0) != ((b & m != 0) != (c & m != 0)))
  {}

  /** H is the parity of the three bits. */
  lemma HBits(x: Word, y: Word, z: Word, k: nat)
    requires k < 32
    ensures Bit(H(x, y, z), k) <==> (Bit(x, k) != (Bit(y, k) != Bit(z, k)))
  {
    hide H;
    OneBit(k);
    HMasked(x, y, z, x as bv32, y as bv32, z as bv32, H(x, y, z) as bv32, 1 << k);
  }

  lemma IMasked(x: Word, y: Word, z: Word, a: bv32, b: bv32, c: bv32, w: bv32, m: bv32)
    requires a == x as bv32 && b == y as bv32 && c == z as bv32 && w == I(x, y, z) as bv32
    requires m != 0 && m & (m - 1) == 0
    ensures w & m != 0 <==> ((b & m != 0) != (a & m != 0 || !(c & m != 0)))
  {
    hide I;
    IWord(x, y, z);
    IBit(a, b, c, m);
  }

  lemma IWord(x: Word, y: Word, z: Word)
    ensures I(x, y, z) as bv32 == y as bv32 ^ (x as bv32 | !(z as bv32))
  {}

  lemma IBit(a: bv32, b: bv32, c: bv32, m: bv32)
    requires m != 0 && m & (m - 1) == 0
    ensures (b ^ (a | !c)) & m != 0 <==> ((b & m != 0) != (a & m != 0 || !(c & m != 0)))
  {}

  /** I flips the bit of y where x has a 1 or z has a 0. */
  lemma IBits(x: Word, y: Word, z: Word, k: nat)
    requires k < 32
    ensures Bit(I(x, y, z), k) <==> (Bit(y, k) != (Bit(x, k) || !Bit(z, k)))
  {
    hide I;
    OneBit(k);
    IMasked(x, y, z, x as bv32, y as bv32, z as bv32, I(x, y, z) as bv32, 1 << k);
  }

  function Auxiliary(i: nat, x: Word, y: Word, z: Word): Word
    requires i < 64
  {
    if i < 16 then F(x, y, z) else if i < 32 then G(x, y, z) else if i < 48 then H(x, y, z) else I(x, y, z)
  }

  /** Which word of the block step i reads. */
  function WordIndex(i: nat): (k: nat)
    requires i < 64
    ensures k < 16
  {
    if i < 16 then i else if i < 32 then (5 * i + 1) % 16 else if i < 48 then (3 * i + 5) % 16 else 7 * i % 16
  }

  /** By how many bits step i rotates. */
  function Rotation(i: nat): (s: nat)
    requires i < 64
    ensures 0 < s < 32
  {
    var j := i % 4;
    if i < 16 then if j == 0 then 7 else if j == 1 then 12 else if j == 2 then 17 else 22
    else if i < 32 then if j == 0 then 5 else if j == 1 then 9 else if j == 2 then 14 else 20
    else if i < 48 then if j == 0 then 4 else if j == 1 then 11 else if j == 2 then 16 else 23
    else if j == 0 then 6 else if j == 1 then 10 else if j == 2 then 15 else 21
  }

  // The sine-derived constants, one table a round.

  function T1(i: nat): Word
    requires i < 16
  {
    match i
    case 0 => 0xd76a_a478 case 1 => 0xe8c7_b756 case 2 => 0x2420_70db case 3 => 0xc1bd_ceee
    case 4 => 0xf57c_0faf case 5 => 0x4787_c62a case 6 => 0xa830_4613 case 7 => 0xfd46_9501
    case 8 => 0x6980_98d8 case 9 => 0x8b44_f7af case 10 => 0xffff_5bb1 case 11 => 0x895c_d7be
    case 12 => 0x6b90_1122 case 13 => 0xfd98_7193 case 14 => 0xa679_438e case _ => 0x49b4_0821
  }

  function T2(i: nat): Word
    requires i < 16
  {
    match i
    case 0 => 0xf61e_2562 case 1 => 0xc040_b340 case 2 => 0x265e_5a51 case 3 => 0xe9b6_c7aa
    case 4 => 0xd62f_105d case 5 => 0x0244_1453 case 6 => 0xd8a1_e681 case 7 => 0xe7d3_fbc8
    case 8 => 0x21e1_cde6 case 9 => 0xc337_07d6 case 10 => 0xf4d5_0d87 case 11 => 0x455a_14ed
    case 12 => 0xa9e3_e905 case 13 => 0xfcef_a3f8 case 14 => 0x676f_02d9 case _ => 0x8d2a_4c8a
  }

  function T3(i: nat): Word
    requires i < 16
  {
    match i
    case 0 => 0xfffa_3942 case 1 => 0x8771_f681 case 2 => 0x6d9d_6122 case 3 => 0xfde5_380c
    case 4 => 0xa4be_ea44 case 5 => 0x4bde_cfa9 case 6 => 0xf6bb_4b60 case 7 => 0xbebf_bc70
    case 8 => 0x289b_7ec6 case 9 => 0xeaa1_27fa case 10 => 0xd4ef_3085 case 11 => 0x0488_1d05
    case 12 => 0xd9d4_d039 case 13 => 0xe6db_99e5 case 14 => 0x1fa2_7cf8 case _ => 0xc4ac_5665
  }

  function T4(i: nat): Word
    requires i < 16
  {
    match i
    case 0 => 0xf429_2244 case 1 => 0x432a_ff97 case 2 => 0xab94_23a7 case 3 => 0xfc93_a039
    case 4 => 0x655b_59c3 case 5 => 0x8f0c_cc92 case 6 => 0xffef_f47d case 7 => 0x8584_5dd1
    case 8 => 0x6fa8_7e4f case 9 => 0xfe2c_e6e0 case 10 => 0xa301_4314 case 11 => 0x4e08_11a1
    case 12 => 0xf753_7e82 case 13 => 0xbd3a_f235 case 14 => 0x2ad7_d2bb case _ => 0xeb86_d391
  }

  function T(i: nat): Word
    requires i < 64
  {
    if i < 16 then T1(i) else if i < 32 then T2(i - 16) else if i < 48 then T3(i - 32) else T4(i - 48)
  }

  /** a = b + ((a + mixed + x + t) <<< s) */
  function Operation(a: Word, b: Word, mixed: Word, x: Word, s: nat, t: Word): Word
    requires 0 < s < 32
  {
    (b + RotateLeft((a + mixed + x + t) % TWO32, s)) % TWO32
  }

  /** Step i; the registers change places so that the next step again updates the first one. */
  function Step(x: seq<Word>, i: nat, r: Registers): Registers
    requires |x| == 16 && i < 64
  {
    var updated := Operation(r.a, r.b, Auxiliary(i, r.b, r.c, r.d), x[WordIndex(i)], Rotation(i), T(i));
    Registers(r.d, updated, r.b, r.c)
  }

  function Steps(x: seq<Word>, lo: nat, hi: nat, r: Registers): Registers
    requires |x| == 16 && lo <= hi <= 64
  {
    if lo == hi then r else Step(x, hi - 1, Steps(x, lo, hi - 1, r))
  }

  lemma {:induction false} StepsCompose(x: seq<Word>, lo: nat, mid: nat, hi: nat, r: Registers)
    requires |x| == 16 && lo <= mid <= hi <= 64
    ensures Steps(x, mid, hi, Steps(x, lo, mid, r)) == Steps(x, lo, hi, r)
    decreases hi
  {
    hide Step;
    if mid < hi {
      StepsCompose(x, lo, mid, hi - 1, r);
    }
  }

  function Compress(r: Registers, block: seq<Byte>): Registers
    requires |block| == 64
  {
    var n := Steps(DecodeWords(block), 0, 64, r);
    Registers((r.a + n.a) % TWO32, (r.b + n.b) % TWO32, (r.c + n.c) % TWO32, (r.d + n.d) % TWO32)
  }

  /** The registers after every full block of m has been processed in order; a partial block is ignored. */
  function Process(m: seq<Byte>): Registers
  {
    if |m| < 64 then INITIAL else
      var k := |m| / 64 * 64;
      Compress(Process(m[..k - 64]), m[k - 64..k])
  }

  /** The definition of Process, for proofs that hide it. */
  lemma {:induction false} ProcessEquation(m: seq<Byte>)
    ensures var k := |m| / 64 * 64;
      Process(m) == if k == 0 then INITIAL else Compress(Process(m[..k - 64]), m[k - 64..k])
  {
    hide Compress;
  }

  lemma WholeBlocks(n: nat, t: nat)
    requires n % 64 == 0 && t < 64
    ensures (n + t) / 64 * 64 == n
  {}

  lemma {:induction false} ProcessPartial(m: seq<Byte>, tail: seq<Byte>)
    requires |m| % 64 == 0 && |tail| < 64
    ensures Process(m + tail) == Process(m)
  {
    hide Compress, Process;
    var k, n := |m|, m + tail;
    WholeBlocks(k, 0);
    WholeBlocks(k, |tail|);
    ProcessEquation(m);
    ProcessEquation(n);
    if k >= 64 {
      assert n[..k - 64] == m[..k - 64];
      assert n[k - 64..k] == m[k - 64..k];
    }
  }

  lemma {:induction false} ProcessBlock(m: seq<Byte>, block: seq<Byte>)
    requires |m| % 64 == 0 && |block| == 64
    ensures Process(m + block) == Compress(Process(m), block)
  {
    hide Compress;
    var k := |m + block|;
    assert k / 64 * 64 == k;
    assert (m + block)[..k - 64] == m;
    assert (m + block)[k - 64..k] == block;
  }

  // ----- Section 2: words and bytes, low-order byte first

  function WordOf(b0: Byte, b1: Byte, b2: Byte, b3: Byte): Word {
    b0 + 0x100 * b1 + 0x1_0000 * b2 + 0x100_0000 * b3
  }

  function BytesOf(w: Word): (b: seq<Byte>)
    ensures |b| == 4
  {
    [w % 0x100, w / 0x100 % 0x100, w / 0x1_0000 % 0x100, w / 0x100_0000 % 0x100]
  }

  function DecodeWords(b: seq<Byte>): (w: seq<Word>)
    requires |b| % 4 == 0
    ensures 4 * |w| == |b|
  {
    if b == [] then [] else
      var n := |b| - 4;
      DecodeWords(b[..n]) + [WordOf(b[n], b[n + 1], b[n + 2], b[n + 3])]
  }

  function EncodeWords(w: seq<Word>): (b: seq<Byte>)
    ensures |b| == 4 * |w|
  {
    if w == [] then [] else EncodeWords(w[..|w| - 1]) + BytesOf(w[|w| - 1])
  }

  lemma WordOfBytesOf(w: Word)
    ensures var b := BytesOf(w); WordOf(b[0], b[1], b[2], b[3]) == w
  {
    assert w / 0x100_0000 % 0x100 == w / 0x100_0000;
    assert w / 0x1_0000 == w / 0x100_0000 * 0x100 + w / 0x1_0000 % 0x100;
    assert w / 0x100 == w / 0x1_0000 * 0x100 + w / 0x100 % 0x100;
  }

  lemma {:induction false} DecodeEncode(w: seq<Word>)
    ensures DecodeWords(EncodeWords(w)) == w
  {
    hide WordOf, BytesOf;
    if w != [] {
      var n := |w| - 1;
      var b := EncodeWords(w);
      DecodeEncode(w[..n]);
      assert b[..4 * n] == EncodeWords(w[..n]);
      WordOfBytesOf(w[n]);
      assert b[4 * n..] == BytesOf(w[n]);
      assert forall j | 0 <= j < 4 :: b[4 * n + j] == b[4 * n..][j];
      assert w == w[..n] + [w[n]];
    }
  }

  /** Word k is made of bytes 4k to 4k + 3, the low-order one first. */
  lemma DecodeAt(b: seq<Byte>, k: nat)
    requires |b| % 4 == 0 && 4 * k < |b|
    ensures DecodeWords(b)[k] as int ==
            b[4 * k] as int + 0x100 * b[4 * k + 1] as int +
            0x1_0000 * b[4 * k + 2] as int + 0x100_0000 * b[4 * k + 3] as int
  {
    DecodeWordAt(b, k);
    hide DecodeWords;
  }

  lemma {:induction false} DecodeWordAt(b: seq<Byte>, k: nat)
    requires |b| % 4 == 0 && 4 * k < |b|
    ensures DecodeWords(b)[k] == WordOf(b[4 * k], b[4 * k + 1], b[4 * k + 2], b[4 * k + 3])
  {
    hide WordOf;
    if 4 * k < |b| - 4 {
      DecodeWordAt(b[..|b| - 4], k);
    }
  }

  /** Bytes 4k to 4k + 3 are word k in base 256, the low-order digit first. */
  lemma {:induction false} EncodeAt(w: seq<Word>, k: nat)
    requires k < |w|
    ensures var b := EncodeWords(w);
      b[4 * k] == w[k] % 0x100 && b[4 * k + 1] == w[k] / 0x100 % 0x100 &&
      b[4 * k + 2] == w[k] / 0x1_0000 % 0x100 && b[4 * k + 3] == w[k] / 0x100_0000
  {
    if k < |w| - 1 {
      EncodeAt(w[..|w| - 1], k);
    }
  }

  // ----- Sections 3.1, 3.2 and 3.5: padding, length and digest

  function Zeros(n: nat): (z: seq<Byte>)
    ensures |z| == n
  {
    seq(n, _ => 0)
  }

  /** The least number of zero bytes that makes the length after the 0x80 byte congruent to 56 modulo 64. */
  function ZeroPadding(length: nat): (k: nat)
    ensures (length + 1 + k) % 64 == 56
    ensures k < 64
  {
    (119 - length % 64) % 64
  }

  /** The low-order 64 bits of the number of message bits, low-order word first. */
  function BitLength(length: nat): (w: seq<Word>)
    ensures |w| == 2
  {
    [8 * length % TWO32, 8 * length / TWO32 % TWO32]
  }

  lemma BitLengthValue(length: nat)
    ensures var w := BitLength(length); w[0] + TWO32 * w[1] == 8 * length % TWO64
  {
    var x := 8 * length;
    var q, r := x / TWO32, x % TWO32;
    var q', r' := q / TWO32, q % TWO32;
    DivMod(x, TWO32);
    DivMod(q, TWO32);
    Remainder(x, q', r + TWO32 * r', TWO64);
  }

  function Padding(length: nat): (p: seq<Byte>)
    ensures (length + |p|) % 64 == 56 && 0 < |p| <= 64
  {
    [0x80] + Zeros(ZeroPadding(length))
  }

  function Padded(m: seq<Byte>): (p: seq<Byte>)
    ensures |p| % 64 == 0 && m <= p
  {
    var n := |m| + |Padding(|m|)|;
    assert n % 64 == 56 ==> (n + 8) % 64 == 0;
    m + Padding(|m|) + EncodeWords(BitLength(|m|))
  }

  /** A number below 2^64 from its eight bytes, the low-order one first. */
  function Number64(b: seq<Byte>): nat
    requires |b| == 8
  {
    WordOf(b[0], b[1], b[2], b[3]) as int + TWO32 * WordOf(b[4], b[5], b[6], b[7])
  }

  /** What is appended: a one bit, as few zeros as fill the last block, and the number of bits of the message. */
  lemma PaddedMeans(m: seq<Byte>)
    ensures var p := Padded(m); var n := |p| - 8;
      |m| < n < |m| + 65 && p[|m|] == 0x80 && (forall i | |m| < i < n :: p[i] == 0) &&
      Number64(p[n..]) == 8 * |m| % TWO64
  {
    var p, w := Padded(m), BitLength(|m|);
    var n := |p| - 8;
    hide BitLength, EncodeWords, Number64, ZeroPadding;
    assert p[n..] == EncodeWords(w);
    BitLengthValue(|m|);
    Number64Words(w);
  }

  lemma Number64Words(w: seq<Word>)
    requires |w| == 2
    ensures Number64(EncodeWords(w)) == w[0] + TWO32 * w[1]
  {
    hide EncodeWords, DecodeWords, WordOf;
    var b := EncodeWords(w);
    DecodeEncode(w);
    DecodeWordAt(b, 0);
    DecodeWordAt(b, 1);
  }

  function Digest(m: seq<Byte>): (d: seq<Byte>)
    ensures |d| == 16
  {
    var r := Process(Padded(m));
    EncodeWords([r.a, r.b, r.c, r.d])
  }
}
