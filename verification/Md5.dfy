/**
 The streaming MD5 class: a 64-byte buffer for the partial block, a two-word bit counter, a compression
 with its 64 steps written out and padding that goes through the same update as the message.  Every
 method is proved against Rfc1321.
 */
module Md5 {
  import opened Rfc1321

  /** 32-bit addition. */
  function Add(x: Word, y: Word): Word {
    (x + y) % TWO32
  }

  lemma AddCarries(x: Word, y: Word)
    ensures Add(x, y) == if x + y < TWO32 then x + y else x + y - TWO32
    ensures Add(x, y) < y <==> x + y >= TWO32
  {}

  /** Wrapping at every plus sign or once at the end is the same. */
  lemma SumWraps(a: Word, m: Word, x: Word, t: Word)
    ensures Add(Add(Add(a, m), x), t) == (a + m + x + t) % TWO32
  {
    hide Add;
    AddCarries(a, m);
    AddCarries(Add(a, m), x);
    AddCarries(Add(Add(a, m), x), t);
    var r := Add(Add(Add(a, m), x), t);
    var d := a + m + x + t - r;
    var q := if d == 0 then 0 else if d == TWO32 then 1 else if d == 2 * TWO32 then 2 else 3;
    Remainder(a + m + x + t, q, r, TWO32);
  }

  // FF, GG, HH and II: the operation of each round, with a 32-bit addition at every plus sign.

  method FF(a: Word, b: Word, c: Word, d: Word, x: Word, s: nat, ac: Word) returns (r: Word)
    requires 0 < s < 32
    ensures r == Operation(a, b, F(b, c, d), x, s, ac)
  {
    hide F, G, H, I, RotateLeft;
    SumWraps(a, F(b, c, d), x, ac);
    r := Add(RotateLeft(Add(Add(Add(a, F(b, c, d)), x), ac), s), b);
  }

  method GG(a: Word, b: Word, c: Word, d: Word, x: Word, s: nat, ac: Word) returns (r: Word)
    requires 0 < s < 32
    ensures r == Operation(a, b, G(b, c, d), x, s, ac)
  {
    hide F, G, H, I, RotateLeft;
    SumWraps(a, G(b, c, d), x, ac);
    r := Add(RotateLeft(Add(Add(Add(a, G(b, c, d)), x), ac), s), b);
  }

  method HH(a: Word, b: Word, c: Word, d: Word, x: Word, s: nat, ac: Word) returns (r: Word)
    requires 0 < s < 32
    ensures r == Operation(a, b, H(b, c, d), x, s, ac)
  {
    hide F, G, H, I, RotateLeft;
    SumWraps(a, H(b, c, d), x, ac);
    r := Add(RotateLeft(Add(Add(Add(a, H(b, c, d)), x), ac), s), b);
  }

  method II(a: Word, b: Word, c: Word, d: Word, x: Word, s: nat, ac: Word) returns (r: Word)
    requires 0 < s < 32
    ensures r == Operation(a, b, I(b, c, d), x, s, ac)
  {
    hide F, G, H, I, RotateLeft;
    SumWraps(a, I(b, c, d), x, ac);
    r := Add(RotateLeft(Add(Add(Add(a, I(b, c, d)), x), ac), s), b);
  }

  /** Round 1: steps 0 to 15, written out as in the source. */
  method Round1(x: array<Word>, a0: Word, b0: Word, c0: Word, d0: Word)
    returns (a: Word, b: Word, c: Word, d: Word)
    requires x.Length == 16
    ensures Registers(a, b, c, d) == Steps(x[..], 0, 16, Registers(a0, b0, c0, d0))
  {
    hide F, G, H, I, RotateLeft, Operation;
    a, b, c, d := a0, b0, c0, d0;
    ghost var q, w := Registers(a, b, c, d), x[..];
    a := FF(a, b, c, d, x[0], 7, 0xd76a_a478);
    assert Registers(d, a, b, c) == Steps(w, 0, 1, q);
    d := FF(d, a, b, c, x[1], 12, 0xe8c7_b756);
    assert Registers(c, d, a, b) == Steps(w, 0, 2, q);
    c := FF(c, d, a, b, x[2], 17, 0x2420_70db);
    assert Registers(b, c, d, a) == Steps(w, 0, 3, q);
    b := FF(b, c, d, a, x[3], 22, 0xc1bd_ceee);
    assert Registers(a, b, c, d) == Steps(w, 0, 4, q);
    a := FF(a, b, c, d, x[4], 7, 0xf57c_0faf);
    assert Registers(d, a, b, c) == Steps(w, 0, 5, q);
    d := FF(d, a, b, c, x[5], 12, 0x4787_c62a);
    assert Registers(c, d, a, b) == Steps(w, 0, 6, q);
    c := FF(c, d, a, b, x[6], 17, 0xa830_4613);
    assert Registers(b, c, d, a) == Steps(w, 0, 7, q);
    b := FF(b, c, d, a, x[7], 22, 0xfd46_9501);
    assert Registers(a, b, c, d) == Steps(w, 0, 8, q);
    a := FF(a, b, c, d, x[8], 7, 0x6980_98d8);
    assert Registers(d, a, b, c) == Steps(w, 0, 9, q);
    d := FF(d, a, b, c, x[9], 12, 0x8b44_f7af);
    assert Registers(c, d, a, b) == Steps(w, 0, 10, q);
    c := FF(c, d, a, b, x[10], 17, 0xffff_5bb1);
    assert Registers(b, c, d, a) == Steps(w, 0, 11, q);
    b := FF(b, c, d, a, x[11], 22, 0x895c_d7be);
    assert Registers(a, b, c, d) == Steps(w, 0, 12, q);
    a := FF(a, b, c, d, x[12], 7, 0x6b90_1122);
    assert Registers(d, a, b, c) == Steps(w, 0, 13, q);
    d := FF(d, a, b, c, x[13], 12, 0xfd98_7193);
    assert Registers(c, d, a, b) == Steps(w, 0, 14, q);
    c := FF(c, d, a, b, x[14], 17, 0xa679_438e);
    assert Registers(b, c, d, a) == Steps(w, 0, 15, q);
    b := FF(b, c, d, a, x[15], 22, 0x49b4_0821);
    assert Registers(a, b, c, d) == Steps(w, 0, 16, q);
  }

  /** Round 2: steps 16 to 31, written out as in the source. */
  method Round2(x: array<Word>, a0: Word, b0: Word, c0: Word, d0: Word)
    returns (a: Word, b: Word, c: Word, d: Word)
    requires x.Length == 16
    ensures Registers(a, b, c, d) == Steps(x[..], 16, 32, Registers(a0, b0, c0, d0))
  {
    hide F, G, H, I, RotateLeft, Operation;
    a, b, c, d := a0, b0, c0, d0;
    ghost var q, w := Registers(a, b, c, d), x[..];
    a := GG(a, b, c, d, x[1], 5, 0xf61e_2562);
    assert Registers(d, a, b, c) == Steps(w, 16, 17, q);
    d := GG(d, a, b, c, x[6], 9, 0xc040_b340);
    assert Registers(c, d, a, b) == Steps(w, 16, 18, q);
    c := GG(c, d, a, b, x[11], 14, 0x265e_5a51);
    assert Registers(b, c, d, a) == Steps(w, 16, 19, q);
    b := GG(b, c, d, a, x[0], 20, 0xe9b6_c7aa);
    assert Registers(a, b, c, d) == Steps(w, 16, 20, q);
    a := GG(a, b, c, d, x[5], 5, 0xd62f_105d);
    assert Registers(d, a, b, c) == Steps(w, 16, 21, q);
    d := GG(d, a, b, c, x[10], 9, 0x0244_1453);
    assert Registers(c, d, a, b) == Steps(w, 16, 22, q);
    c := GG(c, d, a, b, x[15], 14, 0xd8a1_e681);
    assert Registers(b, c, d, a) == Steps(w, 16, 23, q);
    b := GG(b, c, d, a, x[4], 20, 0xe7d3_fbc8);
    assert Registers(a, b, c, d) == Steps(w, 16, 24, q);
    a := GG(a, b, c, d, x[9], 5, 0x21e1_cde6);
    assert Registers(d, a, b, c) == Steps(w, 16, 25, q);
    d := GG(d, a, b, c, x[14], 9, 0xc337_07d6);
    assert Registers(c, d, a, b) == Steps(w, 16, 26, q);
    c := GG(c, d, a, b, x[3], 14, 0xf4d5_0d87);
    assert Registers(b, c, d, a) == Steps(w, 16, 27, q);
    b := GG(b, c, d, a, x[8], 20, 0x455a_14ed);
    assert Registers(a, b, c, d) == Steps(w, 16, 28, q);
    a := GG(a, b, c, d, x[13], 5, 0xa9e3_e905);
    assert Registers(d, a, b, c) == Steps(w, 16, 29, q);
    d := GG(d, a, b, c, x[2], 9, 0xfcef_a3f8);
    assert Registers(c, d, a, b) == Steps(w, 16, 30, q);
    c := GG(c, d, a, b, x[7], 14, 0x676f_02d9);
    assert Registers(b, c, d, a) == Steps(w, 16, 31, q);
    b := GG(b, c, d, a, x[12], 20, 0x8d2a_4c8a);
    assert Registers(a, b, c, d) == Steps(w, 16, 32, q);
  }

  /** Round 3: steps 32 to 47, written out as in the source. */
  method Round3(x: array<Word>, a0: Word, b0: Word, c0: Word, d0: Word)
    returns (a: Word, b: Word, c: Word, d: Word)
    requires x.Length == 16
    ensures Registers(a, b, c, d) == Steps(x[..], 32, 48, Registers(a0, b0, c0, d0))
  {
    hide F, G, H, I, RotateLeft, Operation;
    a, b, c, d := a0, b0, c0, d0;
    ghost var q, w := Registers(a, b, c, d), x[..];
    a := HH(a, b, c, d, x[5], 4, 0xfffa_3942);
    assert Registers(d, a, b, c) == Steps(w, 32, 33, q);
    d := HH(d, a, b, c, x[8], 11, 0x8771_f681);
    assert Registers(c, d, a, b) == Steps(w, 32, 34, q);
    c := HH(c, d, a, b, x[11], 16, 0x6d9d_6122);
    assert Registers(b, c, d, a) == Steps(w, 32, 35, q);
    b := HH(b, c, d, a, x[14], 23, 0xfde5_380c);
    assert Registers(a, b, c, d) == Steps(w, 32, 36, q);
    a := HH(a, b, c, d, x[1], 4, 0xa4be_ea44);
    assert Registers(d, a, b, c) == Steps(w, 32, 37, q);
    d := HH(d, a, b, c, x[4], 11, 0x4bde_cfa9);
    assert Registers(c, d, a, b) == Steps(w, 32, 38, q);
    c := HH(c, d, a, b, x[7], 16, 0xf6bb_4b60);
    assert Registers(b, c, d, a) == Steps(w, 32, 39, q);
    b := HH(b, c, d, a, x[10], 23, 0xbebf_bc70);
    assert Registers(a, b, c, d) == Steps(w, 32, 40, q);
    a := HH(a, b, c, d, x[13], 4, 0x289b_7ec6);
    assert Registers(d, a, b, c) == Steps(w, 32, 41, q);
    d := HH(d, a, b, c, x[0], 11, 0xeaa1_27fa);
    assert Registers(c, d, a, b) == Steps(w, 32, 42, q);
    c := HH(c, d, a, b, x[3], 16, 0xd4ef_3085);
    assert Registers(b, c, d, a) == Steps(w, 32, 43, q);
    b := HH(b, c, d, a, x[6], 23, 0x0488_1d05);
    assert Registers(a, b, c, d) == Steps(w, 32, 44, q);
    a := HH(a, b, c, d, x[9], 4, 0xd9d4_d039);
    assert Registers(d, a, b, c) == Steps(w, 32, 45, q);
    d := HH(d, a, b, c, x[12], 11, 0xe6db_99e5);
    assert Registers(c, d, a, b) == Steps(w, 32, 46, q);
    c := HH(c, d, a, b, x[15], 16, 0x1fa2_7cf8);
    assert Registers(b, c, d, a) == Steps(w, 32, 47, q);
    b := HH(b, c, d, a, x[2], 23, 0xc4ac_5665);
    assert Registers(a, b, c, d) == Steps(w, 32, 48, q);
  }

  /** Round 4: steps 48 to 63, written out as in the source. */
  method Round4(x: array<Word>, a0: Word, b0: Word, c0: Word, d0: Word)
    returns (a: Word, b: Word, c: Word, d: Word)
    requires x.Length == 16
    ensures Registers(a, b, c, d) == Steps(x[..], 48, 64, Registers(a0, b0, c0, d0))
  {
    hide F, G, H, I, RotateLeft, Operation;
    a, b, c, d := a0, b0, c0, d0;
    ghost var q, w := Registers(a, b, c, d), x[..];
    a := II(a, b, c, d, x[0], 6, 0xf429_2244);
    assert Registers(d, a, b, c) == Steps(w, 48, 49, q);
    d := II(d, a, b, c, x[7], 10, 0x432a_ff97);
    assert Registers(c, d, a, b) == Steps(w, 48, 50, q);
    c := II(c, d, a, b, x[14], 15, 0xab94_23a7);
    assert Registers(b, c, d, a) == Steps(w, 48, 51, q);
    b := II(b, c, d, a, x[5], 21, 0xfc93_a039);
    assert Registers(a, b, c, d) == Steps(w, 48, 52, q);
    a := II(a, b, c, d, x[12], 6, 0x655b_59c3);
    assert Registers(d, a, b, c) == Steps(w, 48, 53, q);
    d := II(d, a, b, c, x[3], 10, 0x8f0c_cc92);
    assert Registers(c, d, a, b) == Steps(w, 48, 54, q);
    c := II(c, d, a, b, x[10], 15, 0xffef_f47d);
    assert Registers(b, c, d, a) == Steps(w, 48, 55, q);
    b := II(b, c, d, a, x[1], 21, 0x8584_5dd1);
    assert Registers(a, b, c, d) == Steps(w, 48, 56, q);
    a := II(a, b, c, d, x[8], 6, 0x6fa8_7e4f);
    assert Registers(d, a, b, c) == Steps(w, 48, 57, q);
    d := II(d, a, b, c, x[15], 10, 0xfe2c_e6e0);
    assert Registers(c, d, a, b) == Steps(w, 48, 58, q);
    c := II(c, d, a, b, x[6], 15, 0xa301_4314);
    assert Registers(b, c, d, a) == Steps(w, 48, 59, q);
    b := II(b, c, d, a, x[13], 21, 0x4e08_11a1);
    assert Registers(a, b, c, d) == Steps(w, 48, 60, q);
    a := II(a, b, c, d, x[4], 6, 0xf753_7e82);
    assert Registers(d, a, b, c) == Steps(w, 48, 61, q);
    d := II(d, a, b, c, x[11], 10, 0xbd3a_f235);
    assert Registers(c, d, a, b) == Steps(w, 48, 62, q);
    c := II(c, d, a, b, x[2], 15, 0x2ad7_d2bb);
    assert Registers(b, c, d, a) == Steps(w, 48, 63, q);
    b := II(b, c, d, a, x[9], 21, 0xeb86_d391);
    assert Registers(a, b, c, d) == Steps(w, 48, 64, q);
  }

  // ----- The bit counter

  /** hi:lo is the 64-bit number of bits in a message of n bytes. */
  ghost predicate Counts(lo: Word, hi: Word, n: nat) {
    lo + TWO32 * hi == 8 * n % TWO64
  }

  /** The counter update of `update`: a 32-bit shift, a carry out of the low word, and the top bits. */
  function CountAdd(lo: Word, hi: Word, length: Word): (r: (Word, Word)) {
    var shifted := 8 * length % TWO32;
    var lo' := Add(lo, shifted);
    var hi' := if lo' < shifted then Add(hi, 1) else hi;
    (lo', Add(hi', length / 0x2000_0000))
  }

  lemma CountAddCorrect(lo: Word, hi: Word, n: nat, length: Word)
    requires Counts(lo, hi, n)
    ensures var (lo', hi') := CountAdd(lo, hi, length); Counts(lo', hi', n + length)
  {
    hide Add;
    var q := 8 * n / TWO64;
    var top, shifted := length / 0x2000_0000, 8 * length % TWO32;
    Remainder(8 * length, top, 8 * (length - 0x2000_0000 * top), TWO32);
    AddCarries(lo, shifted);
    AddCarries(hi, 1);
    var carried := if lo + shifted >= TWO32 then Add(hi, 1) else hi;
    AddCarries(carried, top);
    var (lo', hi') := CountAdd(lo, hi, length);
    var x := 8 * (n + length) - (lo' + TWO32 * hi');
    assert x == TWO64 * q || x == TWO64 * (q + 1);
    Remainder(8 * (n + length), if x == TWO64 * q then q else q + 1, lo' + TWO32 * hi', TWO64);
  }

  /** The counter is what section 3.2 of RFC 1321 appends. */
  lemma CountsBitLength(lo: Word, hi: Word, n: nat)
    requires Counts(lo, hi, n)
    ensures BitLength(n) == [lo, hi]
  {
    hide BitLength;
    BitLengthValue(n);
    var w := BitLength(n);
    assert w == [w[0], w[1]];
  }

  /** count[0] / 8 % 64 is the length of the partial block. */
  lemma CountIndex(lo: Word, hi: Word, n: nat)
    requires Counts(lo, hi, n)
    ensures lo / 8 % 64 == n % 64
  {
    var q := 8 * n / TWO64;
    DivMod(8 * n, TWO64);
    var k := 0x80_0000 * (TWO32 * q + hi);
    var buffered := n - 64 * k;
    assert lo == 8 * buffered;
    Eighth(lo, buffered);
    DivMod(buffered, 64);
    Remainder(n, buffered / 64 + k, buffered % 64, 64);
  }

  lemma Eighth(x: int, y: int)
    requires x == 8 * y
    ensures x / 8 == y
  {}

  // ----- The block loop of `update` counts in 32 bits

  /** The loop condition i + blocksize <= length, in 32 bits. */
  predicate BlockGuard(i: Word, length: Word) {
    Add(i, 64) <= length
  }

  /** The loop index after k iterations that start at i. */
  function BlockIndex(i: Word, k: nat): Word {
    if k == 0 then i else Add(BlockIndex(i, k - 1), 64)
  }

  /** No index of the loop that starts at `first` wraps around. */
  predicate IndexFits(first: nat, length: nat) {
    length < first || length - (length - first) % 64 + 64 < TWO32
  }

  /** The block loop stops if and only if no index wraps around. */
  lemma {:induction false} BlockLoopStops(first: Word, length: Word)
    requires 0 < first <= 64 && first <= length
    ensures IndexFits(first, length) <==> exists k: nat :: !BlockGuard(BlockIndex(first, k), length)
  {
    if IndexFits(first, length) {
      var n := (length - first) / 64;
      BlockIndexUnwrapped(first, length, n);
      assert !BlockGuard(BlockIndex(first, n), length);
    } else {
      forall k: nat ensures BlockGuard(BlockIndex(first, k), length) {
        BlockIndexBounded(first, length, k + 1);
      }
    }
  }

  lemma {:induction false} BlockIndexUnwrapped(first: Word, length: Word, k: nat)
    requires 0 < first <= 64 && first <= length && k <= (length - first) / 64
    ensures BlockIndex(first, k) == first + 64 * k
  {
    if k > 0 {
      BlockIndexUnwrapped(first, length, k - 1);
    }
  }

  lemma {:induction false} BlockIndexBounded(first: Word, length: Word, k: nat)
    requires 0 < first <= 64 && first <= length && !IndexFits(first, length)
    ensures BlockIndex(first, k) <= length && (BlockIndex(first, k) - first) % 64 == 0
  {
    if k > 0 {
      BlockIndexBounded(first, length, k - 1);
      hide IndexFits, BlockIndex;
      var i := BlockIndex(first, k - 1);
      AddCarries(i, 64);
      LastBlock(first, i, length);
      assert BlockIndex(first, k) == Add(i, 64) by { BlockIndexNext(first, k); }
    }
  }

  lemma BlockIndexNext(first: Word, k: nat)
    requires k > 0
    ensures BlockIndex(first, k) == Add(BlockIndex(first, k - 1), 64)
  {}

  /** Where the index wraps, every index that is not the last is at least a block below the length. */
  lemma LastBlock(first: nat, i: nat, length: Word)
    requires 0 < first <= 64 && first <= length && !IndexFits(first, length)
    requires i <= length && (i - first) % 64 == 0
    ensures i + 64 < TWO32 ==> i + 64 <= length
    ensures i + 64 >= TWO32 ==> i + 64 - TWO32 <= length
    ensures (i + 64 - first) % 64 == 0 && (i + 64 - TWO32 - first) % 64 == 0
  {}

  /** From 2^32 - 64 on the loop can run for ever: at that length it does on an empty buffer. */
  lemma BlockLoopHangs()
    ensures !IndexFits(64, 0xffff_ffc0) && forall k: nat :: BlockGuard(BlockIndex(64, k), 0xffff_ffc0)
  {
    BlockLoopStops(64, 0xffff_ffc0);
  }

  lemma ShortInputFits(first: nat, length: nat)
    requires 0 < first <= 64 && length < TWO32 - 64
    ensures IndexFits(first, length)
  {}

  // ----- Steps of the streaming proof

  /** The bytes between a block boundary and the next one do not reach the registers. */
  lemma ProcessSplit(all: seq<Byte>, full: nat, n: nat)
    requires full % 64 == 0 && full <= n <= |all| && n < full + 64
    ensures Process(all[..n]) == Process(all[..full]) && n % 64 == n - full
  {
    hide Process;
    ProcessPartial(all[..full], all[full..n]);
    assert all[..n] == all[..full] + all[full..n];
  }

  /** Less than a block lies beyond `full`, so the rest of x only has to be buffered. */
  lemma RestIsTail(m: seq<Byte>, x: seq<Byte>, i: nat, full: nat)
    requires i <= |x| && full % 64 == 0 && full <= |m| + i && |m| + |x| < full + 64
    ensures Process(m + x) == Process(m + x[..i])
    ensures |m + x| % 64 == |m + x| - full
  {
    hide Process;
    var all := m + x;
    assert all[..|m| + i] == m + x[..i];
    assert all[..|all|] == all;
    ProcessSplit(all, full, |m| + i);
    ProcessSplit(all, full, |all|);
  }

  lemma DecodeNone(b: seq<Byte>)
    requires b == []
    ensures DecodeWords(b) == []
  {}

  lemma DecodeNext(b: seq<Byte>, n: nat)
    requires n % 4 == 0 && |b| == n + 4
    ensures DecodeWords(b) == DecodeWords(b[..n]) + [WordOf(b[n], b[n + 1], b[n + 2], b[n + 3])]
  {}

  lemma BlockEnd(n: nat, index: nat)
    requires index == n % 64
    ensures (n - index) % 64 == 0 && (n + 64 - index) % 64 == 0
  {}

  lemma PrefixIn(m: seq<Byte>, x: seq<Byte>, y: seq<Byte>)
    requires y <= x
    ensures (m + x)[..|m| + |y|] == m + y
  {}

  lemma BlockIn(m: seq<Byte>, x: seq<Byte>, i: nat)
    requires i + 64 <= |x|
    ensures (m + x)[|m| + i..|m| + i + 64] == x[i..i + 64]
  {}

  lemma BlockStart(start: nat, blocks: nat)
    requires start % 64 == 0
    ensures (start + 64 * blocks) % 64 == 0
  {}

  lemma FirstBlockBytes(m: seq<Byte>, x: seq<Byte>, full: nat)
    requires full % 64 == 0 && full <= |m| < full + 64 && |x| == full + 64 - |m|
    ensures Process(m + x) == Compress(Process(m), m[full..] + x)
  {
    hide Compress, Process;
    ProcessPartial(m[..full], m[full..]);
    ProcessBlock(m[..full], m[full..] + x);
    assert m == m[..full] + m[full..];
    assert m + x == m[..full] + (m[full..] + x);
  }

  lemma ProcessNext(all: seq<Byte>, full: nat)
    requires full % 64 == 0 && full + 64 <= |all|
    ensures Process(all[..full + 64]) == Compress(Process(all[..full]), all[full..full + 64])
  {
    hide Process, Compress;
    ProcessBlock(all[..full], all[full..full + 64]);
    assert all[..full + 64] == all[..full] + all[full..full + 64];
  }

  /** While no index wraps, the 32-bit loop condition means what it says. */
  lemma GuardExact(first: nat, i: nat, length: Word)
    requires 0 < first <= i <= length && (i - first) % 64 == 0 && IndexFits(first, length)
    ensures BlockGuard(i, length) <==> i + 64 <= length
  {}

  function HexDigit(n: nat): (c: char)
    requires n < 16
    ensures HexValue(c) == n && ('0' <= c <= '9' || 'a' <= c <= 'f')
  {
    if n < 10 then '0' + n as char else 'a' + (n - 10) as char
  }

  function HexValue(c: char): int {
    if '0' <= c <= '9' then (c - '0') as int else (c as int - 'a' as int) + 10
  }

  function HexByte(b: Byte): (s: string)
    ensures |s| == 2
  {
    [HexDigit(b / 16), HexDigit(b % 16)]
  }

  function Hex(d: seq<Byte>): (s: string)
    ensures |s| == 2 * |d|
  {
    if d == [] then [] else Hex(d[..|d| - 1]) + HexByte(d[|d| - 1])
  }

  /** Byte k of d is what digits 2k and 2k + 1 spell. */
  lemma {:induction false} HexSpells(d: seq<Byte>, k: nat)
    requires k < |d|
    ensures HexValue(Hex(d)[2 * k]) * 16 + HexValue(Hex(d)[2 * k + 1]) == d[k]
  {
    if k < |d| - 1 {
      HexSpells(d[..|d| - 1], k);
    }
  }

  lemma PaddingLength(n: nat)
    ensures |Padding(n)| == if n % 64 < 56 then 56 - n % 64 else 120 - n % 64
  {}

  class MD5 {
    const buffer: array<Byte>  // bytes that did not fill a block yet
    const count: array<Word>   // number of bits, low word first
    const state: array<Word>
    const digest: array<Byte>
    var finalized: bool
    ghost var absorbed: seq<Byte>  // every byte given to Update so far

    ghost predicate Shape() {
      buffer.Length == 64 && count.Length == 2 && state.Length == 4 && digest.Length == 16 &&
      buffer != digest && count != state
    }

    ghost function Registers(): Rfc1321.Registers
      requires Shape()
      reads state
    {
      Rfc1321.Registers(state[0], state[1], state[2], state[3])
    }

    ghost predicate Streaming(m: seq<Byte>)
      reads this, buffer, count, state
    {
      Shape() && Counts(count[0], count[1], |m|) && Registers() == Process(m) &&
      buffer[..|m| % 64] == m[|m| - |m| % 64..]
    }

    ghost predicate Valid()
      reads this, buffer, count, state, digest
    {
      Shape() && if finalized then digest[..] == Digest(absorbed) else Streaming(absorbed)
    }

    constructor ()
      ensures Valid() && !finalized && absorbed == []
      ensures fresh(buffer) && fresh(count) && fresh(state) && fresh(digest)
    {
      buffer, digest := new Byte[64], new Byte[16];
      count, state := new Word[2](_ => 0), new Word[4];
      finalized := false;
      absorbed := [];
      new;
      state[0], state[1], state[2], state[3] := 0x6745_2301, 0xefcd_ab89, 0x98ba_dcfe, 0x1032_5476;
    }

    static method Decode(output: array<Word>, input: array<Byte>, from: nat, len: nat)
      requires len % 4 == 0 && from + len <= input.Length && output.Length * 4 == len
      modifies output
      ensures output[..] == DecodeWords(input[from..from + len])
    {
      hide WordOf, DecodeWords;
      DecodeNone(input[from..from]);
      var i, j := 0, 0;
      while j < len
        invariant j == 4 * i && i <= output.Length
        invariant output[..i] == DecodeWords(input[from..from + j])
      {
        var k := from + j;
        output[i] := WordOf(input[k], input[k + 1], input[k + 2], input[k + 3]);
        DecodeNext(input[from..k + 4], j);
        assert input[from..k + 4][..j] == input[from..k];
        assert output[..i + 1] == output[..i] + [output[i]];
        i, j := i + 1, j + 4;
      }
      assert output[..i] == output[..];
    }

    static method Encode(output: array<Byte>, input: array<Word>, len: nat)
      requires len == 4 * input.Length && len <= output.Length
      modifies output
      ensures output[..len] == EncodeWords(input[..])
      ensures output[len..] == old(output[len..])
    {
      var i, j := 0, 0;
      while j < len
        invariant j == 4 * i && i <= input.Length
        invariant output[..j] == EncodeWords(input[..i])
        invariant output[len..] == old(output[len..])
      {
        var w := input[i];
        output[j] := w % 0x100;
        output[j + 1] := w / 0x100 % 0x100;
        output[j + 2] := w / 0x1_0000 % 0x100;
        output[j + 3] := w / 0x100_0000 % 0x100;
        assert output[..j + 4] == output[..j] + BytesOf(w);
        assert input[..i + 1][..i] == input[..i];
        i, j := i + 1, j + 4;
      }
      assert input[..i] == input[..];
    }

    method Transform(block: array<Byte>, from: nat)
      requires Shape() && from + 64 <= block.Length
      modifies state
      ensures Registers() == Compress(old(Registers()), block[from..from + 64])
    {
      hide Step, DecodeWords;
      var x := new Word[16];
      Decode(x, block, from, 64);
      ghost var w := x[..];
      ghost var r := Registers();
      var a, b, c, d := Round1(x, state[0], state[1], state[2], state[3]);
      a, b, c, d := Round2(x, a, b, c, d);
      StepsCompose(w, 0, 16, 32, r);
      a, b, c, d := Round3(x, a, b, c, d);
      StepsCompose(w, 0, 32, 48, r);
      a, b, c, d := Round4(x, a, b, c, d);
      StepsCompose(w, 0, 48, 64, r);
      state[0] := Add(state[0], a);
      state[1] := Add(state[1], b);
      state[2] := Add(state[2], c);
      state[3] := Add(state[3], d);
    }

    /** memcpy(&dest[at], &src[from], n) */
    static method Copy(dest: array<Byte>, at: nat, src: array<Byte>, from: nat, n: nat)
      requires dest != src && at + n <= dest.Length && from + n <= src.Length
      modifies dest
      ensures dest[..] == old(dest[..at]) + src[from..from + n] + old(dest[at + n..])
    {
      forall k | 0 <= k < n {
        dest[at + k] := src[from + k];
      }
    }

    method AddToCount(length: Word, ghost n: nat)
      requires Shape() && Counts(count[0], count[1], n)
      modifies count
      ensures Counts(count[0], count[1], n + length)
    {
      hide Counts;
      CountAddCorrect(count[0], count[1], n, length);
      var shifted := 8 * length % TWO32;
      count[0] := Add(count[0], shifted);
      if count[0] < shifted {
        count[1] := Add(count[1], 1);
      }
      count[1] := Add(count[1], length / 0x2000_0000);
    }

    /** The part of `update` that completes the buffered block and then takes whole blocks from input. */
    method TakeBlocks(input: array<Byte>, length: nat, index: nat, ghost m: seq<Byte>) returns (i: nat)
      requires Shape() && input != buffer && length <= input.Length && length < TWO32
      requires index == |m| % 64 && 64 - index <= length && IndexFits(64 - index, length)
      requires buffer[..index] == m[|m| - index..] && Registers() == Process(m)
      modifies buffer, state
      ensures i <= length < i + 64 && (|m| + i) % 64 == 0
      ensures Registers() == Process(m + input[..i])
    {
      hide Compress, Process, Add, IndexFits, BlockGuard;
      ghost var n, all := |m|, m + input[..length];
      var firstpart := 64 - index;
      FirstBlock(input, index, m);
      PrefixIn(m, input[..length], input[..firstpart]);
      ghost var blocks := 0;
      i := firstpart;
      while BlockGuard(i, length)
        invariant i <= length && i == firstpart + 64 * blocks
        invariant Registers() == Process(all[..n + i])
        decreases length - i
      {
        GuardExact(firstpart, i, length);
        BlockStart(n + firstpart, blocks);
        BlockIn(m, input[..length], i);
        assert input[..length][i..i + 64] == input[i..i + 64];
        NextBlock(input, i, all, n + i);
        i, blocks := i + 64, blocks + 1;
      }
      GuardExact(firstpart, i, length);
      BlockStart(n + firstpart, blocks);
      PrefixIn(m, input[..length], input[..i]);
    }

    method NextBlock(input: array<Byte>, i: nat, ghost all: seq<Byte>, ghost full: nat)
      requires Shape() && i + 64 <= input.Length && full % 64 == 0 && full + 64 <= |all|
      requires input[i..i + 64] == all[full..full + 64] && Registers() == Process(all[..full])
      modifies state
      ensures Registers() == Process(all[..full + 64])
    {
      hide Compress, Process;
      Transform(input, i);
      ProcessNext(all, full);
    }

    /** The buffered bytes and the first ones of input make up a block. */
    method FirstBlock(input: array<Byte>, index: nat, ghost m: seq<Byte>)
      requires Shape() && input != buffer && index == |m| % 64 && 64 - index <= input.Length
      requires buffer[..index] == m[|m| - index..] && Registers() == Process(m)
      modifies buffer, state
      ensures (|m| + 64 - index) % 64 == 0 && Registers() == Process(m + input[..64 - index])
    {
      hide Compress, Process;
      BlockEnd(|m|, index);
      FirstBlockBytes(m, input[..64 - index], |m| - index);
      Copy(buffer, index, input, 0, 64 - index);
      Transform(buffer, 0);
      assert buffer[0..64] == m[|m| - index..] + input[..64 - index];
    }

    /** Absorbs the first `length` bytes of input, however they fall on block boundaries. */
    method Update(input: array<Byte>, length: nat)
      requires Valid() && !finalized
      requires length <= input.Length && length < TWO32
      requires IndexFits(64 - |absorbed| % 64, length)
      requires input != buffer && input != digest
      modifies this`absorbed, buffer, count, state
      ensures Valid() && absorbed == old(absorbed) + input[..length]
    {
      hide Compress, Process, Counts, IndexFits;
      ghost var m, n := absorbed, |absorbed|;
      CountIndex(count[0], count[1], n);
      var index := count[0] / 8 % 64;
      AddToCount(length, n);

      var i := 0;
      ghost var full := n - index;
      if length >= 64 - index {
        i := TakeBlocks(input, length, index, m);
        index := 0;
        full := n + i;
      }
      ghost var taken := m + input[..i];
      assert buffer[..index] == taken[full..] && Registers() == Process(taken) by {
        assert i == 0 ==> taken == m;
      }
      FinishUpdate(input, length, index, i, m, full);
    }

    /** The end of `update`: what is left of the input goes into the buffer. */
    method FinishUpdate(input: array<Byte>, length: nat, index: nat, i: nat, ghost m: seq<Byte>, ghost full: nat)
      requires Shape() && input != buffer && !finalized && i <= length <= input.Length
      requires full % 64 == 0 && full <= |m| + i && |m| + length < full + 64
      requires index == |m| + i - full && buffer[..index] == (m + input[..i])[full..]
      requires Registers() == Process(m + input[..i]) && Counts(count[0], count[1], |m| + length)
      modifies this`absorbed, buffer
      ensures Valid() && absorbed == m + input[..length]
    {
      hide Process, Counts;
      ghost var head := buffer[..index];
      Copy(buffer, index, input, i, length - i);
      absorbed := m + input[..length];
      RestIsTail(m, input[..length], i, full);
      assert input[..length][..i] == input[..i];
      assert buffer[..|absorbed| - full] == head + input[i..length] == absorbed[full..];
    }

    /** Pads and stores the digest, and clears the buffer and the counter; a second call changes nothing. */
    method Finalize()
      requires Valid()
      modifies this, buffer, count, state, digest
      ensures Valid() && finalized && absorbed == old(absorbed)
      ensures digest[..] == Digest(absorbed)
      ensures !old(finalized) ==> buffer[..] == Zeros(64) && count[..] == Zeros(2)
      ensures old(finalized) ==> buffer[..] == old(buffer[..]) && count[..] == old(count[..])
    {
      hide Compress, Process, BitLength, Counts;
      if !finalized {
        ghost var m := absorbed;
        var bits := new Byte[8];
        Encode(bits, count, 8);
        CountsBitLength(count[0], count[1], |m|);
        assert bits[..8] == EncodeWords(BitLength(|m|)) by { assert count[..] == [count[0], count[1]]; }
        Pad(bits, m);
        assert state[..] == [state[0], state[1], state[2], state[3]];
        Encode(digest, state, 16);
        assert digest[..16] == digest[..];
        Clear();
        absorbed := m;
        finalized := true;
      }
    }

    /** Absorbs the padding and then the saved length. */
    method Pad(bits: array<Byte>, ghost m: seq<Byte>)
      requires Valid() && !finalized && absorbed == m
      requires bits.Length == 8 && bits[..] == EncodeWords(BitLength(|m|))
      requires bits != buffer && bits != digest
      modifies this`absorbed, buffer, count, state
      ensures Valid() && absorbed == Padded(m)
    {
      hide Compress, Process, Counts, BitLength, IndexFits, EncodeWords, ZeroPadding;
      CountIndex(count[0], count[1], |m|);
      PaddingLength(|m|);
      var index := count[0] / 8 % 64;
      var padLen := if index < 56 then 56 - index else 120 - index;
      var padding := new Byte[64](k => if k == 0 then 0x80 else 0);
      assert padding[..padLen] == Padding(|m|);
      ShortInputFits(64 - |absorbed| % 64, padLen);
      Update(padding, padLen);
      ShortInputFits(64 - |absorbed| % 64, 8);
      Update(bits, 8);
      assert bits[..8] == bits[..];
    }

    method Clear()
      requires Shape()
      modifies buffer, count
      ensures buffer[..] == Zeros(64) && count[..] == Zeros(2)
    {
      forall k | 0 <= k < 64 {
        buffer[k] := 0;
      }
      forall k | 0 <= k < 2 {
        count[k] := 0;
      }
    }

    /** The digest in hexadecimal, or nothing before Finalize. */
    method HexDigest() returns (hex: string)
      requires Valid()
      ensures hex == if finalized then Hex(Digest(absorbed)) else ""
    {
      if !finalized {
        return "";
      }
      hex := "";
      for i := 0 to 16
        invariant hex == Hex(digest[..i])
      {
        assert digest[..i + 1][..i] == digest[..i];
        hex := hex + HexByte(digest[i]);
      }
      assert digest[..16] == digest[..];
    }
  }

  /** md5(str): the hexadecimal digest of a whole string. */
  method HashString(str: seq<Byte>) returns (hex: string)
    requires |str| < TWO32 && IndexFits(64, |str|)
    ensures hex == Hex(Digest(str))
  {
    hide Digest, Hex, MD5.Valid;
    var md5 := new MD5();
    var input := new Byte[|str|](k requires 0 <= k < |str| => str[k]);
    md5.Update(input, |str|);
    assert input[..|str|] == str;
    assert md5.absorbed == str;
    md5.Finalize();
    hex := md5.HexDigest();
  }

  function Concat(chunks: seq<seq<Byte>>): seq<Byte> {
    if chunks == [] then [] else Concat(chunks[..|chunks| - 1]) + chunks[|chunks| - 1]
  }

  /** A client: however a message is cut into chunks, empty ones included, the digest is that of the whole. */
  method HashChunks(chunks: seq<seq<Byte>>) returns (hex: string)
    requires forall c | c in chunks :: |c| < TWO32 - 64
    ensures hex == Hex(Digest(Concat(chunks)))
  {
    hide Digest, Hex, IndexFits, MD5.Valid;
    var md5 := new MD5();
    for n := 0 to |chunks|
      invariant fresh(md5) && fresh(md5.buffer) && fresh(md5.count) && fresh(md5.state) && fresh(md5.digest)
      invariant md5.Valid() && !md5.finalized && md5.absorbed == Concat(chunks[..n])
    {
      var c := chunks[n];
      var input := new Byte[|c|](k requires 0 <= k < |c| => c[k]);
      ShortInputFits(64 - |md5.absorbed| % 64, |c|);
      md5.Update(input, |c|);
      assert input[..|c|] == c;
      assert chunks[..n + 1][..n] == chunks[..n];
    }
    assert chunks[..|chunks|] == chunks;
    md5.Finalize();
    hex := md5.HexDigest();
  }
}
