/**
 A known answer.  Section A.5 of RFC 1321 lists the digest of the lower-case alphabet; here it is derived
 from Rfc1321 step by step, so that no constant, rotation, word order or padding byte can be another.
 */
module KnownAnswer {
  import opened Bits
  import opened Rfc1321
  import opened Md5

  /** abcdefghijklmnopqrstuvwxyz */
  const ALPHABET: seq<Byte> := seq(26, i requires 0 <= i < 26 => 0x61 + i)

  /** The alphabet, the first bit of the padding and the length of 208 bits. */
  const BLOCK: seq<Byte> := seq(64, i requires 0 <= i < 64 =>
    if i < 26 then 0x61 + i else if i == 26 then 0x80 else if i == 56 then 208 else 0)

  const DIGEST: seq<Byte> :=
    [0xc3, 0xfc, 0xd3, 0xd7] + [0x61, 0x92, 0xe4, 0x00] +
    [0x7d, 0xfb, 0x49, 0x6c] + [0xca, 0x67, 0xe1, 0x3b]

  /** The words of the one padded block. */
  predicate IsBlock(x: seq<Word>) {
    |x| == 16 &&
    x[0] == 0x6463_6261 && x[1] == 0x6867_6665 && x[2] == 0x6c6b_6a69 && x[3] == 0x706f_6e6d &&
    x[4] == 0x7473_7271 && x[5] == 0x7877_7675 && x[6] == 0x0080_7a79 && x[7] == 0x0000_0000 &&
    x[8] == 0x0000_0000 && x[9] == 0x0000_0000 && x[10] == 0x0000_0000 && x[11] == 0x0000_0000 &&
    x[12] == 0x0000_0000 && x[13] == 0x0000_0000 && x[14] == 0x0000_00d0 && x[15] == 0x0000_0000
  }

  lemma PowerTable()
    ensures Pow2(0) == 0x1 && Pow2(1) == 0x2 && Pow2(2) == 0x4 && Pow2(3) == 0x8
    ensures Pow2(4) == 0x10 && Pow2(5) == 0x20 && Pow2(6) == 0x40 && Pow2(7) == 0x80
    ensures Pow2(8) == 0x100 && Pow2(9) == 0x200 && Pow2(10) == 0x400 && Pow2(11) == 0x800
    ensures Pow2(12) == 0x1000 && Pow2(13) == 0x2000 && Pow2(14) == 0x4000 && Pow2(15) == 0x8000
    ensures Pow2(16) == 0x10000 && Pow2(17) == 0x20000 && Pow2(18) == 0x40000 && Pow2(19) == 0x80000
    ensures Pow2(20) == 0x100000 && Pow2(21) == 0x200000 && Pow2(22) == 0x400000 && Pow2(23) == 0x800000
    ensures Pow2(24) == 0x1000000 && Pow2(25) == 0x2000000 && Pow2(26) == 0x4000000 && Pow2(27) == 0x8000000
    ensures Pow2(28) == 0x10000000
  {
    assert Pow2(0) == 0x1 && Pow2(1) == 0x2 && Pow2(2) == 0x4 && Pow2(3) == 0x8;
    assert Pow2(4) == 0x10 && Pow2(5) == 0x20 && Pow2(6) == 0x40 && Pow2(7) == 0x80;
    assert Pow2(8) == 0x100 && Pow2(9) == 0x200 && Pow2(10) == 0x400 && Pow2(11) == 0x800;
    assert Pow2(12) == 0x1000 && Pow2(13) == 0x2000 && Pow2(14) == 0x4000 && Pow2(15) == 0x8000;
    assert Pow2(16) == 0x10000 && Pow2(17) == 0x20000 && Pow2(18) == 0x40000 && Pow2(19) == 0x80000;
    assert Pow2(20) == 0x100000 && Pow2(21) == 0x200000 && Pow2(22) == 0x400000 && Pow2(23) == 0x800000;
    assert Pow2(24) == 0x1000000 && Pow2(25) == 0x2000000 && Pow2(26) == 0x4000000 && Pow2(27) == 0x8000000;
    assert Pow2(28) == 0x10000000;
  }

  lemma RotateIs(x: Word, s: nat, high: nat, low: nat, p: nat, q: nat)
    requires 0 < s < 32 && p == Pow2(s) && q == Pow2(32 - s) && x == high * q + low && low < q
    ensures RotateLeft(x, s) == low * p + high
  {
    PowersMakeWord(s);
    RotateLeftValue(x, s);
    hide *;
    TwoParts(x, high, low, p, q);
  }

  lemma TwoParts(x: Word, high: nat, low: nat, p: nat, q: nat)
    requires q * p == TWO32 && x == high * q + low && low < q
    ensures x / q == high && x * p % TWO32 == low * p
  {
    Quotient(x, q, high, low);
    Distribute(high, q, low, p);
    Times(low + 1, q, p);
    Quotient(x * p, TWO32, high, low * p);
  }

  /** An operation in plain arithmetic.  The sum carries c times and is cut into two parts by the rotation;
      p and q are the powers of two for it, and the last addition carries k times. */
  lemma OperationIs(a: Word, b: Word, mixed: Word, w: Word, s: nat, t: Word,
                    c: int, high: int, low: int, k: int, p: int, q: int, u: Word)
    requires 0 < s < 32 && p == Pow2(s) && q == Pow2(32 - s)
    requires 0 <= a + mixed + w + t - c * TWO32 == high * q + low < TWO32 && 0 <= low < q && 0 <= high < p
    requires b + low * p + high == u + k * TWO32
    ensures Operation(a, b, mixed, w, s, t) == u
  {
    var sum := high * q + low;
    Remainder(a + mixed + w + t, c, sum, TWO32);
    hide RotateLeft, Pow2;
    RotateIs(sum, s, high, low, p, q);
    Remainder(b + low * p + high, k, u, TWO32);
  }

  lemma FourSteps(x: seq<Word>, i: nat, r: Registers)
    requires |x| == 16 && i + 4 <= 64
    ensures Steps(x, i, i + 4, r) == Step(x, i + 3, Step(x, i + 2, Step(x, i + 1, Step(x, i, r))))
  {
    hide Step;
    assert Steps(x, i, i + 1, r) == Step(x, i, r);
    assert Steps(x, i, i + 2, r) == Step(x, i + 1, Step(x, i, r));
  }

  lemma Mixed0()
    ensures Auxiliary(0, 0xefcd_ab89, 0x98ba_dcfe, 0x1032_5476) == 0x98ba_dcfe
    ensures Auxiliary(1, 0xd6d1_17a6, 0xefcd_ab89, 0x98ba_dcfe) == 0xceeb_cbd8
    ensures Auxiliary(2, 0xaab1_aaaa, 0xd6d1_17a6, 0xefcd_ab89) == 0xc7dd_03a3
    ensures Auxiliary(3, 0x227d_8cf1, 0xaab1_aaaa, 0xd6d1_17a6) == 0xf6b1_9ba6
  {}

  lemma Operations0()
    ensures Operation(0x6745_2301, 0xefcd_ab89, 0x98ba_dcfe, 0x6463_6261, 7, 0xd76a_a478) == 0xd6d1_17a6
    ensures Operation(0x1032_5476, 0xd6d1_17a6, 0xceeb_cbd8, 0x6867_6665, 12, 0xe8c7_b756) == 0xaab1_aaaa
    ensures Operation(0x98ba_dcfe, 0xaab1_aaaa, 0xc7dd_03a3, 0x6c6b_6a69, 17, 0x2420_70db) == 0x227d_8cf1
    ensures Operation(0xefcd_ab89, 0x227d_8cf1, 0xf6b1_9ba6, 0x706f_6e6d, 22, 0xc1bd_ceee) == 0x4503_b812
  {
    hide Operation, Pow2;
    PowerTable();
    OperationIs(0x6745_2301, 0xefcd_ab89, 0x98ba_dcfe, 0x6463_6261, 7, 0xd76a_a478,
                2, 0x1d, 0x1ce06d8, 1, 0x80, 0x2000000, 0xd6d1_17a6);
    OperationIs(0x1032_5476, 0xd6d1_17a6, 0xceeb_cbd8, 0x6867_6665, 12, 0xe8c7_b756,
                2, 0x304, 0xd3e09, 1, 0x1000, 0x100000, 0xaab1_aaaa);
    OperationIs(0x98ba_dcfe, 0xaab1_aaaa, 0xc7dd_03a3, 0x6c6b_6a69, 17, 0x2420_70db,
                1, 0x1e247, 0x3be5, 1, 0x20000, 0x8000, 0x227d_8cf1);
    OperationIs(0xefcd_ab89, 0x227d_8cf1, 0xf6b1_9ba6, 0x706f_6e6d, 22, 0xc1bd_ceee,
                3, 0x62b21, 0x8a, 0, 0x400000, 0x400, 0x4503_b812);
  }

  lemma Steps0(x: seq<Word>)
    requires IsBlock(x)
    ensures Steps(x, 0, 4, Registers(0x6745_2301, 0xefcd_ab89, 0x98ba_dcfe, 0x1032_5476)) ==
            Registers(0xd6d1_17a6, 0x4503_b812, 0x227d_8cf1, 0xaab1_aaaa)
  {
    Mixed0();
    Operations0();
    hide Auxiliary, Operation, Steps;
    FourSteps(x, 0, Registers(0x6745_2301, 0xefcd_ab89, 0x98ba_dcfe, 0x1032_5476));
  }

  lemma Mixed4()
    ensures Auxiliary(4, 0x4503_b812, 0x227d_8cf1, 0xaab1_aaaa) == 0xaab1_8ab8
    ensures Auxiliary(5, 0xfe15_f787, 0x4503_b812, 0x227d_8cf1) == 0x4469_b872
    ensures Auxiliary(6, 0xa811_b278, 0xfe15_f787, 0x4503_b812) == 0xed13_ba02
    ensures Auxiliary(7, 0xb711_22fc, 0xa811_b278, 0xfe15_f787) == 0xe815_f77b
  {}

  lemma Operations4()
    ensures Operation(0xd6d1_17a6, 0x4503_b812, 0xaab1_8ab8, 0x7473_7271, 7, 0xf57c_0faf) == 0xfe15_f787
    ensures Operation(0xaab1_aaaa, 0xfe15_f787, 0x4469_b872, 0x7877_7675, 12, 0x4787_c62a) == 0xa811_b278
    ensures Operation(0x227d_8cf1, 0xa811_b278, 0xed13_ba02, 0x0080_7a79, 17, 0xa830_4613) == 0xb711_22fc
    ensures Operation(0x4503_b812, 0xb711_22fc, 0xe815_f77b, 0x0000_0000, 22, 0xfd46_9501) == 0xda9b_bb0d
  {
    hide Operation, Pow2;
    PowerTable();
    OperationIs(0xd6d1_17a6, 0x4503_b812, 0xaab1_8ab8, 0x7473_7271, 7, 0xf57c_0faf,
                2, 0x75, 0x172247e, 0, 0x80, 0x2000000, 0xfe15_f787);
    OperationIs(0xaab1_aaaa, 0xfe15_f787, 0x4469_b872, 0x7877_7675, 12, 0x4787_c62a,
                1, 0xaf1, 0xa9fbb, 1, 0x1000, 0x100000, 0xa811_b278);
    OperationIs(0x227d_8cf1, 0xa811_b278, 0xed13_ba02, 0x0080_7a79, 17, 0xa830_4613,
                1, 0x17084, 0x77f, 0, 0x20000, 0x8000, 0xb711_22fc);
    OperationIs(0x4503_b812, 0xb711_22fc, 0xe815_f77b, 0x0000_0000, 22, 0xfd46_9501,
                2, 0xa9811, 0x8e, 0, 0x400000, 0x400, 0xda9b_bb0d);
  }

  lemma Steps4(x: seq<Word>)
    requires IsBlock(x)
    ensures Steps(x, 4, 8, Registers(0xd6d1_17a6, 0x4503_b812, 0x227d_8cf1, 0xaab1_aaaa)) ==
            Registers(0xfe15_f787, 0xda9b_bb0d, 0xb711_22fc, 0xa811_b278)
  {
    Mixed4();
    Operations4();
    hide Auxiliary, Operation, Steps;
    FourSteps(x, 4, Registers(0xd6d1_17a6, 0x4503_b812, 0x227d_8cf1, 0xaab1_aaaa));
  }

  lemma Mixed8()
    ensures Auxiliary(8, 0xda9b_bb0d, 0xb711_22fc, 0xa811_b278) == 0xb211_227c
    ensures Auxiliary(9, 0xae75_2899, 0xda9b_bb0d, 0xb711_22fc) == 0x9b11_2a6d
    ensures Auxiliary(10, 0x2bbe_757f, 0xae75_2899, 0xda9b_bb0d) == 0xfa35_aa19
    ensures Auxiliary(11, 0x7d4b_d80b, 0x2bbe_757f, 0xae75_2899) == 0xab3e_709b
  {}

  lemma Operations8()
    ensures Operation(0xfe15_f787, 0xda9b_bb0d, 0xb211_227c, 0x0000_0000, 7, 0x6980_98d8) == 0xae75_2899
    ensures Operation(0xa811_b278, 0xae75_2899, 0x9b11_2a6d, 0x0000_0000, 12, 0x8b44_f7af) == 0x2bbe_757f
    ensures Operation(0xb711_22fc, 0x2bbe_757f, 0xfa35_aa19, 0x0000_0000, 17, 0xffff_5bb1) == 0x7d4b_d80b
    ensures Operation(0xda9b_bb0d, 0x7d4b_d80b, 0xab3e_709b, 0x0000_0000, 22, 0x895c_d7be) == 0x56cf_a5cb
  {
    hide Operation, Pow2;
    PowerTable();
    OperationIs(0xfe15_f787, 0xda9b_bb0d, 0xb211_227c, 0x0000_0000, 7, 0x6980_98d8,
                2, 0xc, 0x1a7b2db, 1, 0x80, 0x2000000, 0xae75_2899);
    OperationIs(0xa811_b278, 0xae75_2899, 0x9b11_2a6d, 0x0000_0000, 12, 0x8b44_f7af,
                1, 0xce6, 0x7d494, 1, 0x1000, 0x100000, 0x2bbe_757f);
    OperationIs(0xb711_22fc, 0x2bbe_757f, 0xfa35_aa19, 0x0000_0000, 17, 0xffff_5bb1,
                2, 0x1628c, 0x28c6, 0, 0x20000, 0x8000, 0x7d4b_d80b);
    OperationIs(0xda9b_bb0d, 0x7d4b_d80b, 0xab3e_709b, 0x0000_0000, 22, 0x895c_d7be,
                2, 0x3cdc0, 0x366, 1, 0x400000, 0x400, 0x56cf_a5cb);
  }

  lemma Steps8(x: seq<Word>)
    requires IsBlock(x)
    ensures Steps(x, 8, 12, Registers(0xfe15_f787, 0xda9b_bb0d, 0xb711_22fc, 0xa811_b278)) ==
            Registers(0xae75_2899, 0x56cf_a5cb, 0x7d4b_d80b, 0x2bbe_757f)
  {
    Mixed8();
    Operations8();
    hide Auxiliary, Operation, Steps;
    FourSteps(x, 8, Registers(0xfe15_f787, 0xda9b_bb0d, 0xb711_22fc, 0xa811_b278));
  }

  lemma Mixed12()
    ensures Auxiliary(12, 0x56cf_a5cb, 0x7d4b_d80b, 0x2bbe_757f) == 0x7d7b_d03f
    ensures Auxiliary(13, 0x1754_a316, 0x56cf_a5cb, 0x7d4b_d80b) == 0x7e4f_f90b
    ensures Auxiliary(14, 0x8556_7d90, 0x1754_a316, 0x56cf_a5cb) == 0x57dd_a15b
    ensures Auxiliary(15, 0x00df_74d5, 0x8556_7d90, 0x1754_a316) == 0x1756_f792
  {}

  lemma Operations12()
    ensures Operation(0xae75_2899, 0x56cf_a5cb, 0x7d7b_d03f, 0x0000_0000, 7, 0x6b90_1122) == 0x1754_a316
    ensures Operation(0x2bbe_757f, 0x1754_a316, 0x7e4f_f90b, 0x0000_0000, 12, 0xfd98_7193) == 0x8556_7d90
    ensures Operation(0x7d4b_d80b, 0x8556_7d90, 0x57dd_a15b, 0x0000_00d0, 17, 0xa679_438e) == 0x00df_74d5
    ensures Operation(0x56cf_a5cb, 0x00df_74d5, 0x1756_f792, 0x0000_0000, 22, 0x49b4_0821) == 0x608d_6b7e
  {
    hide Operation, Pow2;
    PowerTable();
    OperationIs(0xae75_2899, 0x56cf_a5cb, 0x7d7b_d03f, 0x0000_0000, 7, 0x6b90_1122,
                1, 0x4b, 0x18109fa, 1, 0x80, 0x2000000, 0x1754_a316);
    OperationIs(0x2bbe_757f, 0x1754_a316, 0x7e4f_f90b, 0x0000_0000, 12, 0xfd98_7193,
                1, 0xa7a, 0x6e01d, 0, 0x1000, 0x100000, 0x8556_7d90);
    OperationIs(0x7d4b_d80b, 0x8556_7d90, 0x57dd_a15b, 0x0000_00d0, 17, 0xa679_438e,
                1, 0xf745, 0x3dc4, 1, 0x20000, 0x8000, 0x00df_74d5);
    OperationIs(0x56cf_a5cb, 0x00df_74d5, 0x1756_f792, 0x0000_0000, 22, 0x49b4_0821,
                0, 0x2df6a9, 0x17e, 0, 0x400000, 0x400, 0x608d_6b7e);
  }

  lemma Steps12(x: seq<Word>)
    requires IsBlock(x)
    ensures Steps(x, 12, 16, Registers(0xae75_2899, 0x56cf_a5cb, 0x7d4b_d80b, 0x2bbe_757f)) ==
            Registers(0x1754_a316, 0x608d_6b7e, 0x00df_74d5, 0x8556_7d90)
  {
    Mixed12();
    Operations12();
    hide Auxiliary, Operation, Steps;
    FourSteps(x, 12, Registers(0xae75_2899, 0x56cf_a5cb, 0x7d4b_d80b, 0x2bbe_757f));
  }

  lemma Mixed16()
    ensures Auxiliary(16, 0x608d_6b7e, 0x00df_74d5, 0x8556_7d90) == 0x008d_6955
    ensures Auxiliary(17, 0x2d80_71cc, 0x608d_6b7e, 0x00df_74d5) == 0x6080_7bee
    ensures Auxiliary(18, 0x5dce_e119, 0x2d80_71cc, 0x608d_6b7e) == 0x4d8c_7198
    ensures Auxiliary(19, 0xedfe_7e4b, 0x5dce_e119, 0x2d80_71cc) == 0x7dce_f059
  {}

  lemma Operations16()
    ensures Operation(0x1754_a316, 0x608d_6b7e, 0x008d_6955, 0x6867_6665, 5, 0xf61e_2562) == 0x2d80_71cc
    ensures Operation(0x8556_7d90, 0x2d80_71cc, 0x6080_7bee, 0x0080_7a79, 9, 0xc040_b340) == 0x5dce_e119
    ensures Operation(0x00df_74d5, 0x5dce_e119, 0x4d8c_7198, 0x0000_0000, 14, 0x265e_5a51) == 0xedfe_7e4b
    ensures Operation(0x608d_6b7e, 0xedfe_7e4b, 0x7dce_f059, 0x6463_6261, 20, 0xe9b6_c7aa) == 0x4c21_45b3
  {
    hide Operation, Pow2;
    PowerTable();
    OperationIs(0x1754_a316, 0x608d_6b7e, 0x008d_6955, 0x6867_6665, 5, 0xf61e_2562,
                1, 0xe, 0x6679832, 1, 0x20, 0x8000000, 0x2d80_71cc);
    OperationIs(0x8556_7d90, 0x2d80_71cc, 0x6080_7bee, 0x0080_7a79, 9, 0xc040_b340,
                1, 0x14d, 0x182737, 0, 0x200, 0x800000, 0x5dce_e119);
    OperationIs(0x00df_74d5, 0x5dce_e119, 0x4d8c_7198, 0x0000_0000, 14, 0x265e_5a51,
                0, 0x1d32, 0x240be, 0, 0x4000, 0x40000, 0xedfe_7e4b);
    OperationIs(0x608d_6b7e, 0xedfe_7e4b, 0x7dce_f059, 0x6463_6261, 20, 0xe9b6_c7aa,
                2, 0x2c768, 0x5e2, 1, 0x100000, 0x1000, 0x4c21_45b3);
  }

  lemma Steps16(x: seq<Word>)
    requires IsBlock(x)
    ensures Steps(x, 16, 20, Registers(0x1754_a316, 0x608d_6b7e, 0x00df_74d5, 0x8556_7d90)) ==
            Registers(0x2d80_71cc, 0x4c21_45b3, 0xedfe_7e4b, 0x5dce_e119)
  {
    Mixed16();
    Operations16();
    hide Auxiliary, Operation, Steps;
    FourSteps(x, 16, Registers(0x1754_a316, 0x608d_6b7e, 0x00df_74d5, 0x8556_7d90));
  }

  lemma Mixed20()
    ensures Auxiliary(20, 0x4c21_45b3, 0xedfe_7e4b, 0x5dce_e119) == 0xec30_5f53
    ensures Auxiliary(21, 0x570c_43e0, 0x4c21_45b3, 0xedfe_7e4b) == 0x450d_43f0
    ensures Auxiliary(22, 0x977e_fd2a, 0x570c_43e0, 0x4c21_45b3) == 0x172c_4762
    ensures Auxiliary(23, 0xc28a_b49d, 0x977e_fd2a, 0x570c_43e0) == 0xc27a_bc8a
  {}

  lemma Operations20()
    ensures Operation(0x2d80_71cc, 0x4c21_45b3, 0xec30_5f53, 0x7877_7675, 5, 0xd62f_105d) == 0x570c_43e0
    ensures Operation(0x5dce_e119, 0x570c_43e0, 0x450d_43f0, 0x0000_0000, 9, 0x0244_1453) == 0x977e_fd2a
    ensures Operation(0xedfe_7e4b, 0x977e_fd2a, 0x172c_4762, 0x0000_0000, 14, 0xd8a1_e681) == 0xc28a_b49d
    ensures Operation(0x4c21_45b3, 0xc28a_b49d, 0xc27a_bc8a, 0x7473_7271, 20, 0xe7d3_fbc8) == 0xc9f1_62d4
  {
    hide Operation, Pow2;
    PowerTable();
    OperationIs(0x2d80_71cc, 0x4c21_45b3, 0xec30_5f53, 0x7877_7675, 5, 0xd62f_105d,
                2, 0xd, 0x5757f1, 0, 0x20, 0x8000000, 0x570c_43e0);
    OperationIs(0x5dce_e119, 0x570c_43e0, 0x450d_43f0, 0x0000_0000, 9, 0x0244_1453,
                0, 0x14a, 0x20395c, 0, 0x200, 0x800000, 0x977e_fd2a);
    OperationIs(0xedfe_7e4b, 0x977e_fd2a, 0x172c_4762, 0x0000_0000, 14, 0xd8a1_e681,
                1, 0x3773, 0xac2e, 0, 0x4000, 0x40000, 0xc28a_b49d);
    OperationIs(0x4c21_45b3, 0xc28a_b49d, 0xc27a_bc8a, 0x7473_7271, 20, 0xe7d3_fbc8,
                2, 0x6ae37, 0x76, 0, 0x100000, 0x1000, 0xc9f1_62d4);
  }

  lemma Steps20(x: seq<Word>)
    requires IsBlock(x)
    ensures Steps(x, 20, 24, Registers(0x2d80_71cc, 0x4c21_45b3, 0xedfe_7e4b, 0x5dce_e119)) ==
            Registers(0x570c_43e0, 0xc9f1_62d4, 0xc28a_b49d, 0x977e_fd2a)
  {
    Mixed20();
    Operations20();
    hide Auxiliary, Operation, Steps;
    FourSteps(x, 20, Registers(0x2d80_71cc, 0x4c21_45b3, 0xedfe_7e4b, 0x5dce_e119));
  }

  lemma Mixed24()
    ensures Auxiliary(24, 0xc9f1_62d4, 0xc28a_b49d, 0x977e_fd2a) == 0xc1f0_6095
    ensures Auxiliary(25, 0x25bf_ae3b, 0xc9f1_62d4, 0xc28a_b49d) == 0x09fb_e659
    ensures Auxiliary(26, 0x8998_0104, 0x25bf_ae3b, 0xc9f1_62d4) == 0xad9e_8c2f
    ensures Auxiliary(27, 0xf8c8_365f, 0x8998_0104, 0x25bf_ae3b) == 0xa888_271f
  {}

  lemma Operations24()
    ensures Operation(0x570c_43e0, 0xc9f1_62d4, 0xc1f0_6095, 0x0000_0000, 5, 0x21e1_cde6) == 0x25bf_ae3b
    ensures Operation(0x977e_fd2a, 0x25bf_ae3b, 0x09fb_e659, 0x0000_00d0, 9, 0xc337_07d6) == 0x8998_0104
    ensures Operation(0xc28a_b49d, 0x8998_0104, 0xad9e_8c2f, 0x706f_6e6d, 14, 0xf4d5_0d87) == 0xf8c8_365f
    ensures Operation(0xc9f1_62d4, 0xf8c8_365f, 0xa888_271f, 0x0000_0000, 20, 0x455a_14ed) == 0xe6d3_b398
  {
    hide Operation, Pow2;
    PowerTable();
    OperationIs(0x570c_43e0, 0xc9f1_62d4, 0xc1f0_6095, 0x0000_0000, 5, 0x21e1_cde6,
                1, 0x7, 0x2de725b, 1, 0x20, 0x8000000, 0x25bf_ae3b);
    OperationIs(0x977e_fd2a, 0x25bf_ae3b, 0x09fb_e659, 0x0000_00d0, 9, 0xc337_07d6,
                1, 0xc9, 0x31ec29, 0, 0x200, 0x800000, 0x8998_0104);
    OperationIs(0xc28a_b49d, 0x8998_0104, 0xad9e_8c2f, 0x706f_6e6d, 14, 0xf4d5_0d87,
                2, 0x355b, 0x1bcc0, 0, 0x4000, 0x40000, 0xf8c8_365f);
    OperationIs(0xc9f1_62d4, 0xf8c8_365f, 0xa888_271f, 0x0000_0000, 20, 0x455a_14ed,
                1, 0xb7d39, 0xee0, 1, 0x100000, 0x1000, 0xe6d3_b398);
  }

  lemma Steps24(x: seq<Word>)
    requires IsBlock(x)
    ensures Steps(x, 24, 28, Registers(0x570c_43e0, 0xc9f1_62d4, 0xc28a_b49d, 0x977e_fd2a)) ==
            Registers(0x25bf_ae3b, 0xe6d3_b398, 0xf8c8_365f, 0x8998_0104)
  {
    Mixed24();
    Operations24();
    hide Auxiliary, Operation, Steps;
    FourSteps(x, 24, Registers(0x570c_43e0, 0xc9f1_62d4, 0xc28a_b49d, 0x977e_fd2a));
  }

  lemma Mixed28()
    ensures Auxiliary(28, 0xe6d3_b398, 0xf8c8_365f, 0x8998_0104) == 0xf0d0_375b
    ensures Auxiliary(29, 0xf54d_8710, 0xe6d3_b398, 0xf8c8_365f) == 0xf65b_8790
    ensures Auxiliary(30, 0x927b_72e2, 0xf54d_8710, 0xe6d3_b398) == 0x935f_3680
    ensures Auxiliary(31, 0x2e69_afc7, 0x927b_72e2, 0xf54d_8710) == 0x267b_f7e2
  {}

  lemma Operations28()
    ensures Operation(0x25bf_ae3b, 0xe6d3_b398, 0xf0d0_375b, 0x0000_0000, 5, 0xa9e3_e905) == 0xf54d_8710
    ensures Operation(0x8998_0104, 0xf54d_8710, 0xf65b_8790, 0x6c6b_6a69, 9, 0xfcef_a3f8) == 0x927b_72e2
    ensures Operation(0xf8c8_365f, 0x927b_72e2, 0x935f_3680, 0x0000_0000, 14, 0x676f_02d9) == 0x2e69_afc7
    ensures Operation(0xe6d3_b398, 0x2e69_afc7, 0x267b_f7e2, 0x0000_0000, 20, 0x8d2a_4c8a) == 0xaeb3_5766
  {
    hide Operation, Pow2;
    PowerTable();
    OperationIs(0x25bf_ae3b, 0xe6d3_b398, 0xf0d0_375b, 0x0000_0000, 5, 0xa9e3_e905,
                1, 0x18, 0x73ce9b, 0, 0x20, 0x8000000, 0xf54d_8710);
    OperationIs(0x8998_0104, 0xf54d_8710, 0xf65b_8790, 0x6c6b_6a69, 9, 0xfcef_a3f8,
                2, 0x1d2, 0x4e96f5, 1, 0x200, 0x800000, 0x927b_72e2);
    OperationIs(0xf8c8_365f, 0x927b_72e2, 0x935f_3680, 0x0000_0000, 14, 0x676f_02d9,
                1, 0x3ce5, 0x26fb8, 1, 0x4000, 0x40000, 0x2e69_afc7);
    OperationIs(0xe6d3_b398, 0x2e69_afc7, 0x267b_f7e2, 0x0000_0000, 20, 0x8d2a_4c8a,
                1, 0x9a79f, 0x804, 0, 0x100000, 0x1000, 0xaeb3_5766);
  }

  lemma Steps28(x: seq<Word>)
    requires IsBlock(x)
    ensures Steps(x, 28, 32, Registers(0x25bf_ae3b, 0xe6d3_b398, 0xf8c8_365f, 0x8998_0104)) ==
            Registers(0xf54d_8710, 0xaeb3_5766, 0x2e69_afc7, 0x927b_72e2)
  {
    Mixed28();
    Operations28();
    hide Auxiliary, Operation, Steps;
    FourSteps(x, 28, Registers(0x25bf_ae3b, 0xe6d3_b398, 0xf8c8_365f, 0x8998_0104));
  }

  lemma Mixed32()
    ensures Auxiliary(32, 0xaeb3_5766, 0x2e69_afc7, 0x927b_72e2) == 0x12a1_8a43
    ensures Auxiliary(33, 0xb4bf_680e, 0xaeb3_5766, 0x2e69_afc7) == 0x3465_90af
    ensures Auxiliary(34, 0x4c8f_fa80, 0xb4bf_680e, 0xaeb3_5766) == 0x5683_c5e8
    ensures Auxiliary(35, 0x2361_ed0a, 0x4c8f_fa80, 0xb4bf_680e) == 0xdb51_7f84
  {}

  lemma Operations32()
    ensures Operation(0xf54d_8710, 0xaeb3_5766, 0x12a1_8a43, 0x7877_7675, 4, 0xfffa_3942) == 0xb4bf_680e
    ensures Operation(0x927b_72e2, 0xb4bf_680e, 0x3465_90af, 0x0000_0000, 11, 0x8771_f681) == 0x4c8f_fa80
    ensures Operation(0x2e69_afc7, 0x4c8f_fa80, 0x5683_c5e8, 0x0000_0000, 16, 0x6d9d_6122) == 0x2361_ed0a
    ensures Operation(0xaeb3_5766, 0x2361_ed0a, 0xdb51_7f84, 0x0000_00d0, 23, 0xfde5_380c) == 0x06a5_e211
  {
    hide Operation, Pow2;
    PowerTable();
    OperationIs(0xf54d_8710, 0xaeb3_5766, 0x12a1_8a43, 0x7877_7675, 4, 0xfffa_3942,
                2, 0x8, 0x60c10a, 0, 0x10, 0x10000000, 0xb4bf_680e);
    OperationIs(0x927b_72e2, 0xb4bf_680e, 0x3465_90af, 0x0000_0000, 11, 0x8771_f681,
                1, 0x272, 0x12fa12, 1, 0x800, 0x200000, 0x4c8f_fa80);
    OperationIs(0x2e69_afc7, 0x4c8f_fa80, 0x5683_c5e8, 0x0000_0000, 16, 0x6d9d_6122,
                0, 0xf28a, 0xd6d1, 1, 0x10000, 0x10000, 0x2361_ed0a);
    OperationIs(0xaeb3_5766, 0x2361_ed0a, 0xdb51_7f84, 0x0000_00d0, 23, 0xfde5_380c,
                2, 0x43f507, 0x1c6, 1, 0x800000, 0x200, 0x06a5_e211);
  }

  lemma Steps32(x: seq<Word>)
    requires IsBlock(x)
    ensures Steps(x, 32, 36, Registers(0xf54d_8710, 0xaeb3_5766, 0x2e69_afc7, 0x927b_72e2)) ==
            Registers(0xb4bf_680e, 0x06a5_e211, 0x2361_ed0a, 0x4c8f_fa80)
  {
    Mixed32();
    Operations32();
    hide Auxiliary, Operation, Steps;
    FourSteps(x, 32, Registers(0xf54d_8710, 0xaeb3_5766, 0x2e69_afc7, 0x927b_72e2));
  }

  lemma Mixed36()
    ensures Auxiliary(36, 0x06a5_e211, 0x2361_ed0a, 0x4c8f_fa80) == 0x694b_f59b
    ensures Auxiliary(37, 0xb9c0_c733, 0x06a5_e211, 0x2361_ed0a) == 0x9c04_c828
    ensures Auxiliary(38, 0xf1e6_dc7a, 0xb9c0_c733, 0x06a5_e211) == 0x4e83_f958
    ensures Auxiliary(39, 0x23a9_451b, 0xf1e6_dc7a, 0xb9c0_c733) == 0x6b8f_5e52
  {}

  lemma Operations36()
    ensures Operation(0xb4bf_680e, 0x06a5_e211, 0x694b_f59b, 0x6867_6665, 4, 0xa4be_ea44) == 0xb9c0_c733
    ensures Operation(0x4c8f_fa80, 0xb9c0_c733, 0x9c04_c828, 0x7473_7271, 11, 0x4bde_cfa9) == 0xf1e6_dc7a
    ensures Operation(0x2361_ed0a, 0xf1e6_dc7a, 0x4e83_f958, 0x0000_0000, 16, 0xf6bb_4b60) == 0x23a9_451b
    ensures Operation(0x06a5_e211, 0x23a9_451b, 0x6b8f_5e52, 0x0000_0000, 23, 0xbebf_bc70) == 0x8d41_bf99
  {
    hide Operation, Pow2;
    PowerTable();
    OperationIs(0xb4bf_680e, 0x06a5_e211, 0x694b_f59b, 0x6867_6665, 4, 0xa4be_ea44,
                2, 0x2, 0xb31ae52, 0, 0x10, 0x10000000, 0xb9c0_c733);
    OperationIs(0x4c8f_fa80, 0xb9c0_c733, 0x9c04_c828, 0x7473_7271, 11, 0x4bde_cfa9,
                1, 0x547, 0x704c2, 0, 0x800, 0x200000, 0xf1e6_dc7a);
    OperationIs(0x2361_ed0a, 0xf1e6_dc7a, 0x4e83_f958, 0x0000_0000, 16, 0xf6bb_4b60,
                1, 0x68a1, 0x31c2, 1, 0x10000, 0x10000, 0x23a9_451b);
    OperationIs(0x06a5_e211, 0x23a9_451b, 0x6b8f_5e52, 0x0000_0000, 23, 0xbebf_bc70,
                1, 0x187a7e, 0xd3, 0, 0x800000, 0x200, 0x8d41_bf99);
  }

  lemma Steps36(x: seq<Word>)
    requires IsBlock(x)
    ensures Steps(x, 36, 40, Registers(0xb4bf_680e, 0x06a5_e211, 0x2361_ed0a, 0x4c8f_fa80)) ==
            Registers(0xb9c0_c733, 0x8d41_bf99, 0x23a9_451b, 0xf1e6_dc7a)
  {
    Mixed36();
    Operations36();
    hide Auxiliary, Operation, Steps;
    FourSteps(x, 36, Registers(0xb4bf_680e, 0x06a5_e211, 0x2361_ed0a, 0x4c8f_fa80));
  }

  lemma Mixed40()
    ensures Auxiliary(40, 0x8d41_bf99, 0x23a9_451b, 0xf1e6_dc7a) == 0x5f0e_26f8
    ensures Auxiliary(41, 0xa3e8_8ead, 0x8d41_bf99, 0x23a9_451b) == 0x0d00_742f
    ensures Auxiliary(42, 0x02c0_b11c, 0xa3e8_8ead, 0x8d41_bf99) == 0x2c69_8028
    ensures Auxiliary(43, 0x66f6_468d, 0x02c0_b11c, 0xa3e8_8ead) == 0xc7de_793c
  {}

  lemma Operations40()
    ensures Operation(0xb9c0_c733, 0x8d41_bf99, 0x5f0e_26f8, 0x0000_0000, 4, 0x289b_7ec6) == 0xa3e8_8ead
    ensures Operation(0xf1e6_dc7a, 0xa3e8_8ead, 0x0d00_742f, 0x6463_6261, 11, 0xeaa1_27fa) == 0x02c0_b11c
    ensures Operation(0x23a9_451b, 0x02c0_b11c, 0x2c69_8028, 0x706f_6e6d, 16, 0xd4ef_3085) == 0x66f6_468d
    ensures Operation(0x8d41_bf99, 0x66f6_468d, 0xc7de_793c, 0x0080_7a79, 23, 0x0488_1d05) == 0x90a3_5af5
  {
    hide Operation, Pow2;
    PowerTable();
    OperationIs(0xb9c0_c733, 0x8d41_bf99, 0x5f0e_26f8, 0x0000_0000, 4, 0x289b_7ec6,
                1, 0x4, 0x16a6cf1, 0, 0x10, 0x10000000, 0xa3e8_8ead);
    OperationIs(0xf1e6_dc7a, 0xa3e8_8ead, 0x0d00_742f, 0x6463_6261, 11, 0xeaa1_27fa,
                2, 0x26f, 0xbdb04, 1, 0x800, 0x200000, 0x02c0_b11c);
    OperationIs(0x23a9_451b, 0x02c0_b11c, 0x2c69_8028, 0x706f_6e6d, 16, 0xd4ef_3085,
                1, 0x9571, 0x6435, 0, 0x10000, 0x10000, 0x66f6_468d);
    OperationIs(0x8d41_bf99, 0x66f6_468d, 0xc7de_793c, 0x0080_7a79, 23, 0x0488_1d05,
                1, 0x2d1468, 0x53, 0, 0x800000, 0x200, 0x90a3_5af5);
  }

  lemma Steps40(x: seq<Word>)
    requires IsBlock(x)
    ensures Steps(x, 40, 44, Registers(0xb9c0_c733, 0x8d41_bf99, 0x23a9_451b, 0xf1e6_dc7a)) ==
            Registers(0xa3e8_8ead, 0x90a3_5af5, 0x66f6_468d, 0x02c0_b11c)
  {
    Mixed40();
    Operations40();
    hide Auxiliary, Operation, Steps;
    FourSteps(x, 40, Registers(0xb9c0_c733, 0x8d41_bf99, 0x23a9_451b, 0xf1e6_dc7a));
  }

  lemma Mixed44()
    ensures Auxiliary(44, 0x90a3_5af5, 0x66f6_468d, 0x02c0_b11c) == 0xf495_ad64
    ensures Auxiliary(45, 0xb5d4_1f9c, 0x90a3_5af5, 0x66f6_468d) == 0x4381_03e4
    ensures Auxiliary(46, 0xa04b_4904, 0xb5d4_1f9c, 0x90a3_5af5) == 0x853c_0c6d
    ensures Auxiliary(47, 0x703d_54d8, 0xa04b_4904, 0xb5d4_1f9c) == 0x65a2_0240
  {}

  lemma Operations44()
    ensures Operation(0xa3e8_8ead, 0x90a3_5af5, 0xf495_ad64, 0x0000_0000, 4, 0xd9d4_d039) == 0xb5d4_1f9c
    ensures Operation(0x02c0_b11c, 0xb5d4_1f9c, 0x4381_03e4, 0x0000_0000, 11, 0xe6db_99e5) == 0xa04b_4904
    ensures Operation(0x66f6_468d, 0xa04b_4904, 0x853c_0c6d, 0x0000_0000, 16, 0x1fa2_7cf8) == 0x703d_54d8
    ensures Operation(0x90a3_5af5, 0x703d_54d8, 0x65a2_0240, 0x6c6b_6a69, 23, 0xc4ac_5665) == 0x71d1_0367
  {
    hide Operation, Pow2;
    PowerTable();
    OperationIs(0xa3e8_8ead, 0x90a3_5af5, 0xf495_ad64, 0x0000_0000, 4, 0xd9d4_d039,
                2, 0x7, 0x2530c4a, 0, 0x10, 0x10000000, 0xb5d4_1f9c);
    OperationIs(0x02c0_b11c, 0xb5d4_1f9c, 0x4381_03e4, 0x0000_0000, 11, 0xe6db_99e5,
                1, 0x168, 0x1d4ee5, 1, 0x800, 0x200000, 0xa04b_4904);
    OperationIs(0x66f6_468d, 0xa04b_4904, 0x853c_0c6d, 0x0000_0000, 16, 0x1fa2_7cf8,
                1, 0xbd4, 0xcff2, 1, 0x10000, 0x10000, 0x703d_54d8);
    OperationIs(0x90a3_5af5, 0x703d_54d8, 0x65a2_0240, 0x6c6b_6a69, 23, 0xc4ac_5665,
                2, 0x13ae8f, 0x3, 0, 0x800000, 0x200, 0x71d1_0367);
  }

  lemma Steps44(x: seq<Word>)
    requires IsBlock(x)
    ensures Steps(x, 44, 48, Registers(0xa3e8_8ead, 0x90a3_5af5, 0x66f6_468d, 0x02c0_b11c)) ==
            Registers(0xb5d4_1f9c, 0x71d1_0367, 0x703d_54d8, 0xa04b_4904)
  {
    Mixed44();
    Operations44();
    hide Auxiliary, Operation, Steps;
    FourSteps(x, 44, Registers(0xa3e8_8ead, 0x90a3_5af5, 0x66f6_468d, 0x02c0_b11c));
  }

  lemma Mixed48()
    ensures Auxiliary(48, 0x71d1_0367, 0x703d_54d8, 0xa04b_4904) == 0x0fc8_e327
    ensures Auxiliary(49, 0xfc32_dd6e, 0x71d1_0367, 0x703d_54d8) == 0x8e23_fc08
    ensures Auxiliary(50, 0x6545_6b34, 0xfc32_dd6e, 0x71d1_0367) == 0x135d_22d2
    ensures Auxiliary(51, 0xb356_02cb, 0x6545_6b34, 0xfc32_dd6e) == 0xd69a_49ef
  {}

  lemma Operations48()
    ensures Operation(0xb5d4_1f9c, 0x71d1_0367, 0x0fc8_e327, 0x6463_6261, 6, 0xf429_2244) == 0xfc32_dd6e
    ensures Operation(0xa04b_4904, 0xfc32_dd6e, 0x8e23_fc08, 0x0000_0000, 10, 0x432a_ff97) == 0x6545_6b34
    ensures Operation(0x703d_54d8, 0x6545_6b34, 0x135d_22d2, 0x0000_00d0, 15, 0xab94_23a7) == 0xb356_02cb
    ensures Operation(0x71d1_0367, 0xb356_02cb, 0xd69a_49ef, 0x7877_7675, 21, 0xfc93_a039) == 0x33ed_b197
  {
    hide Operation, Pow2;
    PowerTable();
    OperationIs(0xb5d4_1f9c, 0x71d1_0367, 0x0fc8_e327, 0x6463_6261, 6, 0xf429_2244,
                2, 0x7, 0x2298768, 0, 0x40, 0x4000000, 0xfc32_dd6e);
    OperationIs(0xa04b_4904, 0xfc32_dd6e, 0x8e23_fc08, 0x0000_0000, 10, 0x432a_ff97,
                1, 0x1c6, 0x1a44a3, 1, 0x400, 0x400000, 0x6545_6b34);
    OperationIs(0x703d_54d8, 0x6545_6b34, 0x135d_22d2, 0x0000_00d0, 15, 0xab94_23a7,
                1, 0x1797, 0x9c21, 0, 0x8000, 0x20000, 0xb356_02cb);
    OperationIs(0x71d1_0367, 0xb356_02cb, 0xd69a_49ef, 0x7877_7675, 21, 0xfc93_a039,
                2, 0x17aecc, 0x404, 1, 0x200000, 0x800, 0x33ed_b197);
  }

  lemma Steps48(x: seq<Word>)
    requires IsBlock(x)
    ensures Steps(x, 48, 52, Registers(0xb5d4_1f9c, 0x71d1_0367, 0x703d_54d8, 0xa04b_4904)) ==
            Registers(0xfc32_dd6e, 0x33ed_b197, 0xb356_02cb, 0x6545_6b34)
  {
    Mixed48();
    Operations48();
    hide Auxiliary, Operation, Steps;
    FourSteps(x, 48, Registers(0xb5d4_1f9c, 0x71d1_0367, 0x703d_54d8, 0xa04b_4904));
  }

  lemma Mixed52()
    ensures Auxiliary(52, 0x33ed_b197, 0xb356_02cb, 0x6545_6b34) == 0x08a9_b714
    ensures Auxiliary(53, 0xc1e9_42f1, 0x33ed_b197, 0xb356_02cb) == 0xfe04_4e62
    ensures Auxiliary(54, 0xd9bb_987c, 0xc1e9_42f1, 0x33ed_b197) == 0x1c52_9c8d
    ensures Auxiliary(55, 0x23a6_8048, 0xd9bb_987c, 0xc1e9_42f1) == 0xe60d_2532
  {}

  lemma Operations52()
    ensures Operation(0xfc32_dd6e, 0x33ed_b197, 0x08a9_b714, 0x0000_0000, 6, 0x655b_59c3) == 0xc1e9_42f1
    ensures Operation(0x6545_6b34, 0xc1e9_42f1, 0xfe04_4e62, 0x706f_6e6d, 10, 0x8f0c_cc92) == 0xd9bb_987c
    ensures Operation(0xb356_02cb, 0xd9bb_987c, 0x1c52_9c8d, 0x0000_0000, 15, 0xffef_f47d) == 0x23a6_8048
    ensures Operation(0x33ed_b197, 0x23a6_8048, 0xe60d_2532, 0x6867_6665, 21, 0x8584_5dd1) == 0x8387_7d1b
  {
    hide Operation, Pow2;
    PowerTable();
    OperationIs(0xfc32_dd6e, 0x33ed_b197, 0x08a9_b714, 0x0000_0000, 6, 0x655b_59c3,
                1, 0x1a, 0x237ee45, 0, 0x40, 0x4000000, 0xc1e9_42f1);
    OperationIs(0x6545_6b34, 0xc1e9_42f1, 0xfe04_4e62, 0x706f_6e6d, 10, 0x8f0c_cc92,
                2, 0x18b, 0x5f495, 0, 0x400, 0x400000, 0xd9bb_987c);
    OperationIs(0xb356_02cb, 0xd9bb_987c, 0x1c52_9c8d, 0x0000_0000, 15, 0xffef_f47d,
                1, 0x67cc, 0x93d5, 1, 0x8000, 0x20000, 0x23a6_8048);
    OperationIs(0x33ed_b197, 0x23a6_8048, 0xe60d_2532, 0x6867_6665, 21, 0x8584_5dd1,
                2, 0xfcd3, 0x2ff, 0, 0x200000, 0x800, 0x8387_7d1b);
  }

  lemma Steps52(x: seq<Word>)
    requires IsBlock(x)
    ensures Steps(x, 52, 56, Registers(0xfc32_dd6e, 0x33ed_b197, 0xb356_02cb, 0x6545_6b34)) ==
            Registers(0xc1e9_42f1, 0x8387_7d1b, 0x23a6_8048, 0xd9bb_987c)
  {
    Mixed52();
    Operations52();
    hide Auxiliary, Operation, Steps;
    FourSteps(x, 52, Registers(0xfc32_dd6e, 0x33ed_b197, 0xb356_02cb, 0x6545_6b34));
  }

  lemma Mixed56()
    ensures Auxiliary(56, 0x8387_7d1b, 0x23a6_8048, 0xd9bb_987c) == 0x8461_ffd3
    ensures Auxiliary(57, 0x0077_c208, 0x8387_7d1b, 0x23a6_8048) == 0x5ff8_82a4
    ensures Auxiliary(58, 0x847f_c2e7, 0x0077_c208, 0x8387_7d1b) == 0xfc08_00ef
    ensures Auxiliary(59, 0xa3e2_247f, 0x847f_c2e7, 0x0077_c208) == 0x7b95_ff18
  {}

  lemma Operations56()
    ensures Operation(0xc1e9_42f1, 0x8387_7d1b, 0x8461_ffd3, 0x0000_0000, 6, 0x6fa8_7e4f) == 0x0077_c208
    ensures Operation(0xd9bb_987c, 0x0077_c208, 0x5ff8_82a4, 0x0000_0000, 10, 0xfe2c_e6e0) == 0x847f_c2e7
    ensures Operation(0x23a6_8048, 0x847f_c2e7, 0xfc08_00ef, 0x0080_7a79, 15, 0xa301_4314) == 0xa3e2_247f
    ensures Operation(0x8387_7d1b, 0xa3e2_247f, 0x7b95_ff18, 0x0000_0000, 21, 0x4e08_11a1) == 0x5e6b_c930
  {
    hide Operation, Pow2;
    PowerTable();
    OperationIs(0xc1e9_42f1, 0x8387_7d1b, 0x8461_ffd3, 0x0000_0000, 6, 0x6fa8_7e4f,
                1, 0x2d, 0x1f3c113, 1, 0x40, 0x4000000, 0x0077_c208);
    OperationIs(0xd9bb_987c, 0x0077_c208, 0x5ff8_82a4, 0x0000_0000, 10, 0xfe2c_e6e0,
                2, 0xdf, 0x210200, 0, 0x400, 0x400000, 0x847f_c2e7);
    OperationIs(0x23a6_8048, 0x847f_c2e7, 0xfc08_00ef, 0x0080_7a79, 15, 0xa301_4314,
                1, 0x6198, 0x3ec4, 0, 0x8000, 0x20000, 0xa3e2_247f);
    OperationIs(0x8387_7d1b, 0xa3e2_247f, 0x7b95_ff18, 0x0000_0000, 21, 0x4e08_11a1,
                1, 0x9a4b1, 0x5d4, 1, 0x200000, 0x800, 0x5e6b_c930);
  }

  lemma Steps56(x: seq<Word>)
    requires IsBlock(x)
    ensures Steps(x, 56, 60, Registers(0xc1e9_42f1, 0x8387_7d1b, 0x23a6_8048, 0xd9bb_987c)) ==
            Registers(0x0077_c208, 0x5e6b_c930, 0xa3e2_247f, 0x847f_c2e7)
  {
    Mixed56();
    Operations56();
    hide Auxiliary, Operation, Steps;
    FourSteps(x, 56, Registers(0xc1e9_42f1, 0x8387_7d1b, 0x23a6_8048, 0xd9bb_987c));
  }

  lemma Mixed60()
    ensures Auxiliary(60, 0x5e6b_c930, 0xa3e2_247f, 0x847f_c2e7) == 0xdc09_d947
    ensures Auxiliary(61, 0x708e_d9c2, 0x5e6b_c930, 0xa3e2_247f) == 0x22f4_12f2
    ensures Auxiliary(62, 0x2baf_1354, 0x708e_d9c2, 0x5e6b_c930) == 0xdb31_ee1d
    ensures Auxiliary(63, 0xd38f_1e7f, 0x2baf_1354, 0x708e_d9c2) == 0xf450_2d2b
  {}

  lemma Operations60()
    ensures Operation(0x0077_c208, 0x5e6b_c930, 0xdc09_d947, 0x7473_7271, 6, 0xf753_7e82) == 0x708e_d9c2
    ensures Operation(0x847f_c2e7, 0x708e_d9c2, 0x22f4_12f2, 0x0000_0000, 10, 0xbd3a_f235) == 0x2baf_1354
    ensures Operation(0xa3e2_247f, 0x2baf_1354, 0xdb31_ee1d, 0x6c6b_6a69, 15, 0x2ad7_d2bb) == 0xd38f_1e7f
    ensures Operation(0x5e6b_c930, 0xd38f_1e7f, 0xf450_2d2b, 0x0000_0000, 21, 0xeb86_d391) == 0x1116_e6d8
  {
    hide Operation, Pow2;
    PowerTable();
    OperationIs(0x0077_c208, 0x5e6b_c930, 0xdc09_d947, 0x7473_7271, 6, 0xf753_7e82,
                2, 0x12, 0x488c42, 0, 0x40, 0x4000000, 0x708e_d9c2);
    OperationIs(0x847f_c2e7, 0x708e_d9c2, 0x22f4_12f2, 0x0000_0000, 10, 0xbd3a_f235,
                1, 0x192, 0x2ec80e, 1, 0x400, 0x400000, 0x2baf_1354);
    OperationIs(0xa3e2_247f, 0x2baf_1354, 0xdb31_ee1d, 0x6c6b_6a69, 15, 0x2ad7_d2bb,
                2, 0xb2b, 0x14fc0, 0, 0x8000, 0x20000, 0xd38f_1e7f);
    OperationIs(0x5e6b_c930, 0xd38f_1e7f, 0xf450_2d2b, 0x0000_0000, 21, 0xeb86_d391,
                2, 0x7c859, 0x1ec, 1, 0x200000, 0x800, 0x1116_e6d8);
  }

  lemma Steps60(x: seq<Word>)
    requires IsBlock(x)
    ensures Steps(x, 60, 64, Registers(0x0077_c208, 0x5e6b_c930, 0xa3e2_247f, 0x847f_c2e7)) ==
            Registers(0x708e_d9c2, 0x1116_e6d8, 0xd38f_1e7f, 0x2baf_1354)
  {
    Mixed60();
    Operations60();
    hide Auxiliary, Operation, Steps;
    FourSteps(x, 60, Registers(0x0077_c208, 0x5e6b_c930, 0xa3e2_247f, 0x847f_c2e7));
  }

  lemma Round1Ends(x: seq<Word>)
    requires IsBlock(x)
    ensures Steps(x, 0, 16, Registers(0x6745_2301, 0xefcd_ab89, 0x98ba_dcfe, 0x1032_5476)) ==
            Registers(0x1754_a316, 0x608d_6b7e, 0x00df_74d5, 0x8556_7d90)
  {
    hide *;
    var r := Registers(0x6745_2301, 0xefcd_ab89, 0x98ba_dcfe, 0x1032_5476);
    assert |x| == 16 by { BlockLength(x); }
    Steps0(x);
    Steps4(x);
    StepsCompose(x, 0, 4, 8, r);
    Steps8(x);
    StepsCompose(x, 0, 8, 12, r);
    Steps12(x);
    StepsCompose(x, 0, 12, 16, r);
  }

  lemma Round2Ends(x: seq<Word>)
    requires IsBlock(x)
    ensures Steps(x, 16, 32, Registers(0x1754_a316, 0x608d_6b7e, 0x00df_74d5, 0x8556_7d90)) ==
            Registers(0xf54d_8710, 0xaeb3_5766, 0x2e69_afc7, 0x927b_72e2)
  {
    hide *;
    var r := Registers(0x1754_a316, 0x608d_6b7e, 0x00df_74d5, 0x8556_7d90);
    assert |x| == 16 by { BlockLength(x); }
    Steps16(x);
    Steps20(x);
    StepsCompose(x, 16, 20, 24, r);
    Steps24(x);
    StepsCompose(x, 16, 24, 28, r);
    Steps28(x);
    StepsCompose(x, 16, 28, 32, r);
  }

  lemma Round3Ends(x: seq<Word>)
    requires IsBlock(x)
    ensures Steps(x, 32, 48, Registers(0xf54d_8710, 0xaeb3_5766, 0x2e69_afc7, 0x927b_72e2)) ==
            Registers(0xb5d4_1f9c, 0x71d1_0367, 0x703d_54d8, 0xa04b_4904)
  {
    hide *;
    var r := Registers(0xf54d_8710, 0xaeb3_5766, 0x2e69_afc7, 0x927b_72e2);
    assert |x| == 16 by { BlockLength(x); }
    Steps32(x);
    Steps36(x);
    StepsCompose(x, 32, 36, 40, r);
    Steps40(x);
    StepsCompose(x, 32, 40, 44, r);
    Steps44(x);
    StepsCompose(x, 32, 44, 48, r);
  }

  lemma Round4Ends(x: seq<Word>)
    requires IsBlock(x)
    ensures Steps(x, 48, 64, Registers(0xb5d4_1f9c, 0x71d1_0367, 0x703d_54d8, 0xa04b_4904)) ==
            Registers(0x708e_d9c2, 0x1116_e6d8, 0xd38f_1e7f, 0x2baf_1354)
  {
    hide *;
    var r := Registers(0xb5d4_1f9c, 0x71d1_0367, 0x703d_54d8, 0xa04b_4904);
    assert |x| == 16 by { BlockLength(x); }
    Steps48(x);
    Steps52(x);
    StepsCompose(x, 48, 52, 56, r);
    Steps56(x);
    StepsCompose(x, 48, 56, 60, r);
    Steps60(x);
    StepsCompose(x, 48, 60, 64, r);
  }

  lemma BlockLength(x: seq<Word>)
    requires IsBlock(x)
    ensures |x| == 16
  {}

  lemma Compressed(block: seq<Byte>)
    requires |block| == 64 && IsBlock(DecodeWords(block))
    ensures Compress(INITIAL, block) == Registers(0xd7d3_fcc3, 0x00e4_9261, 0x6c49_fb7d, 0x3be1_67ca)
  {
    hide Steps, IsBlock, DecodeWords;
    var x := DecodeWords(block);
    Round1Ends(x);
    Round2Ends(x);
    Round3Ends(x);
    Round4Ends(x);
    StepsCompose(x, 0, 16, 32, INITIAL);
    StepsCompose(x, 0, 32, 48, INITIAL);
    StepsCompose(x, 0, 48, 64, INITIAL);
  }

  lemma BlockWord(k: nat)
    requires k < 16
    ensures DecodeWords(BLOCK)[k] as int ==
            if k < 6 then 0x6463_6261 + 0x0404_0404 * k
            else if k == 6 then 0x0080_7a79 else if k == 14 then 208 else 0
  {
    hide DecodeWords;
    DecodeAt(BLOCK, k);
  }

  lemma BlockWords()
    ensures IsBlock(DecodeWords(BLOCK))
  {
    var x := DecodeWords(BLOCK);
    hide DecodeWords;
    forall k | 0 <= k < 16
      ensures x[k] as int == if k < 6 then 0x6463_6261 + 0x0404_0404 * k
                             else if k == 6 then 0x0080_7a79 else if k == 14 then 208 else 0
    {
      BlockWord(k);
    }
  }

  lemma PaddedAlphabet()
    ensures Padded(ALPHABET) == BLOCK
  {
    assert ZeroPadding(26) == 29;
    assert BitLength(26) == [208, 0];
    assert EncodeWords([208, 0]) == [208, 0, 0, 0, 0, 0, 0, 0] by {
      assert EncodeWords([208]) == [208, 0, 0, 0];
      assert [208, 0][..1] == [208];
    }
    assert ALPHABET + [0x80] + Zeros(29) + [208, 0, 0, 0, 0, 0, 0, 0] == BLOCK;
  }

  lemma EncodeFour(w0: Word, w1: Word, w2: Word, w3: Word)
    ensures EncodeWords([w0, w1, w2, w3]) == BytesOf(w0) + BytesOf(w1) + BytesOf(w2) + BytesOf(w3)
  {
    hide BytesOf;
    var w := [w0, w1, w2, w3];
    assert w[..3][..2] == w[..2] && w[..2][..1] == w[..1] && w[..1][..0] == [];
    assert EncodeWords(w[..1]) == BytesOf(w[0]);
    assert EncodeWords(w[..2]) == BytesOf(w[0]) + BytesOf(w[1]);
    assert EncodeWords(w[..3]) == BytesOf(w[0]) + BytesOf(w[1]) + BytesOf(w[2]);
  }

  lemma DigestWords()
    ensures BytesOf(0xd7d3_fcc3) == [0xc3, 0xfc, 0xd3, 0xd7]
    ensures BytesOf(0x00e4_9261) == [0x61, 0x92, 0xe4, 0x00]
    ensures BytesOf(0x6c49_fb7d) == [0x7d, 0xfb, 0x49, 0x6c]
    ensures BytesOf(0x3be1_67ca) == [0xca, 0x67, 0xe1, 0x3b]
  {}

  lemma DigestBytes()
    ensures EncodeWords([0xd7d3_fcc3, 0x00e4_9261, 0x6c49_fb7d, 0x3be1_67ca]) == DIGEST
  {
    DigestWords();
    hide BytesOf, EncodeWords;
    EncodeFour(0xd7d3_fcc3, 0x00e4_9261, 0x6c49_fb7d, 0x3be1_67ca);
  }

  lemma {:induction false} HexConcat(a: seq<Byte>, b: seq<Byte>)
    ensures Hex(a + b) == Hex(a) + Hex(b)
  {
    hide HexByte;
    if b == [] {
      assert a + b == a;
    } else {
      var n := |b| - 1;
      HexConcat(a, b[..n]);
      assert (a + b)[..|a| + n] == a + b[..n];
    }
  }

  lemma HexOfFour(b0: Byte, b1: Byte, b2: Byte, b3: Byte)
    ensures Hex([b0, b1, b2, b3]) == HexByte(b0) + HexByte(b1) + HexByte(b2) + HexByte(b3)
  {
    hide HexByte;
    var b := [b0, b1, b2, b3];
    assert b[..3][..2] == b[..2] && b[..2][..1] == b[..1] && b[..1][..0] == [];
    assert Hex(b[..1]) == HexByte(b[0]);
    assert Hex(b[..2]) == HexByte(b[0]) + HexByte(b[1]);
    assert Hex(b[..3]) == HexByte(b[0]) + HexByte(b[1]) + HexByte(b[2]);
  }

  lemma Quarter0()
    ensures Hex([0xc3, 0xfc, 0xd3, 0xd7]) == "c3fcd3d7"
  {
    HexOfFour(0xc3, 0xfc, 0xd3, 0xd7);
  }

  lemma Quarter1()
    ensures Hex([0x61, 0x92, 0xe4, 0x00]) == "6192e400"
  {
    HexOfFour(0x61, 0x92, 0xe4, 0x00);
  }

  lemma Quarter2()
    ensures Hex([0x7d, 0xfb, 0x49, 0x6c]) == "7dfb496c"
  {
    HexOfFour(0x7d, 0xfb, 0x49, 0x6c);
  }

  lemma Quarter3()
    ensures Hex([0xca, 0x67, 0xe1, 0x3b]) == "ca67e13b"
  {
    HexOfFour(0xca, 0x67, 0xe1, 0x3b);
  }

  lemma DigestText()
    ensures Hex(DIGEST) == "c3fcd3d7" + "6192e400" + "7dfb496c" + "ca67e13b"
  {
    hide Hex;
    Quarter0();
    Quarter1();
    Quarter2();
    Quarter3();
    HexConcat([0xc3, 0xfc, 0xd3, 0xd7], [0x61, 0x92, 0xe4, 0x00]);
    HexConcat([0xc3, 0xfc, 0xd3, 0xd7] + [0x61, 0x92, 0xe4, 0x00], [0x7d, 0xfb, 0x49, 0x6c]);
    HexConcat([0xc3, 0xfc, 0xd3, 0xd7] + [0x61, 0x92, 0xe4, 0x00] + [0x7d, 0xfb, 0x49, 0x6c], [0xca, 0x67, 0xe1, 0x3b]);
  }

  /** MD5 ("abcdefghijklmnopqrstuvwxyz") = c3fcd3d76192e4007dfb496cca67e13b */
  lemma AlphabetDigest()
    ensures Hex(Digest(ALPHABET)) == "c3fcd3d7" + "6192e400" + "7dfb496c" + "ca67e13b"
  {
    PaddedAlphabet();
    BlockWords();
    Compressed(BLOCK);
    DigestBytes();
    DigestText();
    hide Padded, DecodeWords, EncodeWords, Compress, IsBlock, Hex;
    OneBlock(BLOCK);
  }

  lemma OneBlock(block: seq<Byte>)
    requires |block| == 64
    ensures Process(block) == Compress(INITIAL, block)
  {
    hide Compress;
    assert block[0..64] == block;
  }
}
