/**
 Conversion of a 16-bit video frame to four bytes a pixel.  The vector code handles sixteen pixels at a
 time; it is proved to do what a loop over single pixels would do.
 */
module Frame {
  import opened Bits
  import opened Sse

  datatype PixelFormat = PixelFormat(rMask: bv16, gMask: bv16, bMask: bv16,
                                     rShift: nat, gShift: nat, bShift: nat, aShift: nat)

  const RGB565 := PixelFormat(0xf800, 0x07e0, 0x001f, 11, 5, 0, 16)
  const RGB1555 := PixelFormat(0xf800, 0x07c0, 0x003e, 10, 5, 0, 15)

  // ----- The scalar reference

  /** 255.0 / (1 << bits), truncated to an integer. */
  function Scalar(bits: nat): bv16
    requires bits < 8
  {
    (255 / Pow2(bits)) as bv16
  }

  predicate Usable(f: PixelFormat) {
    f.rShift <= f.aShift < f.rShift + 8 && f.gShift <= f.rShift < f.gShift + 8 &&
    f.bShift <= f.gShift < f.bShift + 8 && f.rShift < 16
  }

  /** The 16-bit value a channel has before it is cut to a byte. */
  function Product(px: bv16, mask: bv16, shift: nat, scalar: bv16): bv16
    requires shift < 16
  {
    MulLow((px & mask) >> shift, scalar)
  }

  function Red(px: bv16, f: PixelFormat): bv16
    requires Usable(f)
  {
    Product(px, f.rMask, f.rShift, Scalar(f.aShift - f.rShift))
  }

  function Green(px: bv16, f: PixelFormat): bv16
    requires Usable(f)
  {
    Product(px, f.gMask, f.gShift, Scalar(f.rShift - f.gShift))
  }

  function Blue(px: bv16, f: PixelFormat): bv16
    requires Usable(f)
  {
    Product(px, f.bMask, f.bShift, Scalar(f.gShift - f.bShift))
  }

  function Quadruple(px: bv16, f: PixelFormat): (q: seq<bv8>)
    requires Usable(f)
    ensures |q| == 4
  {
    [0, LowByte(Red(px, f)), LowByte(Green(px, f)), LowByte(Blue(px, f))]
  }

  function PixelAt(data: seq<bv8>, off: nat): bv16
    requires off + 2 <= |data|
  {
    Join(data[off], data[off + 1])
  }

  function ScalarRow(data: seq<bv8>, off: nat, n: nat, f: PixelFormat): (row: seq<bv8>)
    requires off + 2 * n <= |data| && Usable(f)
    ensures |row| == 4 * n
  {
    if n == 0 then [] else ScalarRow(data, off, n - 1, f) + Quadruple(PixelAt(data, off + 2 * (n - 1)), f)
  }

  lemma {:induction false} ScalarRowAt(data: seq<bv8>, off: nat, n: nat, f: PixelFormat, col: nat)
    requires off + 2 * n <= |data| && Usable(f) && col < n
    ensures ScalarRow(data, off, n, f)[4 * col..4 * col + 4] == Quadruple(PixelAt(data, off + 2 * col), f)
  {
    hide Quadruple, PixelAt;
    if col < n - 1 {
      ScalarRowAt(data, off, n - 1, f, col);
      var r := ScalarRow(data, off, n - 1, f);
      assert ScalarRow(data, off, n, f)[4 * col..4 * col + 4] == r[4 * col..4 * col + 4];
    }
  }

  lemma {:induction false} ScalarRowAppend(data: seq<bv8>, off: nat, n: nat, k: nat, f: PixelFormat)
    requires off + 2 * (n + k) <= |data| && Usable(f)
    ensures ScalarRow(data, off, n + k, f) == ScalarRow(data, off, n, f) + ScalarRow(data, off + 2 * n, k, f)
  {
    hide Quadruple, PixelAt;
    if k > 0 {
      ScalarRowAppend(data, off, n, k - 1, f);
      var q := Quadruple(PixelAt(data, off + 2 * (n + k - 1)), f);
      var a, b := ScalarRow(data, off, n, f), ScalarRow(data, off + 2 * n, k - 1, f);
      assert off + 2 * n + 2 * (k - 1) == off + 2 * (n + k - 1);
      assert (a + b) + q == a + (b + q);
    }
  }

  // ----- The vector code

  const HI_MASK: Control := [0, 2, 4, 6, 8, 10, 12, 14, 128, 128, 128, 128, 128, 128, 128, 128]
  const LO_MASK: Control := [128, 128, 128, 128, 128, 128, 128, 128, 0, 2, 4, 6, 8, 10, 12, 14]
  const R_INTERLEAVE: Control := [128, 0, 128, 128, 128, 1, 128, 128, 128, 2, 128, 128, 128, 3, 128, 128]
  const G_INTERLEAVE: Control := [128, 128, 0, 128, 128, 128, 1, 128, 128, 128, 2, 128, 128, 128, 3, 128]
  const B_INTERLEAVE: Control := [128, 128, 128, 0, 128, 128, 128, 1, 128, 128, 128, 2, 128, 128, 128, 3]

  /** Mask, shift and multiply eight pixels. */
  function Channel(px8: M128, mask: bv16, shift: nat, scalar: bv16): M128 {
    MulloEpi16(SrliEpi16(AndSi128(px8, Set1Epi16(mask)), shift), Set1Epi16(scalar))
  }

  lemma ProductOps(px: bv16, mask: bv16, shift: nat, scalar: bv16)
    requires shift < 16
    ensures MulLow(ShiftRight(px & mask, shift), scalar) == Product(px, mask, shift, scalar)
  {}

  lemma ChannelLane(px8: M128, mask: bv16, shift: nat, scalar: bv16, k: nat)
    requires k < 8 && shift < 16
    ensures Channel(px8, mask, shift, scalar)[2 * k] == LowByte(Product(Lane(px8, k), mask, shift, scalar))
  {
    hide LowByte, Lane, ShiftRight, MulLow, Product, Set1Epi16, AndSi128, SrliEpi16, MulloEpi16;
    ProductOps(Lane(px8, k), mask, shift, scalar);
    var m, s := Set1Epi16(mask), Set1Epi16(scalar);
    Set1Lane(mask, k);
    Set1Lane(scalar, k);
    AndLane(px8, m, k);
    SrliLane(AndSi128(px8, m), shift, k);
    MulloLowByte(SrliEpi16(AndSi128(px8, m), shift), s, k);
  }

  /** The low bytes of the lanes of two vectors, the first one in the first half. */
  function Pack(first: M128, second: M128): M128 {
    OrSi128(ShuffleEpi8(second, LO_MASK), ShuffleEpi8(first, HI_MASK))
  }

  lemma PackAt(first: M128, second: M128, p: nat)
    requires p < 16
    ensures Pack(first, second)[p] == if p < 8 then first[2 * p] else second[2 * (p - 8)]
  {
    assert HI_MASK[p] == if p < 8 then 2 * p else 128;
    assert LO_MASK[p] == if p < 8 then 128 else 2 * (p - 8);
  }

  /** Group g of four pixels, its channels put side by side. */
  function Interleave(r: M128, g: M128, b: M128, group: nat): M128 {
    OrSi128(OrSi128(ShuffleEpi8(ShuffleEpi32(r, group), R_INTERLEAVE),
                    ShuffleEpi8(ShuffleEpi32(g, group), G_INTERLEAVE)),
            ShuffleEpi8(ShuffleEpi32(b, group), B_INTERLEAVE))
  }

  lemma BroadcastAt(v: M128, group: nat, q: nat)
    requires group < 4 && q < 4
    ensures ShuffleEpi32(v, group)[q] == v[4 * group + q]
  {}

  /** An interleave mask puts byte q into position c of the group of four that starts at 4q. */
  predicate Spreads(control: Control, c: nat) {
    forall i | 0 <= i < 16 :: control[i] == if i % 4 == c then i / 4 else 128
  }

  lemma RedSpreads()
    ensures Spreads(R_INTERLEAVE, 1)
  {
    var m := R_INTERLEAVE;
    assert m[1] == 0 && m[5] == 1 && m[9] == 2 && m[13] == 3;
  }

  lemma GreenSpreads()
    ensures Spreads(G_INTERLEAVE, 2)
  {
    var m := G_INTERLEAVE;
    assert m[2] == 0 && m[6] == 1 && m[10] == 2 && m[14] == 3;
  }

  lemma BlueSpreads()
    ensures Spreads(B_INTERLEAVE, 3)
  {
    var m := B_INTERLEAVE;
    assert m[3] == 0 && m[7] == 1 && m[11] == 2 && m[15] == 3;
  }

  lemma SpreadAt(v: M128, control: Control, c: nat, i: nat)
    requires i < 16 && Spreads(control, c)
    ensures ShuffleEpi8(v, control)[i] == if i % 4 == c then v[i / 4] else 0
  {}

  lemma InterleaveAt(r: M128, g: M128, b: M128, group: nat, i: nat)
    requires group < 4 && i < 16
    ensures Interleave(r, g, b, group)[i] ==
            var p := 4 * group + i / 4;
            if i % 4 == 0 then 0 else if i % 4 == 1 then r[p] else if i % 4 == 2 then g[p] else b[p]
  {
    hide ShuffleEpi32, ShuffleEpi8, Spreads;
    RedSpreads();
    GreenSpreads();
    BlueSpreads();
    SpreadAt(ShuffleEpi32(r, group), R_INTERLEAVE, 1, i);
    SpreadAt(ShuffleEpi32(g, group), G_INTERLEAVE, 2, i);
    SpreadAt(ShuffleEpi32(b, group), B_INTERLEAVE, 3, i);
    BroadcastAt(r, group, i / 4);
    BroadcastAt(g, group, i / 4);
    BroadcastAt(b, group, i / 4);
  }

  // ----- Sixteen pixels

  /** The vectors of three channels of the sixteen pixels in two loads. */
  function Channels(lo: M128, hi: M128, mask: bv16, shift: nat, scalar: bv16): M128 {
    Pack(Channel(lo, mask, shift, scalar), Channel(hi, mask, shift, scalar))
  }

  lemma ChannelsAt(data: seq<bv8>, off: nat, mask: bv16, shift: nat, scalar: bv16, p: nat)
    requires off + 32 <= |data| && p < 16 && shift < 16
    ensures Channels(data[off..off + 16], data[off + 16..off + 32], mask, shift, scalar)[p] ==
            LowByte(Product(PixelAt(data, off + 2 * p), mask, shift, scalar))
  {
    hide Channel, Pack, Product, LowByte, Join;
    var lo: M128, hi: M128 := data[off..off + 16], data[off + 16..off + 32];
    PackAt(Channel(lo, mask, shift, scalar), Channel(hi, mask, shift, scalar), p);
    if p < 8 {
      ChannelLane(lo, mask, shift, scalar, p);
    } else {
      ChannelLane(hi, mask, shift, scalar, p - 8);
    }
  }

  /** Group g of four of the sixteen pixels in two loads. */
  function Block(lo: M128, hi: M128, f: PixelFormat, group: nat): M128
    requires Usable(f)
  {
    Interleave(Channels(lo, hi, f.rMask, f.rShift, Scalar(f.aShift - f.rShift)),
               Channels(lo, hi, f.gMask, f.gShift, Scalar(f.rShift - f.gShift)),
               Channels(lo, hi, f.bMask, f.bShift, Scalar(f.gShift - f.bShift)), group)
  }

  /** Byte x of the 64 that the vector code makes out of sixteen pixels. */
  function BlockByte(data: seq<bv8>, off: nat, f: PixelFormat, x: nat): bv8
    requires off + 32 <= |data| && Usable(f) && x < 64
  {
    Block(data[off..off + 16], data[off + 16..off + 32], f, x / 16)[x % 16]
  }

  lemma GroupByte(data: seq<bv8>, off: nat, f: PixelFormat, group: nat, k: nat)
    requires off + 32 <= |data| && Usable(f) && group < 4 && k < 16
    ensures BlockByte(data, off, f, 16 * group + k) == Block(data[off..off + 16], data[off + 16..off + 32], f, group)[k]
  {
    hide Block;
  }

  lemma BytePosition(x: nat)
    ensures x / 4 == 4 * (x / 16) + x % 16 / 4 && x % 16 % 4 == x % 4 && x == 4 * (x / 4) + x % 4
  {}

  lemma BlockByteAt(data: seq<bv8>, off: nat, f: PixelFormat, x: nat, p: nat)
    requires off + 32 <= |data| && Usable(f) && x < 64 && p == x / 4
    ensures BlockByte(data, off, f, x) == Quadruple(PixelAt(data, off + 2 * p), f)[x % 4]
  {
    hide Channels, Interleave, Product, LowByte, PixelAt, Scalar;
    var lo, hi := data[off..off + 16], data[off + 16..off + 32];
    BytePosition(x);
    ChannelsAt(data, off, f.rMask, f.rShift, Scalar(f.aShift - f.rShift), p);
    ChannelsAt(data, off, f.gMask, f.gShift, Scalar(f.rShift - f.gShift), p);
    ChannelsAt(data, off, f.bMask, f.bShift, Scalar(f.gShift - f.bShift), p);
    InterleaveAt(Channels(lo, hi, f.rMask, f.rShift, Scalar(f.aShift - f.rShift)),
                 Channels(lo, hi, f.gMask, f.gShift, Scalar(f.rShift - f.gShift)),
                 Channels(lo, hi, f.bMask, f.bShift, Scalar(f.gShift - f.bShift)), x / 16, x % 16);
  }

  /** The vector code computes, byte for byte, what the scalar reference does. */
  lemma BlockByteIsScalar(data: seq<bv8>, off: nat, f: PixelFormat, x: nat)
    requires off + 32 <= |data| && Usable(f) && x < 64
    ensures BlockByte(data, off, f, x) == ScalarRow(data, off, 16, f)[x]
  {
    hide *;
    var p := x / 4;
    BytePosition(x);
    BlockByteAt(data, off, f, x, p);
    ScalarRowAt(data, off, 16, f, p);
    assert ScalarRow(data, off, 16, f)[x] == ScalarRow(data, off, 16, f)[4 * p..4 * p + 4][x % 4];
  }

  // ----- The whole frame

  /** Where the pixels of the first n rows lie within the data. */
  predicate InputFits(length: nat, width: nat, pitch: nat, rows: nat) {
    2 * width <= pitch && (rows > 0 ==> (rows - 1) * pitch + 2 * width <= length)
  }

  lemma RowFits(length: nat, width: nat, pitch: nat, rows: nat, row: nat)
    requires InputFits(length, width, pitch, rows) && row < rows
    ensures row * pitch + 2 * width <= length && InputFits(length, width, pitch, row)
  {}

  lemma RowInFrame(width: nat, rows: nat, row: nat)
    requires row < rows
    ensures 4 * width * row == 4 * (row * width)
    ensures row < rows - 1 ==> 4 * width * row + 4 * width <= 4 * width * (rows - 1)
    ensures 4 * width * (rows - 1) + 4 * width == 4 * width * rows
  {
    if row < rows - 1 {
      assert width * (row + 1) <= width * (rows - 1);
    }
  }

  function ScalarFrame(data: seq<bv8>, width: nat, pitch: nat, rows: nat, f: PixelFormat): seq<bv8>
    requires InputFits(|data|, width, pitch, rows) && Usable(f)
  {
    if rows == 0 then [] else
      RowFits(|data|, width, pitch, rows, rows - 1);
      ScalarFrame(data, width, pitch, rows - 1, f) + ScalarRow(data, (rows - 1) * pitch, width, f)
  }

  lemma FrameStart(data: seq<bv8>, width: nat, pitch: nat, rows: nat, f: PixelFormat)
    requires InputFits(|data|, width, pitch, rows) && Usable(f)
    ensures InputFits(|data|, width, pitch, 0) && ScalarFrame(data, width, pitch, 0, f) == []
  {}

  lemma FrameAppend(data: seq<bv8>, width: nat, pitch: nat, rows: nat, f: PixelFormat, last: nat)
    requires InputFits(|data|, width, pitch, rows) && Usable(f) && rows > 0 && last == (rows - 1) * pitch
    ensures InputFits(|data|, width, pitch, rows - 1) && last + 2 * width <= |data|
    ensures ScalarFrame(data, width, pitch, rows, f) ==
            ScalarFrame(data, width, pitch, rows - 1, f) + ScalarRow(data, last, width, f)
  {
    hide ScalarRow;
    RowFits(|data|, width, pitch, rows, rows - 1);
  }

  lemma {:induction false} ScalarFrameSize(data: seq<bv8>, width: nat, pitch: nat, rows: nat, f: PixelFormat)
    requires InputFits(|data|, width, pitch, rows) && Usable(f)
    ensures |ScalarFrame(data, width, pitch, rows, f)| == 4 * width * rows
  {
    hide *;
    if rows == 0 {
      FrameStart(data, width, pitch, rows, f);
    } else {
      FrameAppend(data, width, pitch, rows, f, (rows - 1) * pitch);
      ScalarFrameSize(data, width, pitch, rows - 1, f);
      RowInFrame(width, rows, rows - 1);
    }
  }

  lemma FrameStep(data: seq<bv8>, width: nat, pitch: nat, rows: nat, row: nat, f: PixelFormat)
    requires InputFits(|data|, width, pitch, rows) && Usable(f) && row < rows
    ensures InputFits(|data|, width, pitch, row) && InputFits(|data|, width, pitch, row + 1)
    ensures row * pitch + 2 * width <= |data| && 2 * width <= pitch
    ensures (row + 1) * pitch == row * pitch + pitch
    ensures 4 * width * (row + 1) == 4 * width * row + 4 * width <= 4 * width * rows
    ensures ScalarFrame(data, width, pitch, row + 1, f) ==
            ScalarFrame(data, width, pitch, row, f) + ScalarRow(data, row * pitch, width, f)
  {
    hide ScalarRow;
    RowFits(|data|, width, pitch, rows, row);
    if row + 1 < rows {
      RowFits(|data|, width, pitch, rows, row + 1);
    }
    RowInFrame(width, rows, row);
    RowInFrame(width, row + 1, row);
  }

  /** What a frame holds before, in and after a row that starts at byte `from` of the input. */
  lemma {:induction false} FrameSplit(data: seq<bv8>, width: nat, pitch: nat, rows: nat, f: PixelFormat,
                                      row: nat, from: nat) returns (rest: seq<bv8>)
    requires InputFits(|data|, width, pitch, rows) && Usable(f) && row < rows && from == row * pitch
    ensures InputFits(|data|, width, pitch, row) && from + 2 * width <= |data|
    ensures ScalarFrame(data, width, pitch, rows, f) ==
            ScalarFrame(data, width, pitch, row, f) + ScalarRow(data, from, width, f) + rest
  {
    hide ScalarRow, ScalarFrame, InputFits, Usable;
    var last := (rows - 1) * pitch;
    FrameAppend(data, width, pitch, rows, f, last);
    if row == rows - 1 {
      rest := [];
    } else {
      var before := FrameSplit(data, width, pitch, rows - 1, f, row, from);
      rest := before + ScalarRow(data, last, width, f);
    }
  }

  lemma QuadrupleStart(width: nat, row: nat, col: nat, start: nat, j: nat)
    requires start == 4 * width * row && j == 4 * (row * width + col)
    ensures j == start + 4 * col
  {}

  lemma SliceInside(before: seq<bv8>, line: seq<bv8>, rest: seq<bv8>, k: nat, n: nat)
    requires k + n <= |line|
    ensures |before| + k + n <= |before + line + rest|
    ensures (before + line + rest)[|before| + k..|before| + k + n] == line[k..k + n]
  {}

  lemma QuadrupleInFrame(data: seq<bv8>, width: nat, pitch: nat, rows: nat, f: PixelFormat,
                         row: nat, col: nat, from: nat)
    requires InputFits(|data|, width, pitch, rows) && Usable(f) && row < rows && col < width && from == row * pitch
    ensures InputFits(|data|, width, pitch, row) && from + 2 * width <= |data|
    ensures var k := |ScalarFrame(data, width, pitch, row, f)| + 4 * col;
      k + 4 <= |ScalarFrame(data, width, pitch, rows, f)| &&
      ScalarFrame(data, width, pitch, rows, f)[k..k + 4] == Quadruple(PixelAt(data, from + 2 * col), f)
  {
    hide *;
    var rest := FrameSplit(data, width, pitch, rows, f, row, from);
    ScalarRowAt(data, from, width, f, col);
    SliceInside(ScalarFrame(data, width, pitch, row, f), ScalarRow(data, from, width, f), rest, 4 * col, 4);
  }

  /** Four bytes a pixel, row after row with no gap: 0, red, green, blue. */
  lemma ScalarFrameAt(data: seq<bv8>, width: nat, pitch: nat, rows: nat, f: PixelFormat,
                      row: nat, col: nat, from: nat, j: nat)
    requires InputFits(|data|, width, pitch, rows) && Usable(f) && row < rows && col < width
    requires from == row * pitch + 2 * col && j == 4 * (row * width + col)
    ensures from + 2 <= |data| && j + 4 <= |ScalarFrame(data, width, pitch, rows, f)|
    ensures ScalarFrame(data, width, pitch, rows, f)[j..j + 4] == Quadruple(PixelAt(data, from), f)
  {
    hide *;
    QuadrupleInFrame(data, width, pitch, rows, f, row, col, from - 2 * col);
    ScalarFrameSize(data, width, pitch, row, f);
    QuadrupleStart(width, row, col, |ScalarFrame(data, width, pitch, row, f)|, j);
  }

  // ----- What the bytes are, and what the cut to a byte keeps

  lemma Scalars()
    ensures Scalar(5) == 7 && Scalar(6) == 3 && Num16(7) == 7 && Num16(3) == 3 && Num8(0) == 0
  {
    assert Pow2(5) == 32 && Pow2(6) == 64;
  }

  /** A pixel is read with its low-order byte first. */
  lemma PixelValue(data: seq<bv8>, off: nat)
    requires off + 2 <= |data|
    ensures Num16(PixelAt(data, off)) == Num8(data[off]) + 256 * Num8(data[off + 1])
  {
    JoinValue(data[off], data[off + 1]);
  }

  lemma Widened(b: bv8)
    ensures Num16(b as bv16) == Num8(b)
  {}

  lemma ByteShifts(b: bv8)
    ensures Num8(b >> 3) == Num8(b) / 8 && Num8(b >> 5) == Num8(b) / 32 && Num8(b >> 6) == Num8(b) / 64
    ensures Num8(b >> 1) == Num8(b) / 2
  {}

  lemma ByteRests(b: bv8)
    ensures Num8(b & 7) == Num8(b) % 8 && Num8(b & 31) == Num8(b) % 32
  {}

  lemma Glued3(high: bv8, low: bv8)
    requires high < 8 && low < 8
    ensures Num8((high << 3) | low) == 8 * Num8(high) + Num8(low)
  {}

  lemma Glued2(high: bv8, low: bv8)
    requires high < 8 && low < 4
    ensures Num8((high << 2) | low) == 4 * Num8(high) + Num8(low)
  {}

  lemma Doubled(b: bv8)
    requires b < 128
    ensures Num8(b << 1) == 2 * Num8(b)
  {}

  // The fields of a pixel, cut out of its two bytes

  lemma RedFields(px: bv16, high: bv8)
    requires high == HighByte(px)
    ensures (px & 0xf800) >> 11 == (high >> 3) as bv16
    ensures (px & 0xf800) >> 10 == ((high >> 3) << 1) as bv16 && high >> 3 < 32
  {}

  lemma Green565Field(px: bv16, high: bv8, low: bv8)
    requires high == HighByte(px) && low == LowByte(px)
    ensures (px & 0x07e0) >> 5 == (((high & 7) << 3) | (low >> 5)) as bv16
    ensures high & 7 < 8 && low >> 5 < 8
  {}

  lemma Green1555Field(px: bv16, high: bv8, low: bv8)
    requires high == HighByte(px) && low == LowByte(px)
    ensures (px & 0x07c0) >> 5 == ((((high & 7) << 2) | (low >> 6)) << 1) as bv16
    ensures high & 7 < 8 && low >> 6 < 4 && ((high & 7) << 2) | (low >> 6) < 32
  {}

  lemma BlueFields(px: bv16, low: bv8)
    requires low == LowByte(px)
    ensures (px & 0x001f) >> 0 == (low & 31) as bv16
    ensures (px & 0x003e) >> 0 == (((low >> 1) & 31) << 1) as bv16 && (low >> 1) & 31 < 32
  {}

  lemma RedValues(px: bv16)
    ensures Num16((px & 0xf800) >> 11) == Num16(px) / 2048 < 32
    ensures Num16((px & 0xf800) >> 10) == 2 * (Num16(px) / 2048)
  {
    var high := HighByte(px);
    RedFields(px, high);
    HighValue(px);
    hide HighByte, Num8, Num16;
    ByteShifts(high);
    Doubled(high >> 3);
    Widened(high >> 3);
    Widened((high >> 3) << 1);
  }

  lemma Green565Value(px: bv16, high: bv8, low: bv8)
    requires high == HighByte(px) && low == LowByte(px)
    ensures Num16((px & 0x07e0) >> 5) == 8 * (Num8(high) % 8) + Num8(low) / 32
  {
    Green565Field(px, high, low);
    hide HighByte, LowByte, Num8, Num16;
    ByteShifts(low);
    ByteRests(high);
    Glued3(high & 7, low >> 5);
    Widened(((high & 7) << 3) | (low >> 5));
  }

  lemma Green1555Value(px: bv16, high: bv8, low: bv8)
    requires high == HighByte(px) && low == LowByte(px)
    ensures Num16((px & 0x07c0) >> 5) == 2 * (4 * (Num8(high) % 8) + Num8(low) / 64)
  {
    Green1555Field(px, high, low);
    hide HighByte, LowByte, Num8, Num16;
    ByteShifts(low);
    ByteRests(high);
    Glued2(high & 7, low >> 6);
    Doubled(((high & 7) << 2) | (low >> 6));
    Widened((((high & 7) << 2) | (low >> 6)) << 1);
  }

  lemma GreenValues(px: bv16)
    ensures Num16((px & 0x07e0) >> 5) == Num16(px) / 32 % 64
    ensures Num16((px & 0x07c0) >> 5) == 2 * (Num16(px) / 64 % 32)
  {
    hide HighByte, LowByte, Num8, Num16;
    var high, low := HighByte(px), LowByte(px);
    HighValue(px);
    LowValue(px);
    Green565Value(px, high, low);
    Green1555Value(px, high, low);
    AcrossBytes(Num16(px), Num8(high), Num8(low));
  }

  /** Bits that lie across the two bytes of a word. */
  lemma AcrossBytes(x: int, high: int, low: int)
    requires x == 256 * high + low && 0 <= low < 256 && high >= 0
    ensures 8 * (high % 8) + low / 32 == x / 32 % 64
    ensures 4 * (high % 8) + low / 64 == x / 64 % 32
  {
    var q, r := high / 8, high % 8;
    assert high == 8 * q + r;
    assert x / 32 == 8 * high + low / 32 && x / 64 == 4 * high + low / 64;
    Quotient(x / 32, 64, q, 8 * r + low / 32);
    Quotient(x / 64, 32, q, 4 * r + low / 64);
  }

  lemma LowBitsOnly(x: int, high: int, low: int)
    requires x == 256 * high + low && 0 <= low < 256 && high >= 0
    ensures low % 32 == x % 32 && low / 2 % 32 == x / 2 % 32
  {
    Quotient(x, 32, 8 * high + low / 32, low % 32);
    Quotient(x / 2, 32, 4 * high + low / 2 / 32, low / 2 % 32);
  }

  lemma BlueValues(px: bv16)
    ensures Num16((px & 0x001f) >> 0) == Num16(px) % 32
    ensures Num16((px & 0x003e) >> 0) == 2 * (Num16(px) / 2 % 32)
  {
    var low := LowByte(px);
    BlueFields(px, low);
    LowValue(px);
    hide LowByte, Num8, Num16;
    ByteShifts(low);
    ByteRests(low);
    ByteRests(low >> 1);
    Doubled((low >> 1) & 31);
    Widened(low & 31);
    Widened(((low >> 1) & 31) << 1);
    LowBitsOnly(Num16(px), Num16(px) / 256, Num8(low));
  }

  lemma Scaled(field: bv16, scalar: bv16, n: int, k: int, product: int)
    requires Num16(field) == n && Num16(scalar) == k && product == n * k && 0 <= product < 0x1_0000
    ensures Num16(MulLow(field, scalar)) == product && Num8(LowByte(MulLow(field, scalar))) == product % 256
  {
    hide *;
    NoCarry(n, k, product);
    LowValue(MulLow(field, scalar));
  }

  lemma RedBytes(px: bv16, n: int, m: int)
    requires n == Num16(px) / 2048 && m == Num16(px) / 2048
    ensures Num16(Red(px, RGB565)) == 7 * n && Num8(LowByte(Red(px, RGB565))) == 7 * n % 256
    ensures Num16(Red(px, RGB1555)) == 14 * m && Num8(LowByte(Red(px, RGB1555))) == 14 * m % 256
  {
    Scalars();
    hide Scalar, MulLow, LowByte, Num8, Num16;
    RedValues(px);
    Scaled((px & 0xf800) >> 11, 7, n, 7, 7 * n);
    Scaled((px & 0xf800) >> 10, 7, 2 * m, 7, 14 * m);
  }

  lemma GreenBytes(px: bv16, n: int, m: int)
    requires n == Num16(px) / 32 % 64 && m == Num16(px) / 64 % 32
    ensures Num16(Green(px, RGB565)) == 3 * n && Num8(LowByte(Green(px, RGB565))) == 3 * n % 256
    ensures Num16(Green(px, RGB1555)) == 14 * m && Num8(LowByte(Green(px, RGB1555))) == 14 * m % 256
  {
    Scalars();
    hide Scalar, MulLow, LowByte, Num8, Num16;
    GreenValues(px);
    Scaled((px & 0x07e0) >> 5, 3, n, 3, 3 * n);
    Scaled((px & 0x07c0) >> 5, 7, 2 * m, 7, 14 * m);
  }

  lemma BlueBytes(px: bv16, n: int, m: int)
    requires n == Num16(px) % 32 && m == Num16(px) / 2 % 32
    ensures Num16(Blue(px, RGB565)) == 7 * n && Num8(LowByte(Blue(px, RGB565))) == 7 * n % 256
    ensures Num16(Blue(px, RGB1555)) == 14 * m && Num8(LowByte(Blue(px, RGB1555))) == 14 * m % 256
  {
    Scalars();
    hide Scalar, MulLow, LowByte, Num8, Num16;
    BlueValues(px);
    Scaled((px & 0x001f) >> 0, 7, n, 7, 7 * n);
    Scaled((px & 0x003e) >> 0, 7, 2 * m, 7, 14 * m);
  }

  lemma Uncut(n: int)
    requires 0 <= n < 256
    ensures n % 256 == n
  {}

  lemma FieldBounds(x: int)
    requires 0 <= x < 0x1_0000
    ensures 0 <= x / 2048 < 32 && 0 <= x / 32 % 64 < 64 && 0 <= x % 32 < 32
  {}

  /** With RGB565 no channel loses a bit: the bytes are 7, 3 and 7 times the five, six and five bits of the
      channels. */
  lemma Rgb565Exact(px: bv16)
    ensures Num8(LowByte(Red(px, RGB565))) == Num16(Red(px, RGB565)) == 7 * (Num16(px) / 2048) <= 217
    ensures Num8(LowByte(Green(px, RGB565))) == Num16(Green(px, RGB565)) == 3 * (Num16(px) / 32 % 64) <= 189
    ensures Num8(LowByte(Blue(px, RGB565))) == Num16(Blue(px, RGB565)) == 7 * (Num16(px) % 32) <= 217
  {
    hide LowByte, Red, Green, Blue, Num8, Num16;
    RedBytes(px, Num16(px) / 2048, Num16(px) / 2048);
    GreenBytes(px, Num16(px) / 32 % 64, Num16(px) / 64 % 32);
    BlueBytes(px, Num16(px) % 32, Num16(px) / 2 % 32);
    FieldBounds(Num16(px));
    Uncut(7 * (Num16(px) / 2048));
    Uncut(3 * (Num16(px) / 32 % 64));
    Uncut(7 * (Num16(px) % 32));
  }

  /** A channel as it was before the cut to a byte. */
  ghost predicate Survives(v: bv16) {
    Num8(LowByte(v)) == Num16(v)
  }

  lemma Fourteen(n: int)
    requires 0 <= n < 32
    ensures 14 * n % 256 == 14 * n <==> n <= 18
  {}

  /** With 0RGB1555 every channel is 14 times its five bits, and survives the cut exactly when these are at
      most 18. */
  lemma Rgb1555Exact(px: bv16)
    ensures var n := Num16(px) / 2048;
      Num8(LowByte(Red(px, RGB1555))) == 14 * n % 256 && (Survives(Red(px, RGB1555)) <==> n <= 18)
    ensures var n := Num16(px) / 64 % 32;
      Num8(LowByte(Green(px, RGB1555))) == 14 * n % 256 && (Survives(Green(px, RGB1555)) <==> n <= 18)
    ensures var n := Num16(px) / 2 % 32;
      Num8(LowByte(Blue(px, RGB1555))) == 14 * n % 256 && (Survives(Blue(px, RGB1555)) <==> n <= 18)
  {
    hide LowByte, Red, Green, Blue, Num8, Num16;
    RedBytes(px, Num16(px) / 2048, Num16(px) / 2048);
    GreenBytes(px, Num16(px) / 32 % 64, Num16(px) / 64 % 32);
    BlueBytes(px, Num16(px) % 32, Num16(px) / 2 % 32);
    Fourteen(Num16(px) / 2048);
    Fourteen(Num16(px) / 64 % 32);
    Fourteen(Num16(px) / 2 % 32);
  }

  /** A full-scale red pixel in 0RGB1555 is 434 before the cut and 178 after it. */
  lemma Rgb1555Overflows()
    ensures Num16(Red(0xf800, RGB1555)) == 434 && Num8(LowByte(Red(0xf800, RGB1555))) == 178
  {
    hide LowByte, Red, Num8;
    assert Num16(0xf800) == 0xf800;
    RedBytes(0xf800, 31, 31);
  }

  lemma Bytes565(px: bv16, x: int)
    requires Num16(px) == x
    ensures Usable(RGB565)
    ensures var q := Quadruple(px, RGB565);
      Num8(q[0]) == 0 && Num8(q[1]) == 7 * (x / 2048) && Num8(q[2]) == 3 * (x / 32 % 64) && Num8(q[3]) == 7 * (x % 32)
  {
    Scalars();
    hide LowByte, Red, Green, Blue, Num8, Num16;
    Rgb565Exact(px);
  }

  lemma Bytes1555(px: bv16, x: int)
    requires Num16(px) == x
    ensures Usable(RGB1555)
    ensures var q := Quadruple(px, RGB1555);
      Num8(q[0]) == 0 && Num8(q[1]) == 14 * (x / 2048) % 256 &&
      Num8(q[2]) == 14 * (x / 64 % 32) % 256 && Num8(q[3]) == 14 * (x / 2 % 32) % 256
  {
    Scalars();
    hide LowByte, Red, Green, Blue, Num8, Num16;
    Rgb1555Exact(px);
  }

  /** The four bytes of any pixel of an RGB565 frame, from the two bytes of the core's buffer. */
  lemma Rgb565Frame(data: seq<bv8>, width: nat, pitch: nat, rows: nat, row: nat, col: nat, from: nat, j: nat)
    requires InputFits(|data|, width, pitch, rows) && row < rows && col < width
    requires from == row * pitch + 2 * col && j == 4 * (row * width + col)
    ensures Usable(RGB565) && from + 2 <= |data| && j + 4 <= |ScalarFrame(data, width, pitch, rows, RGB565)|
    ensures var out := ScalarFrame(data, width, pitch, rows, RGB565)[j..j + 4];
      var px := Num8(data[from]) + 256 * Num8(data[from + 1]);
      Num8(out[0]) == 0 && Num8(out[1]) == 7 * (px / 2048) &&
      Num8(out[2]) == 3 * (px / 32 % 64) && Num8(out[3]) == 7 * (px % 32)
  {
    assert Usable(RGB565);
    hide ScalarFrame, LowByte, Red, Green, Blue, PixelAt, InputFits, Usable, Num8, Num16;
    ScalarFrameAt(data, width, pitch, rows, RGB565, row, col, from, j);
    PixelValue(data, from);
    Bytes565(PixelAt(data, from), Num8(data[from]) + 256 * Num8(data[from + 1]));
  }

  /** The same for 0RGB1555. */
  lemma Rgb1555Frame(data: seq<bv8>, width: nat, pitch: nat, rows: nat, row: nat, col: nat, from: nat, j: nat)
    requires InputFits(|data|, width, pitch, rows) && row < rows && col < width
    requires from == row * pitch + 2 * col && j == 4 * (row * width + col)
    ensures Usable(RGB1555) && from + 2 <= |data| && j + 4 <= |ScalarFrame(data, width, pitch, rows, RGB1555)|
    ensures var out := ScalarFrame(data, width, pitch, rows, RGB1555)[j..j + 4];
      var px := Num8(data[from]) + 256 * Num8(data[from + 1]);
      Num8(out[0]) == 0 && Num8(out[1]) == 14 * (px / 2048) % 256 &&
      Num8(out[2]) == 14 * (px / 64 % 32) % 256 && Num8(out[3]) == 14 * (px / 2 % 32) % 256
  {
    assert Usable(RGB1555);
    hide ScalarFrame, LowByte, Red, Green, Blue, PixelAt, InputFits, Usable, Num8, Num16;
    ScalarFrameAt(data, width, pitch, rows, RGB1555, row, col, from, j);
    PixelValue(data, from);
    Bytes1555(PixelAt(data, from), Num8(data[from]) + 256 * Num8(data[from + 1]));
  }

  datatype Format = XRGB8888 | RGB565Format | RGB1555Format

  datatype FrameInfo = FrameInfo(width: nat, height: nat, pitch: nat, data: array?<bv8>)

  class Video {
    var format: Format
    var pixels: PixelFormat
    var width: nat
    var height: nat
    var pitch: nat
    var stride: nat
    var buffer: array<bv8>
    var currentBuffer: array?<bv8>

    /** The masks and shifts are those of a 16-bit format, and the frame is a whole number of blocks wide. */
    ghost predicate Valid()
      reads this
    {
      pixels in {RGB565, RGB1555} && stride == 0 && width % 16 == 0 && buffer != currentBuffer &&
      (format == RGB565Format ==> pixels == RGB565) && (format == RGB1555Format ==> pixels == RGB1555) &&
      buffer.Length == (width + stride) * height * 4 % 0x1_0000_0000
    }

    constructor ()
      ensures Valid() && currentBuffer == null && width == height == 0
    {
      format, pixels := RGB1555Format, RGB1555;
      width, height, pitch, stride := 0, 0, 0, 0;
      buffer, currentBuffer := new bv8[0], null;
    }

    method SetPixelFormat(fmt: Format)
      requires Valid()
      modifies this`format, this`pixels
      ensures Valid() && format == fmt
      ensures fmt == old(format) || fmt == XRGB8888 ==> pixels == old(pixels)
    {
      if fmt == format {
        return;
      }
      match fmt {
        case RGB1555Format => pixels := RGB1555;
        case XRGB8888 =>
        case RGB565Format => pixels := RGB565;
      }
      format := fmt;
    }

    method OnVideoRefresh(data: array?<bv8>, newWidth: nat, newHeight: nat, newPitch: nat)
      requires Valid() && data != buffer
      requires newWidth % 16 == 0
      modifies this
      ensures Valid() && currentBuffer == data && format == old(format) && pixels == old(pixels)
      ensures width == newWidth && height == newHeight && pitch == newPitch
      ensures if newWidth == old(width) && newHeight == old(height) && newPitch == old(pitch)
              then buffer == old(buffer) else fresh(buffer)
    {
      if newWidth != width || newHeight != height || newPitch != pitch {
        width, height, pitch := newWidth, newHeight, newPitch;
        stride := width - 16 * ((width + 15) / 16);
        buffer := new bv8[(width + stride) * height * 4 % 0x1_0000_0000];
      }
      currentBuffer := data;
    }

    /** _mm_storeu_si128 into the buffer */
    method Store(at: nat, v: M128)
      requires at + 16 <= buffer.Length
      modifies buffer
      ensures forall x | 0 <= x < buffer.Length ::
        buffer[x] == if at <= x < at + 16 then v[x - at] else old(buffer[x])
    {
      forall k | 0 <= k < 16 {
        buffer[at + k] := v[k];
      }
    }

    /** Sixteen pixels at `i` become 64 bytes at `j`. */
    method Convert(data: array<bv8>, i: nat, j: nat)
      requires data != buffer && i + 32 <= data.Length && j + 64 <= buffer.Length && Usable(pixels)
      modifies buffer
      ensures buffer[..] == old(buffer[..j]) + ScalarRow(data[..], i, 16, pixels) + old(buffer[j + 64..])
    {
      hide ScalarRow, Channels, Interleave, Scalar, BlockByte;
      ghost var src := data[..];
      var lo, hi := data[i..i + 16], data[i + 16..i + 32];
      assert lo == src[i..i + 16] && hi == src[i + 16..i + 32];
      var rVec := Channels(lo, hi, pixels.rMask, pixels.rShift, Scalar(pixels.aShift - pixels.rShift));
      var gVec := Channels(lo, hi, pixels.gMask, pixels.gShift, Scalar(pixels.rShift - pixels.gShift));
      var bVec := Channels(lo, hi, pixels.bMask, pixels.bShift, Scalar(pixels.gShift - pixels.bShift));
      for group := 0 to 4
        invariant forall x | 0 <= x < 16 * group :: buffer[j + x] == BlockByte(src, i, pixels, x)
        invariant buffer[..j] == old(buffer[..j]) && buffer[j + 64..] == old(buffer[j + 64..])
      {
        var xrgb := Interleave(rVec, gVec, bVec, group);
        forall x | 16 * group <= x < 16 * group + 16
          ensures xrgb[x - 16 * group] == BlockByte(src, i, pixels, x)
        {
          GroupByte(src, i, pixels, group, x - 16 * group);
        }
        Store(j + 16 * group, xrgb);
      }
      forall x | 0 <= x < 64
        ensures buffer[j + x] == ScalarRow(src, i, 16, pixels)[x]
      {
        BlockByteIsScalar(src, i, pixels, x);
      }
      assert buffer[j..j + 64] == ScalarRow(src, i, 16, pixels);
    }

    /** One row, sixteen pixels at a time; the indices end behind the last pixel. */
    method ConvertRow(data: array<bv8>, i0: nat, j0: nat) returns (i: nat, j: nat)
      requires data != buffer && Usable(pixels) && stride == 0 && width % 16 == 0
      requires i0 + 2 * width <= data.Length && j0 + 4 * width <= buffer.Length
      modifies buffer
      ensures i == i0 + 2 * width && j == j0 + 4 * width
      ensures buffer[..j] == old(buffer[..j0]) + ScalarRow(data[..], i0, width, pixels)
    {
      hide ScalarRow;
      i, j := i0, j0;
      assert ScalarRow(data[..], i0, 0, pixels) == [];
      for w := 0 to (width + stride) / 16
        invariant i == i0 + 32 * w && j == j0 + 64 * w
        invariant buffer[..j] == old(buffer[..j0]) + ScalarRow(data[..], i0, 16 * w, pixels)
      {
        ghost var before := buffer[..j];
        Convert(data, i, j);
        ScalarRowAppend(data[..], i0, 16 * w, 16, pixels);
        assert buffer[..j + 64] == before + ScalarRow(data[..], i, 16, pixels);
        i, j := i + 32, j + 64;
      }
    }

    /** The buffer holds the whole frame exactly when its size does not wrap in 32 bits. */
    lemma BufferHoldsFrame()
      requires Valid()
      ensures buffer.Length >= 4 * width * height <==> 4 * width * height < 0x1_0000_0000
    {
      assert (width + stride) * height * 4 == 4 * width * height;
    }

    /** The frame of the 16-bit formats is the scalar conversion of every row. */
    method GetFrame() returns (frame: FrameInfo)
      requires Valid()
      requires currentBuffer != null && format != XRGB8888 ==>
        4 * width * height < 0x1_0000_0000 && InputFits(currentBuffer.Length, width, pitch, height)
      modifies buffer
      ensures currentBuffer == null ==> frame == FrameInfo(0, 0, 0, null)
      ensures currentBuffer != null && format == XRGB8888 ==>
        frame == FrameInfo(width, height, stride, currentBuffer)
      ensures currentBuffer != null && format != XRGB8888 ==>
        frame == FrameInfo(width, height, stride, buffer) &&
        buffer[..] == ScalarFrame(currentBuffer[..], width, pitch, height, pixels)
      ensures currentBuffer == null || format == XRGB8888 ==> buffer[..] == old(buffer[..])
    {
      if currentBuffer == null {
        return FrameInfo(0, 0, 0, null);
      }
      if format == XRGB8888 {
        return FrameInfo(width, height, stride, currentBuffer);
      }
      ConvertRows(currentBuffer);
      frame := FrameInfo(width, height, stride, buffer);
    }

    method ConvertRows(data: array<bv8>)
      requires data != buffer && Usable(pixels) && stride == 0 && width % 16 == 0
      requires InputFits(data.Length, width, pitch, height) && buffer.Length == 4 * width * height
      modifies buffer
      ensures buffer[..] == ScalarFrame(data[..], width, pitch, height, pixels)
    {
      hide ScalarRow, ScalarFrame, InputFits, Usable;
      FrameStart(data[..], width, pitch, height, pixels);
      var i, j := 0, 0;
      for row := 0 to height
        invariant InputFits(data.Length, width, pitch, row)
        invariant i == row * pitch && j == 4 * width * row && j <= buffer.Length
        invariant buffer[..j] == ScalarFrame(data[..], width, pitch, row, pixels)
      {
        FrameStep(data[..], width, pitch, height, row, pixels);
        i, j := ConvertRow(data, i, j);
        i := i - 2 * stride;
        i := i + (pitch - 2 * width);
      }
    }
  }
}
