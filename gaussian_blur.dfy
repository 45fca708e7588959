// Avx512bw GaussianBlur3x3 of an image of bytes with step = channelCount
// bytes per pixel: every byte becomes the 1-2-1 x 1-2-1 weighted mean of the
// same channel of the 3 x 3 pixels around it, (v + 8) >> 4, the image edges
// replicated.
//
// Each source row is first summed horizontally (left + 2 * centre + right)
// into a row buffer of 16-bit values; three such buffers, for the rows above,
// at and below the output row, rotate as the kernel walks down the image.
// The unpacking of bytes into 16-bit lanes and the packing back are both done
// within 128-bit lanes and cancel; the buffers are described in byte order.

module GaussianBlur {
  import opened Lanes
  import opened Extract
  import opened ByteLanes

  // ---------------------------------------------------------------------
  // What the blur computes

  /** A row of at least size bytes. */
  predicate SourceRow(row: seq<int>, size: nat) {
    size <= |row| && Bytes(row)
  }

  /** height source rows. */
  predicate Source(src: seq<seq<int>>, size: nat, height: nat) {
    height <= |src| && forall r :: 0 <= r < height ==> SourceRow(src[r], size)
  }

  /**
   * The horizontal 1-2-1 sum at byte x of a row of size bytes with step bytes
   * per pixel: the first and the last pixel are their own outer neighbours.
   */
  function HorizontalSum(row: seq<int>, size: nat, step: nat, x: nat): int
    requires x < size <= |row|
  {
    row[if x < step then x else x - step] + 2 * row[x] + row[if x + step < size then x + step else x]
  }

  /** The row above row r, the first row standing in for the one above it. */
  function Up(r: nat): nat {
    if r == 0 then 0 else r - 1
  }

  /** The row below row r, the last row standing in for the one below it. */
  function Down(r: nat, height: nat): nat
    requires r < height
  {
    if r + 1 < height then r + 1 else height - 1
  }

  /** The blurred byte at row r, byte c. */
  function Blur(src: seq<seq<int>>, size: nat, step: nat, height: nat, r: nat, c: nat): int
    requires Source(src, size, height) && r < height && c < size
  {
    (HorizontalSum(src[Up(r)], size, step, c) + 2 * HorizontalSum(src[r], size, step, c)
     + HorizontalSum(src[Down(r, height)], size, step, c) + 8) / 16
  }

  /** A 1-2-1 sum of bytes lies between 0 and 4 * 255. */
  lemma HorizontalSumRange(row: seq<int>, size: nat, step: nat, x: nat)
    requires x < size && SourceRow(row, size)
    ensures 0 <= HorizontalSum(row, size, step, x) <= 4 * 255
  {
  }

  /** The blur of bytes is a byte. */
  lemma BlurRange(src: seq<seq<int>>, size: nat, step: nat, height: nat, r: nat, c: nat)
    requires Source(src, size, height) && r < height && c < size
    ensures 0 <= Blur(src, size, step, height, r, c) <= 255
  {
    HorizontalSumRange(src[Up(r)], size, step, c);
    HorizontalSumRange(src[r], size, step, c);
    HorizontalSumRange(src[Down(r, height)], size, step, c);
  }

  /** An image of one value blurs to itself: the weights add up to 16. */
  lemma BlurConstant(src: seq<seq<int>>, size: nat, step: nat, height: nat, v: int)
    requires Source(src, size, height)
    requires forall r, c :: 0 <= r < height && 0 <= c < size ==> src[r][c] == v
    ensures forall r, c :: 0 <= r < height && 0 <= c < size ==> Blur(src, size, step, height, r, c) == v
  {
    forall r, c | 0 <= r < height && 0 <= c < size
      ensures Blur(src, size, step, height, r, c) == v
    {
      assert HorizontalSum(src[Up(r)], size, step, c) == 4 * v;
      assert HorizontalSum(src[r], size, step, c) == 4 * v;
      assert HorizontalSum(src[Down(r, height)], size, step, c) == 4 * v;
    }
  }

  // ---------------------------------------------------------------------
  // The incoming row

  /**
   * The source row the kernel sums into src2 for output row r, as written:
   * row + 1, unless row >= height - 2 computed in size_t, then height - 1.
   */
  function IncomingRowAsWritten(r: nat, height: nat): int
    requires r < height
  {
    if r >= (height - 2) % M64 then height - 1 else r + 1
  }

  /** The intended incoming row: the row below, clamped to the last row. */
  function IncomingRow(r: nat, height: nat): (i: nat)
    requires r < height
    ensures i < height && (i == r + 1 || (i == r && r == height - 1))
  {
    if r + 1 < height then r + 1 else height - 1
  }

  /** For two rows or more the test as written clamps as intended. */
  lemma IncomingRowAgrees(r: nat, height: nat)
    requires r < height && 2 <= height < M64
    ensures IncomingRowAsWritten(r, height) == IncomingRow(r, height) == Down(r, height)
  {
  }

  /** A one-row image: height - 2 wraps, and the row read is row 1, outside the image. */
  lemma OneRowReadsPastImage()
    ensures IncomingRowAsWritten(0, 1) == 1
    ensures IncomingRow(0, 1) == 0
  {
  }

  // ---------------------------------------------------------------------
  // Registers

  /** The byte at x of a row; a load past the row reads 0. */
  function At(row: seq<int>, x: int): int {
    if 0 <= x < |row| then row[x] else 0
  }

  /** The 1-2-1 sum of the bytes at l, c and rt. */
  function Tap(row: seq<int>, l: int, c: int, rt: int): int {
    At(row, l) + 2 * At(row, c) + At(row, rt)
  }

  /** A unaligned load of the A bytes at p. */
  function Load(row: seq<int>, p: int): (v: seq<int>)
    ensures |v| == A && forall i :: 0 <= i < A ==> v[i] == At(row, p + i)
  {
    seq(A, i => At(row, p + i))
  }

  /** The left neighbours of the first register: the first pixel stands in for the one before it. */
  function LoadBeforeFirst(row: seq<int>, step: nat): (v: seq<int>)
    ensures |v| == A && forall i :: 0 <= i < A ==> v[i] == At(row, if i < step then i else i - step)
  {
    seq(A, i => At(row, if i < step then i else i - step))
  }

  /** The right neighbours of the last register at p: the last pixel stands in for the one after it. */
  function LoadAfterLast(row: seq<int>, p: int, step: nat): (v: seq<int>)
    ensures |v| == A && forall i :: 0 <= i < A ==> v[i] == At(row, if i < A - step then p + i + step else p + i)
  {
    seq(A, i => At(row, if i < A - step then p + i + step else p + i))
  }

  /** LoadNose3: the left neighbours, the bytes and the right neighbours of the first register. */
  function LoadNose3(row: seq<int>, step: nat): seq<seq<int>> {
    [LoadBeforeFirst(row, step), Load(row, 0), Load(row, step)]
  }

  /** LoadBody3: the left neighbours, the bytes and the right neighbours of the register at p. */
  function LoadBody3(row: seq<int>, p: int, step: nat): seq<seq<int>> {
    [Load(row, p - step), Load(row, p), Load(row, p + step)]
  }

  /** LoadTail3: the same for the last register at p. */
  function LoadTail3(row: seq<int>, p: int, step: nat): seq<seq<int>> {
    [Load(row, p - step), Load(row, p), LoadAfterLast(row, p, step)]
  }

  /**
   * BinomialSumUnpackedU8 of both halves: _mm512_maddubs_epi16 of the left
   * and centre bytes with (1, 2), plus the right byte, in 16-bit lanes.
   */
  function BinomialSum(a: seq<seq<int>>): (s: seq<int>)
    requires |a| == 3 && |a[0]| == A && |a[1]| == A && |a[2]| == A
    ensures |s| == A && forall i :: 0 <= i < A ==> s[i] == a[0][i] + 2 * a[1][i] + a[2][i]
  {
    seq(A, i requires 0 <= i < A => a[0][i] + 2 * a[1][i] + a[2][i])
  }

  // ---------------------------------------------------------------------
  // Row buffers

  /** The length of a row buffer, AlignHi(size, A); its last register starts at bodySize = length - A. */
  function BodySize(size: nat): (b: nat)
    requires size >= A
    ensures b % A == 0 && size - A <= b < size && (size > A ==> A <= b)
  {
    var h := AlignHi(size, A);
    assert size > A ==> 2 * A <= h by {
      if size > A {
        StepWithin(A, h, A);
      }
    }
    h - A
  }

  /**
   * What BlurCol stores at position j of a row buffer: the first register
   * from LoadNose3, the registers up to bodySize from LoadBody3, and the last
   * register, from LoadTail3, holding the sums of the row's last A bytes.
   */
  function BufferValue(row: seq<int>, size: nat, step: nat, j: nat): int
    requires size >= A
  {
    var bodySize := BodySize(size);
    if j < A then Tap(row, if j < step then j else j - step, j, j + step)
    else if j < bodySize then Tap(row, j - step, j, j + step)
    else
      var i := j - bodySize;
      var x := size - A + i;
      Tap(row, x - step, x, if i < A - step then x + step else x)
  }

  /** A row buffer as BlurCol leaves it. */
  function RowSums(row: seq<int>, size: nat, step: nat): (b: seq<int>)
    requires size >= A
    ensures |b| == BodySize(size) + A && forall j :: 0 <= j < |b| ==> b[j] == BufferValue(row, size, step, j)
  {
    seq(BodySize(size) + A, j requires 0 <= j => BufferValue(row, size, step, j))
  }

  /** The geometry GaussianBlur3x3 requires: step bytes per pixel and a row longer than a register plus a pixel. */
  predicate Geometry(size: nat, step: nat) {
    1 <= step <= 4 && size >= A + step
  }

  /**
   * The row buffer holds the horizontal sums: at j for every byte before the
   * last register, and for the last register at bodySize + i the sum of byte
   * size - A + i.
   */
  lemma BufferHolds(row: seq<int>, size: nat, step: nat, j: nat)
    requires Geometry(size, step) && SourceRow(row, size) && j < BodySize(size) + A
    ensures j < size - A ==> BufferValue(row, size, step, j) == HorizontalSum(row, size, step, j)
    ensures BodySize(size) <= j ==>
              BufferValue(row, size, step, j) == HorizontalSum(row, size, step, size - A + j - BodySize(size))
  {
  }

  /** Every value of a row buffer lies between 0 and 4 * 255. */
  lemma BufferRange(row: seq<int>, size: nat, step: nat, j: nat)
    requires size >= A && Bytes(row)
    ensures 0 <= BufferValue(row, size, step, j) <= 4 * 255
  {
  }

  // ---------------------------------------------------------------------
  // Output

  /** 16-bit lanes wrap modulo 2^16. */
  const M16: nat := 0x1_0000

  /** DivideBy16: _mm512_srli_epi16(_mm512_add_epi16(v, 8), 4). */
  function DivideBy16(v: int): int {
    ((v + 8) % M16) / 16
  }

  /** _mm512_packus_epi16: a 16-bit lane saturated to an unsigned byte. */
  function PackUS(v: int): int {
    if v < 0 then 0 else if v > 255 then 255 else v
  }

  /** BlurRow16 and the pack of BlurRow at position j of the three row buffers. */
  function OutValue(b0: seq<int>, b1: seq<int>, b2: seq<int>, j: nat): int
    requires j < |b0| && j < |b1| && j < |b2|
  {
    PackUS(DivideBy16((b0[j] + 2 * b1[j] + b2[j]) % M16))
  }

  /** BlurRow: the A output bytes from position offset of the three row buffers. */
  function BlurRow(b0: seq<int>, b1: seq<int>, b2: seq<int>, offset: nat): (v: seq<int>)
    requires offset + A <= |b0| && offset + A <= |b1| && offset + A <= |b2|
    ensures |v| == A && forall i :: 0 <= i < A ==> v[i] == OutValue(b0, b1, b2, offset + i)
  {
    seq(A, i requires 0 <= i < A => OutValue(b0, b1, b2, offset + i))
  }

  /**
   * Output byte c of a row: the registers before bodySize and then the last
   * register, stored at size - A over the bytes already written.
   */
  function OutAt(b0: seq<int>, b1: seq<int>, b2: seq<int>, size: nat, c: nat): int
    requires size >= A && c < size
    requires |b0| == BodySize(size) + A && |b1| == |b0| && |b2| == |b0|
  {
    if c >= size - A then OutValue(b0, b1, b2, BodySize(size) + c - (size - A)) else OutValue(b0, b1, b2, c)
  }

  /** With 1-2-1 sums of bytes no 16-bit lane wraps and no pack saturates. */
  lemma OutValueExact(s0: int, s1: int, s2: int)
    requires 0 <= s0 <= 4 * 255 && 0 <= s1 <= 4 * 255 && 0 <= s2 <= 4 * 255
    ensures PackUS(DivideBy16((s0 + 2 * s1 + s2) % M16)) == (s0 + 2 * s1 + s2 + 8) / 16
  {
  }

  /** An output row from the buffers of the rows above, at and below r is the blur of row r. */
  lemma OutAtBlur(src: seq<seq<int>>, size: nat, step: nat, height: nat, r: nat, c: nat,
                  b0: seq<int>, b1: seq<int>, b2: seq<int>)
    requires Geometry(size, step) && Source(src, size, height) && r < height && c < size
    requires b0 == RowSums(src[Up(r)], size, step) && b1 == RowSums(src[r], size, step)
    requires b2 == RowSums(src[Down(r, height)], size, step)
    ensures OutAt(b0, b1, b2, size, c) == Blur(src, size, step, height, r, c)
  {
    var j := if c >= size - A then BodySize(size) + c - (size - A) else c;
    BufferHolds(src[Up(r)], size, step, j);
    BufferHolds(src[r], size, step, j);
    BufferHolds(src[Down(r, height)], size, step, j);
    HorizontalSumRange(src[Up(r)], size, step, c);
    HorizontalSumRange(src[r], size, step, c);
    HorizontalSumRange(src[Down(r, height)], size, step, c);
    OutValueExact(b0[j], b1[j], b2[j]);
  }

  /** The whole output row r is the blur of row r. */
  lemma RowBlur(src: seq<seq<int>>, size: nat, step: nat, height: nat, r: nat,
                b0: seq<int>, b1: seq<int>, b2: seq<int>)
    requires Geometry(size, step) && Source(src, size, height) && r < height
    requires b0 == RowSums(src[Up(r)], size, step) && b1 == RowSums(src[r], size, step)
    requires b2 == RowSums(src[Down(r, height)], size, step)
    ensures forall c :: 0 <= c < size ==> OutAt(b0, b1, b2, size, c) == Blur(src, size, step, height, r, c)
  {
    forall c | 0 <= c < size
      ensures OutAt(b0, b1, b2, size, c) == Blur(src, size, step, height, r, c)
    {
      OutAtBlur(src, size, step, height, r, c, b0, b1, b2);
    }
  }

  // ---------------------------------------------------------------------
  // Kernels

  /** The register of sums the nose, a body or the tail register stores is its slice of the row buffer. */
  lemma NoseValues(row: seq<int>, size: nat, step: nat)
    requires Geometry(size, step)
    ensures BinomialSum(LoadNose3(row, step)) == RowSums(row, size, step)[..A]
  {
  }

  lemma BodyValues(row: seq<int>, size: nat, step: nat, col: nat)
    requires Geometry(size, step) && A <= col && col + A <= BodySize(size)
    ensures BinomialSum(LoadBody3(row, col, step)) == RowSums(row, size, step)[col..col + A]
  {
  }

  lemma TailValues(row: seq<int>, size: nat, step: nat)
    requires Geometry(size, step)
    ensures BinomialSum(LoadTail3(row, size - A, step)) == RowSums(row, size, step)[BodySize(size)..]
  {
  }

  /** Store<true>(b, ...) of both halves: the register's 16-bit sums written from off. */
  method StoreSums(buf: array<int>, off: nat, v: seq<int>)
    requires off + |v| <= buf.Length
    modifies buf
    ensures forall k :: 0 <= k < buf.Length ==> buf[k] == if off <= k < off + |v| then v[k - off] else old(buf[k])
  {
    forall k | off <= k < off + |v| {
      buf[k] := v[k - off];
    }
  }

  /**
   * BlurCol<align, step>: the horizontal sums of a source row into the row
   * buffer at off, from the nose, body and tail registers.
   */
  method BlurCol(row: seq<int>, size: nat, step: nat, buf: array<int>, off: nat)
    requires Geometry(size, step) && off + BodySize(size) + A <= buf.Length
    modifies buf
    ensures buf[off..off + BodySize(size) + A] == RowSums(row, size, step)
    ensures forall k :: 0 <= k < buf.Length && !(off <= k < off + BodySize(size) + A) ==> buf[k] == old(buf[k])
  {
    var bodySize := BodySize(size);
    ghost var sums := RowSums(row, size, step);
    NoseValues(row, size, step);
    StoreSums(buf, off, BinomialSum(LoadNose3(row, step)));
    var col := A;
    while col < bodySize
      invariant A <= col <= bodySize && col % A == 0
      invariant forall k :: 0 <= k < buf.Length ==> buf[k] == if off <= k < off + col then sums[k - off] else old(buf[k])
    {
      StepWithin(col, bodySize, A);
      BodyValues(row, size, step, col);
      StoreSums(buf, off + col, BinomialSum(LoadBody3(row, col, step)));
      col := col + A;
    }
    TailValues(row, size, step);
    StoreSums(buf, off + bodySize, BinomialSum(LoadTail3(row, size - A, step)));
    assert buf[off..off + bodySize + A] == sums;
  }

  /** Store<align>(dst + col, ...): A output bytes written into row r from col. */
  method StoreRow(dst: array2<int>, r: nat, col: nat, v: seq<int>)
    requires r < dst.Length0 && col + |v| <= dst.Length1
    modifies dst
    ensures forall i, c :: 0 <= i < dst.Length0 && 0 <= c < dst.Length1 ==>
              dst[i, c] == if i == r && col <= c < col + |v| then v[c - col] else old(dst[i, c])
  {
    forall c | col <= c < col + |v| {
      dst[r, c] := v[c - col];
    }
  }

  /** The output loop of a row: BlurRow stored at every register before bodySize, then at size - A. */
  method StoreBlurredRow(dst: array2<int>, r: nat, b0: seq<int>, b1: seq<int>, b2: seq<int>, size: nat)
    requires size >= A && r < dst.Length0 && size <= dst.Length1
    requires |b0| == BodySize(size) + A && |b1| == |b0| && |b2| == |b0|
    modifies dst
    ensures forall i, c :: 0 <= i < dst.Length0 && 0 <= c < dst.Length1 ==>
              dst[i, c] == if i == r && c < size then OutAt(b0, b1, b2, size, c) else old(dst[i, c])
  {
    var bodySize := BodySize(size);
    var col := 0;
    while col < bodySize
      invariant col <= bodySize && col % A == 0
      invariant forall i, c :: 0 <= i < dst.Length0 && 0 <= c < dst.Length1 ==>
                  dst[i, c] == if i == r && c < col then OutValue(b0, b1, b2, c) else old(dst[i, c])
    {
      StepWithin(col, bodySize, A);
      StoreRow(dst, r, col, BlurRow(b0, b1, b2, col));
      col := col + A;
    }
    StoreRow(dst, r, size - A, BlurRow(b0, b1, b2, bodySize));
  }

  /** memcpy of n buffer values from off to to. */
  method Copy(buf: array<int>, from: nat, to: nat, n: nat)
    requires from + n <= buf.Length && to + n <= buf.Length && (from + n <= to || to + n <= from)
    modifies buf
    ensures buf[to..to + n] == old(buf[from..from + n])
    ensures forall k :: 0 <= k < buf.Length && !(to <= k < to + n) ==> buf[k] == old(buf[k])
  {
    forall k | to <= k < to + n {
      buf[k] := buf[from + k - to];
    }
  }

  /** The three row buffers of uint16_t in one allocation, and where each starts. */
  class Buffer {
    /** The length of each row buffer. */
    const width: nat
    const data: array<int>
    var src0: nat
    var src1: nat
    var src2: nat

    /** An offset where one of the three buffers starts. */
    predicate Slot(o: nat)
      reads this
    {
      o == 0 || o == width || o == 2 * width
    }

    /** The three pointers name the three buffers, each once. */
    ghost predicate Valid()
      reads this
    {
      data.Length == 3 * width && Slot(src0) && Slot(src1) && Slot(src2) &&
      src0 != src1 && src1 != src2 && src0 != src2
    }

    constructor(width: nat)
      requires width > 0
      ensures this.width == width && Valid() && fresh(data)
      ensures src0 == 0 && src1 == width && src2 == 2 * width
    {
      this.width := width;
      data := new int[3 * width];
      src0, src1, src2 := 0, width, 2 * width;
    }

    /** The buffers at src0 and src1 hold above and at. */
    ghost predicate Holds(above: seq<int>, at: seq<int>)
      reads this, data
    {
      Valid() && |above| == width && |at| == width &&
      data[src0..src0 + width] == above && data[src1..src1 + width] == at
    }

    /** Swap(src0, src2) and then Swap(src0, src1): the buffers move up one row. */
    method Rotate()
      requires Valid()
      modifies this
      ensures Valid() && src0 == old(src1) && src1 == old(src2) && src2 == old(src0)
    {
      src0, src2 := src2, src0;
      src0, src1 := src1, src0;
    }
  }

  /** Row r of the source; a zero-height image has none, and its first row reads as empty. */
  function Row(src: seq<seq<int>>, r: nat): seq<int> {
    if r < |src| then src[r] else []
  }

  /** Before the row loop: the first row summed into src0 and copied to src1. */
  method FirstRow(row: seq<int>, size: nat, step: nat, buffer: Buffer)
    requires Geometry(size, step) && buffer.width == BodySize(size) + A
    requires buffer.Valid() && buffer.src0 == 0 && buffer.src1 == buffer.width
    modifies buffer.data
    ensures buffer.Holds(RowSums(row, size, step), RowSums(row, size, step))
  {
    var w := buffer.width;
    BlurCol(row, size, step, buffer.data, buffer.src0);
    Copy(buffer.data, buffer.src0, buffer.src1, w);
  }

  /**
   * One pass of the row loop: the incoming row summed into src2, output row
   * row blurred out of the three buffers, and the buffers moved up one row.
   */
  method BlurNextRow(src: seq<seq<int>>, size: nat, step: nat, height: nat, row: nat, buffer: Buffer, dst: array2<int>)
    requires Geometry(size, step) && Source(src, size, height) && row < height
    requires dst.Length0 == height && size <= dst.Length1
    requires buffer.Valid() && buffer.width == BodySize(size) + A
    requires buffer.Holds(RowSums(src[Up(row)], size, step), RowSums(src[row], size, step))
    modifies buffer, buffer.data, dst
    ensures buffer.Valid() && buffer.width == BodySize(size) + A
    ensures row + 1 < height ==> buffer.Holds(RowSums(src[row], size, step), RowSums(src[row + 1], size, step))
    ensures forall r, c :: 0 <= r < height && 0 <= c < dst.Length1 ==>
              dst[r, c] == if r == row && c < size then Blur(src, size, step, height, r, c) else old(dst[r, c])
  {
    var w := buffer.width;
    var incoming := IncomingRow(row, height);
    BlurCol(src[incoming], size, step, buffer.data, buffer.src2);
    var b0 := buffer.data[buffer.src0..buffer.src0 + w];
    var b1 := buffer.data[buffer.src1..buffer.src1 + w];
    var b2 := buffer.data[buffer.src2..buffer.src2 + w];
    assert b0 == RowSums(src[Up(row)], size, step);
    assert b1 == RowSums(src[row], size, step);
    RowBlur(src, size, step, height, row, b0, b1, b2);
    StoreBlurredRow(dst, row, b0, b1, b2, size);
    buffer.Rotate();
  }

  /**
   * GaussianBlur3x3<align, step> with step = channelCount: the first row
   * summed into src0 and copied to src1, then the row loop.  Every byte of
   * the size = step * width bytes of every row becomes its blur; the rest of
   * dst is left as it was.
   */
  method GaussianBlur3x3(src: seq<seq<int>>, width: nat, height: nat, step: nat, dst: array2<int>)
    requires Geometry(step * width, step) && Source(src, step * width, height)
    requires dst.Length0 == height && step * width <= dst.Length1
    modifies dst
    ensures forall r, c :: 0 <= r < height && 0 <= c < dst.Length1 ==>
              dst[r, c] == if c < step * width then Blur(src, step * width, step, height, r, c) else old(dst[r, c])
  {
    var size := step * width;
    var w := BodySize(size) + A;
    var buffer := new Buffer(w);
    FirstRow(Row(src, 0), size, step, buffer);
    var row := 0;
    while row < height
      invariant row <= height && buffer.Valid() && buffer.width == w && fresh(buffer) && fresh(buffer.data)
      invariant row < height ==> buffer.Holds(RowSums(src[Up(row)], size, step), RowSums(src[row], size, step))
      invariant forall r, c :: 0 <= r < height && 0 <= c < dst.Length1 ==>
                  dst[r, c] == if r < row && c < size then Blur(src, size, step, height, r, c) else old(dst[r, c])
    {
      BlurNextRow(src, size, step, height, row, buffer, dst);
      row := row + 1;
    }
  }
}
