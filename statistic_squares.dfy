// SquareSum and CorrelationSum of the Avx512bw statistics: the sum of
// a[r][c] * b[r][c] over an image (b = a for SquareSum), in 64 bits.
//
// Each 64-byte register is unpacked to 16-bit lanes and multiplied with
// _mm512_madd_epi16, giving sixteen 32-bit lanes of four products each.
// Rows are added into four registers of 32-bit lanes, which wrap; every
// blockSize rows the four are added, widened with HorizontalSum32 and
// added into a 64-bit register.  The block size is meant to keep the
// 32-bit lanes from wrapping.

module StatisticSquares {
  import opened Lanes
  import opened Extract
  import opened ByteLanes
  import opened Statistic

  /** 256 * 256 * F: the block budget the block size is derived from. */
  const BlockBudget: nat := 256 * 256 * F

  /** The greatest product of two bytes. */
  const MaxProduct: nat := 255 * 255

  // ---------------------------------------------------------------------
  // One register

  /**
   * The bytes lane k of the madd of the unpacks covers: the unpacks take
   * bytes 0..7 (lo) and 8..15 (hi) of each 128-bit quarter b = k / 4 to
   * 16-bit lanes, and madd adds neighbouring pairs, so lane k = 4b + j
   * covers bytes 16b + 2j, 16b + 2j + 1, 16b + 8 + 2j and 16b + 9 + 2j.
   */
  function MaddByte(k: nat, t: nat): (i: nat)
    requires k < 16 && t < 4
    ensures i < A
  {
    16 * (k / 4) + (if t < 2 then 0 else 8) + 2 * (k % 4) + t % 2
  }

  /** The lane-wise products. */
  function Products(x: seq<int>, y: seq<int>): (p: seq<int>)
    requires |x| == |y|
    ensures |p| == |x| && forall i :: 0 <= i < |x| ==> p[i] == x[i] * y[i]
  {
    seq(|x|, i requires 0 <= i < |x| => x[i] * y[i])
  }

  /** The dot product: the sum of the lane-wise products. */
  function Dot(x: seq<int>, y: seq<int>): int
    requires |x| == |y|
  {
    IntSum(Products(x, y))
  }

  /** The 32-bit lanes of a madd of the unpacks of 64 byte products p: lane k adds the four products it covers. */
  function MaddLanes(p: seq<int>): (r: seq<int>)
    requires |p| == A
    ensures |r| == 16
  {
    seq(16, k requires 0 <= k < 16 => p[MaddByte(k, 0)] + p[MaddByte(k, 1)] + p[MaddByte(k, 2)] + p[MaddByte(k, 3)])
  }

  /** CorrelationSum(x, y): madd of the lo unpacks plus madd of the hi unpacks; SquareSum(v) is Madd(v, v). */
  function Madd(x: seq<int>, y: seq<int>): (r: seq<int>)
    requires |x| == A && |y| == A
    ensures |r| == 16
  {
    MaddLanes(Products(x, y))
  }

  /** Lane 4b + j of quarter b covers bytes 16b + 2j, 16b + 2j + 1, 16b + 2j + 8 and 16b + 2j + 9. */
  lemma MaddLaneBytes(p: seq<int>, b: nat, j: nat)
    requires |p| == A && b < 4 && j < 4
    ensures var i := 16 * b + 2 * j;
            MaddLanes(p)[4 * b + j] == p[i] + p[i + 1] + p[i + 8] + p[i + 9]
  {
    var k := 4 * b + j;
    assert k / 4 == b && k % 4 == j;
  }

  /** The four lanes of 128-bit quarter b hold the sixteen products of bytes 16b .. 16b + 15. */
  lemma MaddQuarter(p: seq<int>, b: nat)
    requires |p| == A && b < 4
    ensures MaddLanes(p)[4 * b] + MaddLanes(p)[4 * b + 1] + MaddLanes(p)[4 * b + 2] + MaddLanes(p)[4 * b + 3]
            == IntSum(p[16 * b..16 * b + 16])
  {
    IntSum16(p[16 * b..16 * b + 16]);
    MaddLaneBytes(p, b, 0);
    MaddLaneBytes(p, b, 1);
    MaddLaneBytes(p, b, 2);
    MaddLaneBytes(p, b, 3);
  }

  /** Every product lands in exactly one lane: the lanes add up to the sum of the 64 products. */
  lemma MaddLanesTotal(p: seq<int>)
    requires |p| == A
    ensures IntSum(MaddLanes(p)) == IntSum(p)
  {
    IntSum16(MaddLanes(p));
    MaddQuarter(p, 0);
    MaddQuarter(p, 1);
    MaddQuarter(p, 2);
    MaddQuarter(p, 3);
    IntSumQuarters(p);
  }

  /** A sum of 64 lanes is the sum of its four quarters. */
  lemma IntSumQuarters(p: seq<int>)
    requires |p| == A
    ensures IntSum(p) == IntSum(p[0..16]) + IntSum(p[16..32]) + IntSum(p[32..48]) + IntSum(p[48..64])
  {
    IntSumSplit(p, 32);
    IntSumSplit(p[..32], 16);
    IntSumSplit(p[32..], 16);
    assert p[..32][..16] == p[0..16] && p[..32][16..] == p[16..32];
    assert p[32..][..16] == p[32..48] && p[32..][16..] == p[48..64];
  }

  /** A lane sum splits at i. */
  lemma IntSumSplit(p: seq<int>, i: nat)
    requires i <= |p|
    ensures IntSum(p) == IntSum(p[..i]) + IntSum(p[i..])
  {
    calc {
      IntSum(p);
      { assert p == p[..i] + p[i..]; }
      IntSum(p[..i] + p[i..]);
      { IntSumConcat(p[..i], p[i..]); }
      IntSum(p[..i]) + IntSum(p[i..]);
    }
  }

  /** The lanes of CorrelationSum(x, y) add up to the dot product of the 64 bytes. */
  lemma MaddTotal(x: seq<int>, y: seq<int>)
    requires |x| == A && |y| == A
    ensures IntSum(Madd(x, y)) == Dot(x, y)
  {
    MaddLanesTotal(Products(x, y));
  }

  /** Byte lanes keep every lane of CorrelationSum within four products of bytes. */
  lemma MaddBound(x: seq<int>, y: seq<int>)
    requires |x| == A && |y| == A && Bytes(x) && Bytes(y)
    ensures forall k :: 0 <= k < 16 ==> 0 <= Madd(x, y)[k] <= 4 * MaxProduct
  {
    var p := Products(x, y);
    forall i | 0 <= i < A
      ensures 0 <= p[i] <= MaxProduct
    {
      ByteProduct(x[i], y[i]);
    }
  }

  lemma ByteProduct(u: int, v: int)
    requires 0 <= u < 256 && 0 <= v < 256
    ensures 0 <= u * v <= MaxProduct
  {
    assert u * v <= u * 255 <= 255 * 255;
  }

  // ---------------------------------------------------------------------
  // A row: its registers, the last one masked

  /** The registers a row of width bytes takes: AlignHi(width, A) / A. */
  function NRegs(width: nat): nat {
    AlignHi(width, A) / A
  }

  /** The registers cover the row: register j < NRegs(width) starts inside it. */
  lemma NRegsCover(width: nat, j: nat)
    ensures NRegs(width) * A == AlignHi(width, A)
    ensures j < NRegs(width) <==> j * A < width
  {
    var h := AlignHi(width, A);
    assert h == h / A * A;
    if j < NRegs(width) {
      assert j * A <= (NRegs(width) - 1) * A;
    } else {
      assert j * A >= NRegs(width) * A;
    }
  }

  /** The bytes register j of a row loads: min(A, width - jA). */
  function RegBytes(width: nat, j: nat): (n: nat)
    requires j * A < width
    ensures 0 < n <= A && j * A + n <= width
  {
    if width - j * A < A then width - j * A else A
  }

  /** Register j of a row pair: CorrelationSum of the masked loads at jA (SquareSum when a == b). */
  function Reg(a: seq<int>, b: seq<int>, width: nat, j: nat): (r: seq<int>)
    requires width <= |a| && width <= |b| && j * A < width
    ensures |r| == 16
  {
    var c, n := j * A, RegBytes(width, j);
    Madd(LoadBytes(a, c, n), LoadBytes(b, c, n))
  }

  /** Every lane of a register of bytes is at most four byte products. */
  lemma RegBound(a: seq<int>, b: seq<int>, width: nat, j: nat)
    requires ByteRow(a, width) && ByteRow(b, width) && j * A < width
    ensures forall k :: 0 <= k < 16 ==> 0 <= Reg(a, b, width, j)[k] <= 4 * MaxProduct
  {
    var c, n := j * A, RegBytes(width, j);
    MaddBound(LoadBytes(a, c, n), LoadBytes(b, c, n));
  }

  // ---------------------------------------------------------------------
  // Adding registers lane by lane

  /** Every register holds 16 lanes. */
  predicate Regs16(regs: seq<seq<int>>) {
    forall i :: 0 <= i < |regs| ==> |regs[i]| == 16
  }

  /** The exact 32-bit lanes after adding the registers regs one by one into a zeroed register. */
  function LaneFold(regs: seq<seq<int>>): (r: seq<int>)
    requires Regs16(regs)
    ensures |r| == 16
  {
    if |regs| == 0 then Zeros(16) else Plus(LaneFold(regs[..|regs| - 1]), regs[|regs| - 1])
  }

  /** The totals of the registers, one per register. */
  function RegTotals(regs: seq<seq<int>>): (t: seq<int>)
    ensures |t| == |regs| && forall i :: 0 <= i < |regs| ==> t[i] == IntSum(regs[i])
  {
    seq(|regs|, i requires 0 <= i < |regs| => IntSum(regs[i]))
  }

  /** Adding registers lane by lane keeps their grand total. */
  lemma {:induction false} LaneFoldTotal(regs: seq<seq<int>>)
    requires Regs16(regs)
    ensures IntSum(LaneFold(regs)) == IntSum(RegTotals(regs))
  {
    if |regs| == 0 {
      IntSumZeros(16);
    } else {
      var n := |regs| - 1;
      LaneFoldTotal(regs[..n]);
      PlusSum(LaneFold(regs[..n]), regs[n]);
      assert RegTotals(regs)[..n] == RegTotals(regs[..n]);
    }
  }

  /** Registers whose lanes are at most m add up to lanes of at most |regs| * m. */
  lemma {:induction false} LaneFoldBound(regs: seq<seq<int>>, m: nat)
    requires Regs16(regs)
    requires forall i, k :: 0 <= i < |regs| && 0 <= k < 16 ==> 0 <= regs[i][k] <= m
    ensures forall k :: 0 <= k < 16 ==> 0 <= LaneFold(regs)[k] <= |regs| * m
  {
    if |regs| > 0 {
      var n := |regs| - 1;
      LaneFoldBound(regs[..n], m);
      assert n * m + m == |regs| * m;
    }
  }

  // ---------------------------------------------------------------------
  // A row

  /** The registers of a row pair, one per A bytes, the last one masked. */
  function RowRegs(a: seq<int>, b: seq<int>, width: nat): (regs: seq<seq<int>>)
    requires width <= |a| && width <= |b|
    ensures |regs| == NRegs(width) && Regs16(regs)
  {
    seq(NRegs(width), j requires 0 <= j < NRegs(width) => NRegsCover(width, j); Reg(a, b, width, j))
  }

  /** The exact 32-bit lanes one row adds. */
  function RowLanes(a: seq<int>, b: seq<int>, width: nat): (r: seq<int>)
    requires width <= |a| && width <= |b|
    ensures |r| == 16
  {
    LaneFold(RowRegs(a, b, width))
  }

  /** The first j registers cover the bytes [0, min(jA, width)). */
  function Covered(width: nat, j: nat): (c: nat)
    ensures c <= width
  {
    if j * A < width then j * A else width
  }

  /** The dot product of the first m bytes of a and b. */
  function PrefixDot(a: seq<int>, b: seq<int>, m: nat): int
    requires m <= |a| && m <= |b|
  {
    if m == 0 then 0 else PrefixDot(a, b, m - 1) + a[m - 1] * b[m - 1]
  }

  /** A dot product of a slice is the difference of two prefix dot products. */
  lemma {:induction false} DotRange(a: seq<int>, b: seq<int>, c: nat, n: nat)
    requires c + n <= |a| && c + n <= |b|
    ensures Dot(a[c..c + n], b[c..c + n]) == PrefixDot(a, b, c + n) - PrefixDot(a, b, c)
  {
    if n > 0 {
      DotRange(a, b, c, n - 1);
      var x, y := a[c..c + n], b[c..c + n];
      assert Products(x, y)[..n - 1] == Products(a[c..c + n - 1], b[c..c + n - 1]);
    }
  }

  /** Register j holds the dot product of the bytes it loads. */
  lemma RegTotal(a: seq<int>, b: seq<int>, width: nat, j: nat)
    requires width <= |a| && width <= |b| && j * A < width
    ensures IntSum(Reg(a, b, width, j)) == PrefixDot(a, b, j * A + RegBytes(width, j)) - PrefixDot(a, b, j * A)
  {
    var c, n := j * A, RegBytes(width, j);
    var x, y := LoadBytes(a, c, n), LoadBytes(b, c, n);
    MaddTotal(x, y);
    assert Products(x, y) == Products(a[c..c + n], b[c..c + n]) + Zeros(A - n);
    IntSumConcat(Products(a[c..c + n], b[c..c + n]), Zeros(A - n));
    IntSumZeros(A - n);
    DotRange(a, b, c, n);
  }

  /** Register j holds the dot product of the bytes between Covered(width, j) and Covered(width, j + 1). */
  lemma RegCovered(a: seq<int>, b: seq<int>, width: nat, j: nat)
    requires width <= |a| && width <= |b| && j * A < width
    ensures IntSum(Reg(a, b, width, j)) == PrefixDot(a, b, Covered(width, j + 1)) - PrefixDot(a, b, Covered(width, j))
  {
    RegTotal(a, b, width, j);
    assert (j + 1) * A == j * A + A;
    assert Covered(width, j) == j * A && Covered(width, j + 1) == j * A + RegBytes(width, j);
  }

  /** Totals t[i] that each cover Covered(i) .. Covered(i + 1) add up to the bytes the first j cover. */
  lemma {:induction false} Telescope(a: seq<int>, b: seq<int>, width: nat, t: seq<int>, j: nat)
    requires width <= |a| && width <= |b| && j <= |t|
    requires forall i :: 0 <= i < |t| ==> t[i] == PrefixDot(a, b, Covered(width, i + 1)) - PrefixDot(a, b, Covered(width, i))
    ensures IntSum(t[..j]) == PrefixDot(a, b, Covered(width, j))
  {
    if j > 0 {
      Telescope(a, b, width, t, j - 1);
      assert t[..j][..j - 1] == t[..j - 1];
    }
  }

  /** A row's lanes add up to its dot product. */
  lemma RowTotal(a: seq<int>, b: seq<int>, width: nat)
    requires width <= |a| && width <= |b|
    ensures IntSum(RowLanes(a, b, width)) == PrefixDot(a, b, width)
  {
    var regs := RowRegs(a, b, width);
    var t := RegTotals(regs);
    LaneFoldTotal(regs);
    forall i | 0 <= i < |t|
      ensures t[i] == PrefixDot(a, b, Covered(width, i + 1)) - PrefixDot(a, b, Covered(width, i))
    {
      NRegsCover(width, i);
      RegCovered(a, b, width, i);
    }
    Telescope(a, b, width, t, |t|);
    assert t[..|t|] == t;
    NRegsCover(width, NRegs(width));
  }

  /** Every lane a row of bytes adds is at most four byte products per register. */
  lemma RowBound(a: seq<int>, b: seq<int>, width: nat)
    requires ByteRow(a, width) && ByteRow(b, width)
    ensures forall k :: 0 <= k < 16 ==> 0 <= RowLanes(a, b, width)[k] <= NRegs(width) * (4 * MaxProduct)
  {
    var regs := RowRegs(a, b, width);
    forall i, k | 0 <= i < |regs| && 0 <= k < 16
      ensures 0 <= regs[i][k] <= 4 * MaxProduct
    {
      NRegsCover(width, i);
      RegBound(a, b, width, i);
    }
    LaneFoldBound(regs, 4 * MaxProduct);
  }

  // ---------------------------------------------------------------------
  // Blocks of rows

  /** The lanes each of rows [lo, hi) adds. */
  function BlockRows(xs: seq<seq<int>>, ys: seq<seq<int>>, width: nat, lo: nat, hi: nat): (rows: seq<seq<int>>)
    requires lo <= hi && Image(xs, width, hi) && Image(ys, width, hi)
    ensures |rows| == hi - lo
    ensures forall i :: 0 <= i < hi - lo ==> rows[i] == RowLanes(xs[lo + i], ys[lo + i], width)
    ensures Regs16(rows)
  {
    seq(hi - lo, i requires 0 <= i < hi - lo => RowLanes(xs[lo + i], ys[lo + i], width))
  }

  /** The exact 32-bit lanes rows [lo, hi) add into zeroed registers. */
  function BlockLanes(xs: seq<seq<int>>, ys: seq<seq<int>>, width: nat, lo: nat, hi: nat): (r: seq<int>)
    requires lo <= hi && Image(xs, width, hi) && Image(ys, width, hi)
    ensures |r| == 16
  {
    LaneFold(BlockRows(xs, ys, width, lo, hi))
  }

  /** The dot products of rows [lo, hi), one per row. */
  function RowDots(xs: seq<seq<int>>, ys: seq<seq<int>>, width: nat, lo: nat, hi: nat): (d: seq<int>)
    requires lo <= hi && Image(xs, width, hi) && Image(ys, width, hi)
    ensures |d| == hi - lo
  {
    seq(hi - lo, i requires 0 <= i < hi - lo => PrefixDot(xs[lo + i], ys[lo + i], width))
  }

  /** The dot product of rows [lo, hi) of a and b: SquareSum when a == b, CorrelationSum otherwise. */
  function RowsDot(xs: seq<seq<int>>, ys: seq<seq<int>>, width: nat, lo: nat, hi: nat): int
    requires lo <= hi && Image(xs, width, hi) && Image(ys, width, hi)
  {
    IntSum(RowDots(xs, ys, width, lo, hi))
  }

  /** The exact lanes of a block add up to the dot product of its rows. */
  lemma BlockLanesTotal(xs: seq<seq<int>>, ys: seq<seq<int>>, width: nat, lo: nat, hi: nat)
    requires lo <= hi && Image(xs, width, hi) && Image(ys, width, hi)
    ensures IntSum(BlockLanes(xs, ys, width, lo, hi)) == RowsDot(xs, ys, width, lo, hi)
  {
    var rows := BlockRows(xs, ys, width, lo, hi);
    LaneFoldTotal(rows);
    BlockRowTotals(xs, ys, width, lo, hi);
  }

  /** Each row's lanes add up to the row's dot product. */
  lemma BlockRowTotals(xs: seq<seq<int>>, ys: seq<seq<int>>, width: nat, lo: nat, hi: nat)
    requires lo <= hi && Image(xs, width, hi) && Image(ys, width, hi)
    ensures RegTotals(BlockRows(xs, ys, width, lo, hi)) == RowDots(xs, ys, width, lo, hi)
  {
    var rows := BlockRows(xs, ys, width, lo, hi);
    forall i | 0 <= i < hi - lo
      ensures RegTotals(rows)[i] == RowDots(xs, ys, width, lo, hi)[i]
    {
      RowTotal(xs[lo + i], ys[lo + i], width);
    }
  }

  /** A lane of a block of bytes is at most the block's rows times what a row can add. */
  lemma BlockLanesBound(xs: seq<seq<int>>, ys: seq<seq<int>>, width: nat, lo: nat, hi: nat)
    requires lo <= hi && Image(xs, width, hi) && Image(ys, width, hi)
    ensures forall k :: 0 <= k < 16 ==> 0 <= BlockLanes(xs, ys, width, lo, hi)[k] <= (hi - lo) * (NRegs(width) * (4 * MaxProduct))
  {
    var rows := BlockRows(xs, ys, width, lo, hi);
    forall i, k | 0 <= i < |rows| && 0 <= k < 16
      ensures 0 <= rows[i][k] <= NRegs(width) * (4 * MaxProduct)
    {
      RowBound(xs[lo + i], ys[lo + i], width);
    }
    LaneFoldBound(rows, NRegs(width) * (4 * MaxProduct));
  }

  /** The dot product of rows splits at mid. */
  lemma RowsDotSplit(xs: seq<seq<int>>, ys: seq<seq<int>>, width: nat, lo: nat, mid: nat, hi: nat)
    requires lo <= mid <= hi && Image(xs, width, hi) && Image(ys, width, hi)
    ensures RowsDot(xs, ys, width, lo, hi) == RowsDot(xs, ys, width, lo, mid) + RowsDot(xs, ys, width, mid, hi)
  {
    assert RowDots(xs, ys, width, lo, hi) == RowDots(xs, ys, width, lo, mid) + RowDots(xs, ys, width, mid, hi);
    IntSumConcat(RowDots(xs, ys, width, lo, mid), RowDots(xs, ys, width, mid, hi));
  }

  /** The lanes reduced modulo 2^32: what the 32-bit registers hold. */
  function Wrapped(e: seq<int>): (r: seq<int>)
    ensures |r| == |e| && forall k :: 0 <= k < |e| ==> r[k] == e[k] % M32
  {
    seq(|e|, k requires 0 <= k < |e| => e[k] % M32)
  }

  /** Lanes below 2^32 do not wrap. */
  lemma WrappedSmall(e: seq<int>)
    requires Below(e, M32)
    ensures Wrapped(e) == e
  {
    forall k | 0 <= k < |e| ensures Wrapped(e)[k] == e[k] {
      SmallMod(e[k], M32);
    }
  }

  /** What one block adds to the 64-bit total: the sum of its wrapped 32-bit lanes. */
  function BlockOut(xs: seq<seq<int>>, ys: seq<seq<int>>, width: nat, lo: nat, hi: nat): int
    requires lo <= hi && Image(xs, width, hi) && Image(ys, width, hi)
  {
    IntSum(Wrapped(BlockLanes(xs, ys, width, lo, hi)))
  }

  /** The first row of block blk before clamping, blk * blockSize, counted block by block. */
  function BlockStart(blockSize: nat, blk: nat): nat
  {
    if blk == 0 then 0 else BlockStart(blockSize, blk - 1) + blockSize
  }

  /** BlockStart is the source's block * blockSize. */
  lemma {:induction false} BlockStartIsProduct(blockSize: nat, blk: nat)
    ensures BlockStart(blockSize, blk) == blk * blockSize
  {
    if blk > 0 {
      BlockStartIsProduct(blockSize, blk - 1);
      assert (blk - 1) * blockSize + blockSize == blk * blockSize;
    }
  }

  /** The first row of block blk of blockSize rows, clamped to height. */
  function BlockLo(height: nat, blockSize: nat, blk: nat): (r: nat)
    ensures r <= height
  {
    var start := BlockStart(blockSize, blk);
    if start < height then start else height
  }

  /** The row after block blk: min(blk * blockSize + blockSize, height). */
  function BlockHi(height: nat, blockSize: nat, blk: nat): (r: nat)
    ensures BlockLo(height, blockSize, blk) <= r <= height
    ensures r - BlockLo(height, blockSize, blk) <= blockSize
  {
    var start := BlockStart(blockSize, blk);
    if start + blockSize < height then start + blockSize else height
  }

  /** The 64-bit total after the first n blocks. */
  function BlocksOut(xs: seq<seq<int>>, ys: seq<seq<int>>, width: nat, height: nat, blockSize: nat, n: nat): int
    requires Image(xs, width, height) && Image(ys, width, height)
  {
    if n == 0 then 0
    else BlocksOut(xs, ys, width, height, blockSize, n - 1)
         + BlockOut(xs, ys, width, BlockLo(height, blockSize, n - 1), BlockHi(height, blockSize, n - 1))
  }

  /** The exact total before the final ExtractSum: height / blockSize + 1 blocks. */
  function ProductSumValue(xs: seq<seq<int>>, ys: seq<seq<int>>, width: nat, height: nat, blockSize: nat): int
    requires Image(xs, width, height) && Image(ys, width, height) && blockSize > 0
  {
    BlocksOut(xs, ys, width, height, blockSize, height / blockSize + 1)
  }

  /** The row after block blk is the first row of block blk + 1. */
  lemma BlockNext(height: nat, blockSize: nat, blk: nat)
    ensures BlockHi(height, blockSize, blk) == BlockLo(height, blockSize, blk + 1)
  {
  }

  /**
   * Block blk adds exactly the dot product of its rows when no lane can wrap,
   * and its rows extend the rows of the blocks before it.
   */
  lemma BlockExact(xs: seq<seq<int>>, ys: seq<seq<int>>, width: nat, height: nat, blockSize: nat, blk: nat)
    requires Image(xs, width, height) && Image(ys, width, height)
    requires blockSize * (NRegs(width) * (4 * MaxProduct)) < M32
    ensures var lo, hi := BlockLo(height, blockSize, blk), BlockLo(height, blockSize, blk + 1);
      && BlocksOut(xs, ys, width, height, blockSize, blk + 1) == BlocksOut(xs, ys, width, height, blockSize, blk) + RowsDot(xs, ys, width, lo, hi)
      && RowsDot(xs, ys, width, 0, hi) == RowsDot(xs, ys, width, 0, lo) + RowsDot(xs, ys, width, lo, hi)
  {
    var lo, hi := BlockLo(height, blockSize, blk), BlockHi(height, blockSize, blk);
    BlockNext(height, blockSize, blk);
    BlockFits(xs, ys, width, lo, hi, blockSize);
    BlockLanesTotal(xs, ys, width, lo, hi);
    RowsDotSplit(xs, ys, width, 0, lo, hi);
  }

  lemma {:induction false} BlocksExact(xs: seq<seq<int>>, ys: seq<seq<int>>, width: nat, height: nat, blockSize: nat, n: nat)
    requires Image(xs, width, height) && Image(ys, width, height)
    requires blockSize * (NRegs(width) * (4 * MaxProduct)) < M32
    ensures BlocksOut(xs, ys, width, height, blockSize, n) == RowsDot(xs, ys, width, 0, BlockLo(height, blockSize, n))
  {
    if n == 0 {
      assert BlockLo(height, blockSize, 0) == 0;
      assert RowDots(xs, ys, width, 0, 0) == [];
    } else {
      var b := n - 1;
      assert b + 1 == n;
      BlocksExact(xs, ys, width, height, blockSize, b);
      BlockExact(xs, ys, width, height, blockSize, b);
    }
  }

  /** A block of at most blockSize rows that cannot fill a lane does not wrap. */
  lemma BlockFits(xs: seq<seq<int>>, ys: seq<seq<int>>, width: nat, lo: nat, hi: nat, blockSize: nat)
    requires lo <= hi && Image(xs, width, hi) && Image(ys, width, hi) && hi - lo <= blockSize
    requires blockSize * (NRegs(width) * (4 * MaxProduct)) < M32
    ensures Wrapped(BlockLanes(xs, ys, width, lo, hi)) == BlockLanes(xs, ys, width, lo, hi)
  {
    var m := NRegs(width) * (4 * MaxProduct);
    BlockLanesBound(xs, ys, width, lo, hi);
    assert (hi - lo) * m <= blockSize * m;
    WrappedSmall(BlockLanes(xs, ys, width, lo, hi));
  }

  /** The blocks of ProductSumValue cover every row. */
  lemma BlocksCover(height: nat, blockSize: nat)
    requires blockSize > 0
    ensures BlockLo(height, blockSize, height / blockSize + 1) == height
  {
    var q := height / blockSize;
    BlockStartIsProduct(blockSize, q + 1);
    assert (q + 1) * blockSize == q * blockSize + blockSize;
  }

  // ---------------------------------------------------------------------
  // The block size

  /** The block size as written: 256 * 256 * F / width rows. */
  function SourceBlockSize(width: nat): nat
    requires width > 0
  {
    BlockBudget / width
  }

  /** The block size that keeps the lanes from wrapping: the budget over the bytes the registers of a row load. */
  function CorrectedBlockSize(width: nat): nat
    requires width > 0
  {
    BlockBudget / AlignHi(width, A)
  }

  /** With the corrected block size a block of bytes never fills a 32-bit lane, and there is at least one row per block. */
  lemma CorrectedFits(width: nat)
    requires 0 < width < BlockBudget
    ensures CorrectedBlockSize(width) > 0
    ensures CorrectedBlockSize(width) * (NRegs(width) * (4 * MaxProduct)) < M32
  {
    var bsz, r := CorrectedBlockSize(width), NRegs(width);
    NRegsCover(width, 0);
    AlignHiBound(width);
    assert bsz * AlignHi(width, A) <= BlockBudget;
    assert bsz * r * A <= BlockBudget;
    assert bsz * r <= 0x4000;
    assert bsz * (r * (4 * MaxProduct)) == (bsz * r) * (4 * MaxProduct);
  }

  /** The registers of a row of 0 < width < BlockBudget bytes load at most BlockBudget bytes. */
  lemma AlignHiBound(width: nat)
    requires 0 < width < BlockBudget
    ensures A <= AlignHi(width, A) <= BlockBudget
  {
    AlignLoHi(width);
  }

  /** With the corrected block size the 64-bit total is the dot product of the image. */
  lemma CorrectedProductSum(xs: seq<seq<int>>, ys: seq<seq<int>>, width: nat, height: nat)
    requires Image(xs, width, height) && Image(ys, width, height) && 0 < width < BlockBudget
    ensures CorrectedBlockSize(width) > 0
    ensures ProductSumValue(xs, ys, width, height, CorrectedBlockSize(width)) == RowsDot(xs, ys, width, 0, height)
  {
    CorrectedFits(width);
    ProductSumExact(xs, ys, width, height, CorrectedBlockSize(width));
  }

  /** With a block size at which no lane can wrap, the blocks add up to the exact sum of products. */
  lemma ProductSumExact(xs: seq<seq<int>>, ys: seq<seq<int>>, width: nat, height: nat, blockSize: nat)
    requires Image(xs, width, height) && Image(ys, width, height) && blockSize > 0
    requires blockSize * (NRegs(width) * (4 * MaxProduct)) < M32
    ensures ProductSumValue(xs, ys, width, height, blockSize) == RowsDot(xs, ys, width, 0, height)
  {
    BlocksExact(xs, ys, width, height, blockSize, height / blockSize + 1);
    BlocksCover(height, blockSize);
  }

  // ---------------------------------------------------------------------
  // The block size as written lets a lane wrap

  /** A one-byte-wide image of h rows, every byte 255. */
  function Bright(h: nat): (img: seq<seq<int>>)
    ensures |img| == h && Image(img, 1, h)
  {
    seq(h, r => [255])
  }

  /** Lanes holding v in lane 0 and zero elsewhere. */
  function Spike(v: int): (r: seq<int>)
    ensures |r| == 16 && r[0] == v && forall k :: 1 <= k < 16 ==> r[k] == 0
  {
    Zeros(16)[0 := v]
  }

  /** A row of one byte 255 adds 255 * 255 to lane 0 and nothing to the others. */
  lemma BrightRow()
    ensures RowLanes([255], [255], 1) == Spike(MaxProduct)
  {
    var row := [255];
    assert AlignHi(1, A) == A;
    var x := LoadBytes(row, 0, 1);
    var p := Products(x, x);
    assert p[0] == MaxProduct;
    var reg := Reg(row, row, 1, 0);
    forall k | 0 <= k < 16
      ensures reg[k] == Spike(MaxProduct)[k]
    {
      MaddLaneBytes(p, k / 4, k % 4);
    }
    var regs := RowRegs(row, row, 1);
    assert regs == [reg];
    assert regs[..0] == [];
    assert LaneFold(regs) == Plus(Zeros(16), reg);
  }

  /** h bright rows add h * 255 * 255 to lane 0 of a block. */
  lemma {:induction false} BrightLanes(height: nat, h: nat)
    requires h <= height
    ensures BlockLanes(Bright(height), Bright(height), 1, 0, h) == Spike(h * MaxProduct)
  {
    var img := Bright(height);
    var rows := BlockRows(img, img, 1, 0, h);
    if h == 0 {
      assert rows == [];
      assert Zeros(16) == Spike(0);
    } else {
      assert img[h - 1] == [255];
      assert rows[..h - 1] == BlockRows(img, img, 1, 0, h - 1);
      calc {
        BlockLanes(img, img, 1, 0, h);
        Plus(LaneFold(rows[..h - 1]), rows[h - 1]);
        { BrightLanes(height, h - 1); BrightRow(); }
        Plus(Spike((h - 1) * MaxProduct), Spike(MaxProduct));
        { SpikePlus((h - 1) * MaxProduct, MaxProduct); }
        Spike((h - 1) * MaxProduct + MaxProduct);
        { assert (h - 1) * MaxProduct + MaxProduct == h * MaxProduct; }
        Spike(h * MaxProduct);
      }
    }
  }

  /** Two spikes add up lane by lane to the spike of the sum. */
  lemma SpikePlus(u: int, v: int)
    ensures Plus(Spike(u), Spike(v)) == Spike(u + v)
  {
    assert forall k :: 0 <= k < 16 ==> Plus(Spike(u), Spike(v))[k] == Spike(u + v)[k];
  }

  /** h bright rows have the dot product h * 255 * 255. */
  lemma {:induction false} BrightDot(height: nat, h: nat)
    requires h <= height
    ensures RowsDot(Bright(height), Bright(height), 1, 0, h) == h * MaxProduct
  {
    var img := Bright(height);
    if h > 0 {
      BrightDot(height, h - 1);
      RowsDotSplit(img, img, 1, 0, h - 1, h);
      assert img[h - 1] == [255];
      assert RowDots(img, img, 1, h - 1, h) == [MaxProduct];
      assert IntSum([MaxProduct]) == IntSum([]) + MaxProduct;
    }
  }

  /** The lanes of Spike(v) add up to v. */
  lemma SpikeSum(v: int)
    ensures IntSum(Spike(v)) == v
  {
    IntSum16(Spike(v));
  }

  /** A block size above the height makes a single block of every row. */
  lemma SingleBlock(xs: seq<seq<int>>, ys: seq<seq<int>>, width: nat, height: nat, blockSize: nat)
    requires Image(xs, width, height) && Image(ys, width, height) && height < blockSize
    ensures ProductSumValue(xs, ys, width, height, blockSize) == BlockOut(xs, ys, width, 0, height)
  {
    assert height / blockSize == 0;
    assert BlockLo(height, blockSize, 0) == 0 && BlockHi(height, blockSize, 0) == height;
    assert ProductSumValue(xs, ys, width, height, blockSize) == BlocksOut(xs, ys, width, height, blockSize, 1);
    assert BlocksOut(xs, ys, width, height, blockSize, 1) == BlocksOut(xs, ys, width, height, blockSize, 0) + BlockOut(xs, ys, width, 0, height);
  }

  /** A single block of h bright rows outputs lane 0 wrapped to 32 bits. */
  lemma BrightOut(h: nat)
    ensures BlockOut(Bright(h), Bright(h), 1, 0, h) == (h * MaxProduct) % M32
  {
    BrightLanes(h, h);
    assert Wrapped(Spike(h * MaxProduct)) == Spike((h * MaxProduct) % M32);
    SpikeSum((h * MaxProduct) % M32);
  }

  /** With the block size as written, up to 2^20 bright rows of one byte form one block whose lane 0 wraps. */
  lemma BrightWraps(h: nat)
    requires h < BlockBudget
    ensures ProductSumValue(Bright(h), Bright(h), 1, h, SourceBlockSize(1)) == (h * MaxProduct) % M32
    ensures RowsDot(Bright(h), Bright(h), 1, 0, h) == h * MaxProduct
  {
    SingleBlock(Bright(h), Bright(h), 1, h, BlockBudget);
    BrightOut(h);
    BrightDot(h, h);
  }

  /**
   * With the block size as written, 66052 bright rows of one byte form a
   * single block whose lane 0 reaches 66052 * 255 * 255 = 4295031300 and
   * wraps to 64004, so SquareSum reports 64004 for a true 4295031300.
   */
  lemma SourceBlockSizeWraps()
    ensures ProductSumValue(Bright(66052), Bright(66052), 1, 66052, SourceBlockSize(1)) % M64 == 64004
    ensures RowsDot(Bright(66052), Bright(66052), 1, 0, 66052) == 4295031300
  {
    BrightWraps(66052);
    assert 66052 * MaxProduct == 4295031300;
    assert 4295031300 % M32 == 64004;
  }

  // ---------------------------------------------------------------------
  // The kernels

  /** Four 32-bit registers (sums[0..3]), each tracking its exact lane totals. */
  predicate Quad32(sums: seq<seq<int>>, es: seq<seq<int>>) {
    |sums| == 4 && |es| == 4 && forall i :: 0 <= i < 4 ==> Tracks(sums[i], es[i], M32) && |es[i]| == 16
  }

  /** The exact lanes of the four registers added together. */
  function Sum4(es: seq<seq<int>>): (r: seq<int>)
    requires |es| == 4 && forall i :: 0 <= i < 4 ==> |es[i]| == 16
    ensures |r| == 16
  {
    Plus(Plus(es[0], es[1]), Plus(es[2], es[3]))
  }

  /** The four registers after the first j registers regs of a row, base being the exact lanes before the row. */
  ghost predicate RowAcc(sums: seq<seq<int>>, es: seq<seq<int>>, base: seq<int>, regs: seq<seq<int>>, j: nat) {
    Quad32(sums, es) && |base| == 16 && Regs16(regs) && j <= |regs|
    && Sum4(es) == Plus(base, LaneFold(regs[..j]))
  }

  /** Adding a register v of exact lanes into one of the four adds v to their sum. */
  lemma QuadAdd(sums: seq<seq<int>>, es: seq<seq<int>>, i: nat, v: seq<int>)
    requires Quad32(sums, es) && i < 4 && Tracks(v, v, M32) && |v| == 16
    ensures Below(sums[i], M32) && Below(v, M32)
    ensures Quad32(sums[i := AddLanes(sums[i], v, M32)], es[i := Plus(es[i], v)])
    ensures Sum4(es[i := Plus(es[i], v)]) == Plus(Sum4(es), v)
  {
    TracksBelow(sums[i], es[i], M32);
    TracksBelow(v, v, M32);
    TracksAdd(sums[i], es[i], v, v, M32);
  }

  /** A register of bytes holds its exact lanes. */
  lemma RegTracks(a: seq<int>, b: seq<int>, width: nat, j: nat)
    requires ByteRow(a, width) && ByteRow(b, width) && j * A < width
    ensures Tracks(Reg(a, b, width, j), Reg(a, b, width, j), M32)
  {
    RegBound(a, b, width, j);
    TracksExact(Reg(a, b, width, j), M32);
  }

  /** Folding one more register adds it. */
  lemma FoldStep(regs: seq<seq<int>>, j: nat)
    requires Regs16(regs) && j < |regs|
    ensures LaneFold(regs[..j + 1]) == Plus(LaneFold(regs[..j]), regs[j])
  {
    assert regs[..j + 1][..j] == regs[..j];
  }

  /** Plus is associative. */
  lemma PlusAssoc(x: seq<int>, y: seq<int>, z: seq<int>)
    requires |x| == |y| == |z|
    ensures Plus(Plus(x, y), z) == Plus(x, Plus(y, z))
  {
  }

  /**
   * SquareSum<align, mask> / CorrelationSum<align, mask>: the madd of the
   * n bytes from col = jA of a and b (masked loads read 0 past them) is
   * added into register i of the four.
   */
  method AddReg(a: seq<int>, b: seq<int>, width: nat, col: nat, n: nat, sums: seq<seq<int>>,
                ghost es: seq<seq<int>>, ghost base: seq<int>, ghost regs: seq<seq<int>>, ghost j: nat, i: nat)
    returns (sums': seq<seq<int>>, ghost es': seq<seq<int>>)
    requires ByteRow(a, width) && ByteRow(b, width) && regs == RowRegs(a, b, width) && RowAcc(sums, es, base, regs, j)
    requires col == j * A && col < width && n == RegBytes(width, j) && i < 4
    ensures RowAcc(sums', es', base, regs, j + 1)
  {
    NRegsCover(width, j);
    var reg := Madd(LoadBytes(a, col, n), LoadBytes(b, col, n));
    assert reg == Reg(a, b, width, j);
    RegTracks(a, b, width, j);
    QuadAdd(sums, es, i, reg);
    sums' := sums[i := AddLanes(sums[i], reg, M32)];
    es' := es[i := Plus(es[i], reg)];
    assert regs[j] == reg;
    FoldStep(regs, j);
    PlusAssoc(base, LaneFold(regs[..j]), reg);
  }

  /** SquareSum4 / CorrelationSum4: four full registers from col into sums[0..3]. */
  method AddReg4(a: seq<int>, b: seq<int>, width: nat, col: nat, sums: seq<seq<int>>,
                 ghost es: seq<seq<int>>, ghost base: seq<int>, ghost regs: seq<seq<int>>, ghost j: nat)
    returns (sums': seq<seq<int>>, ghost es': seq<seq<int>>)
    requires ByteRow(a, width) && ByteRow(b, width) && regs == RowRegs(a, b, width) && RowAcc(sums, es, base, regs, j)
    requires col == j * A && col + QA <= width
    ensures RowAcc(sums', es', base, regs, j + 4)
  {
    assert (j + 1) * A == col + A && (j + 2) * A == col + 2 * A && (j + 3) * A == col + 3 * A;
    sums', es' := AddReg(a, b, width, col, A, sums, es, base, regs, j, 0);
    sums', es' := AddReg(a, b, width, col + A, A, sums', es', base, regs, j + 1, 1);
    sums', es' := AddReg(a, b, width, col + 2 * A, A, sums', es', base, regs, j + 2, 2);
    sums', es' := AddReg(a, b, width, col + 3 * A, A, sums', es', base, regs, j + 3, 3);
  }

  /** One row: four registers per QA bytes, then single registers into sums[0], then the masked tail. */
  method ProductRow(a: seq<int>, b: seq<int>, width: nat, sums: seq<seq<int>>, ghost es: seq<seq<int>>)
    returns (sums': seq<seq<int>>, ghost es': seq<seq<int>>)
    requires ByteRow(a, width) && ByteRow(b, width) && Quad32(sums, es)
    ensures Quad32(sums', es') && Sum4(es') == Plus(Sum4(es), RowLanes(a, b, width))
  {
    ghost var base, regs := Sum4(es), RowRegs(a, b, width);
    RowAccStart(sums, es, regs);
    var col;
    ghost var j;
    col, sums', es', j := ProductRowFull(a, b, width, sums, es, base, regs);
    if col < width {
      sums', es' := AddReg(a, b, width, col, width - col, sums', es', base, regs, j, 0);
      j := j + 1;
      assert j * A == col + A;
    }
    RowAccEnd(sums', es', base, a, b, width, j);
  }

  /** The full registers of a row: four at a time up to AlignLo(width, QA), then one at a time up to AlignLo(width, A). */
  method ProductRowFull(a: seq<int>, b: seq<int>, width: nat, sums: seq<seq<int>>,
                        ghost es: seq<seq<int>>, ghost base: seq<int>, ghost regs: seq<seq<int>>)
    returns (col: nat, sums': seq<seq<int>>, ghost es': seq<seq<int>>, ghost j: nat)
    requires ByteRow(a, width) && ByteRow(b, width) && regs == RowRegs(a, b, width) && RowAcc(sums, es, base, regs, 0)
    ensures col == AlignLo(width, A) && col == j * A && RowAcc(sums', es', base, regs, j)
  {
    var fullAlignedWidth := AlignLo(width, QA);
    sums', es' := sums, es;
    col, j := 0, 0;
    while col < fullAlignedWidth
      invariant col <= fullAlignedWidth && col % QA == 0 && col == j * A
      invariant RowAcc(sums', es', base, regs, j)
    {
      StepWithin(col, fullAlignedWidth, QA);
      assert (j + 4) * A == col + QA;
      sums', es' := AddReg4(a, b, width, col, sums', es', base, regs, j);
      col, j := col + QA, j + 4;
    }
    AlignLoNestedBytes(width);
    col, sums', es', j := ProductRowSingles(a, b, width, col, sums', es', base, regs, j);
  }

  /** A register that starts below AlignLo(width, A) is full, and the next one starts A bytes later. */
  lemma FullReg(width: nat, col: nat, j: nat)
    requires col < AlignLo(width, A) && col == j * A
    ensures col + A <= AlignLo(width, A) <= width
    ensures RegBytes(width, j) == A && (j + 1) * A == col + A
  {
    MultipleMod(j, A);
    StepWithin(col, AlignLo(width, A), A);
  }

  /** The single full registers of a row from col, each into sums[0], up to AlignLo(width, A). */
  method ProductRowSingles(a: seq<int>, b: seq<int>, width: nat, col0: nat, sums: seq<seq<int>>,
                           ghost es: seq<seq<int>>, ghost base: seq<int>, ghost regs: seq<seq<int>>, ghost j0: nat)
    returns (col: nat, sums': seq<seq<int>>, ghost es': seq<seq<int>>, ghost j: nat)
    requires ByteRow(a, width) && ByteRow(b, width) && regs == RowRegs(a, b, width) && RowAcc(sums, es, base, regs, j0)
    requires col0 == j0 * A && col0 <= AlignLo(width, A)
    ensures col == AlignLo(width, A) && col == j * A && RowAcc(sums', es', base, regs, j)
  {
    var alignedWidth := AlignLo(width, A);
    sums', es' := sums, es;
    col, j := col0, j0;
    while col < alignedWidth
      invariant col <= alignedWidth && col == j * A
      invariant RowAcc(sums', es', base, regs, j)
    {
      FullReg(width, col, j);
      sums', es' := AddReg(a, b, width, col, A, sums', es', base, regs, j, 0);
      col, j := col + A, j + 1;
    }
  }

  /** Before a row the four registers hold the lanes before it. */
  lemma RowAccStart(sums: seq<seq<int>>, es: seq<seq<int>>, regs: seq<seq<int>>)
    requires Quad32(sums, es) && Regs16(regs)
    ensures RowAcc(sums, es, Sum4(es), regs, 0)
  {
    assert regs[..0] == [];
    assert Plus(Sum4(es), Zeros(16)) == Sum4(es);
  }

  /** Once the registers reach the end of the row, the row's lanes have been added. */
  lemma RowAccEnd(sums: seq<seq<int>>, es: seq<seq<int>>, base: seq<int>, a: seq<int>, b: seq<int>, width: nat, j: nat)
    requires width <= |a| && width <= |b| && RowAcc(sums, es, base, RowRegs(a, b, width), j) && width <= j * A
    ensures Quad32(sums, es) && Sum4(es) == Plus(base, RowLanes(a, b, width))
  {
    NRegsCover(width, j);
    assert RowRegs(a, b, width)[..j] == RowRegs(a, b, width);
  }

  /** The four registers reduced to one: sums[0] + sums[1] + sums[2] + sums[3] in 32 bits. */
  function Reduce4(sums: seq<seq<int>>): (r: seq<int>)
    requires |sums| == 4 && forall i :: 0 <= i < 4 ==> |sums[i]| == 16 && Below(sums[i], M32)
    ensures |r| == 16 && Below(r, M32)
  {
    AddLanes(AddLanes(sums[0], sums[1], M32), AddLanes(sums[2], sums[3], M32), M32)
  }

  /** The reduced register holds the four registers' exact lanes modulo 2^32. */
  lemma Reduce4Tracks(sums: seq<seq<int>>, es: seq<seq<int>>)
    requires Quad32(sums, es)
    ensures (forall i :: 0 <= i < 4 ==> |sums[i]| == 16 && Below(sums[i], M32))
    ensures Reduce4(sums) == Wrapped(Sum4(es))
  {
    forall i | 0 <= i < 4 ensures Below(sums[i], M32) {
      TracksBelow(sums[i], es[i], M32);
    }
    TracksAdd(sums[0], es[0], sums[1], es[1], M32);
    TracksAdd(sums[2], es[2], sums[3], es[3], M32);
    TracksAdd(AddLanes(sums[0], sums[1], M32), Plus(es[0], es[1]), AddLanes(sums[2], sums[3], M32), Plus(es[2], es[3]), M32);
  }

  /** A block's lanes grow by each row's lanes. */
  lemma BlockStep(xs: seq<seq<int>>, ys: seq<seq<int>>, width: nat, lo: nat, row: nat)
    requires lo <= row && Image(xs, width, row + 1) && Image(ys, width, row + 1)
    ensures BlockLanes(xs, ys, width, lo, row + 1) == Plus(BlockLanes(xs, ys, width, lo, row), RowLanes(xs[row], ys[row], width))
  {
    var rows, prev := BlockRows(xs, ys, width, lo, row + 1), BlockRows(xs, ys, width, lo, row);
    assert rows == prev + [rows[row - lo]];
    FoldStep(rows, row - lo);
  }

  /** One block: rows [lo, hi) into four zeroed registers, reduced and widened by HorizontalSum32. */
  method ProductBlock(xs: seq<seq<int>>, ys: seq<seq<int>>, width: nat, lo: nat, hi: nat) returns (h: seq<int>)
    requires lo <= hi && Image(xs, width, hi) && Image(ys, width, hi)
    ensures |h| == 8 && Below(h, M64) && IntSum(h) == BlockOut(xs, ys, width, lo, hi)
  {
    var z := Zeros(16);
    TracksExact(z, M32);
    var sums := [z, z, z, z];
    ghost var es := [z, z, z, z];
    assert Sum4(es) == z;
    var row := lo;
    while row < hi
      invariant lo <= row <= hi && Quad32(sums, es)
      invariant Sum4(es) == BlockLanes(xs, ys, width, lo, row)
    {
      sums, es := ProductRow(xs[row], ys[row], width, sums, es);
      BlockStep(xs, ys, width, lo, row);
      row := row + 1;
    }
    Reduce4Tracks(sums, es);
    h := HorizontalSum32(Reduce4(sums));
  }

  /**
   * The SquareSum / CorrelationSum driver with a given block size: blocks
   * of blockSize rows, each reduced and added into a 64-bit register, whose
   * ExtractSum<uint64_t> is the result.
   */
  method ProductSum(xs: seq<seq<int>>, ys: seq<seq<int>>, width: nat, height: nat, blockSize: nat) returns (sum: int)
    requires Image(xs, width, height) && Image(ys, width, height) && blockSize > 0
    ensures sum == ProductSumValue(xs, ys, width, height, blockSize) % M64
  {
    var blockCount := height / blockSize + 1;
    var total := Zeros(8);
    ghost var et := Zeros(8);
    TracksExact(total, M64);
    IntSumZeros(8);
    var block := 0;
    while block < blockCount
      invariant block <= blockCount && Tracks(total, et, M64) && |et| == 8
      invariant IntSum(et) == BlocksOut(xs, ys, width, height, blockSize, block)
    {
      total, et := AddBlock(xs, ys, width, height, blockSize, block, total, et);
      block := block + 1;
    }
    TracksExtract64(total, et);
    sum := ExtractSumU64(total);
  }

  /** One pass of the block loop: the block's 64-bit lanes added to the running total. */
  method AddBlock(xs: seq<seq<int>>, ys: seq<seq<int>>, width: nat, height: nat, blockSize: nat, block: nat,
                  total: seq<int>, ghost et: seq<int>) returns (total': seq<int>, ghost et': seq<int>)
    requires Image(xs, width, height) && Image(ys, width, height)
    requires Tracks(total, et, M64) && |et| == 8 && IntSum(et) == BlocksOut(xs, ys, width, height, blockSize, block)
    ensures Tracks(total', et', M64) && |et'| == 8 && IntSum(et') == BlocksOut(xs, ys, width, height, blockSize, block + 1)
  {
    var lo, hi := BlockLo(height, blockSize, block), BlockHi(height, blockSize, block);
    var h := ProductBlock(xs, ys, width, lo, hi);
    TracksExact(h, M64);
    TracksBelow(total, et, M64);
    TracksAdd(total, et, h, h, M64);
    PlusSum(et, h);
    total', et' := AddLanes(total, h, M64), Plus(et, h);
  }

  /** SquareSum: the sum of the squares of the bytes of the image, modulo 2^64, with the corrected block size. */
  method SquareSum(src: seq<seq<int>>, width: nat, height: nat) returns (sum: int)
    requires Image(src, width, height) && 0 < width < BlockBudget
    ensures sum == RowsDot(src, src, width, 0, height) % M64
  {
    CorrectedProductSum(src, src, width, height);
    sum := ProductSum(src, src, width, height, CorrectedBlockSize(width));
  }

  /** CorrelationSum: the sum of the products of the bytes of two images, modulo 2^64, with the corrected block size. */
  method CorrelationSum(a: seq<seq<int>>, b: seq<seq<int>>, width: nat, height: nat) returns (sum: int)
    requires Image(a, width, height) && Image(b, width, height) && 0 < width < BlockBudget
    ensures sum == RowsDot(a, b, width, 0, height) % M64
  {
    CorrectedProductSum(a, b, width, height);
    sum := ProductSum(a, b, width, height, CorrectedBlockSize(width));
  }
}
