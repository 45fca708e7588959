// The column sums of the Avx512bw statistics: GetColSums and
// GetAbsDxColSums.  Both add each row into a buffer of 16-bit lanes, empty
// it into 32-bit lanes every 128 rows (SCHAR_MAX + 1, so that 128 * 255
// never wraps 16 bits), and copy the first width 32-bit sums out.
//
// The buffers are AlignHi(width, A) lanes long; lane i holds column i (the
// permutation K32_PERMUTE_FOR_COL_SUMS and the unpacks of GetColSum16 and
// Sum16To32 cancel out, and only their net effect is modelled).  Lanes at
// or past width receive the zeros of the masked loads.

module StatisticCols {
  import opened Lanes
  import opened Extract
  import opened ByteLanes
  import opened Statistic

  const M16: nat := 0x1_0000
  /** SCHAR_MAX + 1: the rows added into the 16-bit buffer before it is emptied. */
  const StepSize: nat := 128

  /** Column i of row r as a lane sees it: zero at or past width. */
  function Pixel(src: seq<seq<int>>, width: nat, r: nat, i: nat): int
    requires r < |src| && width <= |src[r]|
  {
    if i < width then src[r][i] else 0
  }

  /** The sum of column i over rows [lo, hi). */
  function RangeSum(src: seq<seq<int>>, width: nat, i: nat, lo: nat, hi: nat): int
    requires lo <= hi && Image(src, width, hi)
    decreases hi - lo
  {
    if lo == hi then 0 else RangeSum(src, width, i, lo, hi - 1) + Pixel(src, width, hi - 1, i)
  }

  /** The sum of column i over the first rows rows. */
  function ColumnSum(src: seq<seq<int>>, width: nat, i: nat, rows: nat): int
    requires Image(src, width, rows)
  {
    RangeSum(src, width, i, 0, rows)
  }

  /** Rows [a, b) and [b, c) make up rows [a, c). */
  lemma {:induction false} RangeSplit(src: seq<seq<int>>, width: nat, i: nat, a: nat, b: nat, c: nat)
    requires a <= b <= c && Image(src, width, c)
    ensures RangeSum(src, width, i, a, b) + RangeSum(src, width, i, b, c) == RangeSum(src, width, i, a, c)
    decreases c - b
  {
    if b < c {
      RangeSplit(src, width, i, a, b, c - 1);
    }
  }

  /** A column of bytes over hi - lo rows sums to at most 255 * (hi - lo). */
  lemma {:induction false} RangeBound(src: seq<seq<int>>, width: nat, i: nat, lo: nat, hi: nat)
    requires lo <= hi && Image(src, width, hi)
    ensures 0 <= RangeSum(src, width, i, lo, hi) <= 255 * (hi - lo)
    decreases hi - lo
  {
    if lo < hi {
      RangeBound(src, width, i, lo, hi - 1);
    }
  }

  // ---------------------------------------------------------------------
  // The 16-bit and 32-bit buffers

  /**
   * GetColSum16 (and GetAbsDxColSum16 on the difference row): the n bytes
   * of row from col, the other lanes masked to zero, added into
   * sums16[col, col + A) in 16-bit lanes.
   */
  method ColSum16(row: seq<int>, col: nat, n: nat, sums16: array<int>)
    requires n <= A && col + n <= |row| && col + A <= sums16.Length
    modifies sums16
    ensures forall i :: 0 <= i < sums16.Length ==>
              sums16[i] == if col <= i < col + A then (old(sums16[i]) + LoadBytes(row, col, n)[i - col]) % M16
                           else old(sums16[i])
  {
    var v := LoadBytes(row, col, n);
    forall i | col <= i < col + A {
      sums16[i] := (sums16[i] + v[i - col]) % M16;
    }
  }

  /** Sum16To32: sums16[col, col + A) added into sums32[col, col + A) in 32-bit lanes. */
  method Sum16To32(sums16: array<int>, sums32: array<int>, col: nat)
    requires sums16 != sums32 && col + A <= sums16.Length && col + A <= sums32.Length
    modifies sums32
    ensures forall i :: 0 <= i < sums32.Length ==>
              sums32[i] == if col <= i < col + A then (old(sums32[i]) + sums16[i]) % M32 else old(sums32[i])
  {
    forall i | col <= i < col + A {
      sums32[i] := (sums32[i] + sums16[i]) % M32;
    }
  }

  /**
   * The column loop of one row: whole registers up to AlignLo(width, A), then
   * the masked tail.  The buffer lanes are far enough below 2^16 that
   * nothing wraps: every lane i gains Pixel(r, i).
   */
  method AddRow16(src: seq<seq<int>>, width: nat, r: nat, sums16: array<int>)
    requires r < |src| && ByteRow(src[r], width) && sums16.Length == AlignHi(width, A)
    requires forall i :: 0 <= i < sums16.Length ==> 0 <= sums16[i] < M16 - 255
    modifies sums16
    ensures forall i :: 0 <= i < sums16.Length ==> sums16[i] == old(sums16[i]) + Pixel(src, width, r, i)
  {
    var alignedLoWidth := AlignLo(width, A);
    AlignLoHi(width);
    var col := 0;
    while col < alignedLoWidth
      invariant col <= alignedLoWidth && col % A == 0
      invariant forall i :: 0 <= i < sums16.Length ==>
                  sums16[i] == old(sums16[i]) + (if i < col then Pixel(src, width, r, i) else 0)
    {
      StepWithin(col, alignedLoWidth, A);
      ColSum16(src[r], col, A, sums16);
      forall i | col <= i < col + A
        ensures sums16[i] == old(sums16[i]) + Pixel(src, width, r, i)
      {
        SmallMod(old(sums16[i]) + src[r][i], M16);
      }
      col := col + A;
    }
    if col < width {
      ColSum16(src[r], col, width - col, sums16);
      forall i | col <= i < col + A
        ensures sums16[i] == old(sums16[i]) + Pixel(src, width, r, i)
      {
        SmallMod(old(sums16[i]) + Pixel(src, width, r, i), M16);
      }
    }
  }

  /** The rows [rowStart, rowEnd) of one step, at most StepSize of them, into a zeroed 16-bit buffer. */
  method AddRows16(src: seq<seq<int>>, width: nat, rowStart: nat, rowEnd: nat, sums16: array<int>)
    requires rowStart <= rowEnd <= rowStart + StepSize && Image(src, width, rowEnd)
    requires sums16.Length == AlignHi(width, A) && forall i :: 0 <= i < sums16.Length ==> sums16[i] == 0
    modifies sums16
    ensures forall i :: 0 <= i < sums16.Length ==> sums16[i] == RangeSum(src, width, i, rowStart, rowEnd)
  {
    var row := rowStart;
    while row < rowEnd
      invariant rowStart <= row <= rowEnd
      invariant forall i :: 0 <= i < sums16.Length ==> sums16[i] == RangeSum(src, width, i, rowStart, row)
    {
      forall i | 0 <= i < sums16.Length
        ensures 0 <= sums16[i] < M16 - 255
      {
        RangeBound(src, width, i, rowStart, row);
      }
      AddRow16(src, width, row, sums16);
      row := row + 1;
    }
  }

  /** The loop of Sum16To32 calls over the whole buffer. */
  method AddAll16To32(sums16: array<int>, sums32: array<int>)
    requires sums16 != sums32 && sums16.Length == sums32.Length && sums16.Length % A == 0
    modifies sums32
    ensures forall i :: 0 <= i < sums32.Length ==> sums32[i] == (old(sums32[i]) + sums16[i]) % M32
  {
    var col := 0;
    while col < sums32.Length
      invariant col <= sums32.Length && col % A == 0
      invariant forall i :: 0 <= i < sums32.Length ==>
                  sums32[i] == if i < col then (old(sums32[i]) + sums16[i]) % M32 else old(sums32[i])
    {
      StepWithin(col, sums32.Length, A);
      Sum16To32(sums16, sums32, col);
      col := col + A;
    }
  }

  /** The steps of 128 rows cover the image: stepCount * StepSize >= height. */
  lemma StepsCover(height: nat)
    ensures (height + StepSize - 1) / StepSize * StepSize >= height
  {
  }

  /** Adding the step's rows [lo, hi) to the 32-bit sum of rows [0, lo) gives that of rows [0, hi). */
  lemma StepSum(src: seq<seq<int>>, width: nat, i: nat, lo: nat, hi: nat)
    requires lo <= hi && Image(src, width, hi)
    ensures (ColumnSum(src, width, i, lo) % M32 + RangeSum(src, width, i, lo, hi)) % M32 == ColumnSum(src, width, i, hi) % M32
  {
    var x, y := ColumnSum(src, width, i, lo), RangeSum(src, width, i, lo, hi);
    RangeSplit(src, width, i, 0, lo, hi);
    AddMod(x, y, M32);
    AddMod(x % M32, y, M32);
    SmallMod(x % M32, M32);
  }

  /**
   * The body shared by GetColSums and GetAbsDxColSums: the 32-bit column
   * sums of rows of width bytes, one per buffer lane, modulo 2^32.
   */
  method ColumnSums(src: seq<seq<int>>, width: nat, height: nat) returns (sums32: array<int>)
    requires Image(src, width, height)
    ensures fresh(sums32) && sums32.Length == AlignHi(width, A)
    ensures forall i :: 0 <= i < sums32.Length ==> sums32[i] == ColumnSum(src, width, i, height) % M32
  {
    var alignedHiWidth := AlignHi(width, A);
    var stepCount := (height + StepSize - 1) / StepSize;
    var sums16 := new int[alignedHiWidth];
    sums32 := new int[alignedHiWidth](i => 0);
    StepsCover(height);
    var step := 0;
    while step < stepCount
      invariant step <= stepCount
      invariant forall i :: 0 <= i < alignedHiWidth ==>
                  sums32[i] == ColumnSum(src, width, i, if step * StepSize < height then step * StepSize else height) % M32
    {
      var rowStart := step * StepSize;
      var rowEnd := if rowStart + StepSize < height then rowStart + StepSize else height;
      forall i | 0 <= i < alignedHiWidth {
        sums16[i] := 0;
      }
      AddRows16(src, width, rowStart, rowEnd, sums16);
      AddAll16To32(sums16, sums32);
      forall i | 0 <= i < alignedHiWidth
        ensures sums32[i] == ColumnSum(src, width, i, rowEnd) % M32
      {
        StepSum(src, width, i, rowStart, rowEnd);
      }
      step := step + 1;
    }
  }

  /** GetColSums: sums[c] is the sum of column c, modulo 2^32, for c < width. */
  method GetColSums(src: seq<seq<int>>, width: nat, height: nat, sums: array<int>)
    requires Image(src, width, height) && width <= sums.Length
    modifies sums
    ensures forall c :: 0 <= c < sums.Length ==>
              sums[c] == if c < width then ColumnSum(src, width, c, height) % M32 else old(sums[c])
  {
    var sums32 := ColumnSums(src, width, height);
    forall c | 0 <= c < width {
      sums[c] := sums32[c];
    }
  }

  /** A column of fewer than 2^32 / 255 rows has its exact sum in 32 bits. */
  lemma ColumnSumExact(src: seq<seq<int>>, width: nat, i: nat, height: nat)
    requires Image(src, width, height) && 255 * height < M32
    ensures 0 <= ColumnSum(src, width, i, height) <= 255 * height
    ensures ColumnSum(src, width, i, height) % M32 == ColumnSum(src, width, i, height)
  {
    RangeBound(src, width, i, 0, height);
    SmallMod(ColumnSum(src, width, i, height), M32);
  }

  /** The sum of the column sums of columns [0, cols). */
  function ColumnsTotal(src: seq<seq<int>>, width: nat, cols: nat, rows: nat): int
    requires Image(src, width, rows)
  {
    if cols == 0 then 0 else ColumnsTotal(src, width, cols - 1, rows) + ColumnSum(src, width, cols - 1, rows)
  }

  /** One more row adds its first cols bytes to the total of the first cols columns. */
  lemma {:induction false} ColumnsTotalRow(src: seq<seq<int>>, width: nat, cols: nat, rows: nat)
    requires 0 < rows && cols <= width && Image(src, width, rows)
    ensures ColumnsTotal(src, width, cols, rows) == ColumnsTotal(src, width, cols, rows - 1) + IntSum(src[rows - 1][..cols])
  {
    if cols > 0 {
      ColumnsTotalRow(src, width, cols - 1, rows);
      var row := src[rows - 1];
      assert row[..cols][..cols - 1] == row[..cols - 1];
    }
  }

  /** The column sums and the row sums add up to the same image total. */
  lemma {:induction false} ColumnsTotalIsImageSum(src: seq<seq<int>>, width: nat, rows: nat)
    requires Image(src, width, rows)
    ensures ColumnsTotal(src, width, width, rows) == ImageSum(src, width, rows)
  {
    if rows == 0 {
      ColumnsTotalEmpty(src, width, width);
    } else {
      ColumnsTotalIsImageSum(src, width, rows - 1);
      ColumnsTotalRow(src, width, width, rows);
    }
  }

  /** No rows, no total. */
  lemma {:induction false} ColumnsTotalEmpty(src: seq<seq<int>>, width: nat, cols: nat)
    ensures ColumnsTotal(src, width, cols, 0) == 0
  {
    if cols > 0 {
      ColumnsTotalEmpty(src, width, cols - 1);
    }
  }

  // ---------------------------------------------------------------------
  // GetAbsDxColSums

  /** The rows of |src[r][c] - src[r][c + 1]| for c < width - 1: what GetAbsDxColSum16 adds. */
  function DxRows(src: seq<seq<int>>, width: nat, height: nat): (dx: seq<seq<int>>)
    requires width >= 1 && Image(src, width, height)
    ensures |dx| == height && Image(dx, width - 1, height)
    ensures forall r, c :: 0 <= r < height && 0 <= c < width - 1 ==>
              dx[r][c] == if src[r][c] >= src[r][c + 1] then src[r][c] - src[r][c + 1] else src[r][c + 1] - src[r][c]
  {
    seq(height, r requires 0 <= r < height => AbsDiff(src[r][..width - 1], src[r][1..width]))
  }

  /**
   * GetAbsDxColSum16 loads the n bytes at col and at col + 1 (both under
   * the same tail mask) and takes AbsDifferenceU8: that is the masked load
   * of the difference row.
   */
  lemma DxKernelLanes(src: seq<seq<int>>, width: nat, height: nat, r: nat, col: nat, n: nat)
    requires width >= 1 && Image(src, width, height) && r < height && n <= A && col + n <= width - 1
    ensures AbsDiff(LoadBytes(src[r], col, n), LoadBytes(src[r], col + 1, n)) == LoadBytes(DxRows(src, width, height)[r], col, n)
  {
  }

  /** The index of the last sum GetAbsDxColSums zeroes as written: `width--` in size_t. */
  function DxLastAsWritten(width: nat): (last: nat)
    requires width < M64
    ensures width >= 1 ==> last == width - 1
  {
    (width - 1) % M64
  }

  /** At width 0 the decrement wraps, so the final `sums[width] = 0` lands 2^64 - 1 entries past the array's start. */
  lemma DxLastWrapsAtZero()
    ensures DxLastAsWritten(0) == M64 - 1
  {
  }

  /**
   * GetAbsDxColSums: sums[c] is the sum over the rows of
   * |src[r][c] - src[r][c + 1]|, modulo 2^32, for c < width - 1, and
   * sums[width - 1] is 0.  At width 0 nothing is written.
   */
  method GetAbsDxColSums(src: seq<seq<int>>, width: nat, height: nat, sums: array<int>)
    requires Image(src, width, height) && width <= sums.Length
    modifies sums
    ensures forall c :: 0 <= c < sums.Length ==>
              sums[c] == if c + 1 < width then ColumnSum(DxRows(src, width, height), width - 1, c, height) % M32
                         else if c + 1 == width then 0 else old(sums[c])
  {
    if width == 0 {
      return;
    }
    var w := width - 1;
    var dx := DxRows(src, width, height);
    var sums32 := ColumnSums(dx, w, height);
    forall c | 0 <= c < w {
      sums[c] := sums32[c];
    }
    sums[w] := 0;
  }
}
