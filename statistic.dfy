// The Avx512bw statistics of an 8-bit image: row sums, sums of vertical
// differences, the total of all bytes, and minimum / maximum / average.
//
// Every kernel walks a row in registers of A = 64 bytes up to
// AlignLo(width, A) and finishes with one masked register (the lanes past
// width load as zero).  Sums of absolute differences (_mm512_sad_epu8) are
// accumulated in 32-bit or 64-bit lanes that wrap; the results are stated
// modulo 2^32 or 2^64, the range of the C result types.

module Statistic {
  import opened Lanes
  import opened Extract
  import opened ByteLanes

  /** The sum of the first width bytes of each of the first rows rows. */
  function ImageSum(src: seq<seq<int>>, width: nat, rows: nat): int
    requires rows <= |src| && forall r :: 0 <= r < rows ==> width <= |src[r]|
  {
    if rows == 0 then 0 else ImageSum(src, width, rows - 1) + IntSum(src[rows - 1][..width])
  }

  // ---------------------------------------------------------------------
  // Sums of absolute differences in 32-bit lanes (GetRowSums, GetAbsDyRowSums)

  /** The register one SAD step adds: lanes [col, col + n) of both rows, as 32-bit lanes. */
  function SadReg(a: seq<int>, b: seq<int>, col: nat, n: nat): seq<int>
    requires n <= A && col + n <= |a| && col + n <= |b|
  {
    Halves32(Sad(LoadBytes(a, col, n), LoadBytes(b, col, n)))
  }

  /** One SAD step keeps the accumulator tracking the sum of |a - b| over the columns done. */
  lemma SadStep(a: seq<int>, b: seq<int>, col: nat, n: nat, sum: seq<int>, e: seq<int>)
    requires n <= A && ByteRow(a, col + n) && ByteRow(b, col + n)
    requires Tracks(sum, e, M32) && |e| == 16 && IntSum(e) == IntSum(AbsDiff(a[..col], b[..col]))
    ensures var v := SadReg(a, b, col, n);
            Below(v, M32) && Tracks(AddLanes(sum, v, M32), Plus(e, v), M32) &&
            IntSum(Plus(e, v)) == IntSum(AbsDiff(a[..col + n], b[..col + n]))
  {
    var x, y := LoadBytes(a, col, n), LoadBytes(b, col, n);
    var v := SadReg(a, b, col, n);
    SadBound(x, y);
    TracksExact(v, M32);
    TracksAdd(sum, e, v, v, M32);
    PlusSum(e, v);
    Halves32Sum(Sad(x, y));
    SadTotal(x, y);
    LoadedAbsDiff(a, b, col, n);
    AbsDiffSplit(a, b, col, n);
    IntSumConcat(AbsDiff(a[..col], b[..col]), AbsDiff(a[col..col + n], b[col..col + n]));
  }

  /** The 32-bit accumulator of a SAD row loop after the first col columns. */
  ghost predicate SadAcc(sum: seq<int>, e: seq<int>, a: seq<int>, b: seq<int>, col: nat) {
    col <= |a| && col <= |b| && Tracks(sum, e, M32) && |e| == 16 &&
    IntSum(e) == IntSum(AbsDiff(a[..col], b[..col]))
  }

  /** One register of the SAD row loop: n more columns from col. */
  method SadAdd(a: seq<int>, b: seq<int>, col: nat, n: nat, sum: seq<int>, ghost e: seq<int>)
    returns (sum': seq<int>, ghost e': seq<int>)
    requires n <= A && ByteRow(a, col + n) && ByteRow(b, col + n) && SadAcc(sum, e, a, b, col)
    ensures SadAcc(sum', e', a, b, col + n)
  {
    SadStep(a, b, col, n, sum, e);
    var v := SadReg(a, b, col, n);
    sum', e' := AddLanes(sum, v, M32), Plus(e, v);
  }

  /**
   * The row loop of GetRowSums and GetAbsDyRowSums: _mm512_sad_epu8 of
   * the two rows added into 32-bit lanes, then ExtractSum<uint32_t>.  The
   * result is the sum of |a - b| over the row, modulo 2^32.
   */
  method SadRow(a: seq<int>, b: seq<int>, width: nat) returns (s: int)
    requires ByteRow(a, width) && ByteRow(b, width)
    ensures s == IntSum(AbsDiff(a[..width], b[..width])) % M32
  {
    var alignedWidth := AlignLo(width, A);
    var sum := Zeros(16);
    ghost var e := Zeros(16);
    TracksExact(sum, M32);
    IntSumZeros(16);
    var col := 0;
    while col < alignedWidth
      invariant col <= alignedWidth && col % A == 0
      invariant SadAcc(sum, e, a, b, col)
    {
      StepWithin(col, alignedWidth, A);
      sum, e := SadAdd(a, b, col, A, sum, e);
      col := col + A;
    }
    if col < width {
      sum, e := SadAdd(a, b, col, width - col, sum, e);
    }
    assert SadAcc(sum, e, a, b, width);
    TracksExtract32(sum, e);
    s := ExtractSumU32(sum);
  }

  /** GetRowSums: sums[r] is the sum of row r, modulo 2^32 (the zero register is the zero row). */
  method GetRowSums(src: seq<seq<int>>, width: nat, height: nat, sums: array<int>)
    requires Image(src, width, height) && height <= sums.Length
    modifies sums
    ensures forall r :: 0 <= r < sums.Length ==>
              sums[r] == if r < height then IntSum(src[r][..width]) % M32 else old(sums[r])
  {
    forall r | 0 <= r < height {
      sums[r] := 0;
    }
    var row := 0;
    while row < height
      invariant row <= height
      invariant forall r :: 0 <= r < sums.Length ==>
                  sums[r] == if r < row then IntSum(src[r][..width]) % M32 else if r < height then 0 else old(sums[r])
    {
      var zero := Zeros(width);
      var s := SadRow(src[row], zero, width);
      assert zero[..width] == zero;
      AbsDiffZero(src[row], width);
      sums[row] := s;
      row := row + 1;
    }
  }

  /** A row shorter than 2^32 / 255 bytes has its exact sum in 32 bits. */
  lemma RowSumExact(row: seq<int>, width: nat)
    requires ByteRow(row, width) && 255 * width < M32
    ensures 0 <= IntSum(row[..width]) <= 255 * width
    ensures IntSum(row[..width]) % M32 == IntSum(row[..width])
  {
    IntSumBounds(row[..width], 255);
    SmallMod(IntSum(row[..width]), M32);
  }

  /** The number of row pairs GetAbsDyRowSums visits as written: `height--` in size_t. */
  function DyRowsAsWritten(height: nat): (rows: nat)
    requires height < M64
    ensures height >= 1 ==> rows == height - 1
  {
    (height - 1) % M64
  }

  /** At height 0 the decrement wraps, so the row loop would visit 2^64 - 1 row pairs of an empty image. */
  lemma DyRowsWrapAtZero()
    ensures DyRowsAsWritten(0) == M64 - 1
  {
  }

  /**
   * GetAbsDyRowSums: sums[r] is the sum of |src[r] - src[r + 1]| over the
   * row for r < height - 1, modulo 2^32, and sums[height - 1] is 0.  At
   * height 0 nothing is written.
   */
  method GetAbsDyRowSums(src: seq<seq<int>>, width: nat, height: nat, sums: array<int>)
    requires Image(src, width, height) && height <= sums.Length
    modifies sums
    ensures forall r :: 0 <= r < sums.Length ==>
              sums[r] == if r + 1 < height then IntSum(AbsDiff(src[r][..width], src[r + 1][..width])) % M32
                         else if r + 1 == height then 0 else old(sums[r])
  {
    forall r | 0 <= r < height {
      sums[r] := 0;
    }
    var rows := if height == 0 then 0 else height - 1;
    var row := 0;
    while row < rows
      invariant row <= rows
      invariant forall r :: 0 <= r < sums.Length ==>
                  sums[r] == if r < row then IntSum(AbsDiff(src[r][..width], src[r + 1][..width])) % M32
                             else if r < height then 0 else old(sums[r])
    {
      var s := SadRow(src[row], src[row + 1], width);
      sums[row] := s;
      row := row + 1;
    }
  }

  /** The vertical differences of a constant-in-columns image are all zero. */
  lemma AbsDyOfEqualRows(a: seq<int>, b: seq<int>, width: nat)
    requires width <= |a| && width <= |b| && a[..width] == b[..width]
    ensures IntSum(AbsDiff(a[..width], b[..width])) == 0
  {
    assert AbsDiff(a[..width], b[..width]) == Zeros(width);
    IntSumZeros(width);
  }

  // ---------------------------------------------------------------------
  // ValueSum: 64-bit lanes, four registers

  /** The register a ValueSum step adds: the SAD of lanes [col, col + n) against zero. */
  function ValueReg(row: seq<int>, col: nat, n: nat): seq<int>
    requires n <= A && col + n <= |row|
  {
    Sad(LoadBytes(row, col, n), Zeros(A))
  }

  /** A masked load of bytes holds the n bytes loaded and zeros. */
  lemma LoadedBytes(row: seq<int>, col: nat, n: nat)
    requires n <= A && ByteRow(row, col + n)
    ensures var x := LoadBytes(row, col, n);
            Bytes(x) && AbsDiff(x, Zeros(A)) == x && IntSum(x) == IntSum(row[col..col + n])
  {
    var x := LoadBytes(row, col, n);
    assert x == row[col..col + n] + Zeros(A - n);
    IntSumConcat(row[col..col + n], Zeros(A - n));
    IntSumZeros(A - n);
  }

  /** The lanes of a ValueSum register are below 2^64 and add up to the bytes loaded. */
  lemma ValueRegSum(row: seq<int>, col: nat, n: nat)
    requires n <= A && ByteRow(row, col + n)
    ensures Below(ValueReg(row, col, n), M64) && IntSum(ValueReg(row, col, n)) == IntSum(row[col..col + n])
  {
    var x := LoadBytes(row, col, n);
    LoadedBytes(row, col, n);
    SadBound(x, Zeros(A));
    SadTotal(x, Zeros(A));
  }

  /** One ValueSum step on a register: it tracks n more bytes of the row. */
  lemma ValueStep(row: seq<int>, col: nat, n: nat, s: seq<int>, e: seq<int>)
    requires n <= A && ByteRow(row, col + n)
    requires Tracks(s, e, M64) && |e| == 8
    ensures var v := ValueReg(row, col, n);
            Below(v, M64) && Tracks(AddLanes(s, v, M64), Plus(e, v), M64) &&
            IntSum(Plus(e, v)) == IntSum(e) + IntSum(row[col..col + n])
  {
    var v := ValueReg(row, col, n);
    ValueRegSum(row, col, n);
    TracksExact(v, M64);
    TracksAdd(s, e, v, v, M64);
    PlusSum(e, v);
  }

  /** Four 64-bit registers, each tracking its exact lane totals. */
  predicate Quad(sums: seq<seq<int>>, es: seq<seq<int>>) {
    |sums| == 4 && |es| == 4 && forall i :: 0 <= i < 4 ==> Tracks(sums[i], es[i], M64) && |es[i]| == 8
  }

  function QuadTotal(es: seq<seq<int>>): int
    requires |es| == 4
  {
    IntSum(es[0]) + IntSum(es[1]) + IntSum(es[2]) + IntSum(es[3])
  }

  /** The four registers after the first col bytes of a row, base being the total before the row. */
  ghost predicate ValueAcc(sums: seq<seq<int>>, es: seq<seq<int>>, base: int, row: seq<int>, col: nat) {
    Quad(sums, es) && col <= |row| && QuadTotal(es) == base + IntSum(row[..col])
  }

  /** The bytes before col + n are those before col and the n from col. */
  lemma RowPrefix(row: seq<int>, col: nat, n: nat)
    requires col + n <= |row|
    ensures IntSum(row[..col + n]) == IntSum(row[..col]) + IntSum(row[col..col + n])
  {
    assert row[..col + n] == row[..col] + row[col..col + n];
    IntSumConcat(row[..col], row[col..col + n]);
  }

  /** One ValueSum step: the n bytes from col go into register i of the four. */
  method AddValue(row: seq<int>, col: nat, n: nat, sums: seq<seq<int>>, ghost es: seq<seq<int>>, ghost base: int, i: nat)
    returns (sums': seq<seq<int>>, ghost es': seq<seq<int>>)
    requires n <= A && ByteRow(row, col + n) && ValueAcc(sums, es, base, row, col) && i < 4
    ensures ValueAcc(sums', es', base, row, col + n)
  {
    ValueStep(row, col, n, sums[i], es[i]);
    RowPrefix(row, col, n);
    var v := ValueReg(row, col, n);
    sums' := sums[i := AddLanes(sums[i], v, M64)];
    es' := es[i := Plus(es[i], v)];
  }

  /** Four registers of ValueSum, one into each of sums[0..3]. */
  method AddValue4(row: seq<int>, col: nat, sums: seq<seq<int>>, ghost es: seq<seq<int>>, ghost base: int)
    returns (sums': seq<seq<int>>, ghost es': seq<seq<int>>)
    requires ByteRow(row, col + QA) && ValueAcc(sums, es, base, row, col)
    ensures ValueAcc(sums', es', base, row, col + QA)
  {
    sums', es' := AddValue(row, col, A, sums, es, base, 0);
    sums', es' := AddValue(row, col + A, A, sums', es', base, 1);
    sums', es' := AddValue(row, col + 2 * A, A, sums', es', base, 2);
    sums', es' := AddValue(row, col + 3 * A, A, sums', es', base, 3);
  }

  /** One row of ValueSum: four registers per QA bytes, then single registers into sums[0], then the tail. */
  method ValueSumRow(row: seq<int>, width: nat, sums: seq<seq<int>>, ghost es: seq<seq<int>>)
    returns (sums': seq<seq<int>>, ghost es': seq<seq<int>>)
    requires ByteRow(row, width) && Quad(sums, es)
    ensures Quad(sums', es') && QuadTotal(es') == QuadTotal(es) + IntSum(row[..width])
  {
    ghost var base := QuadTotal(es);
    var alignedWidth := AlignLo(width, A);
    var fullAlignedWidth := AlignLo(width, QA);
    AlignLoNestedBytes(width);
    sums', es' := ValueQuads(row, fullAlignedWidth, sums, es, base);
    sums', es' := ValueSingles(row, fullAlignedWidth, alignedWidth, sums', es', base);
    if alignedWidth < width {
      sums', es' := AddValue(row, alignedWidth, width - alignedWidth, sums', es', base, 0);
    }
    assert ValueAcc(sums', es', base, row, width);
  }

  /** The first loop of a ValueSum row: four registers per QA bytes up to end. */
  method ValueQuads(row: seq<int>, end: nat, sums: seq<seq<int>>, ghost es: seq<seq<int>>, ghost base: int)
    returns (sums': seq<seq<int>>, ghost es': seq<seq<int>>)
    requires end % QA == 0 && ByteRow(row, end) && ValueAcc(sums, es, base, row, 0)
    ensures ValueAcc(sums', es', base, row, end)
  {
    sums', es' := sums, es;
    var col := 0;
    while col < end
      invariant col <= end && col % QA == 0
      invariant ValueAcc(sums', es', base, row, col)
    {
      StepWithin(col, end, QA);
      sums', es' := AddValue4(row, col, sums', es', base);
      col := col + QA;
    }
  }

  /** The second loop of a ValueSum row: single registers into sums[0] from start up to end. */
  method ValueSingles(row: seq<int>, start: nat, end: nat, sums: seq<seq<int>>, ghost es: seq<seq<int>>, ghost base: int)
    returns (sums': seq<seq<int>>, ghost es': seq<seq<int>>)
    requires start <= end && start % A == 0 && end % A == 0 && ByteRow(row, end)
    requires ValueAcc(sums, es, base, row, start)
    ensures ValueAcc(sums', es', base, row, end)
  {
    sums', es' := sums, es;
    var col := start;
    while col < end
      invariant start <= col <= end && col % A == 0
      invariant ValueAcc(sums', es', base, row, col)
    {
      StepWithin(col, end, A);
      sums', es' := AddValue(row, col, A, sums', es', base, 0);
      col := col + A;
    }
  }

  /** sums[0] + sums[1] + sums[2] + sums[3], lane by lane in 64 bits. */
  function QuadReduce(sums: seq<seq<int>>): seq<int>
    requires |sums| == 4 && forall i :: 0 <= i < 4 ==> |sums[i]| == 8 && Below(sums[i], M64)
  {
    AddLanes(AddLanes(sums[0], sums[1], M64), AddLanes(sums[2], sums[3], M64), M64)
  }

  /** Adding two tracking registers tracks the sum of their totals. */
  lemma PairResult(x: seq<int>, ex: seq<int>, y: seq<int>, ey: seq<int>)
    requires Tracks(x, ex, M64) && Tracks(y, ey, M64) && |x| == |y|
    ensures Below(x, M64) && Below(y, M64)
    ensures Tracks(AddLanes(x, y, M64), Plus(ex, ey), M64) && IntSum(Plus(ex, ey)) == IntSum(ex) + IntSum(ey)
  {
    TracksAdd(x, ex, y, ey, M64);
    PlusSum(ex, ey);
  }

  /** The reduced register's ExtractSum<uint64_t> is the exact total of the four, modulo 2^64. */
  lemma QuadResult(sums: seq<seq<int>>, es: seq<seq<int>>)
    requires Quad(sums, es)
    ensures (forall i :: 0 <= i < 4 ==> |sums[i]| == 8 && Below(sums[i], M64)) &&
            ExtractSumU64(QuadReduce(sums)) == QuadTotal(es) % M64
  {
    var s0, s1, s2, s3 := sums[0], sums[1], sums[2], sums[3];
    var e0, e1, e2, e3 := es[0], es[1], es[2], es[3];
    assert Tracks(s0, e0, M64) && Tracks(s1, e1, M64) && Tracks(s2, e2, M64) && Tracks(s3, e3, M64);
    PairResult(s0, e0, s1, e1);
    PairResult(s2, e2, s3, e3);
    var lo, hi := AddLanes(s0, s1, M64), AddLanes(s2, s3, M64);
    var elo, ehi := Plus(e0, e1), Plus(e2, e3);
    PairResult(lo, elo, hi, ehi);
    TracksExtract64(AddLanes(lo, hi, M64), Plus(elo, ehi));
    assert QuadReduce(sums) == AddLanes(lo, hi, M64);
    assert IntSum(Plus(elo, ehi)) == QuadTotal(es);
  }

  /** ValueSum: the sum of all width * height bytes, modulo 2^64. */
  method ValueSum(src: seq<seq<int>>, width: nat, height: nat) returns (sum: int)
    requires Image(src, width, height)
    ensures sum == ImageSum(src, width, height) % M64
  {
    var sums := [Zeros(8), Zeros(8), Zeros(8), Zeros(8)];
    ghost var es := sums;
    TracksExact(Zeros(8), M64);
    IntSumZeros(8);
    var row := 0;
    while row < height
      invariant row <= height
      invariant Quad(sums, es) && QuadTotal(es) == ImageSum(src, width, row)
    {
      sums, es := ValueSumRow(src[row], width, sums, es);
      row := row + 1;
    }
    assert QuadTotal(es) == ImageSum(src, width, height);
    QuadResult(sums, es);
    sum := ExtractSumU64(QuadReduce(sums));
  }

  /** Every byte is at most 255, so the image total is at most 255 * width * rows. */
  lemma {:induction false} ImageSumBounds(src: seq<seq<int>>, width: nat, rows: nat)
    requires Image(src, width, rows)
    ensures 0 <= ImageSum(src, width, rows) <= 255 * width * rows
  {
    if rows > 0 {
      ImageSumBounds(src, width, rows - 1);
      IntSumBounds(src[rows - 1][..width], 255);
    }
  }

  /** ValueSum is exact for any image of fewer than 2^56 pixels. */
  lemma ValueSumExact(src: seq<seq<int>>, width: nat, height: nat)
    requires Image(src, width, height) && width * height < 0x100_0000_0000_0000
    ensures ImageSum(src, width, height) % M64 == ImageSum(src, width, height)
  {
    ImageSumBounds(src, width, height);
    SmallMod(ImageSum(src, width, height), M64);
  }

  // ---------------------------------------------------------------------
  // GetStatistic: minimum, maximum and rounded average

  /** The values of the image's pixels. */
  function Pixels(src: seq<seq<int>>, width: nat, height: nat): set<int>
    requires Image(src, width, height)
  {
    set r, c | 0 <= r < height && 0 <= c < width :: src[r][c]
  }

  /** _mm512_min_epu8 (n = A) and _mm512_mask_min_epu8 under TailMask64(n). */
  function MinLanes(m: seq<int>, v: seq<int>, n: nat): (r: seq<int>)
    requires |m| == A && |v| == A
    ensures |r| == A && forall k :: 0 <= k < A ==> r[k] == if k < n && v[k] < m[k] then v[k] else m[k]
  {
    seq(A, k requires 0 <= k < A => if k < n && v[k] < m[k] then v[k] else m[k])
  }

  /** _mm512_max_epu8 (n = A) and _mm512_mask_max_epu8 under TailMask64(n). */
  function MaxLanes(m: seq<int>, v: seq<int>, n: nat): (r: seq<int>)
    requires |m| == A && |v| == A
    ensures |r| == A && forall k :: 0 <= k < A ==> r[k] == if k < n && v[k] > m[k] then v[k] else m[k]
  {
    seq(A, k requires 0 <= k < A => if k < n && v[k] > m[k] then v[k] else m[k])
  }

  /** Inside the register at a multiple col of A, column c is lane c - col. */
  lemma LaneOf(col: nat, c: nat)
    requires col % A == 0 && col <= c < col + A
    ensures c % A == c - col
  {
    ModShift(c - col, col / A, A);
    SmallMod(c - col, A);
  }

  /** Pixels (r, c) with r < row, or r == row and c < col, have been seen. */
  predicate Seen(row: nat, col: nat, r: int, c: int) {
    r < row || (r == row && c < col)
  }

  /**
   * The registers of GetStatistic after rows [0, row) and columns [0, col)
   * of row row: lane k of min512 / max512 bounds every pixel seen in a
   * column c with c % A == k, and is either its start value or a pixel;
   * sum tracks the total of the pixels seen.
   */
  ghost predicate StatAcc(src: seq<seq<int>>, width: nat, height: nat, row: nat, col: nat,
                          mn: seq<int>, mx: seq<int>, sum: seq<int>, e: seq<int>) {
    Image(src, width, height) && row <= height && col <= width && (col > 0 ==> row < height) &&
    |mn| == A && |mx| == A &&
    (forall k :: 0 <= k < A ==> 0 <= mn[k] < 256 && 0 <= mx[k] < 256) &&
    (forall k :: 0 <= k < A ==> (mn[k] == 255 || mn[k] in Pixels(src, width, height)) &&
                                (mx[k] == 0 || mx[k] in Pixels(src, width, height))) &&
    (forall r, c :: 0 <= r < height && 0 <= c < width && Seen(row, col, r, c) ==>
                      mn[c % A] <= src[r][c] <= mx[c % A]) &&
    Tracks(sum, e, M64) && |e| == 8 &&
    IntSum(e) == ImageSum(src, width, row) + (if col == 0 then 0 else IntSum(src[row][..col]))
  }

  /** The lanes a register of row row, at col, puts into min512 and max512 keep the bounds and witnesses. */
  lemma StatBlockLanes(src: seq<seq<int>>, width: nat, height: nat, row: nat, col: nat, n: nat,
                       mn: seq<int>, mx: seq<int>, sum: seq<int>, e: seq<int>)
    requires StatAcc(src, width, height, row, col, mn, mx, sum, e)
    requires row < height && col % A == 0 && n <= A && col + n <= width
    ensures var v := LoadBytes(src[row], col, n);
            var mn', mx' := MinLanes(mn, v, n), MaxLanes(mx, v, n);
            (forall k :: 0 <= k < A ==> 0 <= mn'[k] < 256 && 0 <= mx'[k] < 256) &&
            (forall k :: 0 <= k < A ==> (mn'[k] == 255 || mn'[k] in Pixels(src, width, height)) &&
                                        (mx'[k] == 0 || mx'[k] in Pixels(src, width, height))) &&
            (forall r, c :: 0 <= r < height && 0 <= c < width && Seen(row, col + n, r, c) ==>
                              mn'[c % A] <= src[r][c] <= mx'[c % A])
  {
    var v := LoadBytes(src[row], col, n);
    var mn', mx' := MinLanes(mn, v, n), MaxLanes(mx, v, n);
    forall k | 0 <= k < A
      ensures (mn'[k] == 255 || mn'[k] in Pixels(src, width, height)) &&
              (mx'[k] == 0 || mx'[k] in Pixels(src, width, height))
    {
      if k < n {
        assert src[row][col + k] in Pixels(src, width, height);
      }
    }
    forall r, c | 0 <= r < height && 0 <= c < width && Seen(row, col + n, r, c)
      ensures mn'[c % A] <= src[r][c] <= mx'[c % A]
    {
      if r == row && col <= c {
        LaneOf(col, c);
      }
    }
  }

  /** One register of GetStatistic: n bytes of row row from col (masked when n < A). */
  method StatisticBlock(src: seq<seq<int>>, width: nat, height: nat, row: nat, col: nat, n: nat,
                        mn: seq<int>, mx: seq<int>, sum: seq<int>, ghost e: seq<int>)
    returns (mn': seq<int>, mx': seq<int>, sum': seq<int>, ghost e': seq<int>)
    requires StatAcc(src, width, height, row, col, mn, mx, sum, e)
    requires row < height && col % A == 0 && n <= A && col + n <= width
    ensures StatAcc(src, width, height, row, col + n, mn', mx', sum', e')
  {
    var v := LoadBytes(src[row], col, n);
    StatBlockLanes(src, width, height, row, col, n, mn, mx, sum, e);
    ValueStep(src[row], col, n, sum, e);
    RowPrefix(src[row], col, n);
    mn', mx' := MinLanes(mn, v, n), MaxLanes(mx, v, n);
    var s := ValueReg(src[row], col, n);
    sum', e' := AddLanes(sum, s, M64), Plus(e, s);
  }

  /** Finishing a row is starting the next one. */
  lemma StatNextRow(src: seq<seq<int>>, width: nat, height: nat, row: nat,
                    mn: seq<int>, mx: seq<int>, sum: seq<int>, e: seq<int>)
    requires row < height && StatAcc(src, width, height, row, width, mn, mx, sum, e)
    ensures StatAcc(src, width, height, row + 1, 0, mn, mx, sum, e)
  {
    assert src[row][..width] == src[row][..width];
    forall r, c | 0 <= r < height && 0 <= c < width && Seen(row + 1, 0, r, c)
      ensures mn[c % A] <= src[r][c] <= mx[c % A]
    {
      assert Seen(row, width, r, c);
    }
  }

  /** The start values: min512 all 255, max512 and sum all zero, nothing seen. */
  lemma StatStart(src: seq<seq<int>>, width: nat, height: nat)
    requires Image(src, width, height)
    ensures StatAcc(src, width, height, 0, 0, seq(A, k => 255), seq(A, k => 0), Zeros(8), Zeros(8))
  {
    TracksExact(Zeros(8), M64);
    IntSumZeros(8);
  }

  /** One row of GetStatistic: whole registers up to AlignLo(width, A), then the masked tail. */
  method StatisticRow(src: seq<seq<int>>, width: nat, height: nat, row: nat,
                      mn: seq<int>, mx: seq<int>, sum: seq<int>, ghost e: seq<int>)
    returns (mn': seq<int>, mx': seq<int>, sum': seq<int>, ghost e': seq<int>)
    requires row < height && StatAcc(src, width, height, row, 0, mn, mx, sum, e)
    ensures StatAcc(src, width, height, row + 1, 0, mn', mx', sum', e')
  {
    var alignedWidth := AlignLo(width, A);
    mn', mx', sum', e' := mn, mx, sum, e;
    var col := 0;
    while col < alignedWidth
      invariant col <= alignedWidth && col % A == 0
      invariant StatAcc(src, width, height, row, col, mn', mx', sum', e')
    {
      StepWithin(col, alignedWidth, A);
      mn', mx', sum', e' := StatisticBlock(src, width, height, row, col, A, mn', mx', sum', e');
      col := col + A;
    }
    if col < width {
      mn', mx', sum', e' := StatisticBlock(src, width, height, row, col, width - col, mn', mx', sum', e');
      col := width;
    }
    StatNextRow(src, width, height, row, mn', mx', sum', e');
  }

  /** The rows of GetStatistic, from the start values of min512, max512 and sum. */
  method StatisticRegisters(src: seq<seq<int>>, width: nat, height: nat)
    returns (mn: seq<int>, mx: seq<int>, sum: seq<int>, ghost e: seq<int>)
    requires Image(src, width, height)
    ensures StatAcc(src, width, height, height, 0, mn, mx, sum, e)
  {
    mn, mx := seq(A, k => 255), seq(A, k => 0);
    sum := Zeros(8);
    e := Zeros(8);
    StatStart(src, width, height);
    var row := 0;
    while row < height
      invariant row <= height
      invariant StatAcc(src, width, height, row, 0, mn, mx, sum, e)
    {
      mn, mx, sum, e := StatisticRow(src, width, height, row, mn, mx, sum, e);
      row := row + 1;
    }
  }

  /** Base::MinU8 and Base::MaxU8. */
  function MinU8(a: int, b: int): int { if a < b then a else b }
  function MaxU8(a: int, b: int): int { if a > b then a else b }

  /** _mm_min_epu8 of the four 128-bit quarters (_mm512_extracti32x4_epi32) of min512. */
  function MinQuarters(m: seq<int>): (r: seq<int>)
    requires |m| == A
    ensures |r| == 16
  {
    seq(16, j requires 0 <= j < 16 => MinU8(MinU8(m[j], m[16 + j]), MinU8(m[32 + j], m[48 + j])))
  }

  /** _mm_max_epu8 of the four 128-bit quarters of max512. */
  function MaxQuarters(m: seq<int>): (r: seq<int>)
    requires |m| == A
    ensures |r| == 16
  {
    seq(16, j requires 0 <= j < 16 => MaxU8(MaxU8(m[j], m[16 + j]), MaxU8(m[32 + j], m[48 + j])))
  }

  /** A value below every quarter minimum is below every lane, and a quarter minimum is a lane. */
  lemma QuartersLanes(mn: seq<int>, mx: seq<int>, min: int, max: int)
    requires |mn| == A && |mx| == A
    requires forall j :: 0 <= j < 16 ==> min <= MinQuarters(mn)[j] && MaxQuarters(mx)[j] <= max
    requires min in MinQuarters(mn) && max in MaxQuarters(mx)
    ensures forall k :: 0 <= k < A ==> min <= mn[k] && mx[k] <= max
    ensures min in mn && max in mx
  {
    var lo, hi := MinQuarters(mn), MaxQuarters(mx);
    forall k | 0 <= k < A ensures min <= mn[k] && mx[k] <= max {
      var j := k % 16;
      assert k == j || k == 16 + j || k == 32 + j || k == 48 + j;
      assert min <= lo[j] && hi[j] <= max;
    }
    var i :| 0 <= i < 16 && lo[i] == min;
    assert min in [mn[i], mn[16 + i], mn[32 + i], mn[48 + i]];
    var i' :| 0 <= i' < 16 && hi[i'] == max;
    assert max in [mx[i'], mx[16 + i'], mx[32 + i'], mx[48 + i']];
  }

  /** Lanes that bound every pixel and are pixels (or their start values) give the image's minimum and maximum. */
  lemma StatExtremes(src: seq<seq<int>>, width: nat, height: nat, mn: seq<int>, mx: seq<int>,
                     sum: seq<int>, e: seq<int>, min: int, max: int)
    requires StatAcc(src, width, height, height, 0, mn, mx, sum, e) && height > 0 && width > 0
    requires forall k :: 0 <= k < A ==> min <= mn[k] && mx[k] <= max
    requires min in mn && max in mx
    ensures forall r, c :: 0 <= r < height && 0 <= c < width ==> min <= src[r][c] <= max
    ensures min in Pixels(src, width, height) && max in Pixels(src, width, height)
  {
    forall r, c | 0 <= r < height && 0 <= c < width ensures min <= src[r][c] <= max {
      assert Seen(height, 0, r, c);
    }
    assert Seen(height, 0, 0, 0);
    assert src[0][0] in Pixels(src, width, height);
  }

  /** ExtractSum<uint64_t>(sum) after every row is the image total modulo 2^64. */
  lemma StatSum(src: seq<seq<int>>, width: nat, height: nat, mn: seq<int>, mx: seq<int>, sum: seq<int>, e: seq<int>)
    requires StatAcc(src, width, height, height, 0, mn, mx, sum, e)
    ensures |sum| == 8 && Below(sum, M64) && ExtractSumU64(sum) == ImageSum(src, width, height) % M64
  {
    TracksExtract64(sum, e);
  }

  /** The byte GetStatistic stores as the average of count pixels totalling total, in 64-bit arithmetic. */
  function Average(total: int, count: int): int
    requires count % M64 != 0
  {
    var n := count % M64;
    ((total % M64 + n / 2) % M64 / n) % 256
  }

  /**
   * The end of GetStatistic on the registers: the quarters of min512 and
   * max512 stored to min_buffer / max_buffer, then folded with MinU8 and
   * MaxU8 from UCHAR_MAX and 0.  The results are the least and greatest lane.
   */
  method ReduceExtremes(mn: seq<int>, mx: seq<int>) returns (min: int, max: int)
    requires |mn| == A && |mx| == A && Bytes(mn) && Bytes(mx)
    ensures forall k :: 0 <= k < A ==> min <= mn[k] && mx[k] <= max
    ensures min in mn && max in mx
  {
    var minBuffer, maxBuffer := MinQuarters(mn), MaxQuarters(mx);
    min, max := 255, 0;
    var i := 0;
    while i < 16
      invariant i <= 16
      invariant min == 255 || min in minBuffer[..i]
      invariant max == 0 || max in maxBuffer[..i]
      invariant forall j :: 0 <= j < i ==> min <= minBuffer[j] && maxBuffer[j] <= max
    {
      min := MinU8(minBuffer[i], min);
      max := MaxU8(maxBuffer[i], max);
      i := i + 1;
    }
    assert minBuffer[..16] == minBuffer && maxBuffer[..16] == maxBuffer;
    assert 0 <= minBuffer[0] < 256 && 0 <= maxBuffer[0] < 256;
    QuartersLanes(mn, mx, min, max);
  }

  /**
   * GetStatistic (width * height != 0 in size_t): the least and greatest
   * pixel, and the rounded average.  Narrow images (width < A) have no full
   * register and go through the tail mask alone.
   */
  method GetStatistic(src: seq<seq<int>>, width: nat, height: nat) returns (min: int, max: int, average: int)
    requires Image(src, width, height) && (width * height) % M64 != 0
    ensures forall r, c :: 0 <= r < height && 0 <= c < width ==> min <= src[r][c] <= max
    ensures min in Pixels(src, width, height) && max in Pixels(src, width, height)
    ensures average == Average(ImageSum(src, width, height), width * height)
  {
    var mn, mx, sum, e := StatisticRegisters(src, width, height);
    min, max := ReduceExtremes(mn, mx);
    assert height > 0;
    StatExtremes(src, width, height, mn, mx, sum, e, min, max);
    StatSum(src, width, height, mn, mx, sum, e);
    var total := ExtractSumU64(sum);
    average := Average(total, width * height);
    AverageOfRemainder(ImageSum(src, width, height), total, width * height);
  }

  /** Average sees the total only modulo 2^64, as the uint64_t register reduction delivers it. */
  lemma AverageOfRemainder(exact: int, total: int, count: int)
    requires count % M64 != 0 && total == exact % M64
    ensures Average(total, count) == Average(exact, count)
  {
    assert total % M64 == exact % M64;
  }

  /** A sum of lanes each between lo and hi lies between |s| * lo and |s| * hi. */
  lemma {:induction false} IntSumBetween(s: seq<int>, lo: int, hi: int)
    requires forall k :: 0 <= k < |s| ==> lo <= s[k] <= hi
    ensures |s| * lo <= IntSum(s) <= |s| * hi
  {
    if |s| > 0 {
      var t, n := s[..|s| - 1], |s| - 1;
      IntSumBetween(t, lo, hi);
      assert IntSum(s) == IntSum(t) + s[n] && lo <= s[n] <= hi;
      assert (n + 1) * lo == n * lo + lo && (n + 1) * hi == n * hi + hi;
    }
  }

  /** Pixels between lo and hi put the image total between rows * width * lo and rows * width * hi. */
  lemma {:induction false} ImageSumBetween(src: seq<seq<int>>, width: nat, rows: nat, lo: int, hi: int)
    requires Image(src, width, rows)
    requires forall r, c :: 0 <= r < rows && 0 <= c < width ==> lo <= src[r][c] <= hi
    ensures rows * (width * lo) <= ImageSum(src, width, rows) <= rows * (width * hi)
  {
    if rows > 0 {
      ImageSumBetween(src, width, rows - 1, lo, hi);
      var row := src[rows - 1][..width];
      assert forall k :: 0 <= k < |row| ==> lo <= row[k] <= hi;
      IntSumBetween(row, lo, hi);
      var wl, wh := width * lo, width * hi;
      assert rows * wl == (rows - 1) * wl + wl;
      assert rows * wh == (rows - 1) * wh + wh;
    }
  }

  /** Rounding a mean to nearest keeps it between the least and greatest value. */
  lemma RoundedMeanBetween(total: int, count: nat, lo: int, hi: int)
    requires count > 0 && count * lo <= total <= count * hi
    ensures lo <= (total + count / 2) / count <= hi
  {
    var q, rho := (total + count / 2) / count, (total + count / 2) % count;
    assert total + count / 2 == q * count + rho && 0 <= rho < count;
    MulBounds(q - hi, count);
    MulBounds(q - lo, count);
    assert q * count == (q - hi) * count + hi * count;
    assert q * count == (q - lo) * count + lo * count;
  }

  /** For count * 256 <= 2^64 nothing wraps in Average, and the result is the rounded mean. */
  lemma AverageArith(total: int, count: nat, lo: int, hi: int)
    requires 0 < count && 256 * count <= M64 && 0 <= lo && hi <= 255
    requires count * lo <= total <= count * hi
    ensures count % M64 != 0 && Average(total, count) == (total + count / 2) / count
    ensures lo <= Average(total, count) <= hi
  {
    assert 0 <= count * lo && count * hi <= count * 255;
    SmallMod(count, M64);
    SmallMod(total, M64);
    SmallMod(total + count / 2, M64);
    RoundedMeanBetween(total, count, lo, hi);
    SmallMod((total + count / 2) / count, 256);
  }

  /**
   * For fewer than 2^56 pixels nothing wraps: the average GetStatistic
   * stores is the total divided by the pixel count, rounded half up, and it
   * lies between the least and greatest pixel.
   */
  lemma AverageIsRoundedMean(src: seq<seq<int>>, width: nat, height: nat, min: int, max: int)
    requires Image(src, width, height) && 0 < width * height && 256 * (width * height) <= M64
    requires forall r, c :: 0 <= r < height && 0 <= c < width ==> min <= src[r][c] <= max
    requires min in Pixels(src, width, height) && max in Pixels(src, width, height)
    ensures (width * height) % M64 != 0
    ensures Average(ImageSum(src, width, height), width * height) ==
              (ImageSum(src, width, height) + width * height / 2) / (width * height)
    ensures min <= Average(ImageSum(src, width, height), width * height) <= max
  {
    PixelsBytes(src, width, height, min);
    PixelsBytes(src, width, height, max);
    ImageSumBetween(src, width, height, min, max);
    CountTimes(width, height, min, max);
    AverageArith(ImageSum(src, width, height), width * height, min, max);
  }

  /** Every pixel value is a byte. */
  lemma PixelsBytes(src: seq<seq<int>>, width: nat, height: nat, x: int)
    requires Image(src, width, height) && x in Pixels(src, width, height)
    ensures 0 <= x < 256
  {
  }

  /** (width * height) * x, regrouped. */
  lemma CountTimes(width: nat, height: nat, lo: int, hi: int)
    ensures height * (width * lo) == (width * height) * lo && height * (width * hi) == (width * height) * hi
  {
  }
}
