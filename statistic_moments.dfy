// GetMoments of the Avx512bw statistics: over the pixels of a mask whose
// byte equals index, their number (area), the sums of their column and row
// coordinates (x, y) and the sums of the products x * x, x * y and y * y.
//
// A register of A = 64 mask bytes is compared with index.  The column and
// row coordinates of the bytes, as 16-bit lanes, are cleared where the byte
// does not match, multiplied and added in adjacent pairs (_mm512_madd_epi16),
// so that each half of 32 bytes gives 16 32-bit lanes.  GetMomentsSmall keeps
// the five sums of a row in 32-bit lanes and widens them to 64-bit lanes at
// the end of the row; GetMomentsLarge does so for x and y only, and widens
// the three products after every register.  IsSmall chooses the first when
// no 32-bit lane of a row can overflow.

module StatisticMoments {
  import opened Lanes
  import opened Extract
  import opened ByteLanes

  /** SHRT_MAX: the coordinates are 16-bit lanes, so width and height stay below it. */
  const ShrtMax: nat := 32767

  /** The six results. */
  datatype Moment = Area | X | Y | XX | XY | YY

  /** What a matching pixel in row r and column c adds to moment m. */
  function Weight(m: Moment, r: nat, c: nat): nat {
    match m
    case Area => 1
    case X => c
    case Y => r
    case XX => c * c
    case XY => c * r
    case YY => r * r
  }

  // ---------------------------------------------------------------------
  // What GetMoments computes

  /** Moment m of the bytes before column n of row r that equal index. */
  function RowMoment(row: seq<int>, r: nat, n: nat, index: int, m: Moment): (s: int)
    requires n <= |row|
    ensures s >= 0
  {
    if n == 0 then 0
    else RowMoment(row, r, n - 1, index, m) + (if row[n - 1] == index then Weight(m, r, n - 1) else 0)
  }

  /** Moment m of the pixels of the first rows rows that equal index. */
  function ImageMoment(mask: seq<seq<int>>, width: nat, rows: nat, index: int, m: Moment): (s: int)
    requires Image(mask, width, rows)
    ensures s >= 0
  {
    if rows == 0 then 0
    else ImageMoment(mask, width, rows - 1, index, m) + RowMoment(mask[rows - 1], rows - 1, width, index, m)
  }

  /** The moments kept in registers, in the order of _x, _y, _xx, _xy, _yy. */
  const Kinds: seq<Moment> := [X, Y, XX, XY, YY]

  /** The five register moments of the first rows rows. */
  ghost function ImageTotals(mask: seq<seq<int>>, width: nat, rows: nat, index: int): (t: seq<int>)
    requires Image(mask, width, rows)
    ensures |t| == 5
  {
    seq(5, i requires 0 <= i < 5 => ImageMoment(mask, width, rows, index, Kinds[i]))
  }

  /** The five register moments of the bytes before column n of row r. */
  ghost function RowTotals(row: seq<int>, r: nat, n: nat, index: int): (t: seq<int>)
    requires n <= |row|
    ensures |t| == 5
  {
    seq(5, i requires 0 <= i < 5 => RowMoment(row, r, n, index, Kinds[i]))
  }

  /** Adding a row's moments to those of the rows above it gives the moments of one more row. */
  lemma ImageTotalsStep(mask: seq<seq<int>>, width: nat, rows: nat, index: int)
    requires Image(mask, width, rows + 1)
    ensures ImageTotals(mask, width, rows + 1, index)
            == Plus(ImageTotals(mask, width, rows, index), RowTotals(mask[rows], rows, width, index))
  {
  }

  // ---------------------------------------------------------------------
  // One register of mask bytes

  /**
   * _mm512_cmpeq_epi8_mask of the n loaded bytes with index, restricted to
   * the n lanes the tail mask loads.
   */
  function Matches(v: seq<int>, n: nat, index: int): (mk: seq<bool>)
    requires |v| == A
    ensures |mk| == A && forall i :: 0 <= i < A ==> mk[i] == (i < n && v[i] == index)
  {
    seq(A, i requires 0 <= i < A => i < n && v[i] == index)
  }

  /**
   * The comparison as GetMoments8Small and GetMoments8Large write it:
   * every lane is compared, the lanes past the tail included.
   */
  function MatchesAsWritten(v: seq<int>, index: int): (mk: seq<bool>)
    requires |v| == A
    ensures |mk| == A && forall i :: 0 <= i < A ==> mk[i] == (v[i] == index)
  {
    seq(A, i requires 0 <= i < A => v[i] == index)
  }

  /** Popcnt64: the number of set lanes of a comparison mask. */
  function Popcnt(mk: seq<bool>): (c: nat)
    ensures c <= |mk|
  {
    if |mk| == 0 then 0 else Popcnt(mk[..|mk| - 1]) + (if mk[|mk| - 1] then 1 else 0)
  }

  /**
   * The 16-bit products of a register at column col of row r for moment m:
   * the coordinates are cleared where the byte does not match
   * (_mm512_mask_set1_epi16 under the inverted mask), so lane i holds the
   * weight of byte i when it matches and 0 otherwise.
   */
  function Terms(mk: seq<bool>, col: nat, r: nat, m: Moment): (p: seq<int>)
    requires |mk| == A
    ensures |p| == A && forall i :: 0 <= i < A ==> p[i] == if mk[i] then Weight(m, r, col + i) else 0
  {
    seq(A, i requires 0 <= i < A => if mk[i] then Weight(m, r, col + i) else 0)
  }

  /**
   * _mm512_madd_epi16 of half h (bytes 32h .. 32h + 31) of a register: 32-bit
   * lane k adds the products of bytes 32h + 2k and 32h + 2k + 1.
   */
  function Half(p: seq<int>, h: nat): (q: seq<int>)
    requires |p| == A && h < 2
    ensures |q| == 16 && forall k :: 0 <= k < 16 ==> q[k] == p[32 * h + 2 * k] + p[32 * h + 2 * k + 1]
  {
    PairSums(p[32 * h..32 * h + 32])
  }

  /** The two madd halves of a register add up to all its products. */
  lemma HalvesTotal(p: seq<int>)
    requires |p| == A
    ensures IntSum(Half(p, 0)) + IntSum(Half(p, 1)) == IntSum(p)
  {
    PairSumsTotal(p[0..32]);
    PairSumsTotal(p[32..64]);
    assert p == p[0..32] + p[32..64];
    IntSumConcat(p[0..32], p[32..64]);
  }

  lemma {:induction false} TermsPrefix(row: seq<int>, r: nat, col: nat, n: nat, index: int, m: Moment,
                                       mk: seq<bool>, j: nat)
    requires n <= A && col + n <= |row| && |mk| == A && j <= n
    requires forall i :: 0 <= i < n ==> mk[i] == (row[col + i] == index)
    ensures IntSum(Terms(mk, col, r, m)[..j]) + RowMoment(row, r, col, index, m)
            == RowMoment(row, r, col + j, index, m)
  {
    if j > 0 {
      TermsPrefix(row, r, col, n, index, m, mk, j - 1);
      var p := Terms(mk, col, r, m);
      assert p[..j][..j - 1] == p[..j - 1];
    }
  }

  /** The products of a register add up to the moment of the n bytes it loads. */
  lemma ChunkMoment(row: seq<int>, r: nat, col: nat, n: nat, index: int, m: Moment)
    requires n <= A && col + n <= |row|
    ensures IntSum(Terms(Matches(LoadBytes(row, col, n), n, index), col, r, m))
            == RowMoment(row, r, col + n, index, m) - RowMoment(row, r, col, index, m)
  {
    var mk := Matches(LoadBytes(row, col, n), n, index);
    var p := Terms(mk, col, r, m);
    TermsPrefix(row, r, col, n, index, m, mk, n);
    assert p == p[..n] + p[n..];
    assert p[n..] == Zeros(A - n);
    IntSumConcat(p[..n], p[n..]);
    IntSumZeros(A - n);
  }

  lemma {:induction false} PopcntPrefix(mk: seq<bool>, col: nat, r: nat, j: nat)
    requires |mk| == A && j <= A
    ensures Popcnt(mk[..j]) == IntSum(Terms(mk, col, r, Area)[..j])
  {
    if j > 0 {
      PopcntPrefix(mk, col, r, j - 1);
      var p := Terms(mk, col, r, Area);
      assert p[..j][..j - 1] == p[..j - 1];
      assert mk[..j][..j - 1] == mk[..j - 1];
    }
  }

  /** Popcnt64 of the comparison counts the matching bytes the register loads. */
  lemma ChunkArea(row: seq<int>, r: nat, col: nat, n: nat, index: int)
    requires n <= A && col + n <= |row|
    ensures Popcnt(Matches(LoadBytes(row, col, n), n, index))
            == RowMoment(row, r, col + n, index, Area) - RowMoment(row, r, col, index, Area)
  {
    var mk := Matches(LoadBytes(row, col, n), n, index);
    PopcntPrefix(mk, col, r, A);
    assert mk[..A] == mk;
    assert Terms(mk, col, r, Area)[..A] == Terms(mk, col, r, Area);
    ChunkMoment(row, r, col, n, index, Area);
  }

  // ---------------------------------------------------------------------
  // The comparison as written

  /** Where a register is full, or index is not 0, the comparison as written is the intended one. */
  lemma AsWrittenAgrees(row: seq<int>, col: nat, n: nat, index: int)
    requires n <= A && col + n <= |row| && (n == A || index != 0)
    ensures MatchesAsWritten(LoadBytes(row, col, n), index) == Matches(LoadBytes(row, col, n), n, index)
  {
  }

  lemma {:induction false} PopcntAllButFirst(mk: seq<bool>, j: nat)
    requires 1 <= j <= |mk| && !mk[0] && forall i :: 1 <= i < |mk| ==> mk[i]
    ensures Popcnt(mk[..j]) == j - 1
  {
    if j > 1 {
      PopcntAllButFirst(mk, j - 1);
      assert mk[..j][..j - 1] == mk[..j - 1];
    } else {
      assert mk[..1][..0] == [];
    }
  }

  /**
   * A one-byte row holding 1, searched for index 0: no pixel matches, but
   * the 63 zero lanes past the tail of the masked load match as written.
   */
  lemma PaddingCounted()
    ensures RowMoment([1], 0, 1, 0, Area) == 0
    ensures Popcnt(MatchesAsWritten(LoadBytes([1], 0, 1), 0)) == 63
    ensures Popcnt(Matches(LoadBytes([1], 0, 1), 1, 0)) == 0
  {
    var mk := MatchesAsWritten(LoadBytes([1], 0, 1), 0);
    PopcntAllButFirst(mk, A);
    assert mk[..A] == mk;
    ChunkArea([1], 0, 0, 1, 0);
  }

  // ---------------------------------------------------------------------
  // Bounds

  /** The largest weight of moment m over columns below w and rows below h. */
  function Bound(m: Moment, w: nat, h: nat): nat {
    match m
    case Area => 1
    case X => w
    case Y => h
    case XX => w * w
    case XY => w * h
    case YY => h * h
  }

  /** For nonnegative factors, a <= b implies a * c <= b * c. */
  lemma MulMono(a: int, b: int, c: int)
    requires 0 <= a <= b && 0 <= c
    ensures a * c <= b * c
  {
    assert b * c - a * c == (b - a) * c;
  }

  lemma WeightBound(m: Moment, r: nat, c: nat, w: nat, h: nat)
    requires r < h && c < w
    ensures Weight(m, r, c) <= Bound(m, w, h)
  {
    MulMono(c, w, c);
    MulMono(c, w, w);
    MulMono(c, w, r);
    MulMono(r, h, w);
    MulMono(r, h, r);
    MulMono(r, h, h);
  }

  /** With coordinates below 2^15 every weight is below 2^30. */
  lemma BoundSmall(m: Moment, w: nat, h: nat)
    requires w <= 32768 && h <= 32768
    ensures Bound(m, w, h) <= 0x4000_0000
  {
    MulMono(w, 32768, w);
    MulMono(w, 32768, 32768);
    MulMono(h, 32768, w);
    MulMono(w, 32768, 32768);
    MulMono(h, 32768, h);
    MulMono(h, 32768, 32768);
  }

  /** The products of a register of columns below w in a row below h. */
  lemma TermsBound(mk: seq<bool>, col: nat, r: nat, m: Moment, w: nat, h: nat)
    requires |mk| == A && col + A <= w && r < h
    ensures forall i :: 0 <= i < A ==> 0 <= Terms(mk, col, r, m)[i] <= Bound(m, w, h)
  {
    forall i | 0 <= i < A ensures Terms(mk, col, r, m)[i] <= Bound(m, w, h) {
      WeightBound(m, r, col + i, w, h);
    }
  }

  lemma {:induction false} RowMomentBound(row: seq<int>, r: nat, n: nat, index: int, m: Moment, w: nat, h: nat)
    requires n <= |row| && n <= w && r < h
    ensures RowMoment(row, r, n, index, m) <= n * Bound(m, w, h)
  {
    if n > 0 {
      RowMomentBound(row, r, n - 1, index, m, w, h);
      WeightBound(m, r, n - 1, w, h);
      var b := Bound(m, w, h);
      var s := RowMoment(row, r, n - 1, index, m);
      assert s <= (n - 1) * b;
      assert RowMoment(row, r, n, index, m) <= s + b;
      assert n * b == (n - 1) * b + b;
    }
  }

  lemma {:induction false} ImageMomentBound(mask: seq<seq<int>>, width: nat, rows: nat, index: int, m: Moment, h: nat)
    requires Image(mask, width, rows) && rows <= h
    ensures ImageMoment(mask, width, rows, index, m) <= rows * (width * Bound(m, width, h))
  {
    if rows > 0 {
      ImageMomentBound(mask, width, rows - 1, index, m, h);
      RowMomentBound(mask[rows - 1], rows - 1, width, index, m, width, h);
      var wb := width * Bound(m, width, h);
      assert rows * wb == (rows - 1) * wb + wb;
    }
  }

  /** Every moment of an image narrower and lower than SHRT_MAX fits a uint64_t. */
  lemma MomentFits(mask: seq<seq<int>>, width: nat, height: nat, index: int, m: Moment)
    requires Image(mask, width, height) && width < ShrtMax && height < ShrtMax
    ensures ImageMoment(mask, width, height, index, m) < M64
  {
    ImageMomentBound(mask, width, height, index, m, height);
    BoundSmall(m, width, height);
    var b := Bound(m, width, height);
    MulMono(width, 32768, b);
    MulMono(b, 0x4000_0000, 32768);
    var wb := width * b;
    MulMono(height, 32768, wb);
    MulMono(wb, 32768 * 0x4000_0000, 32768);
  }

  /** IsSmall: the products of a row fit the 32-bit lanes of GetMomentsSmall. */
  function IsSmall(width: nat, height: nat): bool {
    width * width * width < 0x3_0000_0000 &&
    width * width * height < 0x2_0000_0000 &&
    width * height * height < 0x1_0000_0000
  }

  /** A cube below 0x3_0000_0000 has a side below 2400. */
  lemma SmallCube(width: nat)
    requires width * width * width < 0x3_0000_0000
    ensures width < 2400
  {
    if width >= 2400 {
      MulMono(2400, width, 2400);
      MulMono(2400, width, width);
      MulMono(5760000, width * width, 2400);
      MulMono(2400, width, width * width);
    }
  }

  /** AlignHi(width, A) / A registers of a row whose width is below SHRT_MAX. */
  lemma RowRegisters(width: nat)
    requires width < ShrtMax
    ensures AlignHi(width, A) == AlignHi(width, A) / A * A <= 32768
    ensures AlignHi(width, A) / A <= 512
    ensures width < A ==> AlignHi(width, A) <= A && AlignHi(width, A) / A <= 1
    ensures width >= A ==> 32 * (AlignHi(width, A) / A) <= width && AlignHi(width, A) <= 2 * width
  {
  }

  lemma FitsX(q: nat, w: nat)
    requires q <= 512 && w <= 32768
    ensures q * (4 * w) < M32
  {
    MulMono(q, 512, 4 * w);
    MulMono(4 * w, 4 * 32768, 512);
  }

  lemma FitsY(q: nat, height: nat)
    requires q <= 512 && height < ShrtMax
    ensures q * (4 * height) < M32
  {
    MulMono(q, 512, 4 * height);
  }

  lemma FitsXX(width: nat, q: nat, w: nat)
    requires width * width * width < 0x3_0000_0000 && w < width + A && q * A == w
    ensures q * (4 * (w * w)) < M32
  {
    SmallCube(width);
    assert w <= 2432 && q <= 38;
    var b := 4 * (w * w);
    MulMono(w, 2432, w);
    MulMono(w, 2432, 2432);
    MulMono(q, 38, b);
    MulMono(b, 4 * 2432 * 2432, 38);
  }

  lemma FitsXY(width: nat, height: nat, q: nat, w: nat)
    requires width * width * height < 0x2_0000_0000 && height < ShrtMax
    requires width < A ==> w <= A && q <= 1
    requires width >= A ==> 32 * q <= width && w <= 2 * width
    ensures q * (4 * (w * height)) < M32
  {
    if width < A {
      FitsXYNarrow(height, q, w);
    } else {
      FitsXYWide(width, height, q, w);
    }
  }

  lemma FitsXYNarrow(height: nat, q: nat, w: nat)
    requires height < ShrtMax && w <= A && q <= 1
    ensures q * (4 * (w * height)) < M32
  {
    var b := 4 * (w * height);
    MulMono(q, 1, b);
    MulMono(w, 64, height);
  }

  lemma FitsXYWide(width: nat, height: nat, q: nat, w: nat)
    requires width * width * height < 0x2_0000_0000
    requires 32 * q <= width && w <= 2 * width
    ensures q * (4 * (w * height)) < M32
  {
    var b := 4 * (w * height);
    MulMono(32 * q, width, b);
    MulMono(w, 2 * width, height);
    MulMono(b, 8 * (width * height), width);
    assert width * width * height == (width * height) * width;
  }

  lemma FitsYY(width: nat, height: nat, q: nat)
    requires width * height * height < 0x1_0000_0000 && height < ShrtMax
    requires width < A ==> q <= 1
    requires width >= A ==> 32 * q <= width
    ensures q * (4 * (height * height)) < M32
  {
    var b := 4 * (height * height);
    if width < A {
      MulMono(q, 1, b);
      MulMono(height, 32766, height);
      MulMono(height, 32766, 32766);
    } else {
      MulMono(32 * q, width, b);
      assert width * height * height == width * (height * height);
    }
  }

  /**
   * The exact 32-bit lanes of a row register stay below 2^32: a register adds
   * at most 4 * Bound to a lane, and a row has AlignHi(width, A) / A of them.
   * For x and y this always holds; for the products it is what IsSmall buys.
   */
  lemma RowFits(width: nat, height: nat, m: Moment)
    requires width < ShrtMax && height < ShrtMax && m != Area
    requires m == X || m == Y || IsSmall(width, height)
    ensures AlignHi(width, A) / A * (4 * Bound(m, AlignHi(width, A), height)) < M32
  {
    var w := AlignHi(width, A);
    var q := w / A;
    RowRegisters(width);
    match m {
      case X => FitsX(q, w);
      case Y => FitsY(q, height);
      case XX => FitsXX(width, q, w);
      case XY => FitsXY(width, height, q, w);
      case YY => FitsYY(width, height, q);
    }
  }

  // ---------------------------------------------------------------------
  // Registers

  /** The registers _x, _y, _xx, _xy and _yy, or their exact lane totals. */
  datatype Registers = Registers(x: seq<int>, y: seq<int>, xx: seq<int>, xy: seq<int>, yy: seq<int>)

  /**
   * A 32-bit row register of moment m after the bytes of row r before col,
   * q registers of bytes added: its lanes track exact totals e that add up
   * to the row's moment, each at most q times what one register adds.
   */
  ghost predicate Acc32(acc: seq<int>, e: seq<int>, row: seq<int>, r: nat, col: nat, index: int, m: Moment,
                        q: nat, w: nat, h: nat) {
    col <= |row| && |e| == 16 && Tracks(acc, e, M32) && IntSum(e) == RowMoment(row, r, col, index, m) &&
    forall k :: 0 <= k < 16 ==> e[k] <= q * (4 * Bound(m, w, h))
  }

  /** A 64-bit register whose lanes track exact totals e adding up to total. */
  ghost predicate Acc64(acc: seq<int>, e: seq<int>, total: int) {
    |e| == 8 && Tracks(acc, e, M64) && IntSum(e) == total
  }

  /** The five 64-bit registers hold the totals t, in the order of Kinds. */
  ghost predicate Wide(regs: Registers, es: Registers, t: seq<int>) {
    |t| == 5 && Acc64(regs.x, es.x, t[0]) && Acc64(regs.y, es.y, t[1]) && Acc64(regs.xx, es.xx, t[2]) &&
    Acc64(regs.xy, es.xy, t[3]) && Acc64(regs.yy, es.yy, t[4])
  }

  /** The five 32-bit row registers of GetMomentsSmall. */
  ghost predicate Small32(regs: Registers, es: Registers, row: seq<int>, r: nat, col: nat, index: int,
                          q: nat, w: nat, h: nat) {
    Acc32(regs.x, es.x, row, r, col, index, X, q, w, h) &&
    Acc32(regs.y, es.y, row, r, col, index, Y, q, w, h) &&
    Acc32(regs.xx, es.xx, row, r, col, index, XX, q, w, h) &&
    Acc32(regs.xy, es.xy, row, r, col, index, XY, q, w, h) &&
    Acc32(regs.yy, es.yy, row, r, col, index, YY, q, w, h)
  }

  /** Cleared registers: _mm512_setzero_si512. */
  lemma ZeroAcc(row: seq<int>, r: nat, index: int, w: nat, h: nat)
    ensures forall m :: Acc32(Zeros(16), Zeros(16), row, r, 0, index, m, 0, w, h)
    ensures Acc64(Zeros(8), Zeros(8), 0)
  {
    TracksExact(Zeros(16), M32);
    TracksExact(Zeros(8), M64);
    IntSumZeros(16);
    IntSumZeros(8);
  }

  /** The cleared row registers of GetMomentsSmall at the start of a row. */
  lemma ZeroSmall(row: seq<int>, r: nat, index: int, w: nat, h: nat)
    ensures var z := Registers(Zeros(16), Zeros(16), Zeros(16), Zeros(16), Zeros(16));
            Small32(z, z, row, r, 0, index, 0, w, h)
  {
    ZeroAcc(row, r, index, w, h);
  }

  /** A row register that has taken every register of the row did not wrap. */
  lemma NoWrap(acc: seq<int>, e: seq<int>, row: seq<int>, r: nat, width: nat, index: int, m: Moment, height: nat)
    requires width < ShrtMax && height < ShrtMax && m != Area
    requires m == X || m == Y || IsSmall(width, height)
    requires Acc32(acc, e, row, r, width, index, m, AlignHi(width, A) / A, AlignHi(width, A), height)
    ensures forall k :: 0 <= k < 16 ==> e[k] < M32
  {
    RowFits(width, height, m);
  }

  // ---------------------------------------------------------------------
  // Kernels

  /**
   * Both madd halves of 16-bit products between 0 and b added to a 32-bit
   * register: the exact lanes grow by at most 4 * b and by all the products.
   */
  lemma MaddStep(acc: seq<int>, e: seq<int>, p: seq<int>, b: nat, q: nat)
    requires |e| == 16 && Tracks(acc, e, M32) && |p| == A && b <= 0x4000_0000
    requires forall i :: 0 <= i < A ==> 0 <= p[i] <= b
    requires forall k :: 0 <= k < 16 ==> e[k] <= q * (4 * b)
    ensures Below(acc, M32) && Below(Half(p, 0), M32) && Below(Half(p, 1), M32)
    ensures Below(AddLanes(acc, Half(p, 0), M32), M32)
    ensures var e' := Plus(Plus(e, Half(p, 0)), Half(p, 1));
            |e'| == 16 && Tracks(AddLanes(AddLanes(acc, Half(p, 0), M32), Half(p, 1), M32), e', M32) &&
            IntSum(e') == IntSum(e) + IntSum(p) &&
            forall k :: 0 <= k < 16 ==> e'[k] <= (q + 1) * (4 * b)
  {
    var lo, hi := Half(p, 0), Half(p, 1);
    assert forall k :: 0 <= k < 16 ==> 0 <= lo[k] <= 2 * b && 0 <= hi[k] <= 2 * b;
    TracksExact(lo, M32);
    TracksExact(hi, M32);
    TracksBelow(acc, e, M32);
    var acc1 := AddLanes(acc, lo, M32);
    TracksAdd(acc, e, lo, lo, M32);
    TracksAdd(acc1, Plus(e, lo), hi, hi, M32);
    PlusSum(e, lo);
    PlusSum(Plus(e, lo), hi);
    HalvesTotal(p);
    assert (q + 1) * (4 * b) == q * (4 * b) + 4 * b;
  }

  /**
   * GetMoments16Small / GetMoments16Large for the 32-bit register of moment
   * m: the madd of both halves of a register of bytes added to it.
   */
  method AddHalves(acc: seq<int>, ghost e: seq<int>, mk: seq<bool>, row: seq<int>, r: nat, col: nat, n: nat,
                   index: int, m: Moment, ghost q: nat, ghost w: nat, ghost h: nat)
    returns (acc': seq<int>, ghost e': seq<int>)
    requires n <= A && col + n <= |row| && col + A <= w && r < h && w <= 32768 && h <= 32768
    requires mk == Matches(LoadBytes(row, col, n), n, index)
    requires Acc32(acc, e, row, r, col, index, m, q, w, h)
    ensures Acc32(acc', e', row, r, col + n, index, m, q + 1, w, h)
  {
    var p := Terms(mk, col, r, m);
    TermsBound(mk, col, r, m, w, h);
    BoundSmall(m, w, h);
    MaddStep(acc, e, p, Bound(m, w, h), q);
    acc' := AddLanes(AddLanes(acc, Half(p, 0), M32), Half(p, 1), M32);
    e' := Plus(Plus(e, Half(p, 0)), Half(p, 1));
    ChunkMoment(row, r, col, n, index, m);
  }

  /**
   * GetMoments8Large for xx, xy or yy: the madd of each half widened by
   * HorizontalSum32, and both added to the 64-bit register.
   */
  method AddWide(acc: seq<int>, ghost e: seq<int>, ghost total: int, mk: seq<bool>, row: seq<int>, r: nat,
                 col: nat, n: nat, index: int, m: Moment, ghost w: nat, ghost h: nat)
    returns (acc': seq<int>, ghost e': seq<int>)
    requires n <= A && col + n <= |row| && col + A <= w && r < h && w <= 32768 && h <= 32768
    requires mk == Matches(LoadBytes(row, col, n), n, index)
    requires Acc64(acc, e, total)
    ensures Acc64(acc', e', total + RowMoment(row, r, col + n, index, m) - RowMoment(row, r, col, index, m))
  {
    var p := Terms(mk, col, r, m);
    TermsBound(mk, col, r, m, w, h);
    BoundSmall(m, w, h);
    var lo, hi := Half(p, 0), Half(p, 1);
    assert Below(lo, M32) && Below(hi, M32);
    var wlo, whi := HorizontalSum32(lo), HorizontalSum32(hi);
    TracksExact(wlo, M64);
    TracksExact(whi, M64);
    var s := AddLanes(wlo, whi, M64);
    TracksAdd(wlo, wlo, whi, whi, M64);
    TracksBelow(acc, e, M64);
    acc' := AddLanes(acc, s, M64);
    TracksAdd(acc, e, s, Plus(wlo, whi), M64);
    e' := Plus(e, Plus(wlo, whi));
    PlusSum(wlo, whi);
    PlusSum(e, Plus(wlo, whi));
    HalvesTotal(p);
    ChunkMoment(row, r, col, n, index, m);
  }

  /** x = _mm512_add_epi64(x, HorizontalSum32(rowX)) at the end of a row whose register did not wrap. */
  method Widen(acc: seq<int>, ghost e: seq<int>, ghost total: int, acc32: seq<int>, ghost e32: seq<int>)
    returns (acc': seq<int>, ghost e': seq<int>)
    requires Acc64(acc, e, total)
    requires |e32| == 16 && Tracks(acc32, e32, M32) && forall k :: 0 <= k < 16 ==> e32[k] < M32
    ensures Acc64(acc', e', total + IntSum(e32))
  {
    TracksNoWrap(acc32, e32, M32);
    TracksBelow(acc32, e32, M32);
    var hs := HorizontalSum32(acc32);
    TracksExact(hs, M64);
    TracksBelow(acc, e, M64);
    acc' := AddLanes(acc, hs, M64);
    TracksAdd(acc, e, hs, hs, M64);
    e' := Plus(e, hs);
    PlusSum(e, hs);
  }

  /** GetMoments8Small: one register of mask bytes at col, of which n are loaded. */
  method SmallChunk(row: seq<int>, r: nat, col: nat, n: nat, index: int, area: nat,
                    regs: Registers, ghost es: Registers, ghost q: nat, ghost w: nat, ghost h: nat)
    returns (area': nat, regs': Registers, ghost es': Registers)
    requires n <= A && col + n <= |row| && col + A <= w && r < h && w <= 32768 && h <= 32768
    requires Small32(regs, es, row, r, col, index, q, w, h)
    ensures area' == area + RowMoment(row, r, col + n, index, Area) - RowMoment(row, r, col, index, Area)
    ensures Small32(regs', es', row, r, col + n, index, q + 1, w, h)
  {
    var mk := Matches(LoadBytes(row, col, n), n, index);
    ChunkArea(row, r, col, n, index);
    area' := area + Popcnt(mk);
    var x, ex := AddHalves(regs.x, es.x, mk, row, r, col, n, index, X, q, w, h);
    var y, ey := AddHalves(regs.y, es.y, mk, row, r, col, n, index, Y, q, w, h);
    var xx, exx := AddHalves(regs.xx, es.xx, mk, row, r, col, n, index, XX, q, w, h);
    var xy, exy := AddHalves(regs.xy, es.xy, mk, row, r, col, n, index, XY, q, w, h);
    var yy, eyy := AddHalves(regs.yy, es.yy, mk, row, r, col, n, index, YY, q, w, h);
    regs' := Registers(x, y, xx, xy, yy);
    es' := Registers(ex, ey, exx, exy, eyy);
  }

  /** The whole registers of a row of GetMomentsSmall, the bytes before alignedWidth. */
  method SmallRowFull(row: seq<int>, r: nat, alignedWidth: nat, index: int, area: nat,
                      regs0: Registers, ghost es0: Registers, ghost w: nat, ghost h: nat)
    returns (area': nat, regs: Registers, ghost es: Registers)
    requires alignedWidth % A == 0 && alignedWidth <= |row| && alignedWidth <= w && r < h && w <= 32768 && h <= 32768
    requires Small32(regs0, es0, row, r, 0, index, 0, w, h)
    ensures area' == area + RowMoment(row, r, alignedWidth, index, Area)
    ensures Small32(regs, es, row, r, alignedWidth, index, alignedWidth / A, w, h)
  {
    regs, es := regs0, es0;
    area' := area;
    var col := 0;
    while col < alignedWidth
      invariant col <= alignedWidth && col % A == 0
      invariant area' == area + RowMoment(row, r, col, index, Area)
      invariant Small32(regs, es, row, r, col, index, col / A, w, h)
    {
      StepWithin(col, alignedWidth, A);
      area', regs, es := SmallChunk(row, r, col, A, index, area', regs, es, col / A, w, h);
      col := col + A;
    }
  }

  /** One row of GetMomentsSmall: the five 32-bit row registers over the width bytes of the row. */
  method SmallRow(row: seq<int>, r: nat, width: nat, index: int, area: nat, ghost h: nat)
    returns (area': nat, regs: Registers, ghost es: Registers)
    requires ByteRow(row, width) && width < ShrtMax && r < h <= 32768
    ensures area' == area + RowMoment(row, r, width, index, Area)
    ensures Small32(regs, es, row, r, width, index, AlignHi(width, A) / A, AlignHi(width, A), h)
  {
    ghost var w := AlignHi(width, A);
    var alignedWidth := AlignLo(width, A);
    AlignLoHi(width);
    var zero := Registers(Zeros(16), Zeros(16), Zeros(16), Zeros(16), Zeros(16));
    ZeroSmall(row, r, index, w, h);
    area', regs, es := SmallRowFull(row, r, alignedWidth, index, area, zero, zero, w, h);
    if alignedWidth < width {
      area', regs, es := SmallChunk(row, r, alignedWidth, width - alignedWidth, index, area', regs, es,
                                    alignedWidth / A, w, h);
    }
  }

  /** The end of a row of GetMomentsSmall: the five row registers widened into the 64-bit registers. */
  method WidenSmall(regs: Registers, ghost es: Registers, ghost t: seq<int>, rowRegs: Registers, ghost rowEs: Registers,
                    ghost row: seq<int>, ghost r: nat, ghost width: nat, ghost index: int, ghost height: nat)
    returns (regs': Registers, ghost es': Registers)
    requires width < ShrtMax && height < ShrtMax && IsSmall(width, height) && width <= |row|
    requires Small32(rowRegs, rowEs, row, r, width, index, AlignHi(width, A) / A, AlignHi(width, A), height)
    requires Wide(regs, es, t)
    ensures Wide(regs', es', Plus(t, RowTotals(row, r, width, index)))
  {
    NoWrap(rowRegs.x, rowEs.x, row, r, width, index, X, height);
    NoWrap(rowRegs.y, rowEs.y, row, r, width, index, Y, height);
    NoWrap(rowRegs.xx, rowEs.xx, row, r, width, index, XX, height);
    NoWrap(rowRegs.xy, rowEs.xy, row, r, width, index, XY, height);
    NoWrap(rowRegs.yy, rowEs.yy, row, r, width, index, YY, height);
    var x, ex := Widen(regs.x, es.x, t[0], rowRegs.x, rowEs.x);
    var y, ey := Widen(regs.y, es.y, t[1], rowRegs.y, rowEs.y);
    var xx, exx := Widen(regs.xx, es.xx, t[2], rowRegs.xx, rowEs.xx);
    var xy, exy := Widen(regs.xy, es.xy, t[3], rowRegs.xy, rowEs.xy);
    var yy, eyy := Widen(regs.yy, es.yy, t[4], rowRegs.yy, rowEs.yy);
    regs' := Registers(x, y, xx, xy, yy);
    es' := Registers(ex, ey, exx, exy, eyy);
  }

  /** GetMomentsSmall: the area and the five moments, the 32-bit row registers widened once per row. */
  method GetMomentsSmall(mask: seq<seq<int>>, width: nat, height: nat, index: int)
    returns (area: nat, regs: Registers, ghost es: Registers)
    requires Image(mask, width, height) && width < ShrtMax && height < ShrtMax && IsSmall(width, height)
    ensures area == ImageMoment(mask, width, height, index, Area)
    ensures Wide(regs, es, ImageTotals(mask, width, height, index))
  {
    ZeroAcc([], 0, index, 0, 0);
    area := 0;
    regs := Registers(Zeros(8), Zeros(8), Zeros(8), Zeros(8), Zeros(8));
    es := regs;
    for r := 0 to height
      invariant Image(mask, width, r)
      invariant area == ImageMoment(mask, width, r, index, Area)
      invariant Wide(regs, es, ImageTotals(mask, width, r, index))
    {
      var rowRegs;
      ghost var rowEs;
      area, rowRegs, rowEs := SmallRow(mask[r], r, width, index, area, height);
      regs, es := WidenSmall(regs, es, ImageTotals(mask, width, r, index), rowRegs, rowEs,
                             mask[r], r, width, index, height);
      ImageTotalsStep(mask, width, r, index);
    }
  }

  /**
   * The part of a row that GetMomentsLarge has already added to the 64-bit
   * registers mid-row: the products of the bytes before col, not x and y.
   */
  ghost function LargeParts(row: seq<int>, r: nat, col: nat, index: int): (t: seq<int>)
    requires col <= |row|
    ensures |t| == 5
  {
    [0, 0, RowMoment(row, r, col, index, XX), RowMoment(row, r, col, index, XY), RowMoment(row, r, col, index, YY)]
  }

  /** GetMoments8Large: one register of mask bytes at col, of which n are loaded. */
  method LargeChunk(row: seq<int>, r: nat, col: nat, n: nat, index: int, area: nat,
                    x: seq<int>, ghost ex: seq<int>, y: seq<int>, ghost ey: seq<int>,
                    regs: Registers, ghost es: Registers, ghost t: seq<int>, ghost q: nat, ghost w: nat, ghost h: nat)
    returns (area': nat, x': seq<int>, ghost ex': seq<int>, y': seq<int>, ghost ey': seq<int>,
             regs': Registers, ghost es': Registers)
    requires n <= A && col + n <= |row| && col + A <= w && r < h && w <= 32768 && h <= 32768
    requires Acc32(x, ex, row, r, col, index, X, q, w, h) && Acc32(y, ey, row, r, col, index, Y, q, w, h)
    requires |t| == 5 && Wide(regs, es, Plus(t, LargeParts(row, r, col, index)))
    ensures area' == area + RowMoment(row, r, col + n, index, Area) - RowMoment(row, r, col, index, Area)
    ensures Acc32(x', ex', row, r, col + n, index, X, q + 1, w, h)
    ensures Acc32(y', ey', row, r, col + n, index, Y, q + 1, w, h)
    ensures Wide(regs', es', Plus(t, LargeParts(row, r, col + n, index)))
  {
    var mk := Matches(LoadBytes(row, col, n), n, index);
    ChunkArea(row, r, col, n, index);
    area' := area + Popcnt(mk);
    x', ex' := AddHalves(x, ex, mk, row, r, col, n, index, X, q, w, h);
    y', ey' := AddHalves(y, ey, mk, row, r, col, n, index, Y, q, w, h);
    var before := Plus(t, LargeParts(row, r, col, index));
    var xx, exx := AddWide(regs.xx, es.xx, before[2], mk, row, r, col, n, index, XX, w, h);
    var xy, exy := AddWide(regs.xy, es.xy, before[3], mk, row, r, col, n, index, XY, w, h);
    var yy, eyy := AddWide(regs.yy, es.yy, before[4], mk, row, r, col, n, index, YY, w, h);
    regs' := regs.(xx := xx, xy := xy, yy := yy);
    es' := es.(xx := exx, xy := exy, yy := eyy);
  }

  /** The 32-bit row registers _rowX and _rowY of GetMomentsLarge. */
  ghost predicate Large32(x: seq<int>, ex: seq<int>, y: seq<int>, ey: seq<int>, row: seq<int>, r: nat, col: nat,
                          index: int, q: nat, w: nat, h: nat) {
    Acc32(x, ex, row, r, col, index, X, q, w, h) && Acc32(y, ey, row, r, col, index, Y, q, w, h)
  }

  /** The cleared row registers of GetMomentsLarge, and nothing of the row in the 64-bit registers yet. */
  lemma ZeroLarge(row: seq<int>, r: nat, index: int, w: nat, h: nat, t: seq<int>)
    requires |t| == 5
    ensures Large32(Zeros(16), Zeros(16), Zeros(16), Zeros(16), row, r, 0, index, 0, w, h)
    ensures Plus(t, LargeParts(row, r, 0, index)) == t
  {
    ZeroAcc(row, r, index, w, h);
  }

  /** The products added register by register and x, y added at the end make up the row. */
  lemma LargeTotals(row: seq<int>, r: nat, width: nat, index: int, t: seq<int>)
    requires width <= |row| && |t| == 5
    ensures Plus(Plus(t, LargeParts(row, r, width, index)),
                 [RowMoment(row, r, width, index, X), RowMoment(row, r, width, index, Y), 0, 0, 0])
            == Plus(t, RowTotals(row, r, width, index))
  {
  }

  /** The whole registers of a row of GetMomentsLarge, the bytes before alignedWidth. */
  method LargeRowFull(row: seq<int>, r: nat, alignedWidth: nat, index: int, area: nat,
                      x0: seq<int>, ghost ex0: seq<int>, y0: seq<int>, ghost ey0: seq<int>,
                      regs0: Registers, ghost es0: Registers, ghost t: seq<int>, ghost w: nat, ghost h: nat)
    returns (area': nat, x: seq<int>, ghost ex: seq<int>, y: seq<int>, ghost ey: seq<int>,
             regs: Registers, ghost es: Registers)
    requires alignedWidth % A == 0 && alignedWidth <= |row| && alignedWidth <= w && r < h && w <= 32768 && h <= 32768
    requires Large32(x0, ex0, y0, ey0, row, r, 0, index, 0, w, h)
    requires |t| == 5 && Wide(regs0, es0, Plus(t, LargeParts(row, r, 0, index)))
    ensures area' == area + RowMoment(row, r, alignedWidth, index, Area)
    ensures Large32(x, ex, y, ey, row, r, alignedWidth, index, alignedWidth / A, w, h)
    ensures Wide(regs, es, Plus(t, LargeParts(row, r, alignedWidth, index)))
  {
    x, ex, y, ey, regs, es := x0, ex0, y0, ey0, regs0, es0;
    area' := area;
    var col := 0;
    while col < alignedWidth
      invariant col <= alignedWidth && col % A == 0
      invariant area' == area + RowMoment(row, r, col, index, Area)
      invariant Large32(x, ex, y, ey, row, r, col, index, col / A, w, h)
      invariant Wide(regs, es, Plus(t, LargeParts(row, r, col, index)))
    {
      StepWithin(col, alignedWidth, A);
      area', x, ex, y, ey, regs, es := LargeChunk(row, r, col, A, index, area', x, ex, y, ey, regs, es, t, col / A, w, h);
      col := col + A;
    }
  }

  /**
   * One row of GetMomentsLarge: x and y in 32-bit row registers widened at
   * the end of the row, the products widened after every register.
   */
  method LargeRow(row: seq<int>, r: nat, width: nat, index: int, area: nat,
                  regs: Registers, ghost es: Registers, ghost t: seq<int>, ghost h: nat)
    returns (area': nat, regs': Registers, ghost es': Registers)
    requires ByteRow(row, width) && width < ShrtMax && r < h < ShrtMax
    requires Wide(regs, es, t)
    ensures area' == area + RowMoment(row, r, width, index, Area)
    ensures Wide(regs', es', Plus(t, RowTotals(row, r, width, index)))
  {
    ghost var w := AlignHi(width, A);
    var alignedWidth := AlignLo(width, A);
    AlignLoHi(width);
    ZeroLarge(row, r, index, w, h, t);
    var x, y := Zeros(16), Zeros(16);
    ghost var ex, ey := x, y;
    area', x, ex, y, ey, regs', es' := LargeRowFull(row, r, alignedWidth, index, area, x, ex, y, ey, regs, es, t, w, h);
    if alignedWidth < width {
      area', x, ex, y, ey, regs', es' := LargeChunk(row, r, alignedWidth, width - alignedWidth, index, area',
                                                     x, ex, y, ey, regs', es', t, alignedWidth / A, w, h);
    }
    assert Large32(x, ex, y, ey, row, r, width, index, w / A, w, h);
    assert Wide(regs', es', Plus(t, LargeParts(row, r, width, index)));
    regs', es' := WidenLarge(regs', es', Plus(t, LargeParts(row, r, width, index)), x, ex, y, ey, row, r, width, index, h);
    LargeTotals(row, r, width, index, t);
  }

  /** The end of a row of GetMomentsLarge: _rowX and _rowY widened into x and y. */
  method WidenLarge(regs: Registers, ghost es: Registers, ghost t: seq<int>, x: seq<int>, ghost ex: seq<int>,
                    y: seq<int>, ghost ey: seq<int>, ghost row: seq<int>, ghost r: nat, ghost width: nat,
                    ghost index: int, ghost height: nat)
    returns (regs': Registers, ghost es': Registers)
    requires width < ShrtMax && height < ShrtMax && width <= |row|
    requires Large32(x, ex, y, ey, row, r, width, index, AlignHi(width, A) / A, AlignHi(width, A), height)
    requires Wide(regs, es, t)
    ensures Wide(regs', es', Plus(t, [RowMoment(row, r, width, index, X), RowMoment(row, r, width, index, Y), 0, 0, 0]))
  {
    NoWrap(x, ex, row, r, width, index, X, height);
    NoWrap(y, ey, row, r, width, index, Y, height);
    var wx, ewx := Widen(regs.x, es.x, t[0], x, ex);
    var wy, ewy := Widen(regs.y, es.y, t[1], y, ey);
    regs' := regs.(x := wx, y := wy);
    es' := es.(x := ewx, y := ewy);
  }

  /** GetMomentsLarge: the area and the five moments, the products widened after every register. */
  method GetMomentsLarge(mask: seq<seq<int>>, width: nat, height: nat, index: int)
    returns (area: nat, regs: Registers, ghost es: Registers)
    requires Image(mask, width, height) && width < ShrtMax && height < ShrtMax
    ensures area == ImageMoment(mask, width, height, index, Area)
    ensures Wide(regs, es, ImageTotals(mask, width, height, index))
  {
    ZeroAcc([], 0, index, 0, 0);
    area := 0;
    regs := Registers(Zeros(8), Zeros(8), Zeros(8), Zeros(8), Zeros(8));
    es := regs;
    for r := 0 to height
      invariant Image(mask, width, r)
      invariant area == ImageMoment(mask, width, r, index, Area)
      invariant Wide(regs, es, ImageTotals(mask, width, r, index))
    {
      area, regs, es := LargeRow(mask[r], r, width, index, area, regs, es, ImageTotals(mask, width, r, index), height);
      ImageTotalsStep(mask, width, r, index);
    }
  }

  // ---------------------------------------------------------------------
  // Results

  /** The 64-bit lanes read as int64_t. */
  function SignedLanes(a: seq<int>): (s: seq<int>)
    ensures |s| == |a| && forall k :: 0 <= k < |a| ==> s[k] == Signed64(a[k])
  {
    seq(|a|, k requires 0 <= k < |a| => Signed64(a[k]))
  }

  /** The number of lanes an int64_t reads as negative. */
  function NegativeLanes(a: seq<int>): nat {
    if |a| == 0 then 0 else NegativeLanes(a[..|a| - 1]) + (if a[|a| - 1] < 0x8000_0000_0000_0000 then 0 else 1)
  }

  /** Reading the lanes as int64_t takes 2^64 off the sum for every negative lane. */
  lemma {:induction false} SignedLanesSum(a: seq<int>)
    ensures IntSum(SignedLanes(a)) == IntSum(a) - M64 * NegativeLanes(a)
  {
    if |a| > 0 {
      var n := |a| - 1;
      SignedLanesSum(a[..n]);
      assert SignedLanes(a)[..n] == SignedLanes(a[..n]);
      assert M64 * NegativeLanes(a) == M64 * NegativeLanes(a[..n]) + M64 * (if a[n] < 0x8000_0000_0000_0000 then 0 else 1);
    }
  }

  /** *x = ExtractSum<int64_t>(_x): the lanes summed as int64_t and stored to a uint64_t. */
  method ExtractMoment(acc: seq<int>, ghost e: seq<int>, ghost total: int) returns (s: int)
    requires Acc64(acc, e, total) && 0 <= total < M64
    ensures s == total
  {
    var sum := ExtractSum(SignedLanes(acc), CType(8, true));
    s := sum % M64;
    TracksSum(acc, e, M64);
    SmallMod(total, M64);
    SignedWrap(acc, sum);
  }

  /** Summing the lanes as int64_t keeps the sum of the unsigned lanes modulo 2^64. */
  lemma SignedWrap(acc: seq<int>, sum: int)
    requires sum == Wrap(IntSum(SignedLanes(acc)), CType(8, true))
    ensures sum % M64 == IntSum(acc) % M64
  {
    var x := IntSum(SignedLanes(acc));
    assert Radix(8) == M64;
    SignedLanesSum(acc);
    var d := (x - sum) / M64;
    assert x - sum == M64 * d;
    assert sum == IntSum(acc) - M64 * (NegativeLanes(acc) + d);
    ModShift(IntSum(acc), -(NegativeLanes(acc) + d), M64);
  }

  /**
   * Avx512bw GetMoments: the number of pixels equal to index and the sums of
   * their coordinates and coordinate products, by GetMomentsSmall when
   * IsSmall holds and by GetMomentsLarge otherwise.
   */
  method GetMoments(mask: seq<seq<int>>, width: nat, height: nat, index: int)
    returns (area: int, x: int, y: int, xx: int, xy: int, yy: int)
    requires Image(mask, width, height) && width < ShrtMax && height < ShrtMax
    ensures area == ImageMoment(mask, width, height, index, Area)
    ensures x == ImageMoment(mask, width, height, index, X)
    ensures y == ImageMoment(mask, width, height, index, Y)
    ensures xx == ImageMoment(mask, width, height, index, XX)
    ensures xy == ImageMoment(mask, width, height, index, XY)
    ensures yy == ImageMoment(mask, width, height, index, YY)
  {
    var n: nat;
    var regs: Registers;
    ghost var es: Registers;
    if IsSmall(width, height) {
      n, regs, es := GetMomentsSmall(mask, width, height, index);
    } else {
      n, regs, es := GetMomentsLarge(mask, width, height, index);
    }
    area := n;
    ghost var t := ImageTotals(mask, width, height, index);
    MomentFits(mask, width, height, index, X);
    MomentFits(mask, width, height, index, Y);
    MomentFits(mask, width, height, index, XX);
    MomentFits(mask, width, height, index, XY);
    MomentFits(mask, width, height, index, YY);
    x := ExtractMoment(regs.x, es.x, t[0]);
    y := ExtractMoment(regs.y, es.y, t[1]);
    xx := ExtractMoment(regs.xx, es.xx, t[2]);
    xy := ExtractMoment(regs.xy, es.xy, t[3]);
    yy := ExtractMoment(regs.yy, es.yy, t[4]);
  }
}
