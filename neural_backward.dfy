// NeuralAddConvolution{K}x{K}Backward: the transposed convolution that adds
// every source pixel, times every weight, into the destination pixel the
// weight points at.  The source is width x height; the destination is
// (width + K - 1) x (height + K - 1).  Two strategies compute it: a scatter
// over the source ("small") and a gather over a rotating zero-padded row
// buffer with the weights reversed ("large").  Both are proved to add
// BackwardAt, so they agree.

module NeuralBackward {
  import opened Lanes
  import opened FiniteSums
  import opened NeuralConvolution
  import opened NeuralBuffer
  import NeuralVector

  // ---------------------------------------------------------------------
  // Facts about the specification

  /** A row of terms that all meet a zero pixel is zero. */
  lemma BackRowZero(src: seq<seq<real>>, width: nat, height: nat, w: seq<real>, K: nat,
                    r: int, a: int, C: int, k: nat)
    requires forall c :: C - k < c <= C ==> Px(src, width, height, r, c) == 0.0
    ensures BackRow(src, width, height, w, K, r, a, C, k) == 0.0
  {
    var f := b => BackTerm(src, width, height, w, K, r, a, C, b);
    forall b | 0 <= b < k ensures f(b) == 0.0 {
      assert Px(src, width, height, r, C - b) == 0.0;
    }
    SumZero(k, f);
  }

  /**
   * The backward convolution is zero outside the (width + K - 1) x
   * (height + K - 1) destination: no source pixel reaches there.
   */
  lemma BackwardSupport(src: seq<seq<real>>, width: nat, height: nat, w: seq<real>, K: nat, R: int, C: int)
    requires !(0 <= R < height + K - 1 && 0 <= C < width + K - 1)
    ensures BackwardAt(src, width, height, w, K, R, C) == 0.0
  {
    var g := a => BackRow(src, width, height, w, K, R - a, a, C, K);
    forall a | 0 <= a < K ensures g(a) == 0.0 {
      BackRowZero(src, width, height, w, K, R - a, a, C, K);
    }
    SumZero(K, g);
  }

  // ---------------------------------------------------------------------
  // Small: scatter

  /** Weight row a of destination row R, counted once source row R - a is done (below row r). */
  function DoneTerm(src: seq<seq<real>>, width: nat, height: nat, w: seq<real>, K: nat,
                    R: int, C: int, r: int, a: int): real
  {
    if R - a < r then BackRow(src, width, height, w, K, R - a, a, C, K) else 0.0
  }

  /** What the source rows above r add to destination (R, C). */
  function Done(src: seq<seq<real>>, width: nat, height: nat, w: seq<real>, K: nat,
                R: int, C: int, r: int): real
  {
    SumF(K, a => DoneTerm(src, width, height, w, K, R, C, r, a))
  }

  /** The one weight row through which source row r reaches destination row R. */
  function NewRow(src: seq<seq<real>>, width: nat, height: nat, w: seq<real>, K: nat,
                  R: int, C: int, r: int, a: int): real
  {
    if a == R - r then BackRow(src, width, height, w, K, r, a, C, K) else 0.0
  }

  /** Before the first source row nothing is added. */
  lemma DoneStart(src: seq<seq<real>>, width: nat, height: nat, w: seq<real>, K: nat, R: int, C: int)
    ensures Done(src, width, height, w, K, R, C, 0) == 0.0
  {
    var f := a => DoneTerm(src, width, height, w, K, R, C, 0, a);
    forall a | 0 <= a < K ensures f(a) == 0.0 {
      if R - a < 0 {
        BackRowZero(src, width, height, w, K, R - a, a, C, K);
      }
    }
    SumZero(K, f);
  }

  /** After the last source row the whole backward convolution is added. */
  lemma DoneFinish(src: seq<seq<real>>, width: nat, height: nat, w: seq<real>, K: nat, R: int, C: int)
    ensures Done(src, width, height, w, K, R, C, height) == BackwardAt(src, width, height, w, K, R, C)
  {
    var f := a => DoneTerm(src, width, height, w, K, R, C, height, a);
    var g := a => BackRow(src, width, height, w, K, R - a, a, C, K);
    forall a | 0 <= a < K ensures f(a) == g(a) {
      if R - a >= height {
        BackRowZero(src, width, height, w, K, R - a, a, C, K);
      }
    }
    SumExt(K, f, g);
  }

  /** Source row r adds weight row R - r into destination row R, if that is a weight row. */
  lemma DoneStep(src: seq<seq<real>>, width: nat, height: nat, w: seq<real>, K: nat, R: int, C: int, r: int)
    ensures Done(src, width, height, w, K, R, C, r + 1)
            == Done(src, width, height, w, K, R, C, r)
               + if r <= R < r + K then BackRow(src, width, height, w, K, r, R - r, C, K) else 0.0
  {
    var f := a => DoneTerm(src, width, height, w, K, R, C, r, a);
    var g := a => NewRow(src, width, height, w, K, R, C, r, a);
    var h := a => DoneTerm(src, width, height, w, K, R, C, r + 1, a);
    SumPlus(K, f, g, h);
    SumSingle(K, R - r, g);
  }

  /** Row d is d0 plus the first dx taps of weight row dy of source row r. */
  ghost predicate RowScattered(d: seq<real>, d0: seq<real>, src: seq<seq<real>>, width: nat, height: nat,
                               w: seq<real>, K: nat, r: int, dy: int, dx: nat)
  {
    |d| == |d0| && forall C :: 0 <= C < |d| ==> d[C] == d0[C] + BackRow(src, width, height, w, K, r, dy, C, dx)
  }

  /**
   * AddMultiplied of weight w[dy * K + dx] at column dx adds tap dx:
   * it takes a row with taps below dx scattered to one with taps below
   * dx + 1 scattered.
   */
  lemma ScatterTap(prev: seq<real>, next: seq<real>, d0: seq<real>, src: seq<seq<real>>, width: nat, height: nat,
                   w: seq<real>, K: nat, r: nat, dy: nat, dx: nat)
    requires r < height && |src| >= height && |src[r]| >= width
    requires dy < K && dx < K && |w| == K * K && 2 <= K <= 5 && dy * K + dx < |w|
    requires RowScattered(prev, d0, src, width, height, w, K, r, dy, dx)
    requires |next| == |prev|
    requires forall C :: 0 <= C < |next| ==>
               next[C] == if dx <= C < dx + width
                          then NeuralVector.LaneOf(NeuralVector.AddMultiplied(w[dy * K + dx]), src[r][C - dx], prev[C])
                          else prev[C]
    ensures RowScattered(next, d0, src, width, height, w, K, r, dy, dx + 1)
  {
    forall C | 0 <= C < |next|
      ensures next[C] == d0[C] + BackRow(src, width, height, w, K, r, dy, C, dx + 1)
    {
      ScatterColumn(prev[C], next[C], d0[C], src, width, height, w, K, r, dy, dx, C);
    }
  }

  /** ScatterTap at one destination column C. */
  lemma ScatterColumn(prev: real, next: real, d0: real, src: seq<seq<real>>, width: nat, height: nat,
                      w: seq<real>, K: nat, r: nat, dy: nat, dx: nat, C: int)
    requires r < height && |src| >= height && |src[r]| >= width
    requires dy < K && dx < K && |w| == K * K && 2 <= K <= 5 && dy * K + dx < |w|
    requires prev == d0 + BackRow(src, width, height, w, K, r, dy, C, dx)
    requires next == if dx <= C < dx + width
                     then NeuralVector.LaneOf(NeuralVector.AddMultiplied(w[dy * K + dx]), src[r][C - dx], prev)
                     else prev
    ensures next == d0 + BackRow(src, width, height, w, K, r, dy, C, dx + 1)
  {
    var t := BackTerm(src, width, height, w, K, r, dy, C, dx);
    assert BackRow(src, width, height, w, K, r, dy, C, dx + 1) == BackRow(src, width, height, w, K, r, dy, C, dx) + t;
    if dx <= C < dx + width {
      NeuralVector.MulBoth(Px(src, width, height, r, C - dx), Wt(w, dy * K + dx), src[r][C - dx], w[dy * K + dx]);
    }
  }

  /**
   * Weight row dy of source row r in NeuralAddConvolutionBackwardSmall: the
   * If<dx < K>::AddMultiplied calls, which add w[dy * K + dx] times the
   * source row into the destination row at column dx.
   */
  method ScatterWeightRow(src: seq<seq<real>>, width: nat, height: nat, w: seq<real>, K: nat,
                          row: nat, dy: nat, d: array<real>)
    requires 2 <= K <= 5 && |w| == K * K && dy < K
    requires row < height && |src| >= height && |src[row]| >= width
    requires d.Length >= width + K - 1
    modifies d
    ensures forall C :: 0 <= C < d.Length ==>
              d[C] == old(d[C]) + BackRow(src, width, height, w, K, row, dy, C, K)
  {
    ghost var d0 := d[..];
    WeightRows(K);
    var dx := 0;
    while dx < K
      invariant dx <= K
      invariant RowScattered(d[..], d0, src, width, height, w, K, row, dy, dx)
    {
      ghost var prev := d[..];
      NeuralVector.Apply(NeuralVector.AddMultiplied(w[dy * K + dx]), src[row], d, dx, width);
      ScatterTap(prev, d[..], d0, src, width, height, w, K, row, dy, dx);
      dx := dx + 1;
    }
  }

  /** Source row r of NeuralAddConvolutionBackwardSmall: its K weight rows into destination rows r .. r + K - 1. */
  method ScatterSourceRow(src: seq<seq<real>>, width: nat, height: nat, w: seq<real>, K: nat,
                          row: nat, dst: seq<array<real>>)
    requires 2 <= K <= 5 && |w| == K * K
    requires row < height && |src| >= height && |src[row]| >= width
    requires |dst| >= height + K - 1 && forall R :: 0 <= R < height + K - 1 ==> dst[R].Length >= width + K - 1
    requires forall R, S :: 0 <= R < S < |dst| ==> dst[R] != dst[S]
    modifies set R | 0 <= R < |dst| :: dst[R]
    ensures forall R, C :: 0 <= R < |dst| && 0 <= C < dst[R].Length ==>
              dst[R][C] == old(dst[R][C])
                           + if row <= R < row + K then BackRow(src, width, height, w, K, row, R - row, C, K) else 0.0
  {
    var dy := 0;
    while dy < K
      invariant dy <= K
      invariant forall R, C :: 0 <= R < |dst| && 0 <= C < dst[R].Length ==>
                  dst[R][C] == old(dst[R][C])
                               + if row <= R < row + dy then BackRow(src, width, height, w, K, row, R - row, C, K) else 0.0
    {
      ScatterWeightRow(src, width, height, w, K, row, dy, dst[row + dy]);
      dy := dy + 1;
    }
  }

  /**
   * NeuralAddConvolutionBackwardSmall: for each source row and weight row
   * dy, AddMultiplied adds w[dy * K + dx] times the source row into
   * destination row row + dy at column dx, for dx < K.
   */
  method BackwardSmall(src: seq<seq<real>>, width: nat, height: nat, w: seq<real>, K: nat,
                       dst: seq<array<real>>)
    requires 2 <= K <= 5 && |w| == K * K
    requires |src| >= height && forall r :: 0 <= r < height ==> |src[r]| >= width
    requires |dst| >= height + K - 1 && forall R :: 0 <= R < height + K - 1 ==> dst[R].Length >= width + K - 1
    requires forall R, S :: 0 <= R < S < |dst| ==> dst[R] != dst[S]
    modifies set R | 0 <= R < |dst| :: dst[R]
    ensures forall R, C :: 0 <= R < |dst| && 0 <= C < dst[R].Length ==>
              dst[R][C] == old(dst[R][C]) + BackwardAt(src, width, height, w, K, R, C)
  {
    forall R, C | 0 <= R < |dst| && 0 <= C < dst[R].Length
      ensures Done(src, width, height, w, K, R, C, 0) == 0.0
    {
      DoneStart(src, width, height, w, K, R, C);
    }
    var row := 0;
    while row < height
      invariant row <= height
      invariant forall R, C :: 0 <= R < |dst| && 0 <= C < dst[R].Length ==>
                  dst[R][C] == old(dst[R][C]) + Done(src, width, height, w, K, R, C, row)
    {
      ScatterSourceRow(src, width, height, w, K, row, dst);
      forall R, C | 0 <= R < |dst| && 0 <= C < dst[R].Length
        ensures Done(src, width, height, w, K, R, C, row + 1)
                == Done(src, width, height, w, K, R, C, row)
                   + if row <= R < row + K then BackRow(src, width, height, w, K, row, R - row, C, K) else 0.0
      {
        DoneStep(src, width, height, w, K, R, C, row);
      }
      row := row + 1;
    }
    forall R, C | 0 <= R < |dst| && 0 <= C < dst[R].Length
      ensures Done(src, width, height, w, K, R, C, height) == BackwardAt(src, width, height, w, K, R, C)
    {
      DoneFinish(src, width, height, w, K, R, C);
    }
  }

  // ---------------------------------------------------------------------
  // Large: gather over the row buffer

  /**
   * The buffer rows around destination row R: row i holds source row
   * R - (K - 1) + i shifted right by K - 1, and 0 everywhere else.
   */
  ghost predicate Window(rows: seq<seq<real>>, src: seq<seq<real>>, width: nat, height: nat, K: nat, R: int)
  {
    |rows| == K && forall i, p :: 0 <= i < K ==> At(rows[i], p) == Px(src, width, height, R - (K - 1) + i, p - (K - 1))
  }

  /** The weight registers of LoadWeightsBackward: register i holds w[K * K - 1 - i]. */
  ghost predicate Reversed(ws: seq<Vec>, w: seq<real>, K: nat)
  {
    |ws| == K * K && |w| == K * K && forall i, k :: 0 <= i < K * K && 0 <= k < F ==> ws[i][k] == w[K * K - 1 - i]
  }

  /**
   * The row of the buffer, the first weight register and the destination
   * coordinates that kernel row dy of lane j reads: buffer row dy from
   * register dy * K, against source row r = R - a through weight row
   * a = K - 1 - dy, at destination column C = col + j.
   */
  ghost predicate RowAt(rows: seq<seq<real>>, R: int, col: nat, K: nat, j: nat, dy: nat,
                        row: seq<real>, base: int, r: int, a: int, C: int)
  {
    dy < K && row == RowOf(rows, dy) && base == dy * K && a == K - 1 - dy && r == R - a && C == col + j
  }

  /** Tap dx of buffer row dy, lane j, is source pixel (r, C - (K - 1 - dx)). */
  lemma TapPixel(src: seq<seq<real>>, width: nat, height: nat, K: nat,
                 rows: seq<seq<real>>, R: int, col: nat, n: nat, j: nat, dy: nat,
                 row: seq<real>, r: int, C: int, dx: nat)
    requires 2 <= K <= 5 && Window(rows, src, width, height, K, R)
    requires j < n <= F && (n == F || col + n == width + K - 1) && dy < K && dx < K
    requires row == RowOf(rows, dy) && r == R - (K - 1 - dy) && C == col + j
    ensures Tap(row, col, K, n, dx)[j] == Px(src, width, height, r, C - (K - 1 - dx))
  {
    assert row == rows[dy];
    if n < F {
      forall p | col + n <= p ensures At(rows[dy], p) == 0.0 {
        assert Px(src, width, height, R - (K - 1) + dy, p - (K - 1)) == 0.0;
      }
    }
    TapLane(rows[dy], col, K, n, dx, j);
    assert At(rows[dy], col + j + dx) == Px(src, width, height, R - (K - 1) + dy, col + j + dx - (K - 1));
  }

  /** Weight register base + dx holds weight (a, K - 1 - dx) in every lane. */
  lemma TapWeight(ws: seq<Vec>, w: seq<real>, K: nat, j: nat, dy: nat, base: int, a: int, dx: nat)
    requires 2 <= K <= 5 && Reversed(ws, w, K) && j < F && dy < K && dx < K
    requires base == dy * K && a == K - 1 - dy
    ensures 0 <= base + dx < |ws| && ws[base + dx][j] == Wt(w, a * K + (K - 1 - dx))
  {
    WeightRows(K);
    assert a * K + (K - 1 - dx) == K * K - 1 - (base + dx);
  }

  /**
   * Tap (dy, dx) of lane j of the kernel on the buffer is source pixel
   * (r, C - b) times weight (a, b), with b = K - 1 - dx, once the products
   * of its pixel and its weight register agree: the reversed weights turn
   * the gather into the scatter.
   */
  lemma BackwardTap(src: seq<seq<real>>, width: nat, height: nat, w: seq<real>, K: nat,
                   ws: seq<Vec>, n: nat, j: nat, row: seq<real>, col: nat, base: int, r: int, a: int, C: int, dx: nat)
    requires j < F && 0 <= base + dx < |ws|
    requires Tap(row, col, K, n, dx)[j] * ws[base + dx][j] == Px(src, width, height, r, C - (K - 1 - dx)) * Wt(w, a * K + (K - 1 - dx))
    ensures TapTerm(row, col, ws, base, K, n, j, dx) == BackTerm(src, width, height, w, K, r, a, C, K - 1 - dx)
  {
  }

  /** Row dy of lane j of the kernel on the buffer is weight row a = K - 1 - dy of BackwardAt. */
  lemma BackwardRow(src: seq<seq<real>>, width: nat, height: nat, w: seq<real>, K: nat,
                    rows: seq<seq<real>>, R: int, col: nat, ws: seq<Vec>, n: nat, j: nat, dy: nat,
                    row: seq<real>, base: int, r: int, a: int, C: int)
    requires 2 <= K <= 5 && Reversed(ws, w, K) && Window(rows, src, width, height, K, R)
    requires j < n <= F && (n == F || col + n == width + K - 1)
    requires RowAt(rows, R, col, K, j, dy, row, base, r, a, C)
    ensures RowSum(row, col, ws, base, K, n, j) == BackRow(src, width, height, w, K, r, a, C, K)
  {
    forall dx | 0 <= dx < K
      ensures TapTerm(row, col, ws, base, K, n, j, dx) == BackTerm(src, width, height, w, K, r, a, C, K - 1 - dx)
    {
      TapPixel(src, width, height, K, rows, R, col, n, j, dy, row, r, C, dx);
      TapWeight(ws, w, K, j, dy, base, a, dx);
      NeuralVector.MulBoth(Tap(row, col, K, n, dx)[j], ws[base + dx][j], Px(src, width, height, r, C - (K - 1 - dx)), Wt(w, a * K + (K - 1 - dx)));
      BackwardTap(src, width, height, w, K, ws, n, j, row, col, base, r, a, C, dx);
    }
    ReverseRow(row, col, ws, base, K, n, j, src, width, height, w, r, a, C);
  }

  /** A row sum whose taps are the terms of a BackRow in reverse order is that BackRow. */
  lemma ReverseRow(row: seq<real>, col: int, ws: seq<Vec>, base: int, K: nat, n: nat, j: nat,
                   src: seq<seq<real>>, width: nat, height: nat, w: seq<real>, r: int, a: int, C: int)
    requires j < F
    requires forall dx :: 0 <= dx < K ==>
               TapTerm(row, col, ws, base, K, n, j, dx) == BackTerm(src, width, height, w, K, r, a, C, K - 1 - dx)
    ensures RowSum(row, col, ws, base, K, n, j) == BackRow(src, width, height, w, K, r, a, C, K)
  {
    SumReversed(K, dx => TapTerm(row, col, ws, base, K, n, j, dx), b => BackTerm(src, width, height, w, K, r, a, C, b));
  }

  /**
   * Lane j of Convolution<K, K>::Backward on the buffer around destination
   * row R, at column col with n lanes loaded, is BackwardAt(R, col + j).
   */
  lemma BackwardLane(src: seq<seq<real>>, width: nat, height: nat, w: seq<real>, K: nat,
                     rows: seq<seq<real>>, R: int, col: nat, ws: seq<Vec>, n: nat, j: nat)
    requires 2 <= K <= 5 && Reversed(ws, w, K) && Window(rows, src, width, height, K, R)
    requires j < n <= F && (n == F || col + n == width + K - 1)
    ensures Convolve(rows, col, ws, K, n)[j] == BackwardAt(src, width, height, w, K, R, col + j)
  {
    var f := dy => RowSum(RowOf(rows, dy), col, ws, dy * K, K, n, j);
    var g := a => BackRow(src, width, height, w, K, R - a, a, col + j, K);
    BackwardRows(src, width, height, w, K, rows, R, col, ws, n, j, col + j, f, g);
    SumReversed(K, f, g);
    ConvolveLane(rows, col, ws, K, n, j);
  }

  /** BackwardRow for every row dy of the kernel, stated on the terms of the two sums. */
  lemma BackwardRows(src: seq<seq<real>>, width: nat, height: nat, w: seq<real>, K: nat,
                     rows: seq<seq<real>>, R: int, col: nat, ws: seq<Vec>, n: nat, j: nat, C: int,
                     f: int -> real, g: int -> real)
    requires 2 <= K <= 5 && Reversed(ws, w, K) && Window(rows, src, width, height, K, R)
    requires j < n <= F && (n == F || col + n == width + K - 1) && C == col + j
    requires f == (dy => RowSum(RowOf(rows, dy), col, ws, dy * K, K, n, j))
    requires g == (a => BackRow(src, width, height, w, K, R - a, a, C, K))
    ensures forall dy :: 0 <= dy < K ==> f(dy) == g(K - 1 - dy)
  {
    forall dy | 0 <= dy < K ensures f(dy) == g(K - 1 - dy) {
      var row, base, a := RowOf(rows, dy), dy * K, K - 1 - dy;
      var r := R - a;
      BackwardRow(src, width, height, w, K, rows, R, col, ws, n, j, dy, row, base, r, a, C);
      RowTerm(f, rows, col, ws, K, n, j, dy, row, base);
      BackRowTerm(g, src, width, height, w, K, R, C, a, r);
    }
  }

  /** Term dy of the row sums of the kernel. */
  lemma RowTerm(f: int -> real, rows: seq<seq<real>>, col: nat, ws: seq<Vec>, K: nat, n: nat, j: nat, dy: int,
                row: seq<real>, base: int)
    requires j < F && f == (dy => RowSum(RowOf(rows, dy), col, ws, dy * K, K, n, j))
    requires row == RowOf(rows, dy) && base == dy * K
    ensures f(dy) == RowSum(row, col, ws, base, K, n, j)
  {}

  /** Term a of BackwardAt. */
  lemma BackRowTerm(g: int -> real, src: seq<seq<real>>, width: nat, height: nat, w: seq<real>, K: nat,
                    R: int, C: int, a: int, r: int)
    requires g == (a => BackRow(src, width, height, w, K, R - a, a, C, K)) && r == R - a
    ensures g(a) == BackRow(src, width, height, w, K, r, a, C, K)
  {}

  /**
   * One register of NeuralAddConvolutionBackwardLarge: the kernel on the
   * buffer at column col, added into the n lanes of destination row R the
   * mask enables; the tail loads the same n lanes.
   */
  method BackwardBlock(src: seq<seq<real>>, width: nat, height: nat, w: seq<real>, K: nat,
                       rows: seq<seq<real>>, R: int, col: nat, ws: seq<Vec>, m: bv16, n: nat, d: array<real>)
    requires 2 <= K <= 5 && Reversed(ws, w, K) && Window(rows, src, width, height, K, R)
    requires FirstLanes(m, n) && (n == F || col + n == width + K - 1) && col + n <= d.Length
    modifies d
    ensures forall C :: 0 <= C < d.Length ==>
              d[C] == old(d[C]) + if col <= C < col + n then BackwardAt(src, width, height, w, K, R, C) else 0.0
  {
    var sum := Convolve(rows, col, ws, K, n);
    forall j | 0 <= j < n ensures sum[j] == BackwardAt(src, width, height, w, K, R, col + j) {
      BackwardLane(src, width, height, w, K, rows, R, col, ws, n, j);
    }
    Store(d, col, Add(Load(d[..], col, m), sum), m);
  }

  /** Value p of the row that starts at offset s of the allocation d. */
  ghost function Cell(d: seq<real>, s: nat, p: nat): real
    requires s + p < |d|
  {
    d[s + p]
  }

  /**
   * The allocation d with rows at the given offsets holds the rows around
   * destination row R: row i holds source row R - (K - 1) + i at offset K - 1.
   */
  ghost predicate Placed(d: seq<real>, rows: seq<nat>, K: nat, stride: nat,
                         src: seq<seq<real>>, width: nat, height: nat, R: int)
  {
    |rows| == K && (forall i :: 0 <= i < K ==> rows[i] + stride <= |d|)
    && forall i, p :: 0 <= i < K && 0 <= p < stride ==>
         Cell(d, rows[i], p) == Px(src, width, height, R - (K - 1) + i, p - (K - 1))
  }

  /** The buffer holds the rows around destination row R. */
  ghost predicate Holds(b: RowBuffer, src: seq<seq<real>>, width: nat, height: nat, R: int)
    reads b, b.data
  {
    b.Valid() && Placed(b.data[..], b.rows, b.count, b.stride, src, width, height, R)
  }

  /** Rows cut from an allocation that holds the rows around R are the window around R. */
  lemma PlacedWindow(d: seq<real>, rows: seq<nat>, K: nat, stride: nat, cut: seq<seq<real>>,
                     src: seq<seq<real>>, width: nat, height: nat, R: int)
    requires Placed(d, rows, K, stride, src, width, height, R) && width + 2 * (K - 1) <= stride
    requires |cut| == K && forall i :: 0 <= i < K ==> cut[i] == d[rows[i]..rows[i] + stride]
    ensures Window(cut, src, width, height, K, R)
  {
    forall i, p | 0 <= i < K
      ensures At(cut[i], p) == Px(src, width, height, R - (K - 1) + i, p - (K - 1))
    {
      if 0 <= p < stride {
        assert cut[i][p] == Cell(d, rows[i], p);
      } else {
        assert !(0 <= p - (K - 1) < width);
      }
    }
  }

  /** A buffer that holds the rows around R, read as sequences, is the window around R. */
  lemma HoldsWindow(b: RowBuffer, src: seq<seq<real>>, width: nat, height: nat, R: int)
    requires Holds(b, src, width, height, R) && b.size == width
    ensures Window(b.Contents(), src, width, height, b.count, R)
  {
    PlacedWindow(b.data[..], b.rows, b.count, b.stride, b.Contents(), src, width, height, R);
  }

  /**
   * Update rotates the rows around R - 1 into the rows around R: the
   * oldest row, rewritten with source row R (or zeros) over its data part,
   * becomes the newest, and its padding stays zero.
   */
  lemma Rotated(d0: seq<real>, d1: seq<real>, before: seq<nat>, K: nat, stride: nat,
                src: seq<seq<real>>, width: nat, height: nat, R: int)
    requires 2 <= K && K - 1 + width <= stride && Apart(before, stride) && |d1| == |d0|
    requires Placed(d0, before, K, stride, src, width, height, R - 1)
    requires forall q :: 0 <= q < width ==> d1[before[0] + K - 1 + q] == Px(src, width, height, R, q)
    requires forall x :: 0 <= x < |d1| && !(before[0] + K - 1 <= x < before[0] + K - 1 + width) ==> d1[x] == d0[x]
    ensures Placed(d1, before[1..] + [before[0]], K, stride, src, width, height, R)
  {
    var after := before[1..] + [before[0]];
    forall i, p | 0 <= i < K && 0 <= p < stride
      ensures Cell(d1, after[i], p) == Px(src, width, height, R - (K - 1) + i, p - (K - 1))
    {
      if i < K - 1 {
        assert after[i] == before[i + 1];
        assert Cell(d0, before[i + 1], p) == Px(src, width, height, R - 1 - (K - 1) + i + 1, p - (K - 1));
      } else if K - 1 <= p < K - 1 + width {
        assert d1[before[0] + K - 1 + (p - (K - 1))] == Px(src, width, height, R, p - (K - 1));
      } else {
        assert Cell(d0, before[0], p) == Px(src, width, height, R - 1 - (K - 1), p - (K - 1));
      }
    }
  }

  /**
   * Buffer::Update for destination row R: the rows move down by one and the
   * recycled row receives source row R while feed holds (R < height), and
   * zeros after.
   */
  method UpdateRows(b: RowBuffer, src: seq<seq<real>>, width: nat, height: nat, R: int, feed: bool)
    requires Holds(b, src, width, height, R - 1) && b.size == width
    requires |src| >= height && forall r :: 0 <= r < height ==> |src[r]| >= width
    requires 0 <= R && (feed <==> R < height)
    modifies b, b.data
    ensures Holds(b, src, width, height, R)
  {
    ghost var before := b.rows;
    ghost var d0 := b.data[..];
    var incoming := if feed then Some(src[R]) else None;
    b.Update(incoming);
    var K := b.count;
    ghost var d1 := b.data[..];
    forall q | 0 <= q < width ensures d1[before[0] + K - 1 + q] == Px(src, width, height, R, q) {
      assert b.data[b.rows[K - 1] + K - 1 + q] == Incoming(incoming, q);
    }
    forall x | 0 <= x < |d1| && !(before[0] + K - 1 <= x < before[0] + K - 1 + width) ensures d1[x] == d0[x] {
      assert b.data[x] == old(b.data[x]);
    }
    Rotated(d0, d1, before, K, b.stride, src, width, height, R);
  }

  /**
   * The update at the head of each destination row: the buffer takes the
   * next source row, and its rows, read as sequences, are the window
   * around R.
   */
  method NextWindow(b: RowBuffer, src: seq<seq<real>>, width: nat, height: nat, R: int, feed: bool)
    returns (rows: seq<seq<real>>)
    requires Holds(b, src, width, height, R - 1) && b.size == width
    requires |src| >= height && forall r :: 0 <= r < height ==> |src[r]| >= width
    requires 0 <= R && (feed <==> R < height)
    modifies b, b.data
    ensures Holds(b, src, width, height, R) && Window(rows, src, width, height, b.count, R)
  {
    UpdateRows(b, src, width, height, R, feed);
    rows := b.Contents();
    HoldsWindow(b, src, width, height, R);
  }

  /**
   * One destination row of NeuralAddConvolutionBackwardLarge: full
   * registers over the aligned part, then one masked register.
   */
  method GatherRow(src: seq<seq<real>>, width: nat, height: nat, w: seq<real>, K: nat,
                   rows: seq<seq<real>>, R: int, ws: seq<Vec>, d: array<real>)
    requires 2 <= K <= 5 && Reversed(ws, w, K) && Window(rows, src, width, height, K, R)
    requires d.Length >= width + K - 1
    modifies d
    ensures forall C :: 0 <= C < d.Length ==>
              d[C] == old(d[C]) + if C < width + K - 1 then BackwardAt(src, width, height, w, K, R, C) else 0.0
  {
    var W := width + K - 1;
    var alignedWidth := AlignLo(W, F);
    var tailMask := TailMask(alignedWidth, W);
    TailMaskLanes(alignedWidth, W);
    FullMaskLanes();
    var col := 0;
    while col < alignedWidth
      invariant col <= alignedWidth && col % F == 0
      invariant forall C :: 0 <= C < d.Length ==>
                  d[C] == old(d[C]) + if C < col then BackwardAt(src, width, height, w, K, R, C) else 0.0
    {
      StepWithin(col, alignedWidth, F);
      BackwardBlock(src, width, height, w, K, rows, R, col, ws, FullMask, F, d);
      col := col + F;
    }
    assert col == alignedWidth;
    if col < W {
      BackwardBlock(src, width, height, w, K, rows, R, col, ws, tailMask, W - col, d);
    }
  }

  /** The buffer of NeuralAddConvolutionBackwardLarge before the first row: all zeros, the rows above the source. */
  method NewBuffer(src: seq<seq<real>>, width: nat, height: nat, K: nat) returns (b: RowBuffer)
    requires 2 <= K
    ensures fresh(b) && fresh(b.data) && b.count == K && b.size == width
    ensures Holds(b, src, width, height, -1)
  {
    b := new RowBuffer(K, width);
  }

  /**
   * One iteration of NeuralAddConvolutionBackwardLarge: the buffer takes
   * source row R (zeros once R is past the source) and destination row R
   * receives the gather.
   */
  method LargeRow(b: RowBuffer, src: seq<seq<real>>, width: nat, height: nat, w: seq<real>, K: nat,
                  ws: seq<Vec>, R: nat, d: array<real>)
    requires 2 <= K <= 5 && Reversed(ws, w, K) && b.count == K && b.size == width
    requires Holds(b, src, width, height, R - 1) && d != b.data
    requires |src| >= height && forall r :: 0 <= r < height ==> |src[r]| >= width
    requires d.Length >= width + K - 1
    modifies b, b.data, d
    ensures Holds(b, src, width, height, R)
    ensures forall C :: 0 <= C < d.Length ==>
              d[C] == old(d[C]) + if C < width + K - 1 then BackwardAt(src, width, height, w, K, R, C) else 0.0
  {
    var rows := NextWindow(b, src, width, height, R, R < height);
    GatherRow(src, width, height, w, K, rows, R, ws, d);
  }

  /**
   * NeuralAddConvolutionBackwardLarge: the destination is height + K - 1
   * rows of width + K - 1; for each destination row the buffer takes the
   * next source row while row <= height + K - 1 - K, zeros after, and the
   * kernel with the reversed weights gathers each register.
   */
  method BackwardLarge(src: seq<seq<real>>, width: nat, height: nat, w: seq<real>, K: nat,
                       dst: seq<array<real>>)
    requires 2 <= K <= 5 && |w| == K * K && 1 <= height
    requires |src| >= height && forall r :: 0 <= r < height ==> |src[r]| >= width
    requires |dst| >= height + K - 1 && forall R :: 0 <= R < height + K - 1 ==> dst[R].Length >= width + K - 1
    requires forall R, S :: 0 <= R < S < |dst| ==> dst[R] != dst[S]
    modifies set R | 0 <= R < |dst| :: dst[R]
    ensures forall R, C :: 0 <= R < |dst| && 0 <= C < dst[R].Length ==>
              dst[R][C] == old(dst[R][C]) + if R < height + K - 1 && C < width + K - 1
                                            then BackwardAt(src, width, height, w, K, R, C) else 0.0
  {
    ghost var orig := Snapshot(dst);
    var buffer := NewBuffer(src, width, height, K);
    var ws := LoadWeightsBackward(w, K * K);
    AddRows(buffer, src, width, height, w, K, ws, dst, orig);
    forall R, C | 0 <= R < |dst| && 0 <= C < dst[R].Length
      ensures dst[R][C] == old(dst[R][C]) + if R < height + K - 1 && C < width + K - 1
                                            then BackwardAt(src, width, height, w, K, R, C) else 0.0
    {
      assert orig[R] == old(dst[R][..]);
    }
  }

  /** The row loop of BackwardLarge: every destination row gets its backward sums. */
  method AddRows(buffer: RowBuffer, src: seq<seq<real>>, width: nat, height: nat, w: seq<real>, K: nat,
                 ws: seq<Vec>, dst: seq<array<real>>, ghost orig: seq<seq<real>>)
    requires 2 <= K <= 5 && Reversed(ws, w, K) && buffer.count == K && buffer.size == width
    requires Holds(buffer, src, width, height, -1)
    requires Targets(buffer, src, width, height, K, dst)
    requires Added(dst, orig, src, width, height, w, K, 0)
    modifies buffer, buffer.data, set R | 0 <= R < |dst| :: dst[R]
    ensures Added(dst, orig, src, width, height, w, K, height + K - 1)
  {
    var row := 0;
    while row < height + K - 1
      invariant row <= height + K - 1
      invariant buffer.count == K && buffer.size == width
      invariant Holds(buffer, src, width, height, row - 1)
      invariant Added(dst, orig, src, width, height, w, K, row)
    {
      AddRow(buffer, src, width, height, w, K, ws, row, dst, orig);
      row := row + 1;
    }
  }

  /**
   * The source rows are wide enough, the destination rows are distinct, wide
   * enough for the enlarged image and apart from the buffer.
   */
  ghost predicate Targets(b: RowBuffer, src: seq<seq<real>>, width: nat, height: nat, K: nat, dst: seq<array<real>>) {
    |src| >= height && (forall r :: 0 <= r < height ==> |src[r]| >= width)
    && |dst| >= height + K - 1 && (forall R :: 0 <= R < height + K - 1 ==> dst[R].Length >= width + K - 1)
    && (forall R, S :: 0 <= R < S < |dst| ==> dst[R] != dst[S])
    && (forall R :: 0 <= R < |dst| ==> dst[R] != b.data)
  }

  /** The contents of the destination rows, as values. */
  ghost function Snapshot(dst: seq<array<real>>): (r: seq<seq<real>>)
    reads set R | 0 <= R < |dst| :: dst[R]
    ensures |r| == |dst| && forall R :: 0 <= R < |dst| ==> r[R] == dst[R][..]
  {
    if |dst| == 0 then [] else Snapshot(dst[..|dst| - 1]) + [dst[|dst| - 1][..]]
  }

  /** The destination rows below R hold their original values plus the backward sums. */
  ghost predicate Added(dst: seq<array<real>>, orig: seq<seq<real>>, src: seq<seq<real>>, width: nat,
                        height: nat, w: seq<real>, K: nat, R: int)
    reads set S | 0 <= S < |dst| :: dst[S]
  {
    |orig| == |dst| &&
    (forall S :: 0 <= S < |dst| ==> |orig[S]| == dst[S].Length) &&
    forall S, C :: 0 <= S < |dst| && 0 <= C < dst[S].Length ==>
      dst[S][C] == orig[S][C] + if S < R && C < width + K - 1
                                then BackwardAt(src, width, height, w, K, S, C) else 0.0
  }

  /** LargeRow on destination row R of dst: the other rows keep their values. */
  method AddRow(b: RowBuffer, src: seq<seq<real>>, width: nat, height: nat, w: seq<real>, K: nat,
                ws: seq<Vec>, R: nat, dst: seq<array<real>>, ghost orig: seq<seq<real>>)
    requires 2 <= K <= 5 && Reversed(ws, w, K) && b.count == K && b.size == width
    requires Holds(b, src, width, height, R - 1)
    requires Targets(b, src, width, height, K, dst) && R < height + K - 1
    requires Added(dst, orig, src, width, height, w, K, R)
    modifies b, b.data, dst[R]
    ensures Holds(b, src, width, height, R)
    ensures Added(dst, orig, src, width, height, w, K, R + 1)
  {
    LargeRow(b, src, width, height, w, K, ws, R, dst[R]);
    forall S, C | 0 <= S < |dst| && S != R && 0 <= C < dst[S].Length
      ensures dst[S][C] == old(dst[S][C])
    {
      assert dst[S] != dst[R];
    }
  }

  /**
   * NeuralAddConvolution{K}x{K}Backward: the small strategy when
   * width * height < 1024, the large one otherwise.  Both add the same
   * BackwardAt, which is zero outside the destination.
   */
  method AddConvolutionBackward(src: seq<seq<real>>, width: nat, height: nat, w: seq<real>, K: nat,
                                dst: seq<array<real>>)
    requires 2 <= K <= 5 && |w| == K * K
    requires |src| >= height && forall r :: 0 <= r < height ==> |src[r]| >= width
    requires |dst| >= height + K - 1 && forall R :: 0 <= R < height + K - 1 ==> dst[R].Length >= width + K - 1
    requires forall R, S :: 0 <= R < S < |dst| ==> dst[R] != dst[S]
    modifies set R | 0 <= R < |dst| :: dst[R]
    ensures forall R, C :: 0 <= R < |dst| && 0 <= C < dst[R].Length ==>
              dst[R][C] == old(dst[R][C]) + BackwardAt(src, width, height, w, K, R, C)
  {
    if width * height < 1024 {
      BackwardSmall(src, width, height, w, K, dst);
    } else {
      BackwardLarge(src, width, height, w, K, dst);
      forall R, C | 0 <= R < |dst| && 0 <= C < dst[R].Length && !(R < height + K - 1 && C < width + K - 1)
        ensures BackwardAt(src, width, height, w, K, R, C) == 0.0
      {
        BackwardSupport(src, width, height, w, K, R, C);
      }
    }
  }
}
