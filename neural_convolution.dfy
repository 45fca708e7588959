// The K x K convolutions of the neural-network layer (K = 2 .. 5):
// NeuralAddConvolution{K}x{K}Forward and ...Backward.
//
// An image that a kernel only reads is a sequence of rows; an image it adds
// into is a sequence of distinct row arrays.  Weights are row-major, K * K
// of them.

module NeuralConvolution {
  import opened Lanes
  import opened FiniteSums
  import opened NeuralVector

  // ---------------------------------------------------------------------
  // Specification

  /** Row i of an image, or the empty row past either end. */
  function RowOf(img: seq<seq<real>>, i: int): seq<real> {
    if 0 <= i < |img| then img[i] else []
  }

  /** Weight i, or 0 past the end. */
  function Wt(w: seq<real>, i: int): real {
    if 0 <= i < |w| then w[i] else 0.0
  }

  /**
   * The forward convolution at (r, c): the sum over the K x K window whose
   * top-left corner is (r, c) of pixel times weight.
   */
  function ForwardAt(src: seq<seq<real>>, w: seq<real>, K: nat, r: int, c: int): real {
    SumF(K, dy => ForwardRowAt(src, w, K, r, c, dy))
  }

  /** Row dy of the window of ForwardAt: the sum over dx of pixel (r + dy, c + dx) times weight (dy, dx). */
  function ForwardRowAt(src: seq<seq<real>>, w: seq<real>, K: nat, r: int, c: int, dy: int): real {
    SumF(K, dx => ForwardTerm(src, w, K, r, c, dy, dx))
  }

  /** Tap (dy, dx) of ForwardAt: pixel (r + dy, c + dx) times weight dy * K + dx. */
  function ForwardTerm(src: seq<seq<real>>, w: seq<real>, K: nat, r: int, c: int, dy: int, dx: int): real {
    At(RowOf(src, r + dy), c + dx) * Wt(w, dy * K + dx)
  }

  /** Pixel (r, c) of a width x height image, 0 outside it. */
  function Px(src: seq<seq<real>>, width: nat, height: nat, r: int, c: int): real {
    if 0 <= r < height && 0 <= c < width then At(RowOf(src, r), c) else 0.0
  }

  /**
   * The first k terms that source row r scatters into destination (R, C)
   * through weight row a: the sum over b < k of pixel (r, C - b) times
   * weight (a, b).
   */
  function BackRow(src: seq<seq<real>>, width: nat, height: nat, w: seq<real>, K: nat,
                   r: int, a: int, C: int, k: nat): real
  {
    SumF(k, b => BackTerm(src, width, height, w, K, r, a, C, b))
  }

  /** Term b of BackRow: pixel (r, C - b) times weight (a, b). */
  function BackTerm(src: seq<seq<real>>, width: nat, height: nat, w: seq<real>, K: nat,
                    r: int, a: int, C: int, b: int): real
  {
    Px(src, width, height, r, C - b) * Wt(w, a * K + b)
  }

  /**
   * The backward convolution at (R, C): every source pixel (R - a, C - b)
   * scattered through weight (a, b).  It is the transposed convolution that
   * makes the destination (width + K - 1) x (height + K - 1).
   */
  function BackwardAt(src: seq<seq<real>>, width: nat, height: nat, w: seq<real>, K: nat,
                      R: int, C: int): real
  {
    SumF(K, a => BackRow(src, width, height, w, K, R - a, a, C, K))
  }

  // ---------------------------------------------------------------------
  // Registers

  /**
   * Tap dx of RowConvolution at offset off: for K <= 3 a masked load at
   * off + dx; for K = 4, 5 the lanes dx .. dx + 15 of two masked loads at
   * off and off + F.
   */
  function Tap(row: seq<real>, off: int, K: nat, n: nat, dx: int): Vec
  {
    if K <= 3 then LoadRow(row, off + dx, n)
    else if 0 <= dx < F then Alignr(LoadRow(row, off, n), LoadRow(row, off + F, n), dx)
    else Splat(0.0)
  }

  /**
   * The multiply-add tree of RowConvolution over its K tap registers t and
   * weight registers w, in the kernel's order.
   */
  function MulAddTree(t: seq<Vec>, w: seq<Vec>, K: nat): Vec
    requires 2 <= K <= 5 && |t| == K && |w| == K
  {
    if K == 2 then
      Fma(t[0], w[0], Mul(t[1], w[1]))
    else if K == 3 then
      Fma(t[0], w[0], Fma(t[1], w[1], Mul(t[2], w[2])))
    else
      var sum0 := Fma(t[0], w[0], Mul(t[1], w[1]));
      var sum1 := Fma(t[2], w[2], Mul(t[3], w[3]));
      if K == 4 then Add(sum0, sum1)
      else Fma(t[4], w[4], Add(sum0, sum1))
  }

  /** The lane-j products of the taps and the weights, 0 past the K taps. */
  function Product(t: seq<Vec>, w: seq<Vec>, j: nat, i: int): real
    requires j < F
  {
    if 0 <= i < |t| && i < |w| then t[i][j] * w[i][j] else 0.0
  }

  /** Lane j of the multiply-add tree is the sum of the lane-j products. */
  lemma MulAddTreeLane(t: seq<Vec>, w: seq<Vec>, K: nat, j: nat)
    requires 2 <= K <= 5 && |t| == K && |w| == K && j < F
    ensures MulAddTree(t, w, K)[j] == SumF(K, (i => Product(t, w, j, i)))
  {
    var f := (i => Product(t, w, j, i));
    SumSteps(f);
    if K == 2 {
      MulAddTree2(t, w, j);
    } else if K == 3 {
      MulAddTree3(t, w, j);
    } else if K == 4 {
      MulAddTree4(t, w, j);
    } else {
      MulAddTree5(t, w, j);
    }
  }

  lemma MulAddTree2(t: seq<Vec>, w: seq<Vec>, j: nat)
    requires |t| == 2 && |w| == 2 && j < F
    ensures MulAddTree(t, w, 2)[j] == Product(t, w, j, 0) + Product(t, w, j, 1)
  {
  }

  lemma MulAddTree3(t: seq<Vec>, w: seq<Vec>, j: nat)
    requires |t| == 3 && |w| == 3 && j < F
    ensures MulAddTree(t, w, 3)[j] == Product(t, w, j, 0) + Product(t, w, j, 1) + Product(t, w, j, 2)
  {
  }

  lemma MulAddTree4(t: seq<Vec>, w: seq<Vec>, j: nat)
    requires |t| == 4 && |w| == 4 && j < F
    ensures MulAddTree(t, w, 4)[j]
            == Product(t, w, j, 0) + Product(t, w, j, 1) + Product(t, w, j, 2) + Product(t, w, j, 3)
  {
  }

  lemma MulAddTree5(t: seq<Vec>, w: seq<Vec>, j: nat)
    requires |t| == 5 && |w| == 5 && j < F
    ensures MulAddTree(t, w, 5)[j]
            == Product(t, w, j, 0) + Product(t, w, j, 1) + Product(t, w, j, 2) + Product(t, w, j, 3) + Product(t, w, j, 4)
  {
  }

  /** The K tap registers of a row at offset off. */
  function Taps(row: seq<real>, off: int, K: nat, n: nat): (t: seq<Vec>)
    ensures |t| == K && forall dx :: 0 <= dx < K ==> t[dx] == Tap(row, off, K, n, dx)
  {
    seq(K, (dx: int) requires 0 <= dx < K => Tap(row, off, K, n, dx))
  }

  /**
   * Convolution<K, K>::RowConvolution: one row against weights base ..
   * base + K - 1.  (For K = 4, 5 the kernel loads the two registers once
   * and shifts them K times; each Tap names one of those shifts.)
   */
  function RowConvolution(row: seq<real>, off: int, ws: seq<Vec>, base: nat, K: nat, n: nat): Vec
    requires 2 <= K <= 5 && base + K <= |ws|
  {
    MulAddTree(Taps(row, off, K, n), ws[base..base + K], K)
  }

  /** The addition tree of Convolution<K, K>::Forward / ::Backward over the K row convolutions, in the kernel's order. */
  function AddTree(v: seq<Vec>, K: nat): Vec
    requires 2 <= K <= 5 && |v| == K
  {
    if K == 2 then Add(v[0], v[1])
    else if K == 3 then Add(Add(v[0], v[1]), v[2])
    else if K == 4 then Add(Add(v[0], v[1]), Add(v[2], v[3]))
    else Add(v[0], Add(Add(v[1], v[2]), Add(v[3], v[4])))
  }

  /** Lane j of the addition tree is the sum of the lanes j. */
  lemma AddTreeLane(v: seq<Vec>, K: nat, j: nat)
    requires 2 <= K <= 5 && |v| == K && j < F
    ensures AddTree(v, K)[j] == SumF(K, (i => LaneOf(v, j, i)))
  {
    var f := (i => LaneOf(v, j, i));
    SumSteps(f);
    if K == 2 {
      assert AddTree(v, K)[j] == f(0) + f(1);
    } else if K == 3 {
      assert AddTree(v, K)[j] == f(0) + f(1) + f(2);
    } else if K == 4 {
      assert AddTree(v, K)[j] == f(0) + f(1) + f(2) + f(3);
    } else {
      assert AddTree(v, K)[j] == f(0) + f(1) + f(2) + f(3) + f(4);
    }
  }

  /** Lane j of each of the K registers, 0 past them. */
  function LaneOf(v: seq<Vec>, j: nat, i: int): real
    requires j < F
  {
    if 0 <= i < |v| then v[i][j] else 0.0
  }

  /** Row dy of the weight table of a K x K kernel starts at dy * K and fits in it. */
  lemma WeightRows(K: nat)
    requires 2 <= K <= 5
    ensures forall dy :: 0 <= dy < K ==> 0 <= dy * K && dy * K + K <= K * K
  {
    if K == 2 {
    } else if K == 3 {
    } else if K == 4 {
    } else {
    }
  }

  /** The K row convolutions of Convolution<K, K>::Forward / ::Backward. */
  function RowConvolutions(rows: seq<seq<real>>, off: int, ws: seq<Vec>, K: nat, n: nat): (v: seq<Vec>)
    requires 2 <= K <= 5 && |ws| == K * K
    ensures |v| == K
    ensures forall dy :: 0 <= dy < K ==> dy * K + K <= |ws| && v[dy] == RowConvolution(RowOf(rows, dy), off, ws, dy * K, K, n)
  {
    WeightRows(K);
    seq(K, (dy: int) requires 0 <= dy < K => RowConvolution(RowOf(rows, dy), off, ws, dy * K, K, n))
  }

  /**
   * Convolution<K, K>::Forward and ::Backward: the row convolutions of K
   * consecutive rows (source rows, or the rows of the backward buffer)
   * against consecutive rows of weights, added in the kernel's order.
   */
  function Convolve(rows: seq<seq<real>>, off: int, ws: seq<Vec>, K: nat, n: nat): Vec
    requires 2 <= K <= 5 && |ws| == K * K
  {
    AddTree(RowConvolutions(rows, off, ws, K, n), K)
  }

  /** A sum of up to five terms, written out. */
  lemma SumSteps(f: int -> real)
    ensures SumF(2, f) == f(0) + f(1)
    ensures SumF(3, f) == f(0) + f(1) + f(2)
    ensures SumF(4, f) == f(0) + f(1) + f(2) + f(3)
    ensures SumF(5, f) == f(0) + f(1) + f(2) + f(3) + f(4)
  {
    assert SumF(1, f) == f(0);
  }

  /** Product of tap dx and weight base + dx in lane j. */
  function TapTerm(row: seq<real>, off: int, ws: seq<Vec>, base: int, K: nat, n: nat, j: nat, dx: int): real
    requires j < F
  {
    if 0 <= base + dx < |ws| then Tap(row, off, K, n, dx)[j] * ws[base + dx][j] else 0.0
  }

  /** The sum over the K taps of lane j of tap times weight. */
  function RowSum(row: seq<real>, off: int, ws: seq<Vec>, base: int, K: nat, n: nat, j: nat): real
    requires j < F
  {
    SumF(K, dx => TapTerm(row, off, ws, base, K, n, j, dx))
  }

  /** Lane j of a row convolution is the sum over the taps of tap times weight. */
  lemma RowConvolutionLane(row: seq<real>, off: int, ws: seq<Vec>, base: nat, K: nat, n: nat, j: nat)
    requires 2 <= K <= 5 && base + K <= |ws| && j < F
    ensures RowConvolution(row, off, ws, base, K, n)[j] == RowSum(row, off, ws, base, K, n, j)
  {
    var t, w := Taps(row, off, K, n), ws[base..base + K];
    forall i | 0 <= i < K
      ensures Product(t, w, j, i) == TapTerm(row, off, ws, base, K, n, j, i)
    {
      assert t[i] == Tap(row, off, K, n, i);
      assert w[i] == ws[base + i];
    }
    SumExt(K, (i => Product(t, w, j, i)),
              dx => TapTerm(row, off, ws, base, K, n, j, dx));
    MulAddTreeLane(t, w, K, j);
  }

  /** Lane j of a K-row convolution is the double sum over rows and taps. */
  lemma ConvolveLane(rows: seq<seq<real>>, off: int, ws: seq<Vec>, K: nat, n: nat, j: nat)
    requires 2 <= K <= 5 && |ws| == K * K && j < F
    ensures Convolve(rows, off, ws, K, n)[j] == SumF(K, dy => RowSum(RowOf(rows, dy), off, ws, dy * K, K, n, j))
  {
    var v := RowConvolutions(rows, off, ws, K, n);
    WeightRows(K);
    forall dy | 0 <= dy < K
      ensures LaneOf(v, j, dy) == RowSum(RowOf(rows, dy), off, ws, dy * K, K, n, j)
    {
      RowConvolutionLane(RowOf(rows, dy), off, ws, dy * K, K, n, j);
    }
    SumExt(K, (i => LaneOf(v, j, i)), dy => RowSum(RowOf(rows, dy), off, ws, dy * K, K, n, j));
    AddTreeLane(v, K, j);
  }

  /**
   * Tap dx of lane j reads position off + j + dx of the row, for each of
   * the n lanes the mask enables, provided that either the mask enables every lane or
   * the row is zero from off + n on (the zero padding of the backward
   * buffer).  For K = 4, 5 the masked load at off + F disables the lanes
   * past n of the second register too; this is where the padding is needed.
   */
  lemma TapLane(row: seq<real>, off: int, K: nat, n: nat, dx: nat, j: nat)
    requires 2 <= K <= 5 && dx < K && j < n <= F
    requires n == F || forall p :: off + n <= p ==> At(row, p) == 0.0
    ensures Tap(row, off, K, n, dx)[j] == At(row, off + j + dx)
  {
  }

  // ---------------------------------------------------------------------
  // Weights

  /** LoadWeightsForward<size>: register i holds weight i in every lane. */
  method LoadWeightsForward(w: seq<real>, size: nat) returns (ws: seq<Vec>)
    requires size <= |w|
    ensures |ws| == size
    ensures forall i, k :: 0 <= i < size && 0 <= k < F ==> ws[i][k] == w[i]
  {
    ws := [];
    var i := 0;
    while i < size
      invariant i <= size && |ws| == i
      invariant forall t, k :: 0 <= t < i && 0 <= k < F ==> ws[t][k] == w[t]
    {
      ws := ws + [Splat(w[i])];
      i := i + 1;
    }
  }

  /** LoadWeightsBackward<size>: register i holds weight size - 1 - i, the taps in reverse order. */
  method LoadWeightsBackward(w: seq<real>, size: nat) returns (ws: seq<Vec>)
    requires size <= |w|
    ensures |ws| == size
    ensures forall i, k :: 0 <= i < size && 0 <= k < F ==> ws[i][k] == w[size - 1 - i]
  {
    ws := [];
    var i := 0;
    while i < size
      invariant i <= size && |ws| == i
      invariant forall t, k :: 0 <= t < i && 0 <= k < F ==> ws[t][k] == w[size - 1 - t]
    {
      ws := ws + [Splat(w[size - 1 - i])];
      i := i + 1;
    }
  }

  // ---------------------------------------------------------------------
  // Forward

  /**
   * With the forward weights and full loads, lane j of the kernel on rows
   * r .. r + K - 1 at column col is the forward convolution at (r, col + j).
   */
  lemma ForwardLane(src: seq<seq<real>>, r: nat, col: nat, w: seq<real>, ws: seq<Vec>, K: nat, j: nat)
    requires 2 <= K <= 5 && j < F && r + K <= |src|
    requires |ws| == K * K && |w| == K * K
    requires forall i, k :: 0 <= i < K * K && 0 <= k < F ==> ws[i][k] == w[i]
    ensures Convolve(src[r..r + K], col, ws, K, F)[j] == ForwardAt(src, w, K, r, col + j)
  {
    var rows := src[r..r + K];
    forall dy | 0 <= dy < K
      ensures RowSum(RowOf(rows, dy), col, ws, dy * K, K, F, j) == ForwardRowAt(src, w, K, r, col + j, dy)
    {
      var f := dx => TapTerm(RowOf(rows, dy), col, ws, dy * K, K, F, j, dx);
      var g := dx => ForwardTerm(src, w, K, r, col + j, dy, dx);
      forall dx | 0 <= dx < K ensures f(dx) == g(dx) {
        ForwardTap(src, r, col, w, ws, K, j, dy, dx);
      }
      SumExt(K, f, g);
    }
    SumExt(K, dy => RowSum(RowOf(rows, dy), col, ws, dy * K, K, F, j),
              dy => ForwardRowAt(src, w, K, r, col + j, dy));
    ConvolveLane(rows, col, ws, K, F, j);
  }

  /** Tap (dy, dx) of ForwardLane: source pixel (r + dy, col + j + dx) times weight (dy, dx). */
  lemma ForwardTap(src: seq<seq<real>>, r: nat, col: nat, w: seq<real>, ws: seq<Vec>, K: nat, j: nat, dy: nat, dx: nat)
    requires 2 <= K <= 5 && j < F && r + K <= |src| && dy < K && dx < K
    requires |ws| == K * K && |w| == K * K
    requires forall i, k :: 0 <= i < K * K && 0 <= k < F ==> ws[i][k] == w[i]
    ensures TapTerm(RowOf(src[r..r + K], dy), col, ws, dy * K, K, F, j, dx) == ForwardTerm(src, w, K, r, col + j, dy, dx)
  {
    WeightRows(K);
    TapLane(RowOf(src[r..r + K], dy), col, K, F, dx, j);
    assert RowOf(src[r..r + K], dy) == RowOf(src, r + dy);
  }

  /**
   * One register of NeuralAddConvolutionForward: the kernel on rows row ..
   * row + K - 1 at column col, added into the n destination lanes the mask
   * enables.  The source loads are full even in the tail register.
   */
  method ForwardBlock(src: seq<seq<real>>, w: seq<real>, ws: seq<Vec>, K: nat, row: nat, col: nat,
                      m: bv16, ghost n: nat, d: array<real>)
    requires 2 <= K <= 5 && row + K <= |src|
    requires |ws| == K * K && |w| == K * K
    requires forall i, k :: 0 <= i < K * K && 0 <= k < F ==> ws[i][k] == w[i]
    requires FirstLanes(m, n) && col + n <= d.Length
    modifies d
    ensures forall C :: 0 <= C < d.Length ==>
              d[C] == old(d[C]) + if col <= C < col + n then ForwardAt(src, w, K, row, C) else 0.0
  {
    var sum := Convolve(src[row..row + K], col, ws, K, F);
    forall j | 0 <= j < n ensures sum[j] == ForwardAt(src, w, K, row, col + j) {
      ForwardLane(src, row, col, w, ws, K, j);
    }
    Store(d, col, Add(Load(d[..], col, m), sum), m);
  }

  /**
   * One destination row of NeuralAddConvolution{K}x{K}Forward: full
   * registers over the aligned part, then one masked register.
   */
  method ForwardRow(src: seq<seq<real>>, w: seq<real>, ws: seq<Vec>, K: nat, row: nat, width: nat, d: array<real>)
    requires 2 <= K <= 5 && row + K <= |src|
    requires |ws| == K * K && |w| == K * K
    requires forall i, k :: 0 <= i < K * K && 0 <= k < F ==> ws[i][k] == w[i]
    requires d.Length >= width
    modifies d
    ensures forall C :: 0 <= C < d.Length ==>
              d[C] == old(d[C]) + if C < width then ForwardAt(src, w, K, row, C) else 0.0
  {
    var alignedWidth := AlignLo(width, F);
    var tailMask := TailMask(alignedWidth, width);
    TailMaskLanes(alignedWidth, width);
    FullMaskLanes();
    var col := 0;
    while col < alignedWidth
      invariant col <= alignedWidth && col % F == 0
      invariant forall C :: 0 <= C < d.Length ==>
                  d[C] == old(d[C]) + if C < col then ForwardAt(src, w, K, row, C) else 0.0
    {
      StepWithin(col, alignedWidth, F);
      ForwardBlock(src, w, ws, K, row, col, FullMask, F, d);
      col := col + F;
    }
    assert col == alignedWidth;
    if col < width {
      ForwardBlock(src, w, ws, K, row, col, tailMask, width - col, d);
    }
  }

  /**
   * NeuralAddConvolution{K}x{K}Forward: adds to each of the width x height
   * destination pixels the forward convolution of the source there; the
   * source has K - 1 more rows and columns than the destination.
   */
  method AddConvolutionForward(src: seq<seq<real>>, width: nat, height: nat, w: seq<real>, K: nat,
                               dst: seq<array<real>>)
    requires 2 <= K <= 5 && |w| == K * K
    requires |src| >= height + K - 1
    requires forall r :: 0 <= r < height + K - 1 ==> |src[r]| >= width + K - 1
    requires |dst| >= height && forall r :: 0 <= r < height ==> dst[r].Length >= width
    requires forall r, s :: 0 <= r < s < |dst| ==> dst[r] != dst[s]
    modifies set r | 0 <= r < |dst| :: dst[r]
    ensures forall R, C :: 0 <= R < |dst| && 0 <= C < dst[R].Length ==>
              dst[R][C] == old(dst[R][C]) + if R < height && C < width then ForwardAt(src, w, K, R, C) else 0.0
  {
    var ws := LoadWeightsForward(w, K * K);
    var row := 0;
    while row < height
      invariant row <= height
      invariant forall R, C :: 0 <= R < |dst| && 0 <= C < dst[R].Length ==>
                  dst[R][C] == old(dst[R][C]) + if R < row && C < width then ForwardAt(src, w, K, R, C) else 0.0
    {
      ForwardRow(src, w, ws, K, row, width, dst[row]);
      forall S | 0 <= S < |dst| && S != row
        ensures dst[S] != dst[row]
      {
      }
      row := row + 1;
    }
  }
}
