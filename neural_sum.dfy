// NeuralAddConvolution{K}x{K}Sum (K = 2 .. 5): the weight gradients of
// the K x K convolution.  Weight i = dy * K + dx collects the dot product of
// every row r of dst with row r + dy of src shifted left by dx.
//
// The accumulators _sums are a fixed buffer of K * K registers, so they
// are an array of registers here; the caller's sums is an array of floats.

module NeuralSum {
  import opened Lanes
  import opened Extract
  import opened NeuralVector
  import opened FiniteSums
  import NeuralConvolution

  // ---------------------------------------------------------------------
  // Specification

  /**
   * The shapes the kernels read: height rows of dst of at least width
   * floats, and height + K - 1 rows of src of at least width + K - 1.
   */
  predicate Shape(src: seq<seq<real>>, dst: seq<seq<real>>, width: nat, height: nat, K: nat) {
    2 <= K <= 5 && |dst| >= height && |src| >= height + K - 1 &&
    (forall r :: 0 <= r < height ==> |dst[r]| >= width) &&
    (forall r :: 0 <= r < height + K - 1 ==> |src[r]| >= width + K - 1)
  }

  /** The weight row of weight i. */
  function Dy(i: nat, K: nat): (dy: nat)
    requires 2 <= K <= 5 && i < K * K
    ensures dy < K
  {
    assert K == 2 || K == 3 || K == 4 || K == 5;
    i / K
  }

  /** The weight column of weight i; weights are stored row-major. */
  function Dx(i: nat, K: nat): (dx: nat)
    requires 2 <= K <= 5 && i < K * K
    ensures dx < K && i == Dy(i, K) * K + dx
  {
    assert K == 2 || K == 3 || K == 4 || K == 5;
    i % K
  }

  /**
   * The part of the gradient of weight i that the first c columns of dst
   * row r contribute: dst[r][x] * src[r + dy][x + dx] over x < c.
   */
  function RowGrad(src: seq<seq<real>>, dst: seq<seq<real>>, width: nat, height: nat, K: nat,
                   r: nat, i: nat, c: nat): real
    requires Shape(src, dst, width, height, K) && r < height && i < K * K && c <= width
  {
    Dot(dst[r], src[r + Dy(i, K)][Dx(i, K)..], c)
  }

  /** The gradient of weight i over the first rows rows of dst. */
  function Grad(src: seq<seq<real>>, dst: seq<seq<real>>, width: nat, height: nat, K: nat,
                rows: nat, i: nat): real
    requires Shape(src, dst, width, height, K) && rows <= height && i < K * K
  {
    if rows == 0 then 0.0
    else Grad(src, dst, width, height, K, rows - 1, i) + RowGrad(src, dst, width, height, K, rows - 1, i, width)
  }

  /** Column c of the plain gradient of weight (dy, dx) for dst row r: dst[r][c] * src[r + dy][c + dx]. */
  function TermRef(src: seq<seq<real>>, dst: seq<seq<real>>, r: int, dy: nat, dx: nat, c: int): real {
    At(NeuralConvolution.RowOf(dst, r), c) * At(NeuralConvolution.RowOf(src, r + dy), c + dx)
  }

  /** The first n columns of dst row r against src row r + dy shifted by dx, written plainly. */
  function RowRef(src: seq<seq<real>>, dst: seq<seq<real>>, n: nat, r: int, dy: nat, dx: nat): real {
    SumF(n, c => TermRef(src, dst, r, dy, dx, c))
  }

  /**
   * The gradient of weight (dy, dx) written plainly: the sum over the first
   * rows rows and the width columns of dst[r][c] * src[r + dy][c + dx].
   */
  function GradRef(src: seq<seq<real>>, dst: seq<seq<real>>, width: nat, rows: nat, dy: nat, dx: nat): real {
    SumF(rows, r => RowRef(src, dst, width, r, dy, dx))
  }

  /** One row of GradRef is the row's shifted dot product. */
  lemma {:induction false} RowGradRef(src: seq<seq<real>>, dst: seq<seq<real>>, width: nat, height: nat, K: nat,
                                      r: nat, i: nat, n: nat, dy: nat, dx: nat)
    requires Shape(src, dst, width, height, K) && r < height && i < K * K && n <= width
    requires dy == Dy(i, K) && dx == Dx(i, K)
    ensures RowGrad(src, dst, width, height, K, r, i, n) == RowRef(src, dst, n, r, dy, dx)
  {
    if n > 0 {
      RowGradRef(src, dst, width, height, K, r, i, n - 1, dy, dx);
      var s, c := src[r + dy], n - 1;
      assert |dst[r]| >= width && |s| >= width + K - 1;
      assert NeuralConvolution.RowOf(dst, r) == dst[r] && NeuralConvolution.RowOf(src, r + dy) == s;
      MulBoth(At(dst[r], c), At(s, c + dx), dst[r][c], s[dx..][c]);
      assert RowRef(src, dst, n, r, dy, dx) == RowRef(src, dst, c, r, dy, dx) + TermRef(src, dst, r, dy, dx, c);
    }
  }

  /**
   * What the drivers accumulate, Grad, is the plain double sum for weight
   * i = dy * K + dx.
   */
  lemma {:induction false} GradIsReference(src: seq<seq<real>>, dst: seq<seq<real>>, width: nat, height: nat, K: nat,
                                           rows: nat, i: nat, dy: nat, dx: nat)
    requires Shape(src, dst, width, height, K) && rows <= height && i < K * K
    requires dy == Dy(i, K) && dx == Dx(i, K)
    ensures Grad(src, dst, width, height, K, rows, i) == GradRef(src, dst, width, rows, dy, dx)
  {
    if rows > 0 {
      var r := rows - 1;
      GradIsReference(src, dst, width, height, K, r, i, dy, dx);
      RowGradRef(src, dst, width, height, K, r, i, width, dy, dx);
      assert GradRef(src, dst, width, rows, dy, dx) == GradRef(src, dst, width, r, dy, dx) + RowRef(src, dst, width, r, dy, dx);
    }
  }

  // ---------------------------------------------------------------------
  // Registers

  /**
   * Load<false>(row + off) and Load<false>(row + off + F) joined and shifted
   * by dx: the wide kernels' (K >= 3) way to form the register of src
   * shifted by dx.  Lane k is position off + k + dx of the row.
   */
  function WideTap(row: seq<real>, off: int, dx: nat): (v: Vec)
    requires dx < F
    ensures forall k :: 0 <= k < F ==> v[k] == At(row, off + dx + k)
  {
    Alignr(LoadRow(row, off, F), LoadRow(row, off + F, F), dx)
  }

  /**
   * The src register Sum1x1 and Sum2x1 multiply with weight column dx:
   * for K = 2 a load at off + dx under the mask (n lanes), for K >= 3 the
   * unmasked WideTap.  Either way the first n lanes are positions off + dx
   * onwards.
   */
  function SumTap(row: seq<real>, off: int, dx: nat, n: nat, K: nat): (v: Vec)
    requires dx < K <= 5
    ensures forall k :: 0 <= k < n && k < F ==> v[k] == At(row, off + dx + k)
  {
    if K == 2 then LoadRow(row, off + dx, n) else WideTap(row, off, dx)
  }

  /**
   * One multiply-add of a masked dst register into an accumulator adds
   * the next n terms of the shifted dot product.
   */
  lemma GradLanes(d: seq<real>, s: seq<real>, dx: nat, col: nat, n: nat, acc: Vec, tap: Vec, off: nat)
    requires n <= F && col + n <= |d| && dx <= |s| && col + n <= |s| - dx && off == col + dx
    requires forall k :: 0 <= k < n ==> tap[k] == At(s, off + k)
    ensures Sum(Fma(LoadRow(d, col, n), tap, acc)) == Sum(acc) + Dot(d, s[dx..], col + n) - Dot(d, s[dx..], col)
  {
    var p := Mul(LoadRow(d, col, n), tap);
    forall k | 0 <= k < F
      ensures p[k] == if k < n then d[col + k] * s[dx..][col + k] else 0.0
    {
      if k < n {
        assert s[dx..][col + k] == s[col + k + dx];
      }
    }
    ProductLanes(d, s[dx..], col, n, p);
    SumAdd(p, acc, Fma(LoadRow(d, col, n), tap, acc));
  }

  // ---------------------------------------------------------------------
  // The blocks: Convolution<K, K>::Sum1x1, Sum2x1, Sum1x2, Sum2x2

  /**
   * The multiply-add Sum1x1 and Sum2x1 apply for dst row r, weight i and
   * the n columns from col: the dst register times the src register of
   * the weight's row and column.
   */
  function Step(src: seq<seq<real>>, dst: seq<seq<real>>, K: nat, r: nat, i: nat, col: nat, n: nat, acc: Vec): Vec
    requires 2 <= K <= 5 && i < K * K && r < |dst| && r + Dy(i, K) < |src|
  {
    Fma(LoadRow(dst[r], col, n), SumTap(src[r + Dy(i, K)], col, Dx(i, K), n, K), acc)
  }

  /** Step adds the next n terms of row r's gradient of weight i. */
  lemma StepGrad(src: seq<seq<real>>, dst: seq<seq<real>>, width: nat, height: nat, K: nat,
                 r: nat, i: nat, col: nat, n: nat, acc: Vec)
    requires Shape(src, dst, width, height, K) && r < height && i < K * K && n <= F && col + n <= width
    ensures Sum(Step(src, dst, K, r, i, col, n, acc))
            == Sum(acc) + RowGrad(src, dst, width, height, K, r, i, col + n)
               - RowGrad(src, dst, width, height, K, r, i, col)
  {
    var dy, dx := Dy(i, K), Dx(i, K);
    var row := src[r + dy];
    var tap := SumTap(row, col, dx, n, K);
    assert Step(src, dst, K, r, i, col, n, acc) == Fma(LoadRow(dst[r], col, n), tap, acc);
    GradLanes(dst[r], row, dx, col, n, acc, tap, col + dx);
  }

  /** Rows r and r + 1 through Step, one after the other, add both rows' next n terms. */
  lemma StepsGrad(src: seq<seq<real>>, dst: seq<seq<real>>, width: nat, height: nat, K: nat,
                  r: nat, i: nat, col: nat, n: nat, acc: Vec)
    requires Shape(src, dst, width, height, K) && r + 1 < height && i < K * K && n <= F && col + n <= width
    ensures Sum(Step(src, dst, K, r + 1, i, col, n, Step(src, dst, K, r, i, col, n, acc)))
            == Sum(acc)
               + RowGrad(src, dst, width, height, K, r, i, col + n)
               - RowGrad(src, dst, width, height, K, r, i, col)
               + RowGrad(src, dst, width, height, K, r + 1, i, col + n)
               - RowGrad(src, dst, width, height, K, r + 1, i, col)
  {
    StepGrad(src, dst, width, height, K, r, i, col, n, acc);
    StepGrad(src, dst, width, height, K, r + 1, i, col, n, Step(src, dst, K, r, i, col, n, acc));
  }

  /**
   * Sum1x1: one row r, the n columns from col (n < F under a tail mask).
   * Every accumulator gains the next n terms of its row gradient.
   */
  method Sum1x1(src: seq<seq<real>>, dst: seq<seq<real>>, width: nat, height: nat, K: nat,
                r: nat, col: nat, n: nat, acc: array<Vec>)
    requires Shape(src, dst, width, height, K) && r < height
    requires n <= F && col + n <= width && acc.Length == K * K
    modifies acc
    ensures forall i :: 0 <= i < K * K ==>
              Sum(acc[i]) == Sum(old(acc[i])) + RowGrad(src, dst, width, height, K, r, i, col + n)
                                              - RowGrad(src, dst, width, height, K, r, i, col)
  {
    forall i | 0 <= i < K * K {
      acc[i] := Step(src, dst, K, r, i, col, n, acc[i]);
    }
    forall i | 0 <= i < K * K
      ensures Sum(acc[i]) == Sum(old(acc[i])) + RowGrad(src, dst, width, height, K, r, i, col + n)
                                              - RowGrad(src, dst, width, height, K, r, i, col)
    {
      StepGrad(src, dst, width, height, K, r, i, col, n, old(acc[i]));
    }
  }

  /**
   * Sum2x1: rows r and r + 1, the n columns from col.  Each accumulator
   * takes row r's product first, then row r + 1's (the order of every K).
   */
  method Sum2x1(src: seq<seq<real>>, dst: seq<seq<real>>, width: nat, height: nat, K: nat,
                r: nat, col: nat, n: nat, acc: array<Vec>)
    requires Shape(src, dst, width, height, K) && r + 1 < height
    requires n <= F && col + n <= width && acc.Length == K * K
    modifies acc
    ensures forall i :: 0 <= i < K * K ==>
              Sum(acc[i]) == Sum(old(acc[i]))
                             + RowGrad(src, dst, width, height, K, r, i, col + n)
                             - RowGrad(src, dst, width, height, K, r, i, col)
                             + RowGrad(src, dst, width, height, K, r + 1, i, col + n)
                             - RowGrad(src, dst, width, height, K, r + 1, i, col)
  {
    forall i | 0 <= i < K * K {
      acc[i] := Step(src, dst, K, r + 1, i, col, n, Step(src, dst, K, r, i, col, n, acc[i]));
    }
    forall i | 0 <= i < K * K
      ensures Sum(acc[i]) == Sum(old(acc[i]))
                             + RowGrad(src, dst, width, height, K, r, i, col + n)
                             - RowGrad(src, dst, width, height, K, r, i, col)
                             + RowGrad(src, dst, width, height, K, r + 1, i, col + n)
                             - RowGrad(src, dst, width, height, K, r + 1, i, col)
    {
      StepsGrad(src, dst, width, height, K, r, i, col, n, old(acc[i]));
    }
  }

  /**
   * Sum1x2 (K = 2): one row r, two full registers at col and col + F.  The
   * first shifts with Alignr, the second loads at col + F + dx.
   */
  method Sum1x2(src: seq<seq<real>>, dst: seq<seq<real>>, width: nat, height: nat,
                r: nat, col: nat, acc: array<Vec>)
    requires Shape(src, dst, width, height, 2) && r < height
    requires col + DF <= width && acc.Length == 4
    modifies acc
    ensures forall i :: 0 <= i < 4 ==>
              Sum(acc[i]) == Sum(old(acc[i])) + RowGrad(src, dst, width, height, 2, r, i, col + DF)
                                              - RowGrad(src, dst, width, height, 2, r, i, col)
  {
    forall i | 0 <= i < 4 {
      acc[i] := Pair(src, dst, r, r + Dy(i, 2), col, Dx(i, 2), acc[i]);
    }
    forall i | 0 <= i < 4
      ensures Sum(acc[i]) == Sum(old(acc[i])) + RowGrad(src, dst, width, height, 2, r, i, col + DF)
                                              - RowGrad(src, dst, width, height, 2, r, i, col)
    {
      PairGrad(src, dst, width, height, r, i, col, old(acc[i]));
    }
  }

  /** The two-register products of one dst row r at col, as Sum1x2 and Sum2x2 form them. */
  function Pair(src: seq<seq<real>>, dst: seq<seq<real>>, r: nat, sr: nat, col: nat, dx: nat, acc: Vec): Vec
    requires r < |dst| && sr < |src| && dx < F
  {
    Fma(LoadRow(dst[r], col + F, F), LoadRow(src[sr], col + F + dx, F),
        Fma(LoadRow(dst[r], col, F), WideTap(src[sr], col, dx), acc))
  }

  /** Pair adds the 2F terms of dst row r from col. */
  lemma PairGrad(src: seq<seq<real>>, dst: seq<seq<real>>, width: nat, height: nat,
                 r: nat, i: nat, col: nat, acc: Vec)
    requires Shape(src, dst, width, height, 2) && r < height && i < 4 && col + DF <= width
    ensures Sum(Pair(src, dst, r, r + Dy(i, 2), col, Dx(i, 2), acc))
            == Sum(acc) + RowGrad(src, dst, width, height, 2, r, i, col + DF)
               - RowGrad(src, dst, width, height, 2, r, i, col)
  {
    var dx := Dx(i, 2);
    var row := src[r + Dy(i, 2)];
    var a0 := Fma(LoadRow(dst[r], col, F), WideTap(row, col, dx), acc);
    GradLanes(dst[r], row, dx, col, F, acc, WideTap(row, col, dx), col + dx);
    GradLanes(dst[r], row, dx, col + F, F, a0, LoadRow(row, col + F + dx, F), col + F + dx);
  }

  /** Rows r and r + 1 through Pair, one after the other, add both rows' 2F terms. */
  lemma PairsGrad(src: seq<seq<real>>, dst: seq<seq<real>>, width: nat, height: nat,
                  r: nat, i: nat, col: nat, acc: Vec)
    requires Shape(src, dst, width, height, 2) && r + 1 < height && i < 4 && col + DF <= width
    ensures Sum(Pair(src, dst, r + 1, r + 1 + Dy(i, 2), col, Dx(i, 2),
                     Pair(src, dst, r, r + Dy(i, 2), col, Dx(i, 2), acc)))
            == Sum(acc)
               + RowGrad(src, dst, width, height, 2, r, i, col + DF)
               - RowGrad(src, dst, width, height, 2, r, i, col)
               + RowGrad(src, dst, width, height, 2, r + 1, i, col + DF)
               - RowGrad(src, dst, width, height, 2, r + 1, i, col)
  {
    PairGrad(src, dst, width, height, r, i, col, acc);
    PairGrad(src, dst, width, height, r + 1, i, col, Pair(src, dst, r, r + Dy(i, 2), col, Dx(i, 2), acc));
  }

  /**
   * Sum2x2 (K = 2): rows r and r + 1, two full registers each, in the
   * order (r, col), (r, col + F), (r + 1, col), (r + 1, col + F).
   */
  method Sum2x2(src: seq<seq<real>>, dst: seq<seq<real>>, width: nat, height: nat,
                r: nat, col: nat, acc: array<Vec>)
    requires Shape(src, dst, width, height, 2) && r + 1 < height
    requires col + DF <= width && acc.Length == 4
    modifies acc
    ensures forall i :: 0 <= i < 4 ==>
              Sum(acc[i]) == Sum(old(acc[i]))
                             + RowGrad(src, dst, width, height, 2, r, i, col + DF)
                             - RowGrad(src, dst, width, height, 2, r, i, col)
                             + RowGrad(src, dst, width, height, 2, r + 1, i, col + DF)
                             - RowGrad(src, dst, width, height, 2, r + 1, i, col)
  {
    forall i | 0 <= i < 4 {
      acc[i] := Pair(src, dst, r + 1, r + 1 + Dy(i, 2), col, Dx(i, 2),
                     Pair(src, dst, r, r + Dy(i, 2), col, Dx(i, 2), acc[i]));
    }
    forall i | 0 <= i < 4
      ensures Sum(acc[i]) == Sum(old(acc[i]))
                             + RowGrad(src, dst, width, height, 2, r, i, col + DF)
                             - RowGrad(src, dst, width, height, 2, r, i, col)
                             + RowGrad(src, dst, width, height, 2, r + 1, i, col + DF)
                             - RowGrad(src, dst, width, height, 2, r + 1, i, col)
    {
      PairsGrad(src, dst, width, height, r, i, col, old(acc[i]));
    }
  }

  // ---------------------------------------------------------------------
  // Row loops of the drivers

  /**
   * One row through Sum1x1 from column start: full registers up to
   * AlignLo(width, F), then the masked tail.  Each accumulator gains the
   * row's gradient terms from start to the end of the row.
   */
  method SumRow1x1(src: seq<seq<real>>, dst: seq<seq<real>>, width: nat, height: nat, K: nat,
                   r: nat, start: nat, acc: array<Vec>)
    requires Shape(src, dst, width, height, K) && r < height && acc.Length == K * K
    requires start % F == 0 && start <= AlignLo(width, F)
    modifies acc
    ensures forall i :: 0 <= i < K * K ==>
              Sum(acc[i]) == Sum(old(acc[i])) + RowGrad(src, dst, width, height, K, r, i, width)
                                              - RowGrad(src, dst, width, height, K, r, i, start)
  {
    var alignedWidth := AlignLo(width, F);
    var col := start;
    while col < alignedWidth
      invariant start <= col <= alignedWidth && col % F == 0
      invariant forall i :: 0 <= i < K * K ==>
                  Sum(acc[i]) == Sum(old(acc[i])) + RowGrad(src, dst, width, height, K, r, i, col)
                                                  - RowGrad(src, dst, width, height, K, r, i, start)
    {
      StepWithin(col, alignedWidth, F);
      Sum1x1(src, dst, width, height, K, r, col, F, acc);
      col := col + F;
    }
    assert col == alignedWidth;
    if col < width {
      Sum1x1(src, dst, width, height, K, r, col, width - col, acc);
    }
  }

  /** Rows r and r + 1 through Sum2x1 from column start, full registers and then the masked tail. */
  method SumRows2x1(src: seq<seq<real>>, dst: seq<seq<real>>, width: nat, height: nat, K: nat,
                    r: nat, start: nat, acc: array<Vec>)
    requires Shape(src, dst, width, height, K) && r + 1 < height && acc.Length == K * K
    requires start % F == 0 && start <= AlignLo(width, F)
    modifies acc
    ensures forall i :: 0 <= i < K * K ==>
              Sum(acc[i]) == Sum(old(acc[i])) + RowGrad(src, dst, width, height, K, r, i, width)
                                              - RowGrad(src, dst, width, height, K, r, i, start)
                                              + RowGrad(src, dst, width, height, K, r + 1, i, width)
                                              - RowGrad(src, dst, width, height, K, r + 1, i, start)
  {
    var alignedWidth := AlignLo(width, F);
    var col := start;
    while col < alignedWidth
      invariant start <= col <= alignedWidth && col % F == 0
      invariant forall i :: 0 <= i < K * K ==>
                  Sum(acc[i]) == Sum(old(acc[i])) + RowGrad(src, dst, width, height, K, r, i, col)
                                                  - RowGrad(src, dst, width, height, K, r, i, start)
                                                  + RowGrad(src, dst, width, height, K, r + 1, i, col)
                                                  - RowGrad(src, dst, width, height, K, r + 1, i, start)
    {
      StepWithin(col, alignedWidth, F);
      Sum2x1(src, dst, width, height, K, r, col, F, acc);
      col := col + F;
    }
    assert col == alignedWidth;
    if col < width {
      Sum2x1(src, dst, width, height, K, r, col, width - col, acc);
    }
  }

  /** 2^64: size_t arithmetic wraps modulo this. */
  const SizeMod: nat := 0x1_0000_0000_0000_0000

  /**
   * fullAlignedWidth of NeuralAddConvolutionSum2x2 as written:
   * AlignLo(width - 1, DF) with width - 1 computed in size_t.
   */
  function FullAlignedWidthAsWritten(width: nat): nat
    requires width < SizeMod
  {
    AlignLo((width - 1) % SizeMod, DF)
  }

  /**
   * For width 0 the subtraction wraps and the as-written bound admits the
   * double-register loop, which reads 2F floats of every (empty) row.
   */
  lemma FullAlignedWidthWrapsAtZero()
    ensures FullAlignedWidthAsWritten(0) == SizeMod - DF
    ensures 0 < FullAlignedWidthAsWritten(0)
  {
  }

  /**
   * fullAlignedWidth as intended: the double-register loop stops at least
   * one column before the end of the row, and not at all for width 0.
   */
  function FullAlignedWidth(width: nat): (r: nat)
    ensures r % DF == 0 && r <= AlignLo(width, F)
    ensures width == 0 ==> r == 0
    ensures width > 0 ==> r < width && width - r <= DF
  {
    if width == 0 then 0 else
      var r := AlignLo(width - 1, DF);
      DoubleBelow(r, width);
      r
  }

  /** A multiple of DF no larger than x is no larger than AlignLo(x, F). */
  lemma DoubleBelow(m: nat, x: nat)
    requires m % DF == 0 && m <= x
    ensures m <= AlignLo(x, F)
  {
    var q, p, t := m / DF, x / F, x % F;
    assert m == F * (2 * q) && x == F * p + t && t < F;
    assert F * (2 * q) < F * (p + 1);
    assert 2 * q <= p;
    assert AlignLo(x, F) == F * p;
  }

  /** Every width size_t can hold except 0 gets the bound as written. */
  lemma FullAlignedWidthAgrees(width: nat)
    requires 0 < width < SizeMod
    ensures FullAlignedWidth(width) == FullAlignedWidthAsWritten(width)
  {
    assert (width - 1) % SizeMod == width - 1;
  }

  /**
   * One row of the K = 2 driver: Sum1x2 over double registers, Sum1x1 over
   * the single registers that remain, then the masked tail.
   */
  method SumRow1x2(src: seq<seq<real>>, dst: seq<seq<real>>, width: nat, height: nat,
                   r: nat, acc: array<Vec>)
    requires Shape(src, dst, width, height, 2) && r < height && acc.Length == 4
    modifies acc
    ensures forall i :: 0 <= i < 4 ==>
              Sum(acc[i]) == Sum(old(acc[i])) + RowGrad(src, dst, width, height, 2, r, i, width)
  {
    var fullAlignedWidth := FullAlignedWidth(width);
    var col := 0;
    while col < fullAlignedWidth
      invariant col <= fullAlignedWidth && col % DF == 0
      invariant forall i :: 0 <= i < 4 ==>
                  Sum(acc[i]) == Sum(old(acc[i])) + RowGrad(src, dst, width, height, 2, r, i, col)
    {
      StepWithin(col, fullAlignedWidth, DF);
      Sum1x2(src, dst, width, height, r, col, acc);
      col := col + DF;
    }
    assert col == fullAlignedWidth && col % F == 0;
    SumRow1x1(src, dst, width, height, 2, r, col, acc);
  }

  /** Rows r and r + 1 of the K = 2 driver: Sum2x2, then Sum2x1, then the masked tail. */
  method SumRows2x2(src: seq<seq<real>>, dst: seq<seq<real>>, width: nat, height: nat,
                    r: nat, acc: array<Vec>)
    requires Shape(src, dst, width, height, 2) && r + 1 < height && acc.Length == 4
    modifies acc
    ensures forall i :: 0 <= i < 4 ==>
              Sum(acc[i]) == Sum(old(acc[i])) + RowGrad(src, dst, width, height, 2, r, i, width)
                                              + RowGrad(src, dst, width, height, 2, r + 1, i, width)
  {
    var fullAlignedWidth := FullAlignedWidth(width);
    var col := 0;
    while col < fullAlignedWidth
      invariant col <= fullAlignedWidth && col % DF == 0
      invariant forall i :: 0 <= i < 4 ==>
                  Sum(acc[i]) == Sum(old(acc[i])) + RowGrad(src, dst, width, height, 2, r, i, col)
                                                  + RowGrad(src, dst, width, height, 2, r + 1, i, col)
    {
      StepWithin(col, fullAlignedWidth, DF);
      Sum2x2(src, dst, width, height, r, col, acc);
      col := col + DF;
    }
    assert col == fullAlignedWidth && col % F == 0;
    SumRows2x1(src, dst, width, height, 2, r, col, acc);
  }

  // ---------------------------------------------------------------------
  // Reduction of the accumulators into sums

  /**
   * PartialSum: the four 128-bit quarters of a register added, quarter 0 to
   * quarter 1 and quarter 2 to quarter 3, then the two results.  The four
   * lanes keep the register's whole sum.
   */
  function PartialSum(v: Vec): (s: seq<real>)
    ensures |s| == 4 && s[0] + s[1] + s[2] + s[3] == Sum(v)
  {
    Sum16(v);
    seq(4, k requires 0 <= k < 4 => (v[k] + v[4 + k]) + (v[8 + k] + v[12 + k]))
  }

  /** _mm_hadd_ps(a, b): the adjacent pairs of a, then those of b. */
  function Hadd(a: seq<real>, b: seq<real>): (h: seq<real>)
    requires |a| == 4 && |b| == 4
    ensures |h| == 4 && h[0] == a[0] + a[1] && h[1] == a[2] + a[3] && h[2] == b[0] + b[1] && h[3] == b[2] + b[3]
  {
    [a[0] + a[1], a[2] + a[3], b[0] + b[1], b[2] + b[3]]
  }

  /**
   * Add4ExtractedSums: the sums of the four registers src[i .. i + 3], by
   * PartialSum and two rounds of hadd, added into dst[i .. i + 3].
   */
  method Add4ExtractedSums(src: array<Vec>, i: nat, dst: array<real>)
    requires i + 4 <= src.Length && i + 4 <= dst.Length
    modifies dst
    ensures forall j :: 0 <= j < dst.Length ==>
              dst[j] == old(dst[j]) + if i <= j < i + 4 then Sum(src[j]) else 0.0
  {
    var s0, s1, s2, s3 := PartialSum(src[i]), PartialSum(src[i + 1]), PartialSum(src[i + 2]), PartialSum(src[i + 3]);
    var sums := Hadd(Hadd(s0, s1), Hadd(s2, s3));
    assert sums[0] == Sum(src[i]) && sums[1] == Sum(src[i + 1]);
    assert sums[2] == Sum(src[i + 2]) && sums[3] == Sum(src[i + 3]);
    forall k | 0 <= k < 4 {
      dst[i + k] := dst[i + k] + sums[k];
    }
  }

  /**
   * The end of every driver: Add4ExtractedSums over the first
   * AlignLo(count, 4) accumulators, ExtractSum one by one over the rest;
   * each lane sum is added into sums, never assigned.
   */
  method AddExtractedSums(acc: array<Vec>, sums: array<real>)
    requires acc.Length <= sums.Length
    modifies sums
    ensures forall j :: 0 <= j < sums.Length ==>
              sums[j] == old(sums[j]) + if j < acc.Length then Sum(acc[j]) else 0.0
  {
    var count := acc.Length;
    var n := AlignLo(count, 4);
    var i := 0;
    while i < n
      invariant i <= n && i % 4 == 0
      invariant forall j :: 0 <= j < sums.Length ==>
                  sums[j] == old(sums[j]) + if j < i then Sum(acc[j]) else 0.0
    {
      StepWithin(i, n, 4);
      Add4ExtractedSums(acc, i, sums);
      i := i + 4;
    }
    while i < count
      invariant i <= count
      invariant forall j :: 0 <= j < sums.Length ==>
                  sums[j] == old(sums[j]) + if j < i then Sum(acc[j]) else 0.0
    {
      sums[i] := sums[i] + ExtractSumF32(acc[i]);
      i := i + 1;
    }
  }

  // ---------------------------------------------------------------------
  // The drivers

  /** K * K accumulators set to zero (the memset of _sums). */
  method ZeroSums(count: nat) returns (acc: array<Vec>)
    ensures fresh(acc) && acc.Length == count
    ensures forall i :: 0 <= i < count ==> Sum(acc[i]) == 0.0
  {
    acc := new Vec[count](_ => Splat(0.0));
    forall i | 0 <= i < count ensures Sum(acc[i]) == 0.0 {
      SumPrefix(acc[i], 0);
    }
  }

  /** Two more rows of the gradient. */
  lemma GradTwoRows(src: seq<seq<real>>, dst: seq<seq<real>>, width: nat, height: nat, K: nat,
                    rows: nat, i: nat)
    requires Shape(src, dst, width, height, K) && rows + 2 <= height && i < K * K
    ensures Grad(src, dst, width, height, K, rows + 2, i)
            == Grad(src, dst, width, height, K, rows, i)
               + RowGrad(src, dst, width, height, K, rows, i, width)
               + RowGrad(src, dst, width, height, K, rows + 1, i, width)
  {
    assert Grad(src, dst, width, height, K, rows + 1, i)
           == Grad(src, dst, width, height, K, rows, i) + RowGrad(src, dst, width, height, K, rows, i, width);
  }

  /**
   * NeuralAddConvolutionSum1x1: every row through SumRow1x1, then the
   * accumulators added into sums.
   */
  method AddConvolutionSum1x1(src: seq<seq<real>>, dst: seq<seq<real>>, width: nat, height: nat, K: nat,
                              sums: array<real>)
    requires Shape(src, dst, width, height, K) && sums.Length >= K * K
    modifies sums
    ensures forall i :: 0 <= i < sums.Length ==>
              sums[i] == old(sums[i]) + if i < K * K then Grad(src, dst, width, height, K, height, i) else 0.0
  {
    var acc := ZeroSums(K * K);
    var row := 0;
    while row < height
      invariant row <= height
      invariant forall i :: 0 <= i < K * K ==> Sum(acc[i]) == Grad(src, dst, width, height, K, row, i)
      invariant forall j :: 0 <= j < sums.Length ==> sums[j] == old(sums[j])
    {
      SumRow1x1(src, dst, width, height, K, row, 0, acc);
      row := row + 1;
    }
    AddExtractedSums(acc, sums);
  }

  /**
   * NeuralAddConvolutionSum2x1: pairs of rows through SumRows2x1 up to
   * AlignLo(height, 2), the odd row left over through SumRow1x1.
   */
  method AddConvolutionSum2x1(src: seq<seq<real>>, dst: seq<seq<real>>, width: nat, height: nat, K: nat,
                              sums: array<real>)
    requires Shape(src, dst, width, height, K) && sums.Length >= K * K
    modifies sums
    ensures forall i :: 0 <= i < sums.Length ==>
              sums[i] == old(sums[i]) + if i < K * K then Grad(src, dst, width, height, K, height, i) else 0.0
  {
    var acc := Gradients2x1(src, dst, width, height, K);
    AddExtractedSums(acc, sums);
  }

  /** The row loops of NeuralAddConvolutionSum2x1: accumulator i ends with the gradient of weight i. */
  method Gradients2x1(src: seq<seq<real>>, dst: seq<seq<real>>, width: nat, height: nat, K: nat)
    returns (acc: array<Vec>)
    requires Shape(src, dst, width, height, K)
    ensures fresh(acc) && acc.Length == K * K
    ensures forall i :: 0 <= i < K * K ==> Sum(acc[i]) == Grad(src, dst, width, height, K, height, i)
  {
    var alignedHeight := AlignLo(height, 2);
    acc := ZeroSums(K * K);
    var row := 0;
    while row < alignedHeight
      invariant row <= alignedHeight && row % 2 == 0
      invariant forall i :: 0 <= i < K * K ==> Sum(acc[i]) == Grad(src, dst, width, height, K, row, i)
    {
      StepWithin(row, alignedHeight, 2);
      SumRows2x1(src, dst, width, height, K, row, 0, acc);
      forall i | 0 <= i < K * K {
        GradTwoRows(src, dst, width, height, K, row, i);
      }
      row := row + 2;
    }
    while row < height
      invariant row <= height
      invariant forall i :: 0 <= i < K * K ==> Sum(acc[i]) == Grad(src, dst, width, height, K, row, i)
    {
      SumRow1x1(src, dst, width, height, K, row, 0, acc);
      row := row + 1;
    }
  }

  /**
   * NeuralAddConvolutionSum2x2 (K = 2): pairs of rows through SumRows2x2,
   * the odd row left over through SumRow1x2.
   */
  method AddConvolutionSum2x2(src: seq<seq<real>>, dst: seq<seq<real>>, width: nat, height: nat, sums: array<real>)
    requires Shape(src, dst, width, height, 2) && sums.Length >= 4
    modifies sums
    ensures forall i :: 0 <= i < sums.Length ==>
              sums[i] == old(sums[i]) + if i < 4 then Grad(src, dst, width, height, 2, height, i) else 0.0
  {
    var acc := Gradients2x2(src, dst, width, height);
    AddExtractedSums(acc, sums);
  }

  /** The row loops of NeuralAddConvolutionSum2x2: accumulator i ends with the gradient of weight i. */
  method Gradients2x2(src: seq<seq<real>>, dst: seq<seq<real>>, width: nat, height: nat)
    returns (acc: array<Vec>)
    requires Shape(src, dst, width, height, 2)
    ensures fresh(acc) && acc.Length == 4
    ensures forall i :: 0 <= i < 4 ==> Sum(acc[i]) == Grad(src, dst, width, height, 2, height, i)
  {
    var alignedHeight := AlignLo(height, 2);
    acc := ZeroSums(4);
    var row := 0;
    while row < alignedHeight
      invariant row <= alignedHeight && row % 2 == 0
      invariant forall i :: 0 <= i < 4 ==> Sum(acc[i]) == Grad(src, dst, width, height, 2, row, i)
    {
      StepWithin(row, alignedHeight, 2);
      SumRows2x2(src, dst, width, height, row, acc);
      forall i | 0 <= i < 4 {
        GradTwoRows(src, dst, width, height, 2, row, i);
      }
      row := row + 2;
    }
    while row < height
      invariant row <= height
      invariant forall i :: 0 <= i < 4 ==> Sum(acc[i]) == Grad(src, dst, width, height, 2, row, i)
    {
      SumRow1x2(src, dst, width, height, row, acc);
      row := row + 1;
    }
  }

  /**
   * NeuralAddConvolution{K}x{K}Sum: the 2 x 2 driver for K = 2, the
   * row-pair driver for K = 3, 4, 5.
   */
  method AddConvolutionSum(src: seq<seq<real>>, dst: seq<seq<real>>, width: nat, height: nat, K: nat,
                           sums: array<real>)
    requires Shape(src, dst, width, height, K) && sums.Length >= K * K
    modifies sums
    ensures forall i :: 0 <= i < sums.Length ==>
              sums[i] == old(sums[i]) + if i < K * K then Grad(src, dst, width, height, K, height, i) else 0.0
  {
    if K == 2 {
      AddConvolutionSum2x2(src, dst, width, height, sums);
    } else {
      AddConvolutionSum2x1(src, dst, width, height, K, sums);
    }
  }
}
