// The max poolings of the neural-network layer: NeuralPooling1x1Max3x3
// (the maximum over each pixel's 3 x 3 neighbourhood) and
// NeuralPooling2x2Max2x2 (the maximum over each 2 x 2 block, halving the
// image).  Both clip the window at the image border.

module NeuralPooling {
  import opened Lanes

  // ---------------------------------------------------------------------
  // NeuralPooling1x1Max3x3: specification

  /** An index moved back inside 0 .. n - 1. */
  function Clamp(x: int, n: nat): (r: nat)
    requires n > 0
    ensures r < n && (0 <= x < n ==> r == x)
  {
    if x < 0 then 0 else if x >= n then n - 1 else x
  }

  /** The maximum of column c and its two neighbours in one row, clipped to the width. */
  function Max3At(row: seq<real>, width: nat, c: nat): real
    requires c < width <= |row|
  {
    MaxReal(MaxReal(row[Clamp(c - 1, width)], row[c]), row[Clamp(c + 1, width)])
  }

  /** The maximum over the 3 x 3 neighbourhood of (r, c), clipped to the image. */
  function Pool3At(src: seq<seq<real>>, width: nat, height: nat, r: nat, c: nat): real
    requires r < height <= |src| && c < width
    requires forall i :: 0 <= i < height ==> |src[i]| >= width
  {
    MaxReal(MaxReal(Max3At(src[Clamp(r - 1, height)], width, c), Max3At(src[r], width, c)),
            Max3At(src[Clamp(r + 1, height)], width, c))
  }

  /**
   * Pool3At is the maximum of the neighbourhood: no pixel of it is larger,
   * and one of them is equal.
   */
  lemma Pool3IsNeighbourhoodMax(src: seq<seq<real>>, width: nat, height: nat, r: nat, c: nat)
    requires r < height <= |src| && c < width
    requires forall i :: 0 <= i < height ==> |src[i]| >= width
    ensures forall i, j :: 0 <= i < height && 0 <= j < width && r <= i + 1 <= r + 2 && c <= j + 1 <= c + 2 ==>
              src[i][j] <= Pool3At(src, width, height, r, c)
    ensures exists i, j :: 0 <= i < height && 0 <= j < width && r <= i + 1 <= r + 2 && c <= j + 1 <= c + 2 &&
              src[i][j] == Pool3At(src, width, height, r, c)
  {
    var m := Pool3At(src, width, height, r, c);
    var rows := [Clamp(r - 1, height), r, Clamp(r + 1, height)];
    var cols := [Clamp(c - 1, width), c, Clamp(c + 1, width)];
    var a := if Max3At(src[rows[0]], width, c) >= Max3At(src[rows[1]], width, c) then 0 else 1;
    var i := if MaxReal(Max3At(src[rows[0]], width, c), Max3At(src[rows[1]], width, c)) >= Max3At(src[rows[2]], width, c) then rows[a] else rows[2];
    var row := src[i];
    var b := if row[cols[0]] >= row[cols[1]] then 0 else 1;
    var j := if MaxReal(row[cols[0]], row[cols[1]]) >= row[cols[2]] then cols[b] else cols[2];
    assert src[i][j] == m;
  }

  /** The rows around r that the kernel combines: the row above (if any), r, the row below (if any). */
  function Window3(src: seq<seq<real>>, height: nat, r: nat): (rs: seq<seq<real>>)
    requires 1 < height <= |src| && r < height
    ensures 2 <= |rs| <= 3
  {
    if r == 0 then [src[0], src[1]]
    else if r == height - 1 then [src[r - 1], src[r]]
    else [src[r - 1], src[r], src[r + 1]]
  }

  /** The maximum over the rows rs of Max3At, in the kernel's order. */
  function RowsMax(rs: seq<seq<real>>, width: nat, c: nat): real
    requires 2 <= |rs| <= 3 && c < width
    requires forall i :: 0 <= i < |rs| ==> |rs[i]| >= width
  {
    var m := MaxReal(Max3At(rs[0], width, c), Max3At(rs[1], width, c));
    if |rs| == 2 then m else MaxReal(m, Max3At(rs[2], width, c))
  }

  /**
   * The two-row first and last rows of the kernel agree with the clipped
   * 3 x 3 maximum: the missing row is a copy of the edge row.
   */
  lemma WindowIsPool3(src: seq<seq<real>>, width: nat, height: nat, r: nat, c: nat)
    requires 1 < height <= |src| && r < height && c < width
    requires forall i :: 0 <= i < height ==> |src[i]| >= width
    ensures RowsMax(Window3(src, height, r), width, c) == Pool3At(src, width, height, r, c)
  {
  }

  // ---------------------------------------------------------------------
  // NeuralPooling1x1Max3x3: registers

  /** _mm512_permutexvar_ps(idx, v): lane k takes lane idx[k] of v. */
  function Permute(idx: seq<nat>, v: Vec): (r: Vec)
    requires |idx| == F && forall k :: 0 <= k < F ==> idx[k] < F
    ensures forall k :: 0 <= k < F ==> r[k] == v[idx[k]]
  {
    seq(F, k requires 0 <= k < F => v[idx[k]])
  }

  /** K32_PERMUTE_NOSE: every lane moves up by one, lane 0 stays. */
  const PermuteNose: seq<nat> := [0, 0, 1, 2, 3, 4, 5, 6, 7, 8, 9, 10, 11, 12, 13, 14]

  lemma PermuteNoseLanes()
    ensures |PermuteNose| == F && forall k :: 0 <= k < F ==> PermuteNose[k] == if k == 0 then 0 else k - 1
  {
  }

  /** K32_PERMUTE_TAIL: every lane moves down by one, lane 15 stays. */
  const PermuteTail: seq<nat> := [1, 2, 3, 4, 5, 6, 7, 8, 9, 10, 11, 12, 13, 14, 15, 15]

  lemma PermuteTailLanes()
    ensures |PermuteTail| == F && forall k :: 0 <= k < F ==> PermuteTail[k] == if k == F - 1 then k else k + 1
  {
  }

  /** Pooling1x1Max3x1Nose: columns 0 .. F - 1; the left neighbour of column 0 is itself. */
  function Nose3(row: seq<real>): Vec {
    var src1 := LoadRow(row, 0, F);
    Max(Max(Permute(PermuteNose, src1), src1), LoadRow(row, 1, F))
  }

  /** Pooling1x1Max3x1Body: columns col .. col + F - 1 with both neighbours loaded. */
  function Body3(row: seq<real>, col: int): Vec {
    Max(Max(LoadRow(row, col - 1, F), LoadRow(row, col, F)), LoadRow(row, col + 1, F))
  }

  /** Pooling1x1Max3x1Tail: columns col .. col + F - 1 (the last F); the right neighbour of the last is itself. */
  function Tail3(row: seq<real>, col: int): Vec {
    var src1 := LoadRow(row, col, F);
    Max(Max(LoadRow(row, col - 1, F), src1), Permute(PermuteTail, src1))
  }

  lemma Nose3Lanes(row: seq<real>, width: nat)
    requires F < width <= |row|
    ensures forall k :: 0 <= k < F ==> Nose3(row)[k] == Max3At(row, width, k)
  {
    PermuteNoseLanes();
  }

  lemma Body3Lanes(row: seq<real>, width: nat, col: nat)
    requires 0 < col && col + F < width <= |row|
    ensures forall k :: 0 <= k < F ==> Body3(row, col)[k] == Max3At(row, width, col + k)
  {
  }

  lemma Tail3Lanes(row: seq<real>, width: nat, col: nat)
    requires F < width <= |row| && col == width - F
    ensures forall k :: 0 <= k < F ==> Tail3(row, col)[k] == Max3At(row, width, col + k)
  {
    PermuteTailLanes();
    var src1 := LoadRow(row, col, F);
    var p := Permute(PermuteTail, src1);
    assert forall k :: 0 <= k < F ==> p[k] == row[Clamp(col + k + 1, width)];
  }

  /** The rows' registers combined as the kernel does: max(s0, s1), or max(max(s0, s1), s2). */
  function Combine(vs: seq<Vec>): Vec
    requires 2 <= |vs| <= 3
  {
    if |vs| == 2 then Max(vs[0], vs[1]) else Max(Max(vs[0], vs[1]), vs[2])
  }

  /** Storing a combined register writes RowsMax over its F columns from col. */
  method StoreRowsMax(rs: seq<seq<real>>, width: nat, d: array<real>, col: nat, vs: seq<Vec>)
    requires 2 <= |rs| <= 3 && |vs| == |rs| && col + F <= width <= d.Length
    requires forall i :: 0 <= i < |rs| ==> |rs[i]| >= width
    requires forall i, k :: 0 <= i < |vs| && 0 <= k < F ==> vs[i][k] == Max3At(rs[i], width, col + k)
    modifies d
    ensures forall c :: 0 <= c < d.Length ==>
              d[c] == if col <= c < col + F then RowsMax(rs, width, c) else old(d[c])
  {
    FullMaskLanes();
    Store(d, col, Combine(vs), FullMask);
  }

  /** Pooling1x1Max3x{3,2}Nose: the first F columns. */
  method StoreNose(rs: seq<seq<real>>, width: nat, d: array<real>)
    requires 2 <= |rs| <= 3 && F < width <= d.Length
    requires forall i :: 0 <= i < |rs| ==> |rs[i]| >= width
    modifies d
    ensures forall c :: 0 <= c < d.Length ==> d[c] == if c < F then RowsMax(rs, width, c) else old(d[c])
  {
    var vs := seq(|rs|, i requires 0 <= i < |rs| => Nose3(rs[i]));
    forall i | 0 <= i < |rs| ensures forall k :: 0 <= k < F ==> vs[i][k] == Max3At(rs[i], width, 0 + k) {
      Nose3Lanes(rs[i], width);
    }
    StoreRowsMax(rs, width, d, 0, vs);
  }

  /** Pooling1x1Max3x{3,2}Body: the F columns from col. */
  method StoreBody(rs: seq<seq<real>>, width: nat, d: array<real>, col: nat)
    requires 2 <= |rs| <= 3 && 0 < col && col + F < width <= d.Length
    requires forall i :: 0 <= i < |rs| ==> |rs[i]| >= width
    modifies d
    ensures forall c :: 0 <= c < d.Length ==>
              d[c] == if col <= c < col + F then RowsMax(rs, width, c) else old(d[c])
  {
    var vs := seq(|rs|, i requires 0 <= i < |rs| => Body3(rs[i], col));
    forall i | 0 <= i < |rs| ensures forall k :: 0 <= k < F ==> vs[i][k] == Max3At(rs[i], width, col + k) {
      Body3Lanes(rs[i], width, col);
    }
    StoreRowsMax(rs, width, d, col, vs);
  }

  /** Pooling1x1Max3x{3,2}Tail: the last F columns. */
  method StoreTail(rs: seq<seq<real>>, width: nat, d: array<real>)
    requires 2 <= |rs| <= 3 && F < width <= d.Length
    requires forall i :: 0 <= i < |rs| ==> |rs[i]| >= width
    modifies d
    ensures forall c :: 0 <= c < d.Length ==>
              d[c] == if width - F <= c < width then RowsMax(rs, width, c) else old(d[c])
  {
    var col := width - F;
    var vs := seq(|rs|, i requires 0 <= i < |rs| => Tail3(rs[i], col));
    forall i | 0 <= i < |rs| ensures forall k :: 0 <= k < F ==> vs[i][k] == Max3At(rs[i], width, col + k) {
      Tail3Lanes(rs[i], width, col);
    }
    StoreRowsMax(rs, width, d, col, vs);
  }

  /**
   * One destination row: the nose register, the body registers from F up
   * to AlignHi(width, F) - F, and the tail register ending at width (which
   * may overlap the last body register).
   */
  method PoolRow3(rs: seq<seq<real>>, width: nat, d: array<real>)
    requires 2 <= |rs| <= 3 && F < width <= d.Length
    requires forall i :: 0 <= i < |rs| ==> |rs[i]| >= width
    modifies d
    ensures forall c :: 0 <= c < d.Length ==> d[c] == if c < width then RowsMax(rs, width, c) else old(d[c])
  {
    var alignedWidth := AlignHi(width, F) - F;
    StoreNose(rs, width, d);
    var col := F;
    while col < alignedWidth
      invariant F <= col <= alignedWidth && col % F == 0
      invariant forall c :: 0 <= c < d.Length ==> d[c] == if c < col then RowsMax(rs, width, c) else old(d[c])
    {
      StepWithin(col, alignedWidth, F);
      StoreBody(rs, width, d, col);
      col := col + F;
    }
    StoreTail(rs, width, d);
  }

  /**
   * NeuralPooling1x1Max3x3 (width > F, height > 1): each destination pixel
   * is the maximum over the source pixel's clipped 3 x 3 neighbourhood.
   * The first and the last row combine two source rows, the others three.
   */
  method Pooling1x1Max3x3(src: seq<seq<real>>, width: nat, height: nat, dst: seq<array<real>>)
    requires width > F && height > 1
    requires |src| >= height && forall r :: 0 <= r < height ==> |src[r]| >= width
    requires |dst| >= height && forall r :: 0 <= r < height ==> dst[r].Length >= width
    requires forall r, s :: 0 <= r < s < |dst| ==> dst[r] != dst[s]
    modifies set r | 0 <= r < |dst| :: dst[r]
    ensures forall R, C :: 0 <= R < |dst| && 0 <= C < dst[R].Length ==>
              dst[R][C] == if R < height && C < width then Pool3At(src, width, height, R, C) else old(dst[R][C])
  {
    PoolRow3([src[0], src[1]], width, dst[0]);
    PoolRowIsPool3(src, width, height, 0);
    var row := 1;
    while row < height - 1
      invariant 1 <= row <= height - 1
      invariant forall R, C :: 0 <= R < |dst| && 0 <= C < dst[R].Length ==>
                  dst[R][C] == if R < row && C < width then Pool3At(src, width, height, R, C) else old(dst[R][C])
    {
      PoolRow3([src[row - 1], src[row], src[row + 1]], width, dst[row]);
      PoolRowIsPool3(src, width, height, row);
      row := row + 1;
    }
    PoolRow3([src[height - 2], src[height - 1]], width, dst[height - 1]);
    PoolRowIsPool3(src, width, height, height - 1);
  }

  /** WindowIsPool3 over a whole row. */
  lemma PoolRowIsPool3(src: seq<seq<real>>, width: nat, height: nat, r: nat)
    requires 1 < height <= |src| && r < height
    requires forall i :: 0 <= i < height ==> |src[i]| >= width
    ensures forall c :: 0 <= c < width ==> RowsMax(Window3(src, height, r), width, c) == Pool3At(src, width, height, r, c)
  {
    forall c | 0 <= c < width ensures RowsMax(Window3(src, height, r), width, c) == Pool3At(src, width, height, r, c) {
      WindowIsPool3(src, width, height, r, c);
    }
  }

  // ---------------------------------------------------------------------
  // NeuralPooling2x2Max2x2: specification

  /** The maximum of column c over the source rows of block row R (one row when R is the odd last one). */
  function ColMax2(src: seq<seq<real>>, width: nat, height: nat, R: nat, c: nat): real
    requires 2 * R < height <= |src| && c < width
    requires forall i :: 0 <= i < height ==> |src[i]| >= width
  {
    if 2 * R + 1 < height then MaxReal(src[2 * R][c], src[2 * R + 1][c]) else src[2 * R][c]
  }

  /** The maximum over the 2 x 2 block at (2R, 2C), clipped to the image. */
  function Pool2At(src: seq<seq<real>>, width: nat, height: nat, R: nat, C: nat): real
    requires 2 * R < height <= |src| && 2 * C < width
    requires forall i :: 0 <= i < height ==> |src[i]| >= width
  {
    if 2 * C + 1 < width then MaxReal(ColMax2(src, width, height, R, 2 * C), ColMax2(src, width, height, R, 2 * C + 1))
    else ColMax2(src, width, height, R, 2 * C)
  }

  /**
   * Pool2At is the maximum of the clipped block: no pixel of it is larger,
   * and one of them is equal.
   */
  lemma Pool2IsBlockMax(src: seq<seq<real>>, width: nat, height: nat, R: nat, C: nat)
    requires 2 * R < height <= |src| && 2 * C < width
    requires forall i :: 0 <= i < height ==> |src[i]| >= width
    ensures forall i, j :: 0 <= i < height && 0 <= j < width && i / 2 == R && j / 2 == C ==>
              src[i][j] <= Pool2At(src, width, height, R, C)
    ensures exists i, j :: 0 <= i < height && 0 <= j < width && i / 2 == R && j / 2 == C &&
              src[i][j] == Pool2At(src, width, height, R, C)
  {
    var m := Pool2At(src, width, height, R, C);
    var j := if 2 * C + 1 < width && ColMax2(src, width, height, R, 2 * C + 1) > ColMax2(src, width, height, R, 2 * C)
             then 2 * C + 1 else 2 * C;
    var i := if 2 * R + 1 < height && src[2 * R + 1][j] > src[2 * R][j] then 2 * R + 1 else 2 * R;
    assert src[i][j] == m;
  }

  // ---------------------------------------------------------------------
  // NeuralPooling2x2Max2x2: registers

  /** The 128-bit block selected by two bits of an immediate. */
  function Sel(imm: nat, pos: nat): (q: nat)
    requires pos < 4
    ensures q < 4
  {
    if pos == 0 then imm % 4 else if pos == 1 then imm / 4 % 4 else if pos == 2 then imm / 16 % 4 else imm / 64 % 4
  }

  /**
   * _mm512_shuffle_f32x4(a, b, imm): result blocks 0 and 1 are blocks of a,
   * blocks 2 and 3 blocks of b, each chosen by two bits of imm.
   */
  function ShuffleF32x4(a: Vec, b: Vec, imm: nat): Vec
  {
    seq(F, k requires 0 <= k < F => (if k / 4 < 2 then a else b)[4 * Sel(imm, k / 4) + k % 4])
  }

  /**
   * _mm512_shuffle_ps(a, b, imm): inside every 128-bit block, lanes 0 and 1
   * come from a and lanes 2 and 3 from b, each chosen by two bits of imm.
   */
  function ShufflePs(a: Vec, b: Vec, imm: nat): Vec
  {
    seq(F, k requires 0 <= k < F => (if k % 4 < 2 then a else b)[4 * (k / 4) + Sel(imm, k % 4)])
  }

  /**
   * The common tail of Pooling2x2Max2x2 and Pooling2x2Max2: from the
   * column maxima of 2F consecutive columns (lo, then hi), the maximum
   * of each horizontal pair.
   */
  function PairMax(lo: Vec, hi: Vec): Vec {
    var lo2 := ShuffleF32x4(lo, hi, 0x88);
    var hi2 := ShuffleF32x4(lo, hi, 0xDD);
    Max(ShufflePs(lo2, hi2, 0x88), ShufflePs(lo2, hi2, 0xDD))
  }

  // The eight lemmas below evaluate the shuffles for two lanes of the
  // result each.

  lemma PairMaxLanes01(lo: Vec, hi: Vec)
    ensures PairMax(lo, hi)[0] == MaxReal((lo + hi)[0], (lo + hi)[1]) &&
            PairMax(lo, hi)[1] == MaxReal((lo + hi)[2], (lo + hi)[3])
  {
  }

  lemma PairMaxLanes23(lo: Vec, hi: Vec)
    ensures PairMax(lo, hi)[2] == MaxReal((lo + hi)[4], (lo + hi)[5]) &&
            PairMax(lo, hi)[3] == MaxReal((lo + hi)[6], (lo + hi)[7])
  {
  }

  lemma PairMaxLanes45(lo: Vec, hi: Vec)
    ensures PairMax(lo, hi)[4] == MaxReal((lo + hi)[8], (lo + hi)[9]) &&
            PairMax(lo, hi)[5] == MaxReal((lo + hi)[10], (lo + hi)[11])
  {
  }

  lemma PairMaxLanes67(lo: Vec, hi: Vec)
    ensures PairMax(lo, hi)[6] == MaxReal((lo + hi)[12], (lo + hi)[13]) &&
            PairMax(lo, hi)[7] == MaxReal((lo + hi)[14], (lo + hi)[15])
  {
  }

  lemma PairMaxLanes89(lo: Vec, hi: Vec)
    ensures PairMax(lo, hi)[8] == MaxReal((lo + hi)[16], (lo + hi)[17]) &&
            PairMax(lo, hi)[9] == MaxReal((lo + hi)[18], (lo + hi)[19])
  {
  }

  lemma PairMaxLanes1011(lo: Vec, hi: Vec)
    ensures PairMax(lo, hi)[10] == MaxReal((lo + hi)[20], (lo + hi)[21]) &&
            PairMax(lo, hi)[11] == MaxReal((lo + hi)[22], (lo + hi)[23])
  {
  }

  lemma PairMaxLanes1213(lo: Vec, hi: Vec)
    ensures PairMax(lo, hi)[12] == MaxReal((lo + hi)[24], (lo + hi)[25]) &&
            PairMax(lo, hi)[13] == MaxReal((lo + hi)[26], (lo + hi)[27])
  {
  }

  lemma PairMaxLanes1415(lo: Vec, hi: Vec)
    ensures PairMax(lo, hi)[14] == MaxReal((lo + hi)[28], (lo + hi)[29]) &&
            PairMax(lo, hi)[15] == MaxReal((lo + hi)[30], (lo + hi)[31])
  {
  }

  /** Lane j of PairMax is the maximum of columns 2j and 2j + 1 of lo ++ hi. */
  lemma PairMaxLanes(lo: Vec, hi: Vec)
    ensures forall j :: 0 <= j < F ==> PairMax(lo, hi)[j] == MaxReal((lo + hi)[2 * j], (lo + hi)[2 * j + 1])
  {
    PairMaxLanes01(lo, hi);
    PairMaxLanes23(lo, hi);
    PairMaxLanes45(lo, hi);
    PairMaxLanes67(lo, hi);
    PairMaxLanes89(lo, hi);
    PairMaxLanes1011(lo, hi);
    PairMaxLanes1213(lo, hi);
    PairMaxLanes1415(lo, hi);
    forall j | 0 <= j < F ensures PairMax(lo, hi)[j] == MaxReal((lo + hi)[2 * j], (lo + hi)[2 * j + 1]) {
      assert j == 0 || j == 1 || j == 2 || j == 3 || j == 4 || j == 5 || j == 6 || j == 7 ||
             j == 8 || j == 9 || j == 10 || j == 11 || j == 12 || j == 13 || j == 14 || j == 15;
    }
  }

  /** Pooling2x2Max2x2: two source rows, 2F columns from col, column maxima first. */
  function Max2x2(s0: seq<real>, s1: seq<real>, col: nat): Vec {
    PairMax(Max(LoadRow(s0, col, F), LoadRow(s1, col, F)), Max(LoadRow(s0, col + F, F), LoadRow(s1, col + F, F)))
  }

  /** Pooling2x2Max2: the odd last source row alone. */
  function Max2(s0: seq<real>, col: nat): Vec {
    PairMax(LoadRow(s0, col, F), LoadRow(s0, col + F, F))
  }

  /** The register the kernel computes for block row R at source column col. */
  function Pool2Reg(src: seq<seq<real>>, height: nat, R: nat, col: nat): Vec
    requires 2 * R < height <= |src|
  {
    if 2 * R + 1 < height then Max2x2(src[2 * R], src[2 * R + 1], col) else Max2(src[2 * R], col)
  }

  /** The column maxima the kernel forms before PairMax: lo for col .. col + F - 1, hi for the next F. */
  function ColumnMaxima(src: seq<seq<real>>, height: nat, R: nat, col: nat): (lh: (Vec, Vec))
    requires 2 * R < height <= |src|
    ensures Pool2Reg(src, height, R, col) == PairMax(lh.0, lh.1)
  {
    var s0 := src[2 * R];
    if 2 * R + 1 < height then
      var s1 := src[2 * R + 1];
      (Max(LoadRow(s0, col, F), LoadRow(s1, col, F)), Max(LoadRow(s0, col + F, F), LoadRow(s1, col + F, F)))
    else (LoadRow(s0, col, F), LoadRow(s0, col + F, F))
  }

  /** Column c of lo ++ hi is the maximum of source column col + c over the block row's rows. */
  lemma ColumnMaximaLanes(src: seq<seq<real>>, width: nat, height: nat, R: nat, col: nat)
    requires 2 * R < height <= |src| && forall i :: 0 <= i < height ==> |src[i]| >= width
    requires col + DF <= width
    ensures var lh := ColumnMaxima(src, height, R, col);
            forall c :: 0 <= c < DF ==> (lh.0 + lh.1)[c] == ColMax2(src, width, height, R, col + c)
  {
    var lh := ColumnMaxima(src, height, R, col);
    var cs: seq<real> := lh.0 + lh.1;
    forall c | 0 <= c < DF ensures cs[c] == ColMax2(src, width, height, R, col + c) {
      if c < F {
        assert cs[c] == lh.0[c];
      } else {
        assert cs[c] == lh.1[c - F];
      }
    }
  }

  /** Lane j of the register is the destination pixel col / 2 + j. */
  lemma Pool2RegLanes(src: seq<seq<real>>, width: nat, height: nat, R: nat, col: nat, h: nat)
    requires 2 * R < height <= |src| && forall i :: 0 <= i < height ==> |src[i]| >= width
    requires col == 2 * h && col + DF <= width
    ensures forall c :: h <= c < h + F ==> Pool2Reg(src, height, R, col)[c - h] == Pool2At(src, width, height, R, c)
  {
    var lh := ColumnMaxima(src, height, R, col);
    PairMaxLanes(lh.0, lh.1);
    ColumnMaximaLanes(src, width, height, R, col);
    forall c | h <= c < h + F
      ensures Pool2Reg(src, height, R, col)[c - h] == Pool2At(src, width, height, R, c)
    {
      var j := c - h;
      assert 2 * j + col == 2 * c && 2 * j + 1 + col == 2 * c + 1;
    }
  }

  /** One register stored at destination column col / 2. */
  method StoreBlock2(src: seq<seq<real>>, width: nat, height: nat, R: nat, d: array<real>, col: nat)
    requires 2 * R < height <= |src| && forall i :: 0 <= i < height ==> |src[i]| >= width
    requires col % 2 == 0 && col + DF <= width && (width + 1) / 2 <= d.Length
    modifies d
    ensures forall c :: 0 <= c < d.Length ==>
              d[c] == if col / 2 <= c < col / 2 + F then Pool2At(src, width, height, R, c) else old(d[c])
  {
    var h := col / 2;
    Pool2RegLanes(src, width, height, R, col, h);
    FullMaskLanes();
    Store(d, h, Pool2Reg(src, height, R, col), FullMask);
  }

  /** A multiple of DF is even. */
  lemma BlockEven(col: nat)
    requires col % DF == 0
    ensures col % 2 == 0
  {
    var q := col / DF;
    assert col == 2 * (F * q);
    MultipleMod(F * q, 2);
  }

  /**
   * The column split of PoolRow2: the registers every DF columns end at
   * alignedWidth, the overlapping one at the even width starts before
   * that, and at most one odd column is left.
   */
  lemma RowSplit2(width: nat, widthEven: nat, alignedWidth: nat)
    requires width >= DF && widthEven == AlignLo(width, 2) && alignedWidth == AlignLo(width, DF)
    ensures widthEven % 2 == 0 && alignedWidth % 2 == 0 && DF <= widthEven
    ensures alignedWidth <= widthEven && widthEven - DF < alignedWidth
    ensures width - widthEven == 0 || width - widthEven == 1
    ensures (width + 1) / 2 == widthEven / 2 + (width - widthEven)
    ensures (widthEven - DF) / 2 == widthEven / 2 - F && alignedWidth / 2 <= widthEven / 2
  {
    BlockEven(alignedWidth);
  }

  /**
   * One destination row: registers every DF source columns, one more
   * (overlapping) register ending at the even width when that is not a
   * multiple of DF, and the odd last column on its own.
   */
  method PoolRow2(src: seq<seq<real>>, width: nat, height: nat, R: nat, d: array<real>)
    requires width >= DF && 2 * R < height <= |src| && forall i :: 0 <= i < height ==> |src[i]| >= width
    requires (width + 1) / 2 <= d.Length
    modifies d
    ensures forall c :: 0 <= c < d.Length ==>
              d[c] == if c < (width + 1) / 2 then Pool2At(src, width, height, R, c) else old(d[c])
  {
    var widthEven := AlignLo(width, 2);
    var alignedWidth := AlignLo(width, DF);
    RowSplit2(width, widthEven, alignedWidth);
    var col := 0;
    while col < alignedWidth
      invariant col <= alignedWidth && col % DF == 0 && col % 2 == 0
      invariant forall c :: 0 <= c < d.Length ==>
                  d[c] == if c < col / 2 then Pool2At(src, width, height, R, c) else old(d[c])
    {
      StepWithin(col, alignedWidth, DF);
      StoreBlock2(src, width, height, R, d, col);
      BlockEven(col + DF);
      col := col + DF;
    }
    if widthEven - alignedWidth != 0 {
      StoreBlock2(src, width, height, R, d, widthEven - DF);
    }
    if width - widthEven != 0 {
      var r := 2 * R;
      d[widthEven / 2] := if r + 1 < height then MaxReal(src[r][widthEven], src[r + 1][widthEven]) else src[r][widthEven];
    }
  }

  /**
   * NeuralPooling2x2Max2x2 (width >= DF): destination pixel (R, C) is the
   * maximum over the source block at (2R, 2C), clipped at an odd width or
   * height.
   */
  method Pooling2x2Max2x2(src: seq<seq<real>>, width: nat, height: nat, dst: seq<array<real>>)
    requires width >= DF
    requires |src| >= height && forall r :: 0 <= r < height ==> |src[r]| >= width
    requires |dst| >= (height + 1) / 2 && forall R :: 0 <= R < (height + 1) / 2 ==> dst[R].Length >= (width + 1) / 2
    requires forall r, s :: 0 <= r < s < |dst| ==> dst[r] != dst[s]
    modifies set R | 0 <= R < |dst| :: dst[R]
    ensures forall R, C :: 0 <= R < |dst| && 0 <= C < dst[R].Length ==>
              dst[R][C] == if R < (height + 1) / 2 && C < (width + 1) / 2 then Pool2At(src, width, height, R, C)
                           else old(dst[R][C])
  {
    var heightEven := AlignLo(height, 2);
    var row := 0;
    while row < heightEven
      invariant row <= heightEven && row % 2 == 0
      invariant forall R, C :: 0 <= R < |dst| && 0 <= C < dst[R].Length ==>
                  dst[R][C] == if R < row / 2 && C < (width + 1) / 2 then Pool2At(src, width, height, R, C)
                               else old(dst[R][C])
    {
      StepWithin(row, heightEven, 2);
      PoolRow2(src, width, height, row / 2, dst[row / 2]);
      row := row + 2;
    }
    if height - heightEven != 0 {
      PoolRow2(src, width, height, heightEven / 2, dst[heightEven / 2]);
    }
  }
}
