// Avx512bw BgraToBgr: every row of 4-byte BGRA pixels becomes a row of
// 3-byte BGR pixels, the alpha byte of each pixel dropped.  A row is done 64
// pixels at a time (four loads, three stores), then 16 pixels at a time (one
// load, a 48-byte masked store), then the last pixels through tail masks.
//
// The byte shuffle and the 32-bit permutes are modelled on their index
// tables as the kernel declares them.

module BgraToBgr {
  import opened Lanes
  import opened ByteLanes

  // ---------------------------------------------------------------------
  // What the conversion computes

  /** Channel c of pixel i of a row with n bytes per pixel. */
  function Channel(row: seq<int>, n: nat, i: nat, c: nat): int
    requires n * i + c < |row|
  {
    row[n * i + c]
  }

  /** Byte k of the BGR row: channel k % 3 of pixel k / 3 of the BGRA row, which is byte k + k / 3. */
  function BgrByte(bgra: seq<int>, k: nat): int
    requires k + k / 3 < |bgra|
  {
    bgra[k + k / 3]
  }

  /** The BGR row of the first width pixels of a BGRA row. */
  function Bgr(bgra: seq<int>, width: nat): (r: seq<int>)
    requires 4 * width <= |bgra|
    ensures |r| == 3 * width
  {
    seq(3 * width, k requires 0 <= k < 3 * width => BgrByte(bgra, k))
  }

  /** Each pixel keeps its blue, green and red bytes, in order; the alpha byte is dropped. */
  lemma BgrChannels(bgra: seq<int>, width: nat)
    requires 4 * width <= |bgra|
    ensures forall i, c :: 0 <= i < width && 0 <= c < 3 ==> Channel(Bgr(bgra, width), 3, i, c) == Channel(bgra, 4, i, c)
  {
    var r := Bgr(bgra, width);
    forall i, c | 0 <= i < width && 0 <= c < 3
      ensures Channel(r, 3, i, c) == Channel(bgra, 4, i, c)
    {
      var k := 3 * i + c;
      assert k / 3 == i;
    }
  }

  /** Two BGRA rows with the same blue, green and red bytes convert alike: nothing of alpha survives. */
  lemma BgrIgnoresAlpha(a: seq<int>, b: seq<int>, width: nat)
    requires 4 * width <= |a| && 4 * width <= |b|
    requires forall i, c :: 0 <= i < width && 0 <= c < 3 ==> Channel(a, 4, i, c) == Channel(b, 4, i, c)
    ensures Bgr(a, width) == Bgr(b, width)
  {
    forall k | 0 <= k < 3 * width
      ensures Bgr(a, width)[k] == Bgr(b, width)[k]
    {
      var i, c := k / 3, k % 3;
      assert Channel(a, 4, i, c) == Channel(b, 4, i, c);
    }
  }

  // ---------------------------------------------------------------------
  // Index tables and permutes

  /** One 128-bit lane of K8_SUFFLE_BGRA_TO_BGR; -1 zeroes the byte. */
  const ShuffleLane: seq<int> := [0x0, 0x1, 0x2, 0x4, 0x5, 0x6, 0x8, 0x9, 0xA, 0xC, 0xD, 0xE, -1, -1, -1, -1]

  /** K8_SUFFLE_BGRA_TO_BGR: the same lane four times. */
  function K8ShuffleBgraToBgr(): (k: seq<int>)
    ensures |k| == A
  {
    seq(A, i => ShuffleLane[i % 16])
  }

  /** K32_PERMUTE_BGRA_TO_BGR. */
  const K32PermuteBgraToBgr: seq<int> := [0x0, 0x1, 0x2, 0x4, 0x5, 0x6, 0x8, 0x9, 0xA, 0xC, 0xD, 0xE, -1, -1, -1, -1]

  /** K32_PERMUTE_BGRA_TO_BGR_0, _1 and _2: dword 0x10 + d is dword d of the second register. */
  const K32PermuteBgraToBgr0: seq<int> := [0x00, 0x01, 0x02, 0x04, 0x05, 0x06, 0x08, 0x09, 0x0A, 0x0C, 0x0D, 0x0E, 0x10, 0x11, 0x12, 0x14]
  const K32PermuteBgraToBgr1: seq<int> := [0x05, 0x06, 0x08, 0x09, 0x0A, 0x0C, 0x0D, 0x0E, 0x10, 0x11, 0x12, 0x14, 0x15, 0x16, 0x18, 0x19]
  const K32PermuteBgraToBgr2: seq<int> := [0x0A, 0x0C, 0x0D, 0x0E, 0x10, 0x11, 0x12, 0x14, 0x15, 0x16, 0x18, 0x19, 0x1A, 0x1C, 0x1D, 0x1E]

  /** _mm512_shuffle_epi8(v, idx): byte i comes from the same 128-bit lane, or is 0 when idx[i] has its top bit set. */
  function ShuffleEpi8(v: seq<int>, idx: seq<int>): (r: seq<int>)
    requires |v| == A && |idx| == A
    ensures |r| == A
  {
    seq(A, i requires 0 <= i < A => if idx[i] < 0 then 0 else v[16 * (i / 16) + idx[i] % 16])
  }

  /** _mm512_permutexvar_epi32(idx, v): dword j is dword idx[j] & 15 of v. */
  function PermuteVar32(idx: seq<int>, v: seq<int>): (r: seq<int>)
    requires |idx| == F && |v| == A
    ensures |r| == A
  {
    seq(A, j requires 0 <= j < A => v[4 * (idx[j / 4] % 16) + j % 4])
  }

  /** _mm512_permutex2var_epi32(a, idx, b): dword j is dword idx[j] & 15 of a, or of b when bit 4 of idx[j] is set. */
  function Permute2Var32(a: seq<int>, idx: seq<int>, b: seq<int>): (r: seq<int>)
    requires |a| == A && |idx| == F && |b| == A
    ensures |r| == A
  {
    seq(A, j requires 0 <= j < A =>
      var x := idx[j / 4] % 32;
      if x < 16 then a[4 * x + j % 4] else b[4 * (x - 16) + j % 4])
  }

  /** Where byte q of a lane comes from after the shuffle: byte q + q / 3 for q < 12, none after. */
  function LaneIndex(q: int): int {
    if q < 12 then q + q / 3 else -1
  }

  /** The shuffle keeps bytes 0, 1, 2 of each dword of a lane, packed into the lane's first 12 bytes. */
  ghost predicate ShuffleTable(k8: seq<int>) {
    |k8| == A && forall i :: 0 <= i < A ==> k8[i] == LaneIndex(i % 16)
  }

  /** The 16-pixel permute packs the 12 filled dwords of the four lanes, dword j from dword j + j / 3. */
  ghost predicate CompactTable(k32: seq<int>) {
    |k32| == F && forall j :: 0 <= j < 12 ==> k32[j] == j + j / 3
  }

  /**
   * The 64-pixel permutes: output dword i of register t is filled dword
   * g % 12 of shuffled register g / 12, where g = 16 * t + i, and the second
   * operand is register t + 1.
   */
  function PackedIndex(t: nat, i: nat): int {
    var g := 16 * t + i;
    16 * (g / 12 - t) + g % 12 + g % 12 / 3
  }

  ghost predicate PackedTable(idx: seq<int>, t: nat) {
    |idx| == F && forall i :: 0 <= i < F ==> idx[i] == PackedIndex(t, i)
  }

  /** K8_SUFFLE_BGRA_TO_BGR and K32_PERMUTE_BGRA_TO_BGR are those layouts. */
  lemma Tables16()
    ensures ShuffleTable(K8ShuffleBgraToBgr()) && CompactTable(K32PermuteBgraToBgr)
  {
    assert forall q :: 0 <= q < 16 ==> ShuffleLane[q] == LaneIndex(q);
  }

  /** The table of register t of the 64-pixel path. */
  function PackTable(t: nat): seq<int>
    requires t < 3
  {
    if t == 0 then K32PermuteBgraToBgr0 else if t == 1 then K32PermuteBgraToBgr1 else K32PermuteBgraToBgr2
  }

  /** K32_PERMUTE_BGRA_TO_BGR_0, _1 and _2 are that layout. */
  lemma Tables64(t: nat)
    requires t < 3
    ensures PackedTable(PackTable(t), t)
  {
  }

  /** Byte q < 12 of lane jd after the shuffle is byte q + q / 3 of that lane: the alpha bytes skipped. */
  lemma ShuffledByte(v: seq<int>, k8: seq<int>, jd: nat, q: nat)
    requires |v| == A && ShuffleTable(k8) && jd < 4 && q < 12
    ensures ShuffleEpi8(v, k8)[16 * jd + q] == v[16 * jd + q + q / 3]
  {
    var p := 16 * jd + q;
    assert p / 16 == jd && p % 16 == q;
    assert k8[p] == LaneIndex(q);
  }

  /** BGR byte 12 * x + q is BGRA byte 16 * x + q + q / 3: every 12 BGR bytes are 16 BGRA bytes. */
  lemma BgrSplit(x: nat, q: nat)
    requires q < 12
    ensures 12 * x + q + (12 * x + q) / 3 == 16 * x + q + q / 3
  {
    assert (12 * x + q) / 3 == 4 * x + q / 3;
  }

  /** Byte n of the BGR bytes from pixel col on is byte 3 * col + n of the row's. */
  lemma BgrShift(col: nat, n: nat)
    ensures 3 * col + n + (3 * col + n) / 3 == 4 * col + n + n / 3
  {
  }

  // ---------------------------------------------------------------------
  // Registers

  /** The BGR register of BgraToBgr<align, mask>: the shuffle by k8, then the permute by k32. */
  function Bgr16(v: seq<int>, k8: seq<int>, k32: seq<int>): (r: seq<int>)
    requires |v| == A && |k8| == A && |k32| == F
    ensures |r| == A
  {
    PermuteVar32(k32, ShuffleEpi8(v, k8))
  }

  /** Byte b of dword j of a one-source permute whose index there is x. */
  lemma PermuteByte(idx: seq<int>, v: seq<int>, j: nat, b: nat, x: nat)
    requires |idx| == F && |v| == A && j < F && b < 4 && idx[j] == x < 16
    ensures PermuteVar32(idx, v)[4 * j + b] == v[4 * x + b]
  {
    assert (4 * j + b) / 4 == j && (4 * j + b) % 4 == b;
  }

  /** The permute packs the 12 filled bytes of each lane: byte 12 * jd + q comes from byte q of lane jd. */
  lemma Bgr16Byte(v: seq<int>, k8: seq<int>, k32: seq<int>, jd: nat, q: nat)
    requires |v| == A && |k8| == A && CompactTable(k32) && jd < 4 && q < 12
    ensures Bgr16(v, k8, k32)[12 * jd + q] == ShuffleEpi8(v, k8)[16 * jd + q]
  {
    var j := 3 * jd + q / 4;
    assert 12 * jd + q == 4 * j + q % 4;
    assert k32[j] == 4 * jd + q / 4;
    PermuteByte(k32, ShuffleEpi8(v, k8), j, q % 4, 4 * jd + q / 4);
  }

  /**
   * The register of the n pixels from pixel col: its first 3 * n bytes are
   * the row's BGR bytes from 3 * col on, and the load reads no more than
   * the 4 * n bytes of those pixels.
   */
  lemma Bgr16Bytes(row: seq<int>, col: nat, n: nat, k8: seq<int>, k32: seq<int>)
    requires n <= 16 && 4 * (col + n) <= |row| && ShuffleTable(k8) && CompactTable(k32)
    ensures forall c :: 3 * col <= c < 3 * (col + n) ==>
              Bgr16(LoadBytes(row, 4 * col, 4 * n), k8, k32)[c - 3 * col] == BgrByte(row, c)
  {
    var v := LoadBytes(row, 4 * col, 4 * n);
    forall c | 3 * col <= c < 3 * (col + n)
      ensures Bgr16(v, k8, k32)[c - 3 * col] == BgrByte(row, c)
    {
      var k := c - 3 * col;
      var jd, q := k / 12, k % 12;
      Bgr16Byte(v, k8, k32, jd, q);
      ShuffledByte(v, k8, jd, q);
      BgrSplit(jd, q);
      assert k + k / 3 < 4 * n;
      BgrShift(col, k);
    }
  }

  /** Shuffled register m of the 64-pixel block at byte p: its pixels' bytes p + 64 * m to p + 64 * m + 63. */
  function Shuffled(row: seq<int>, p: nat, m: nat, k8: seq<int>): (s: seq<int>)
    requires p + 64 * m + A <= |row| && |k8| == A
    ensures |s| == A
  {
    ShuffleEpi8(LoadBytes(row, p + 64 * m, A), k8)
  }

  /** Register t of the three the 64-pixel BgraToBgr<align> stores. */
  function Bgr64(row: seq<int>, p: nat, t: nat, k8: seq<int>, idx: seq<int>): (r: seq<int>)
    requires t < 3 && p + QA <= |row| && |k8| == A && |idx| == F
    ensures |r| == A
  {
    Permute2Var32(Shuffled(row, p, t, k8), idx, Shuffled(row, p, t + 1, k8))
  }

  /**
   * Byte b of dword i of register t is BGR byte 48 * m + 12 * jd + q of the
   * block: byte q of lane jd of shuffled register m, which the index table
   * names.
   */
  lemma PackWitness(t: nat, i: nat, b: nat) returns (m: nat, jd: nat, q: nat, x: nat)
    requires t < 3 && i < F && b < 4
    ensures (m == t || m == t + 1) && jd < 4 && q < 12
    ensures 64 * t + 4 * i + b == 48 * m + 12 * jd + q
    ensures PackedIndex(t, i) == x < 32 && (x < 16 <==> m == t) && 4 * (x % 16) + b == 16 * jd + q
  {
    var g := 16 * t + i;
    var j := g % 12;
    m, jd := g / 12, j / 3;
    q := 4 * (j % 3) + b;
    assert g == 12 * m + j && j == 3 * jd + j % 3;
    assert q / 4 == j % 3;
    x := 16 * (m - t) + j + jd;
  }

  /** Byte b of dword i of a two-source permute whose index there is x: byte 4 * (x % 16) + b of a, or of c when x >= 16. */
  lemma Permute2Byte(a: seq<int>, idx: seq<int>, c: seq<int>, i: nat, b: nat, x: nat, y: nat, z: nat)
    requires |a| == A && |idx| == F && |c| == A && i < F && b < 4 && idx[i] == x < 32 && y == 4 * (x % 16) + b
    requires z == 4 * i + b
    ensures Permute2Var32(a, idx, c)[z] == if x < 16 then a[y] else c[y]
  {
    assert z / 4 == i && z % 4 == b;
  }

  /** Byte q of lane jd of shuffled register m of the block at pixel col is BGR byte 3 * col + 48 * m + 12 * jd + q of the row. */
  lemma ShuffledBgr(row: seq<int>, col: nat, m: nat, k8: seq<int>, jd: nat, q: nat, y: nat, n: nat)
    requires m < 4 && 4 * (col + A) <= |row| && ShuffleTable(k8) && jd < 4 && q < 12
    requires y == 16 * jd + q && n == 3 * col + 48 * m + 12 * jd + q
    ensures Shuffled(row, 4 * col, m, k8)[y] == BgrByte(row, n)
  {
    var v := LoadBytes(row, 4 * col + 64 * m, A);
    ShuffledByte(v, k8, jd, q);
    BgrSplit(4 * m + jd, q);
    BgrShift(col, 48 * m + 12 * jd + q);
  }

  /** Byte b of dword i of register t of the 64-pixel block at pixel col is BGR byte 3 * col + 64 * t + 4 * i + b of the row. */
  lemma Bgr64Byte(row: seq<int>, col: nat, t: nat, k8: seq<int>, idx: seq<int>, i: nat, b: nat, z: nat, n: nat)
    requires t < 3 && 4 * (col + A) <= |row| && ShuffleTable(k8) && PackedTable(idx, t) && i < F && b < 4
    requires z == 4 * i + b && n == 3 * col + 64 * t + z
    ensures Bgr64(row, 4 * col, t, k8, idx)[z] == BgrByte(row, n)
  {
    var m, jd, q, x := PackWitness(t, i, b);
    assert idx[i] == x;
    var y := 16 * jd + q;
    var a, c := Shuffled(row, 4 * col, t, k8), Shuffled(row, 4 * col, t + 1, k8);
    Permute2Byte(a, idx, c, i, b, x, y, z);
    ShuffledBgr(row, col, m, k8, jd, q, y, n);
  }

  /** Register t of the 64-pixel block at pixel col holds the row's BGR bytes s = 3 * col + 64 * t to s + 63. */
  lemma Bgr64Bytes(row: seq<int>, col: nat, t: nat, k8: seq<int>, idx: seq<int>, s: nat)
    requires t < 3 && 4 * (col + A) <= |row| && ShuffleTable(k8) && PackedTable(idx, t) && s == 3 * col + 64 * t
    ensures forall c :: s <= c < s + A ==> Bgr64(row, 4 * col, t, k8, idx)[c - s] == BgrByte(row, c)
  {
    forall c | s <= c < s + A
      ensures Bgr64(row, 4 * col, t, k8, idx)[c - s] == BgrByte(row, c)
    {
      var k := c - s;
      Bgr64Byte(row, col, t, k8, idx, k / 4, k % 4, k, c);
    }
  }

  /** With the kernel's tables: the 16-pixel register holds the BGR bytes of its pixels. */
  lemma Bgr16Register(row: seq<int>, col: nat, n: nat)
    requires n <= 16 && 4 * (col + n) <= |row|
    ensures forall c :: 3 * col <= c < 3 * (col + n) ==>
              Bgr16(LoadBytes(row, 4 * col, 4 * n), K8ShuffleBgraToBgr(), K32PermuteBgraToBgr)[c - 3 * col] == BgrByte(row, c)
  {
    Tables16();
    Bgr16Bytes(row, col, n, K8ShuffleBgraToBgr(), K32PermuteBgraToBgr);
  }

  /** With the kernel's tables: register t of the 64-pixel block holds its BGR bytes 64 * t to 64 * t + 63. */
  lemma Bgr64Register(row: seq<int>, col: nat, t: nat, s: nat)
    requires t < 3 && 4 * (col + A) <= |row| && s == 3 * col + 64 * t
    ensures forall c :: s <= c < s + A ==>
              Bgr64(row, 4 * col, t, K8ShuffleBgraToBgr(), PackTable(t))[c - s] == BgrByte(row, c)
  {
    Tables16();
    Tables64(t);
    Bgr64Bytes(row, col, t, K8ShuffleBgraToBgr(), PackTable(t), s);
  }

  // ---------------------------------------------------------------------
  // Kernels

  /** Store<false, true>(dst + col, v, TailMask64(n)): the first n bytes of v written into row r from col. */
  method StoreBytes(dst: array2<int>, r: nat, col: nat, v: seq<int>, n: nat)
    requires n <= |v| && r < dst.Length0 && col + n <= dst.Length1
    modifies dst
    ensures forall i, c :: 0 <= i < dst.Length0 && 0 <= c < dst.Length1 ==>
              dst[i, c] == if i == r && col <= c < col + n then v[c - col] else old(dst[i, c])
  {
    forall c | col <= c < col + n {
      dst[r, c] := v[c - col];
    }
  }

  /**
   * BgraToBgr<align, mask> on n pixels from pixel col: n = 16 unmasked (the
   * load is whole and the store takes the 48 bytes of 0x0000ffffffffffff),
   * or n < 16 through TailMask64(4 * n) and TailMask64(3 * n).  Exactly the
   * 3 * n BGR bytes of those pixels are written.
   */
  method Convert16(row: seq<int>, col: nat, n: nat, dst: array2<int>, r: nat)
    requires n <= 16 && 4 * (col + n) <= |row|
    requires r < dst.Length0 && 3 * (col + n) <= dst.Length1
    modifies dst
    ensures forall i, c :: 0 <= i < dst.Length0 && 0 <= c < dst.Length1 ==>
              dst[i, c] == if i == r && 3 * col <= c < 3 * (col + n) then BgrByte(row, c) else old(dst[i, c])
  {
    var bgr := Bgr16(LoadBytes(row, 4 * col, 4 * n), K8ShuffleBgraToBgr(), K32PermuteBgraToBgr);
    Bgr16Register(row, col, n);
    StoreBytes(dst, r, 3 * col, bgr, 3 * n);
  }

  /** BgraToBgr<align> on the 64 pixels from pixel col: four loads, three stores of 64 bytes. */
  method Convert64(row: seq<int>, col: nat, dst: array2<int>, r: nat)
    requires 4 * (col + A) <= |row|
    requires r < dst.Length0 && 3 * (col + A) <= dst.Length1
    modifies dst
    ensures forall i, c :: 0 <= i < dst.Length0 && 0 <= c < dst.Length1 ==>
              dst[i, c] == if i == r && 3 * col <= c < 3 * (col + A) then BgrByte(row, c) else old(dst[i, c])
  {
    var k8 := K8ShuffleBgraToBgr();
    Store64(row, col, 0, k8, dst, r, 3 * col);
    Store64(row, col, 1, k8, dst, r, 3 * col + A);
    Store64(row, col, 2, k8, dst, r, 3 * col + 2 * A);
  }

  /** The store of register t of the 64-pixel block at pixel col: BGR bytes s = 3 * col + 64 * t to s + 63. */
  method Store64(row: seq<int>, col: nat, t: nat, k8: seq<int>, dst: array2<int>, r: nat, s: nat)
    requires t < 3 && 4 * (col + A) <= |row| && k8 == K8ShuffleBgraToBgr() && s == 3 * col + A * t
    requires r < dst.Length0 && 3 * (col + A) <= dst.Length1
    modifies dst
    ensures forall i, c :: 0 <= i < dst.Length0 && 0 <= c < dst.Length1 ==>
              dst[i, c] == if i == r && s <= c < s + A then BgrByte(row, c) else old(dst[i, c])
  {
    var bgr := Bgr64(row, 4 * col, t, k8, PackTable(t));
    Bgr64Register(row, col, t, s);
    StoreBytes(dst, r, s, bgr, A);
  }

  /**
   * The column loops of BgraToBgr<align> on row r: 64 pixels at a time up to
   * AlignLo(width, A), 16 at a time up to AlignLo(width, F), then the last
   * width - AlignLo(width, F) pixels through the tail masks.  The row's
   * 3 * width BGR bytes are written and nothing after them.
   */
  method ConvertRow(row: seq<int>, width: nat, dst: array2<int>, r: nat)
    requires 4 * width <= |row| && r < dst.Length0 && 3 * width <= dst.Length1
    modifies dst
    ensures forall i, c :: 0 <= i < dst.Length0 && 0 <= c < dst.Length1 ==>
              dst[i, c] == if i == r && c < 3 * width then BgrByte(row, c) else old(dst[i, c])
  {
    var fullAlignedWidth := AlignLo(width, A);
    var alignedWidth := AlignLo(width, F);
    AlignLoNested(width);
    var col := 0;
    while col < fullAlignedWidth
      invariant col <= fullAlignedWidth && col % A == 0
      invariant forall i, c :: 0 <= i < dst.Length0 && 0 <= c < dst.Length1 ==>
                  dst[i, c] == if i == r && c < 3 * col then BgrByte(row, c) else old(dst[i, c])
    {
      StepWithin(col, fullAlignedWidth, A);
      Convert64(row, col, dst, r);
      col := col + A;
    }
    while col < alignedWidth
      invariant fullAlignedWidth <= col <= alignedWidth && col % F == 0
      invariant forall i, c :: 0 <= i < dst.Length0 && 0 <= c < dst.Length1 ==>
                  dst[i, c] == if i == r && c < 3 * col then BgrByte(row, c) else old(dst[i, c])
    {
      StepWithin(col, alignedWidth, F);
      Convert16(row, col, F, dst, r);
      col := col + F;
    }
    if col < width {
      Convert16(row, col, width - alignedWidth, dst, r);
    }
  }

  /**
   * BgraToBgr: every row converted in turn.  Row r of bgr holds the BGR
   * bytes of row r of bgra; each row's bytes after 3 * width are untouched.
   */
  method BgraToBgr(bgra: seq<seq<int>>, width: nat, height: nat, bgr: array2<int>)
    requires height <= |bgra| && forall r :: 0 <= r < height ==> 4 * width <= |bgra[r]|
    requires bgr.Length0 == height && 3 * width <= bgr.Length1
    modifies bgr
    ensures forall r, c :: 0 <= r < height && 0 <= c < bgr.Length1 ==>
              bgr[r, c] == if c < 3 * width then Bgr(bgra[r], width)[c] else old(bgr[r, c])
  {
    var row := 0;
    while row < height
      invariant row <= height
      invariant forall r, c :: 0 <= r < height && 0 <= c < bgr.Length1 ==>
                  bgr[r, c] == if r < row && c < 3 * width then Bgr(bgra[r], width)[c] else old(bgr[r, c])
    {
      ConvertRow(bgra[row], width, bgr, row);
      row := row + 1;
    }
  }
}
