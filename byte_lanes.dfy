// Integer registers of the Avx512bw kernels.  A 512-bit register holds
// A = 64 unsigned bytes, or the same bits read as 32 16-bit, 16 32-bit or
// 8 64-bit lanes.  Integer lane additions wrap modulo 2^bits; a wrapping
// accumulator is described together with the exact lane totals it would
// hold without wrapping (Tracks).

module ByteLanes {
  import opened Lanes
  import opened Extract

  const QA: nat := 4 * A

  /** Every entry is an unsigned byte. */
  predicate ByteRow(row: seq<int>, width: nat) {
    width <= |row| && forall c :: 0 <= c < width ==> 0 <= row[c] < 256
  }

  /** height rows of at least width bytes each. */
  predicate Image(src: seq<seq<int>>, width: nat, height: nat) {
    height <= |src| && forall r :: 0 <= r < height ==> ByteRow(src[r], width)
  }

  /** n zero lanes (_mm512_setzero_si512 for n = the lane count). */
  function Zeros(n: nat): (z: seq<int>)
    ensures |z| == n && forall k :: 0 <= k < n ==> z[k] == 0
  {
    seq(n, k => 0)
  }

  lemma {:induction false} IntSumZeros(n: nat)
    ensures IntSum(Zeros(n)) == 0
  {
    if n > 0 {
      IntSumZeros(n - 1);
      assert Zeros(n)[..n - 1] == Zeros(n - 1);
    }
  }

  /** A sum of n lanes, each between 0 and hi, lies between 0 and n * hi. */
  lemma {:induction false} IntSumBounds(s: seq<int>, hi: int)
    requires forall k :: 0 <= k < |s| ==> 0 <= s[k] <= hi
    ensures 0 <= IntSum(s) <= |s| * hi
  {
    if |s| > 0 {
      IntSumBounds(s[..|s| - 1], hi);
    }
  }

  /**
   * Load<align, masked>(p, TailMask64(n)): the n bytes from col, and zero
   * in the lanes the mask turns off.
   */
  function LoadBytes(row: seq<int>, col: nat, n: nat): (v: seq<int>)
    requires n <= A && col + n <= |row|
    ensures |v| == A && forall k :: 0 <= k < A ==> v[k] == if k < n then row[col + k] else 0
  {
    seq(A, k requires 0 <= k < A => if k < n then row[col + k] else 0)
  }

  /** Lane-wise |a - b|. */
  function AbsDiff(a: seq<int>, b: seq<int>): (d: seq<int>)
    requires |a| == |b|
    ensures |d| == |a| && forall k :: 0 <= k < |a| ==> d[k] == if a[k] >= b[k] then a[k] - b[k] else b[k] - a[k]
  {
    seq(|a|, k requires 0 <= k < |a| => if a[k] >= b[k] then a[k] - b[k] else b[k] - a[k])
  }

  /** AbsDiff of prefixes grows by the AbsDiff of the next piece. */
  lemma AbsDiffSplit(a: seq<int>, b: seq<int>, col: nat, n: nat)
    requires col + n <= |a| && col + n <= |b|
    ensures AbsDiff(a[..col + n], b[..col + n]) == AbsDiff(a[..col], b[..col]) + AbsDiff(a[col..col + n], b[col..col + n])
  {
  }

  /** The bytes of a masked load, against zero, sum to the bytes loaded. */
  lemma LoadedAbsDiff(a: seq<int>, b: seq<int>, col: nat, n: nat)
    requires n <= A && col + n <= |a| && col + n <= |b|
    ensures IntSum(AbsDiff(LoadBytes(a, col, n), LoadBytes(b, col, n))) == IntSum(AbsDiff(a[col..col + n], b[col..col + n]))
  {
    var d := AbsDiff(LoadBytes(a, col, n), LoadBytes(b, col, n));
    assert d == AbsDiff(a[col..col + n], b[col..col + n]) + Zeros(A - n);
    IntSumConcat(AbsDiff(a[col..col + n], b[col..col + n]), Zeros(A - n));
    IntSumZeros(A - n);
  }

  /** Against a zero row, AbsDiff is the bytes themselves. */
  lemma AbsDiffZero(row: seq<int>, width: nat)
    requires ByteRow(row, width)
    ensures AbsDiff(row[..width], Zeros(width)) == row[..width]
  {
  }

  /** _mm512_sad_epu8(a, b): 64-bit lane i is the sum of |a - b| over bytes 8i .. 8i + 7. */
  function Sad(a: seq<int>, b: seq<int>): (s: seq<int>)
    requires |a| == A && |b| == A
    ensures |s| == 8 && forall i :: 0 <= i < 8 ==> s[i] == IntSum(AbsDiff(a, b)[8 * i..8 * i + 8])
  {
    var d := AbsDiff(a, b);
    seq(8, i requires 0 <= i < 8 => IntSum(d[8 * i..8 * i + 8]))
  }

  lemma {:induction false} SadPrefix(a: seq<int>, b: seq<int>, i: nat)
    requires |a| == A && |b| == A && i <= 8
    ensures IntSum(Sad(a, b)[..i]) == IntSum(AbsDiff(a, b)[..8 * i])
  {
    var s, d := Sad(a, b), AbsDiff(a, b);
    if i > 0 {
      SadPrefix(a, b, i - 1);
      assert s[..i][..i - 1] == s[..i - 1];
      assert d[..8 * i] == d[..8 * (i - 1)] + d[8 * (i - 1)..8 * i];
      IntSumConcat(d[..8 * (i - 1)], d[8 * (i - 1)..8 * i]);
    }
  }

  /** The lanes of a SAD add up to the sum of all 64 absolute differences. */
  lemma SadTotal(a: seq<int>, b: seq<int>)
    requires |a| == A && |b| == A
    ensures IntSum(Sad(a, b)) == IntSum(AbsDiff(a, b))
  {
    SadPrefix(a, b, 8);
    assert Sad(a, b)[..8] == Sad(a, b);
    assert AbsDiff(a, b)[..64] == AbsDiff(a, b);
  }

  /** Bytes keep every SAD lane within 8 * 255. */
  lemma SadBound(a: seq<int>, b: seq<int>)
    requires |a| == A && |b| == A && Bytes(a) && Bytes(b)
    ensures forall i :: 0 <= i < 8 ==> 0 <= Sad(a, b)[i] <= 8 * 255
  {
    var d := AbsDiff(a, b);
    forall i | 0 <= i < 8 ensures 0 <= Sad(a, b)[i] <= 8 * 255 {
      IntSumBounds(d[8 * i..8 * i + 8], 255);
    }
  }

  /** 64-bit lanes below 2^32 read as 32-bit lanes: lane 2i is the low half, lane 2i + 1 the (zero) high half. */
  function Halves32(s: seq<int>): (r: seq<int>)
    requires |s| == 8
    ensures |r| == 16 && forall k :: 0 <= k < 16 ==> r[k] == if k % 2 == 0 then s[k / 2] else 0
  {
    seq(16, k requires 0 <= k < 16 => if k % 2 == 0 then s[k / 2] else 0)
  }

  lemma Halves32Sum(s: seq<int>)
    requires |s| == 8
    ensures IntSum(Halves32(s)) == IntSum(s)
  {
    IntSum16(Halves32(s));
    IntSum8(s);
  }

  // ---------------------------------------------------------------------
  // Wrapping accumulators

  /** Lanes that wrap modulo m hold the exact (non-negative) totals e reduced modulo m. */
  predicate Tracks(acc: seq<int>, e: seq<int>, m: nat) {
    m > 0 && |acc| == |e| && forall k :: 0 <= k < |e| ==> 0 <= e[k] && acc[k] == e[k] % m
  }

  /** _mm512_add_epi32 / _mm512_add_epi64 / _mm512_add_epi16: lane-wise addition modulo m. */
  function AddLanes(x: seq<int>, y: seq<int>, m: nat): (r: seq<int>)
    requires m > 0 && |x| == |y| && Below(x, m) && Below(y, m)
    ensures |r| == |x| && Below(r, m) && forall k :: 0 <= k < |x| ==> r[k] == AddU(x[k], y[k], m)
  {
    seq(|x|, k requires 0 <= k < |x| => AddU(x[k], y[k], m))
  }

  /** Exact lane-wise addition. */
  function Plus(x: seq<int>, y: seq<int>): (r: seq<int>)
    requires |x| == |y|
    ensures |r| == |x| && forall k :: 0 <= k < |x| ==> r[k] == x[k] + y[k]
  {
    seq(|x|, k requires 0 <= k < |x| => x[k] + y[k])
  }

  lemma {:induction false} PlusSum(x: seq<int>, y: seq<int>)
    requires |x| == |y|
    ensures IntSum(Plus(x, y)) == IntSum(x) + IntSum(y)
  {
    if |x| > 0 {
      var n := |x| - 1;
      PlusSum(x[..n], y[..n]);
      assert Plus(x, y)[..n] == Plus(x[..n], y[..n]);
    }
  }

  lemma TracksBelow(acc: seq<int>, e: seq<int>, m: nat)
    requires Tracks(acc, e, m)
    ensures Below(acc, m)
  {
  }

  /** Values already below m track themselves. */
  lemma TracksExact(v: seq<int>, m: nat)
    requires m > 0 && forall k :: 0 <= k < |v| ==> 0 <= v[k] < m
    ensures Tracks(v, v, m)
  {
    forall k | 0 <= k < |v| ensures v[k] % m == v[k] {
      SmallMod(v[k], m);
    }
  }

  /** Adding two wrapping registers tracks the exact sum of their totals. */
  lemma TracksAdd(x: seq<int>, ex: seq<int>, y: seq<int>, ey: seq<int>, m: nat)
    requires Tracks(x, ex, m) && Tracks(y, ey, m) && |x| == |y|
    ensures Tracks(AddLanes(x, y, m), Plus(ex, ey), m)
  {
    forall k | 0 <= k < |x| ensures AddLanes(x, y, m)[k] == (ex[k] + ey[k]) % m {
      AddUMod(x[k], y[k], ex[k], ey[k], m);
    }
  }

  /** A wrapping register's lane sum agrees with the exact total modulo m. */
  lemma {:induction false} TracksSum(acc: seq<int>, e: seq<int>, m: nat)
    requires Tracks(acc, e, m)
    ensures IntSum(acc) % m == IntSum(e) % m
  {
    if |e| > 0 {
      var n := |e| - 1;
      TracksSum(acc[..n], e[..n], m);
      AddMod(IntSum(acc[..n]), acc[n], m);
      AddMod(IntSum(e[..n]), e[n], m);
      assert acc[n] % m == e[n] % m by {
        SmallMod(acc[n], m);
      }
    }
  }

  /** A register whose exact totals never reached m holds them unchanged. */
  lemma TracksNoWrap(acc: seq<int>, e: seq<int>, m: nat)
    requires Tracks(acc, e, m) && forall k :: 0 <= k < |e| ==> e[k] < m
    ensures acc == e
  {
    forall k | 0 <= k < |e| ensures acc[k] == e[k] {
      SmallMod(e[k], m);
    }
  }

  /** ExtractSum<uint32_t> of a wrapping register: the exact total modulo 2^32. */
  lemma TracksExtract32(acc: seq<int>, e: seq<int>)
    requires Tracks(acc, e, M32) && |acc| == 16
    ensures Below(acc, M32) && ExtractSumU32(acc) == IntSum(e) % M32
  {
    TracksSum(acc, e, M32);
    WrapUnsigned(IntSum(acc), 4);
  }

  /** ExtractSum<uint64_t> of a wrapping register: the exact total modulo 2^64. */
  lemma TracksExtract64(acc: seq<int>, e: seq<int>)
    requires Tracks(acc, e, M64) && |acc| == 8
    ensures Below(acc, M64) && ExtractSumU64(acc) == IntSum(e) % M64
  {
    TracksSum(acc, e, M64);
    WrapUnsigned(IntSum(acc), 8);
  }

  /** The four-register loops stop no later than the one-register loops. */
  lemma AlignLoNestedBytes(x: nat)
    ensures AlignLo(x, QA) <= AlignLo(x, A) && AlignLo(x, QA) % A == 0
  {
    var q := AlignLo(x, QA);
    assert q % A == 0;
  }

  /** AlignHi(x, A) is AlignLo(x, A), plus one register when x is not a multiple of A. */
  lemma AlignLoHi(x: nat)
    ensures AlignHi(x, A) == if AlignLo(x, A) == x then x else AlignLo(x, A) + A
  {
  }

  // ---------------------------------------------------------------------
  // Pairs of lanes

  /** Adjacent lanes added: lane k of the result is lanes 2k and 2k + 1 of q. */
  function PairSums(q: seq<int>): (r: seq<int>)
    requires |q| % 2 == 0
    ensures |r| == |q| / 2 && forall k :: 0 <= k < |r| ==> r[k] == q[2 * k] + q[2 * k + 1]
  {
    seq(|q| / 2, k requires 0 <= k < |q| / 2 => q[2 * k] + q[2 * k + 1])
  }

  /** Adding adjacent lanes keeps the total. */
  lemma {:induction false} PairSumsTotal(q: seq<int>)
    requires |q| % 2 == 0
    ensures IntSum(PairSums(q)) == IntSum(q)
    decreases |q|
  {
    if |q| > 0 {
      var n := |q|;
      var q' := q[..n - 2];
      var r := PairSums(q);
      PairSumsTotal(q');
      assert r[..n / 2 - 1] == PairSums(q');
      assert IntSum(r) == IntSum(q') + r[n / 2 - 1];
      assert q[..n - 1][..n - 2] == q';
      assert IntSum(q) == IntSum(q') + q[n - 2] + q[n - 1];
    }
  }

  /**
   * HorizontalSum32 (its header is not part of this model): the odd and the
   * even 32-bit lanes, zero-extended, added into 64-bit lanes, so that
   * 64-bit lane j is 32-bit lanes 2j plus 2j + 1.
   */
  function HorizontalSum32(v: seq<int>): (h: seq<int>)
    requires |v| == 16 && Below(v, M32)
    ensures |h| == 8 && Below(h, M64) && IntSum(h) == IntSum(v)
  {
    PairSumsTotal(v);
    PairSums(v)
  }
}
