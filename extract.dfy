// Horizontal reductions: reading one lane of a register and summing all the
// lanes of a register into a scalar.
//
// Integer registers are modelled two ways: as a sequence of bytes (the
// 128-bit Sse2 helpers, which shift bytes and reassemble lanes) and as a
// sequence of lanes of one C type T (the 512-bit sums).  The C type is a
// byte width and a signedness; its arithmetic wraps modulo 2^(8*bytes).

module Extract {
  import opened Lanes

  /** 2^(8*bytes), the number of values of a bytes-wide integer. */
  function Radix(bytes: nat): (r: nat)
    ensures r > 0
  {
    if bytes == 0 then 1 else 256 * Radix(bytes - 1)
  }

  const M32: nat := 0x1_0000_0000
  const M64: nat := 0x1_0000_0000_0000_0000

  /** The C integer type T of a lane. */
  datatype CType = CType(bytes: nat, signed: bool)

  predicate LaneType(t: CType) {
    t.bytes == 1 || t.bytes == 2 || t.bytes == 4 || t.bytes == 8
  }

  /** The value x has as a T: C's unsigned reduction, or two's complement for a signed T. */
  function Wrap(x: int, t: CType): (r: int)
    requires LaneType(t)
    ensures (x - r) % Radix(t.bytes) == 0
    ensures InRange(r, t)
  {
    var m := Radix(t.bytes);
    if t.signed then
      MultipleMod((x + m / 2) / m, m);
      (x + m / 2) % m - m / 2
    else
      MultipleMod(x / m, m);
      x % m
  }

  /** An unsigned T keeps the remainder modulo its number of values. */
  lemma WrapUnsigned(x: int, bytes: nat)
    requires bytes == 4 || bytes == 8
    ensures Wrap(x, CType(bytes, false)) == x % (if bytes == 4 then M32 else M64)
  {
    assert Radix(4) == M32 && Radix(8) == M64;
  }

  /** Whether x is a value of type T. */
  predicate InRange(x: int, t: CType) {
    var m := Radix(t.bytes);
    if t.signed then -(m / 2) <= x < m / 2 else 0 <= x < m
  }

  /** Wrapping after every addition is wrapping once at the end. */
  lemma WrapAdd(x: int, y: int, t: CType)
    requires LaneType(t)
    ensures Wrap(Wrap(x, t) + y, t) == Wrap(x + y, t)
  {
    var m := Radix(t.bytes);
    var w := Wrap(x, t);
    var q := (x - w) / m;
    assert x == w + q * m;
    if t.signed {
      ModShift(w + y + m / 2, q, m);
    } else {
      ModShift(w + y, q, m);
    }
  }

  /** The exact sum of integer lanes. */
  function IntSum(s: seq<int>): int
    decreases |s|
  {
    if |s| == 0 then 0 else IntSum(s[..|s| - 1]) + s[|s| - 1]
  }

  // ---------------------------------------------------------------------
  // Sums of lanes

  /**
   * Avx512bw::ExtractSum<T>: the register is stored to an array of
   * A / sizeof(T) lanes of type T and summed in a T accumulator.
   */
  method ExtractSum(a: seq<int>, t: CType) returns (sum: int)
    requires LaneType(t) && |a| == A / t.bytes
    ensures sum == Wrap(IntSum(a), t)
  {
    sum := 0;
    var i := 0;
    while i < |a|
      invariant 0 <= i <= |a|
      invariant sum == Wrap(IntSum(a[..i]), t)
    {
      assert a[..i + 1][..i] == a[..i];
      WrapAdd(IntSum(a[..i]), a[i], t);
      sum := Wrap(sum + a[i], t);
      i := i + 1;
    }
    assert a[..i] == a;
  }

  /** IntSum of sixteen lanes written out. */
  lemma {:induction false} IntSum16(a: seq<int>)
    requires |a| == 16
    ensures IntSum(a) == a[0] + a[1] + a[2] + a[3] + a[4] + a[5] + a[6] + a[7]
                       + a[8] + a[9] + a[10] + a[11] + a[12] + a[13] + a[14] + a[15]
  {
    IntSum8(a[..8]);
    IntSum8(a[8..]);
    IntSumConcat(a[..8], a[8..]);
    assert a[..8] + a[8..] == a;
  }

  /** IntSum of eight lanes written out. */
  lemma {:induction false} IntSum8(a: seq<int>)
    requires |a| == 8
    ensures IntSum(a) == a[0] + a[1] + a[2] + a[3] + a[4] + a[5] + a[6] + a[7]
  {
    assert IntSum(a[..1]) == a[0] by { assert a[..1][..0] == []; }
    assert IntSum(a[..2]) == IntSum(a[..1]) + a[1] by { assert a[..2][..1] == a[..1]; }
    assert IntSum(a[..3]) == IntSum(a[..2]) + a[2] by { assert a[..3][..2] == a[..2]; }
    assert IntSum(a[..4]) == IntSum(a[..3]) + a[3] by { assert a[..4][..3] == a[..3]; }
    assert IntSum(a[..5]) == IntSum(a[..4]) + a[4] by { assert a[..5][..4] == a[..4]; }
    assert IntSum(a[..6]) == IntSum(a[..5]) + a[5] by { assert a[..6][..5] == a[..5]; }
    assert IntSum(a[..7]) == IntSum(a[..6]) + a[6] by { assert a[..7][..6] == a[..6]; }
    assert a[..8] == a;
  }

  /** An integer lane sum splits at any point. */
  lemma {:induction false} IntSumConcat(x: seq<int>, y: seq<int>)
    ensures IntSum(x + y) == IntSum(x) + IntSum(y)
    decreases |y|
  {
    if |y| > 0 {
      IntSumConcat(x, y[..|y| - 1]);
      assert (x + y)[..|x + y| - 1] == x + y[..|y| - 1];
    } else {
      assert x + y == x;
    }
  }

  /** Every lane is a value of an unsigned type with m values. */
  predicate Below(a: seq<int>, m: nat) {
    forall k :: 0 <= k < |a| ==> 0 <= a[k] < m
  }

  /** Unsigned addition of two values of a type with m values: the sum, less m when it overflows. */
  function AddU(x: int, y: int, m: nat): (r: int)
    requires 0 <= x < m && 0 <= y < m
    ensures 0 <= r < m && (r == x + y || r == x + y - m)
  {
    if x + y < m then x + y else x + y - m
  }

  /** AddU on the remainders of X and Y is the remainder of X + Y. */
  lemma AddUMod(x: int, y: int, xx: int, yy: int, m: nat)
    requires 0 <= x < m && 0 <= y < m && x == xx % m && y == yy % m
    ensures AddU(x, y, m) == (xx + yy) % m
  {
    AddMod(xx, yy, m);
    var s := x + y;
    if s < m {
      SmallMod(s, m);
    } else {
      ModShift(s - m, 1, m);
      SmallMod(s - m, m);
    }
  }

  /** A value of the type is its own remainder. */
  lemma SmallMod(r: int, m: nat)
    requires 0 <= r < m
    ensures r % m == r
  {
    ModShift(r, 0, m);
    var q := r / m;
    assert q * m == r - r % m;
    MulBounds(q, m);
  }

  /** Reducing the operands of an addition first does not change its remainder. */
  lemma AddMod(x: int, y: int, m: nat)
    requires m > 0
    ensures ((x % m) + (y % m)) % m == (x + y) % m
  {
    ModShift(x % m + y % m, x / m + y / m, m);
  }

  /** One halving step of a reduction: lane k plus lane k + |a| / 2, wrapping. */
  function Halve(a: seq<int>, m: nat): (b: seq<int>)
    requires Below(a, m)
    ensures |b| == |a| / 2 && Below(b, m)
    ensures forall k :: 0 <= k < |b| ==> b[k] == AddU(a[k], a[|a| / 2 + k], m)
  {
    seq(|a| / 2, k requires 0 <= k < |a| / 2 => AddU(a[k], a[|a| / 2 + k], m))
  }

  /**
   * Avx512bw::ExtractSum<uint32_t>: the two 256-bit halves are added,
   * then the two 128-bit halves, then two horizontal adds with zero, which
   * leave lanes 0 + 1 and 2 + 3 and then their sum in lane 0; each 32-bit
   * addition wraps.  It agrees with the generic sum of 16 lanes.
   */
  function ExtractSumU32(a: seq<int>): (r: int)
    requires |a| == 16 && Below(a, M32)
    ensures r == Wrap(IntSum(a), CType(4, false))
  {
    var c := Halve(Halve(a, M32), M32);
    Tree16(a, M32);
    WrapUnsigned(IntSum(a), 4);
    AddU(AddU(c[0], c[1], M32), AddU(c[2], c[3], M32), M32)
  }

  /** The reduction tree of 16 lanes, with every addition wrapping modulo m. */
  lemma Tree16(a: seq<int>, m: nat)
    requires |a| == 16 && m > 0 && Below(a, m)
    ensures var c := Halve(Halve(a, m), m);
            AddU(AddU(c[0], c[1], m), AddU(c[2], c[3], m), m) == IntSum(a) % m
  {
    var c := Halve(Halve(a, m), m);
    Quarters(a, m);
    QuartersTotal(a);
    Combine4(c[0], c[1], c[2], c[3], Quarter(a, 0), Quarter(a, 1), Quarter(a, 2), Quarter(a, 3), IntSum(a), m);
  }

  /** The two horizontal adds of four lanes that hold q0 .. q3 modulo m give their total t modulo m. */
  lemma Combine4(c0: int, c1: int, c2: int, c3: int, q0: int, q1: int, q2: int, q3: int, t: int, m: nat)
    requires 0 <= c0 < m && 0 <= c1 < m && 0 <= c2 < m && 0 <= c3 < m
    requires c0 == q0 % m && c1 == q1 % m && c2 == q2 % m && c3 == q3 % m
    requires (q0 + q1) + (q2 + q3) == t
    ensures AddU(AddU(c0, c1, m), AddU(c2, c3, m), m) == t % m
  {
    AddUMod(c0, c1, q0, q1, m);
    AddUMod(c2, c3, q2, q3, m);
    AddUMod(AddU(c0, c1, m), AddU(c2, c3, m), q0 + q1, q2 + q3, m);
  }

  /** The four lanes that the two halvings of 16 lanes add into lane k. */
  function Quarter(a: seq<int>, k: nat): int
    requires |a| == 16 && k < 4
  {
    (a[k] + a[8 + k]) + (a[4 + k] + a[12 + k])
  }

  lemma QuartersTotal(a: seq<int>)
    requires |a| == 16
    ensures (Quarter(a, 0) + Quarter(a, 1)) + (Quarter(a, 2) + Quarter(a, 3)) == IntSum(a)
  {
    IntSum16(a);
  }

  /** After the two halvings, lane k holds Quarter(a, k) modulo m. */
  lemma Quarters(a: seq<int>, m: nat)
    requires |a| == 16 && m > 0 && Below(a, m)
    ensures forall k :: 0 <= k < 4 ==> Halve(Halve(a, m), m)[k] == Quarter(a, k) % m
  {
    forall k | 0 <= k < 4
      ensures Halve(Halve(a, m), m)[k] == Quarter(a, k) % m
    {
      var b := Halve(a, m);
      SmallMod(a[k], m);
      SmallMod(a[8 + k], m);
      SmallMod(a[4 + k], m);
      SmallMod(a[12 + k], m);
      AddUMod(a[k], a[8 + k], a[k], a[8 + k], m);
      AddUMod(a[4 + k], a[12 + k], a[4 + k], a[12 + k], m);
      AddUMod(b[k], b[4 + k], a[k] + a[8 + k], a[4 + k] + a[12 + k], m);
    }
  }

  /**
   * Avx512bw::ExtractSum<uint64_t>: halves added twice, then the two 64-bit
   * lanes added; each addition wraps modulo 2^64.
   */
  function ExtractSumU64(a: seq<int>): (r: int)
    requires |a| == 8 && Below(a, M64)
    ensures r == Wrap(IntSum(a), CType(8, false))
  {
    var c := Halve(Halve(a, M64), M64);
    Tree8(a, M64);
    WrapUnsigned(IntSum(a), 8);
    AddU(c[0], c[1], M64)
  }

  /** The reduction tree of 8 lanes, with every addition wrapping modulo m. */
  lemma Tree8(a: seq<int>, m: nat)
    requires |a| == 8 && m > 0 && Below(a, m)
    ensures var c := Halve(Halve(a, m), m);
            AddU(c[0], c[1], m) == IntSum(a) % m
  {
    IntSum8(a);
    var b := Halve(a, m);
    var c := Halve(b, m);
    forall k | 0 <= k < 8
      ensures a[k] % m == a[k]
    {
      SmallMod(a[k], m);
    }
    AddUMod(a[0], a[4], a[0], a[4], m);
    AddUMod(a[2], a[6], a[2], a[6], m);
    AddUMod(a[1], a[5], a[1], a[5], m);
    AddUMod(a[3], a[7], a[3], a[7], m);
    var x0, y0 := a[0] + a[4], a[2] + a[6];
    var x1, y1 := a[1] + a[5], a[3] + a[7];
    AddUMod(b[0], b[2], x0, y0, m);
    AddUMod(b[1], b[3], x1, y1, m);
    AddUMod(c[0], c[1], x0 + y0, x1 + y1, m);
    assert (x0 + y0) + (x1 + y1) == IntSum(a);
  }

  /**
   * Avx512f::ExtractSum: the four 128-bit quarters are added pairwise, then
   * two horizontal adds with zero.  Over exact reals it is the lane sum.
   */
  function ExtractSumF32(a: Vec): (r: real)
    ensures r == Sum(a)
  {
    var lo := seq(4, k requires 0 <= k < 4 => a[k] + a[4 + k]);
    var hi := seq(4, k requires 0 <= k < 4 => a[8 + k] + a[12 + k]);
    var s := seq(4, k requires 0 <= k < 4 => lo[k] + hi[k]);
    var h1 := [s[0] + s[1], s[2] + s[3], 0.0, 0.0];
    var h2 := [h1[0] + h1[1], h1[2] + h1[3], 0.0, 0.0];
    Sum16(a);
    h2[0]
  }

  /** Sum of sixteen real lanes written out. */
  lemma {:induction false} Sum16(a: seq<real>)
    requires |a| == 16
    ensures Sum(a) == a[0] + a[1] + a[2] + a[3] + a[4] + a[5] + a[6] + a[7]
                    + a[8] + a[9] + a[10] + a[11] + a[12] + a[13] + a[14] + a[15]
  {
    Sum4(a[..4]);
    Sum4(a[4..8]);
    Sum4(a[8..12]);
    Sum4(a[12..]);
    SumConcat(a[..4], a[4..8]);
    SumConcat(a[..4] + a[4..8], a[8..12]);
    SumConcat(a[..4] + a[4..8] + a[8..12], a[12..]);
    assert a[..4] + a[4..8] + a[8..12] + a[12..] == a;
  }

  /** Sum of four real lanes written out. */
  lemma {:induction false} Sum4(a: seq<real>)
    requires |a| == 4
    ensures Sum(a) == a[0] + a[1] + a[2] + a[3]
  {
    assert Sum(a[..1]) == a[0] by { assert a[..1][..0] == []; }
    assert Sum(a[..2]) == Sum(a[..1]) + a[1] by { assert a[..2][..1] == a[..1]; }
    assert Sum(a[..3]) == Sum(a[..2]) + a[2] by { assert a[..3][..2] == a[..2]; }
    assert a[..4] == a;
  }

  /** Sse::ExtractSum: the four float lanes added left to right. */
  function ExtractSumF32x4(a: seq<real>): (r: real)
    requires |a| == 4
    ensures r == Sum(a)
  {
    Sum4(a);
    a[0] + a[1] + a[2] + a[3]
  }

  // ---------------------------------------------------------------------
  // Lanes of a byte register

  /** The little-endian unsigned value of a byte string. */
  function LittleEndian(bs: seq<int>): int
  {
    if |bs| == 0 then 0 else bs[0] + 256 * LittleEndian(bs[1..])
  }

  predicate Bytes(bs: seq<int>) {
    forall k :: 0 <= k < |bs| ==> 0 <= bs[k] < 256
  }

  lemma {:induction false} LittleEndianBounds(bs: seq<int>)
    requires Bytes(bs)
    ensures 0 <= LittleEndian(bs) < Radix(|bs|)
  {
    if |bs| > 0 {
      LittleEndianBounds(bs[1..]);
    }
  }

  /** Concatenating byte strings stacks their values. */
  lemma {:induction false} LittleEndianConcat(x: seq<int>, y: seq<int>)
    ensures LittleEndian(x + y) == LittleEndian(x) + Radix(|x|) * LittleEndian(y)
  {
    if |x| > 0 {
      assert (x + y)[1..] == x[1..] + y;
      LittleEndianConcat(x[1..], y);
      var r := Radix(|x| - 1);
      var l := LittleEndian(y);
      assert 256 * (r * l) == (256 * r) * l;
    } else {
      assert x + y == y;
    }
  }

  /** The unsigned bits of x read as a two's-complement 32-bit integer. */
  function Signed32(u: int): int {
    if u < 0x8000_0000 then u else u - M32
  }

  /** The unsigned bits of x read as a two's-complement 64-bit integer. */
  function Signed64(u: int): int {
    if u < 0x8000_0000_0000_0000 then u else u - M64
  }

  /** _mm_srli_si128(a, n): the 16 bytes shifted down by n, zeros shifted in. */
  function ShiftBytes(a: seq<int>, n: nat): (r: seq<int>)
    requires |a| == 16
    ensures |r| == 16
  {
    seq(16, k requires 0 <= k < 16 => if k + n < 16 then a[k + n] else 0)
  }

  /** _mm_extract_epi16(x, j): 16-bit lane j, zero-extended. */
  function ExtractEpi16(x: seq<int>, j: nat): int
    requires j < 8 && |x| == 16
  {
    LittleEndian(x[2 * j..2 * j + 2])
  }

  /**
   * Sse2::ExtractInt8<index>: shift right by index & 1 bytes, take 16-bit
   * lane index >> 1 and keep its low byte.  It is byte index of the register.
   */
  function ExtractInt8(a: seq<int>, index: nat): (r: int)
    requires |a| == 16 && Bytes(a) && index < 16
    ensures r == a[index]
  {
    var shifted := ShiftBytes(a, index % 2);
    var j := index / 2;
    assert shifted[2 * j..2 * j + 2][1..][1..] == [];
    ExtractEpi16(shifted, j) % 256
  }

  /** Sse2::ExtractInt32<index>: _mm_cvtsi128_si32 of the register shifted by 4*index bytes. */
  function ExtractInt32(a: seq<int>, index: nat): int
    requires |a| == 16 && index < 4
  {
    Signed32(LittleEndian(ShiftBytes(a, 4 * index)[..4]))
  }

  /** The signed 64-bit lane index of the register (the x64 path of ExtractInt64). */
  function Lane64(a: seq<int>, index: nat): int
    requires |a| == 16 && index < 2
  {
    Signed64(LittleEndian(a[8 * index..8 * index + 8]))
  }

  /**
   * The 32-bit fallback of Sse2::ExtractInt64<index>: the high half as a
   * signed 32-bit value times 2^32 plus the low half as an unsigned value.
   * It equals the signed 64-bit lane.
   */
  function ExtractInt64(a: seq<int>, index: nat): (r: int)
    requires |a| == 16 && Bytes(a) && index < 2
    ensures r == Lane64(a, index)
  {
    var lo := a[8 * index..8 * index + 4];
    var hi := a[8 * index + 4..8 * index + 8];
    assert ShiftBytes(a, 4 * (2 * index))[..4] == lo;
    assert ShiftBytes(a, 4 * (2 * index + 1))[..4] == hi;
    LittleEndianBounds(lo);
    LittleEndianBounds(hi);
    LittleEndianConcat(lo, hi);
    assert lo + hi == a[8 * index..8 * index + 8];
    assert Radix(4) == M32;
    ExtractInt32(a, 2 * index + 1) * M32 + ExtractInt32(a, 2 * index) % M32
  }

  // ---------------------------------------------------------------------
  // Avx2::Extract<T>

  /**
   * Avx2::Extract<T>(a, index): the register is stored to an array of
   * A / sizeof(T) = 32 / bytes lanes and lane index is returned (as an
   * unsigned value; a signed T reads the same bits through Wrap).
   */
  function Avx2Extract(a: seq<int>, bytes: nat, index: nat): (r: int)
    requires |a| == 32 && LaneType(CType(bytes, false)) && index < 32 / bytes
    ensures Bytes(a) ==> 0 <= r < Radix(bytes)
  {
    LanesFit(bytes, index);
    var lane := a[index * bytes..index * bytes + bytes];
    if Bytes(a) then LittleEndianBounds(lane); LittleEndian(lane)
    else LittleEndian(lane)
  }

  lemma LanesFit(bytes: nat, index: nat)
    requires LaneType(CType(bytes, false)) && index < 32 / bytes
    ensures index * bytes + bytes <= 32
  {
  }

  /** The value of lanes read as digits in base Radix(bytes), lowest first. */
  function Digits(lanes: seq<int>, bytes: nat): int
  {
    if |lanes| == 0 then 0 else lanes[0] + Radix(bytes) * Digits(lanes[1..], bytes)
  }

  /**
   * The lanes Avx2Extract reads are the whole register, each byte exactly
   * once: read as digits they give back the value of all 32 bytes.
   */
  lemma Avx2ExtractLanes(a: seq<int>, bytes: nat)
    requires |a| == 32 && LaneType(CType(bytes, false))
    ensures Digits(seq(32 / bytes, i requires 0 <= i < 32 / bytes => Avx2Extract(a, bytes, i)), bytes)
            == LittleEndian(a)
  {
    var n := 32 / bytes;
    var lanes := seq(n, i requires 0 <= i < n => Avx2Extract(a, bytes, i));
    forall j | 0 <= j < n
      ensures j * bytes + bytes <= 32 && lanes[j] == LittleEndian(a[j * bytes..j * bytes + bytes])
    {
      LanesFit(bytes, j);
    }
    DigitsFrom(a, bytes, 0, n, lanes);
  }

  lemma {:induction false} DigitsFrom(a: seq<int>, bytes: nat, i: nat, n: nat, lanes: seq<int>)
    requires |a| == 32 && LaneType(CType(bytes, false)) && n == 32 / bytes && i <= n
    requires |lanes| == n
    requires forall j {:trigger lanes[j]} :: 0 <= j < n ==> j * bytes + bytes <= 32 && lanes[j] == LittleEndian(a[j * bytes..j * bytes + bytes])
    ensures i * bytes <= 32
    ensures Digits(lanes[i..], bytes) == LittleEndian(a[i * bytes..])
    decreases n - i
  {
    LaneStep(bytes, i, n);
    var o := i * bytes;
    if i < n {
      DigitsFrom(a, bytes, i + 1, n, lanes);
      var lo, rest := a[o..o + bytes], a[o + bytes..];
      assert lanes[i] == LittleEndian(lo);
      assert a[o..] == lo + rest;
      assert lanes[i..][1..] == lanes[i + 1..];
      calc {
        Digits(lanes[i..], bytes);
        lanes[i] + Radix(bytes) * Digits(lanes[i + 1..], bytes);
        LittleEndian(lo) + Radix(|lo|) * LittleEndian(rest);
        { LittleEndianConcat(lo, rest); }
        LittleEndian(a[o..]);
      }
    } else {
      assert a[o..] == [];
    }
  }

  /** Lane i of a register of n lanes of the given width starts inside the 32 bytes, and the next starts one lane later. */
  lemma LaneStep(bytes: nat, i: nat, n: nat)
    requires LaneType(CType(bytes, false)) && n == 32 / bytes && i <= n
    ensures i * bytes <= 32 && (i == n ==> i * bytes == 32)
    ensures i < n ==> (i + 1) * bytes == i * bytes + bytes <= 32
  {
  }
}
