// The element-wise Avx512f neural kernels over float vectors.
//
// Every kernel walks [0, size) in three phases: a loop of four registers
// (QF = 64 floats) up to AlignLo(size, QF), a loop of single registers up
// to AlignLo(size, F), and one masked register for the size % F floats
// left.  Floats are exact reals.  A source and a destination may be the
// same array (every lane reads its own position before it is written).

module NeuralVector {
  import opened Lanes
  import opened Extract

  // ---------------------------------------------------------------------
  // The three-phase schedule

  /** One register's worth of work: lanes [off, off + n). */
  datatype Block = Block(off: nat, n: nat)

  /** The blocks tile [from, to) in order, each non-empty, with nothing outside. */
  ghost predicate Tiles(bs: seq<Block>, from: nat, to: nat)
    decreases |bs|
  {
    if |bs| == 0 then from == to
    else bs[0].off == from && 0 < bs[0].n && Tiles(bs[1..], from + bs[0].n, to)
  }

  /** The blocks of the unrolled loop: four registers per step of QF. */
  ghost function QuadBlocks(i: nat, aligned: nat): seq<Block>
    decreases aligned - i
  {
    if i >= aligned then []
    else [Block(i, F), Block(i + F, F), Block(i + 2 * F, F), Block(i + 3 * F, F)]
         + QuadBlocks(i + QF, aligned)
  }

  /** The blocks of the single-register loop. */
  ghost function SingleBlocks(i: nat, partial: nat): seq<Block>
    decreases partial - i
  {
    if i >= partial then [] else [Block(i, F)] + SingleBlocks(i + F, partial)
  }

  /** The registers a kernel touches, in order, for a vector of size floats. */
  ghost function Schedule(size: nat): seq<Block>
  {
    var aligned, partial := AlignLo(size, QF), AlignLo(size, F);
    QuadBlocks(0, aligned) + SingleBlocks(aligned, partial)
    + (if partial < size then [Block(partial, size - partial)] else [])
  }

  lemma {:induction false} TilesConcat(x: seq<Block>, y: seq<Block>, from: nat, mid: nat, to: nat)
    requires Tiles(x, from, mid) && Tiles(y, mid, to)
    ensures Tiles(x + y, from, to)
    decreases |x|
  {
    if |x| == 0 {
      assert x + y == y;
    } else {
      TilesConcat(x[1..], y, from + x[0].n, mid, to);
      assert (x + y)[1..] == x[1..] + y;
    }
  }

  lemma {:induction false} QuadTiles(i: nat, aligned: nat)
    requires i <= aligned && i % QF == 0 && aligned % QF == 0
    ensures Tiles(QuadBlocks(i, aligned), i, aligned)
    decreases aligned - i
  {
    if i < aligned {
      QuadTiles(i + QF, aligned);
      var four := [Block(i, F), Block(i + F, F), Block(i + 2 * F, F), Block(i + 3 * F, F)];
      assert Tiles(four[3..], i + 3 * F, i + QF) by { assert four[3..][1..] == []; }
      assert Tiles(four[2..], i + 2 * F, i + QF) by { assert four[2..][1..] == four[3..]; }
      assert Tiles(four[1..], i + F, i + QF) by { assert four[1..][1..] == four[2..]; }
      TilesConcat(four, QuadBlocks(i + QF, aligned), i, i + QF, aligned);
    }
  }

  lemma {:induction false} SingleTiles(i: nat, partial: nat)
    requires i <= partial && i % F == 0 && partial % F == 0
    ensures Tiles(SingleBlocks(i, partial), i, partial)
    decreases partial - i
  {
    if i < partial {
      SingleTiles(i + F, partial);
      assert Tiles([Block(i, F)], i, i + F);
      TilesConcat([Block(i, F)], SingleBlocks(i + F, partial), i, i + F, partial);
    }
  }

  /** The three phases together tile [0, size). */
  lemma ScheduleTiles(size: nat)
    ensures Tiles(Schedule(size), 0, size)
  {
    var aligned, partial := AlignLo(size, QF), AlignLo(size, F);
    AlignLoNested(size);
    QuadTiles(0, aligned);
    SingleTiles(aligned, partial);
    TilesConcat(QuadBlocks(0, aligned), SingleBlocks(aligned, partial), 0, aligned, partial);
    var tail := if partial < size then [Block(partial, size - partial)] else [];
    assert Tiles(tail, partial, size);
    TilesConcat(QuadBlocks(0, aligned) + SingleBlocks(aligned, partial), tail, 0, partial, size);
  }

  /** Blocks that tile [from, to) cover each index of it exactly once and nothing else. */
  lemma {:induction false} TilesCoverOnce(bs: seq<Block>, from: nat, to: nat, j: nat)
    requires Tiles(bs, from, to)
    ensures (exists t :: 0 <= t < |bs| && bs[t].off <= j < bs[t].off + bs[t].n) <==> from <= j < to
    ensures forall t, u :: (0 <= t < |bs| && 0 <= u < |bs|
              && bs[t].off <= j < bs[t].off + bs[t].n && bs[u].off <= j < bs[u].off + bs[u].n) ==> t == u
    decreases |bs|
  {
    if |bs| > 0 {
      var rest := bs[1..];
      TilesCoverOnce(rest, from + bs[0].n, to, j);
      TilesAbove(rest, from + bs[0].n, to);
      forall t | 0 <= t < |bs| && bs[t].off <= j < bs[t].off + bs[t].n
        ensures from <= j < to
      {
        if t > 0 {
          assert rest[t - 1] == bs[t];
        }
      }
      if from <= j < to && !(j < from + bs[0].n) {
        var t :| 0 <= t < |rest| && rest[t].off <= j < rest[t].off + rest[t].n;
        assert bs[t + 1] == rest[t];
      }
      forall t, u | 0 <= t < |bs| && 0 <= u < |bs|
          && bs[t].off <= j < bs[t].off + bs[t].n && bs[u].off <= j < bs[u].off + bs[u].n
        ensures t == u
      {
        if t > 0 && u > 0 {
          assert rest[t - 1] == bs[t] && rest[u - 1] == bs[u];
        }
      }
    }
  }

  /** Every block of a tiling of [from, to) starts at from or later. */
  lemma {:induction false} TilesAbove(bs: seq<Block>, from: nat, to: nat)
    requires Tiles(bs, from, to)
    ensures from <= to
    ensures forall t :: 0 <= t < |bs| ==> from <= bs[t].off && bs[t].off + bs[t].n <= to
    decreases |bs|
  {
    if |bs| > 0 {
      TilesAbove(bs[1..], from + bs[0].n, to);
      forall t | 0 <= t < |bs|
        ensures from <= bs[t].off && bs[t].off + bs[t].n <= to
      {
        if t > 0 {
          assert bs[1..][t - 1] == bs[t];
        }
      }
    }
  }

  /** Every float of [0, size) is visited by exactly one register, and none outside. */
  lemma ScheduleVisitsOnce(size: nat, j: nat)
    ensures var bs := Schedule(size);
            ((exists t :: 0 <= t < |bs| && bs[t].off <= j < bs[t].off + bs[t].n) <==> j < size)
            && forall t, u :: (0 <= t < |bs| && 0 <= u < |bs|
                 && bs[t].off <= j < bs[t].off + bs[t].n && bs[u].off <= j < bs[u].off + bs[u].n) ==> t == u
  {
    ScheduleTiles(size);
    TilesCoverOnce(Schedule(size), 0, size, j);
  }

  // ---------------------------------------------------------------------
  // NeuralProductSum

  /** The exact dot product of the first n floats of a and b. */
  function Dot(a: seq<real>, b: seq<real>, n: nat): real
    requires n <= |a| && n <= |b|
  {
    if n == 0 then 0.0 else Dot(a, b, n - 1) + a[n - 1] * b[n - 1]
  }

  /**
   * Equal factors give equal products.  Stated on bare reals so that the
   * callers, whose factors unfold into case splits, reach it by congruence.
   */
  lemma MulBoth(x1: real, x2: real, y1: real, y2: real)
    requires x1 == y1 && x2 == y2
    ensures x1 * x2 == y1 * y2
  {
  }

  /** The register products a[off + k] * b[off + k] of the first n lanes add up to a piece of the dot product. */
  lemma {:induction false} ProductLanes(a: seq<real>, b: seq<real>, off: nat, n: nat, p: seq<real>)
    requires n <= F && off + n <= |a| && off + n <= |b| && |p| == F
    requires forall k :: 0 <= k < F ==> p[k] == if k < n then a[off + k] * b[off + k] else 0.0
    ensures Sum(p) == Dot(a, b, off + n) - Dot(a, b, off)
  {
    SumPrefix(p, n);
    ProductPrefix(a, b, off, n, p);
  }

  lemma {:induction false} ProductPrefix(a: seq<real>, b: seq<real>, off: nat, n: nat, p: seq<real>)
    requires n <= |p| && off + n <= |a| && off + n <= |b|
    requires forall k :: 0 <= k < n ==> p[k] == a[off + k] * b[off + k]
    ensures Sum(p[..n]) == Dot(a, b, off + n) - Dot(a, b, off)
  {
    if n > 0 {
      ProductPrefix(a, b, off, n - 1, p);
      assert p[..n][..n - 1] == p[..n - 1];
    }
  }

  /** NeuralProductSum<align, mask>(a, b, offset, sum, m): sum += a * b on the enabled lanes. */
  function ProductStep(a: seq<real>, b: seq<real>, off: nat, sum: Vec, m: bv16, ghost n: nat): (r: Vec)
    requires FirstLanes(m, n) && off + n <= |a| && off + n <= |b|
    ensures Sum(r) == Sum(sum) + Dot(a, b, off + n) - Dot(a, b, off)
  {
    var v := Fma(Load(a, off, m), Load(b, off, m), sum);
    var p := Mul(Load(a, off, m), Load(b, off, m));
    ProductLanes(a, b, off, n, p);
    SumAdd(p, sum, v);
    v
  }

  /** One step of the unrolled loop: four full registers at i, i + F, i + 2F, i + 3F. */
  method ProductQuad(a: seq<real>, b: seq<real>, i: nat, s0: Vec, s1: Vec, s2: Vec, s3: Vec)
    returns (r0: Vec, r1: Vec, r2: Vec, r3: Vec)
    requires i + QF <= |a| && i + QF <= |b|
    ensures Sum(r0) + Sum(r1) + Sum(r2) + Sum(r3)
            == Sum(s0) + Sum(s1) + Sum(s2) + Sum(s3) + Dot(a, b, i + QF) - Dot(a, b, i)
  {
    FullMaskLanes();
    r0 := ProductStep(a, b, i + F * 0, s0, FullMask, F);
    r1 := ProductStep(a, b, i + F * 1, s1, FullMask, F);
    r2 := ProductStep(a, b, i + F * 2, s2, FullMask, F);
    r3 := ProductStep(a, b, i + F * 3, s3, FullMask, F);
  }

  /** The single-register loop of NeuralProductSum: from start up to end, one register at a time. */
  method ProductSingles(a: seq<real>, b: seq<real>, start: nat, end: nat, sum: Vec) returns (total: Vec)
    requires start <= end <= |a| && end <= |b| && start % F == 0 && end % F == 0
    requires Sum(sum) == Dot(a, b, start)
    ensures Sum(total) == Dot(a, b, end)
  {
    FullMaskLanes();
    total := sum;
    var i := start;
    while i < end
      invariant start <= i <= end && i % F == 0
      invariant Sum(total) == Dot(a, b, i)
    {
      StepWithin(i, end, F);
      total := ProductStep(a, b, i, total, FullMask, F);
      i := i + F;
    }
  }

  /** NeuralProductSum(a, b, size, sum): the dot product of the first size floats. */
  method ProductSum(a: seq<real>, b: seq<real>, size: nat) returns (sum: real)
    requires size <= |a| && size <= |b|
    ensures sum == Dot(a, b, size)
  {
    var partialAlignedSize := AlignLo(size, F);
    var fullAlignedSize := AlignLo(size, QF);
    AlignLoNested(size);
    FullMaskLanes();
    var i := 0;
    var sum0 := Splat(0.0);
    assert Sum(sum0) == 0.0 by { SumPrefix(sum0, 0); }
    if fullAlignedSize > 0 {
      sum0 := ProductQuads(a, b, fullAlignedSize);
      i := fullAlignedSize;
    }
    sum0 := ProductSingles(a, b, i, partialAlignedSize, sum0);
    sum0 := ProductTail(a, b, partialAlignedSize, size, sum0);
    sum := ExtractSumF32(sum0);
  }

  /** The masked tail of NeuralProductSum: the last size - start floats, when there are any. */
  method ProductTail(a: seq<real>, b: seq<real>, start: nat, size: nat, sum: Vec) returns (total: Vec)
    requires start == AlignLo(size, F) && size <= |a| && size <= |b|
    requires Sum(sum) == Dot(a, b, start)
    ensures Sum(total) == Dot(a, b, size)
  {
    total := sum;
    if start < size {
      var tailMask := TailMask(start, size);
      TailMaskLanes(start, size);
      total := ProductStep(a, b, start, total, tailMask, size - start);
    }
  }

  /**
   * The four-register part of NeuralProductSum: four accumulators over
   * the first end values, added together into one register.
   */
  method ProductQuads(a: seq<real>, b: seq<real>, end: nat) returns (total: Vec)
    requires end % QF == 0 && end <= |a| && end <= |b|
    ensures Sum(total) == Dot(a, b, end)
  {
    var sum0 := Splat(0.0);
    assert Sum(sum0) == 0.0 by { SumPrefix(sum0, 0); }
    var sum1, sum2, sum3 := sum0, sum0, sum0;
    var i := 0;
    while i < end
      invariant i <= end && i % QF == 0
      invariant Sum(sum0) + Sum(sum1) + Sum(sum2) + Sum(sum3) == Dot(a, b, i)
    {
      StepWithin(i, end, QF);
      sum0, sum1, sum2, sum3 := ProductQuad(a, b, i, sum0, sum1, sum2, sum3);
      i := i + QF;
    }
    var s01, s23 := Add(sum0, sum1), Add(sum2, sum3);
    SumAdd(sum0, sum1, s01);
    SumAdd(sum2, sum3, s23);
    total := Add(s01, s23);
    SumAdd(s01, s23, total);
  }

  // ---------------------------------------------------------------------
  // The in-place kernels

  /** What a kernel does to one lane. */
  datatype Kernel =
    | AddMultiplied(value: real)   // dst += value * src
    | AddVector                    // dst += src
    | AddValue(value: real)        // dst += value
    | Relu(slope: real)            // dst = max(slope * src, src)
    | ReluZero                     // dst = max(0, src)

  /** One lane of a kernel from the old src and dst lanes. */
  function LaneOf(op: Kernel, s: real, d: real): real {
    match op
    case AddMultiplied(value) => value * s + d
    case AddVector => s + d
    case AddValue(value) => d + value
    case Relu(slope) => MaxReal(slope * s, s)
    case ReluZero => MaxReal(0.0, s)
  }

  /** The register a kernel computes from a src and a dst register. */
  function RegisterOf(op: Kernel, s: Vec, d: Vec): (v: Vec)
    ensures forall k :: 0 <= k < F ==> v[k] == LaneOf(op, s[k], d[k])
  {
    match op
    case AddMultiplied(value) => Fma(Splat(value), s, d)
    case AddVector => Add(s, d)
    case AddValue(value) => Add(d, Splat(value))
    case Relu(slope) => Max(Mul(Splat(slope), s), s)
    case ReluZero => Max(Splat(0.0), s)
  }

  /**
   * The masked load / compute / masked store of one register: source lanes
   * from s at sOff, destination lanes at dOff.
   */
  method Step(op: Kernel, s: seq<real>, sOff: nat, dst: array<real>, dOff: nat, m: bv16, ghost n: nat)
    requires FirstLanes(m, n) && sOff + n <= |s| && dOff + n <= dst.Length
    modifies dst
    ensures forall p :: 0 <= p < dst.Length ==>
              dst[p] == if dOff <= p < dOff + n then LaneOf(op, s[p - dOff + sOff], old(dst[p])) else old(dst[p])
  {
    var v := RegisterOf(op, Load(s, sOff, m), Load(dst[..], dOff, m));
    Store(dst, dOff, v, m);
  }

  /**
   * The state after the kernel has processed the first i lanes: position p
   * of dst, for dOff <= p < dOff + i, holds the kernel applied to s[p - dOff]
   * and its old value d0[p]; every other position still holds d0[p].
   */
  ghost predicate DoneTo(op: Kernel, s: seq<real>, dst: array<real>, dOff: nat, d0: seq<real>, i: nat)
    reads dst
  {
    |d0| == dst.Length && i <= |s| && dOff + i <= dst.Length
    && forall p :: 0 <= p < dst.Length ==>
         dst[p] == if dOff <= p < dOff + i then LaneOf(op, s[p - dOff], d0[p]) else d0[p]
  }

  /** One register of the kernel moves the processed prefix forward by n. */
  method Advance(op: Kernel, s: seq<real>, dst: array<real>, dOff: nat, i: nat, m: bv16, ghost n: nat,
                 ghost d0: seq<real>)
    requires FirstLanes(m, n) && i + n <= |s| && dOff + i + n <= dst.Length
    requires DoneTo(op, s, dst, dOff, d0, i)
    modifies dst
    ensures DoneTo(op, s, dst, dOff, d0, i + n)
  {
    Step(op, s, i, dst, dOff + i, m, n);
  }

  /** One step of the unrolled loop: four full registers at i, i + F, i + 2F, i + 3F. */
  method AdvanceQuad(op: Kernel, s: seq<real>, dst: array<real>, dOff: nat, i: nat, ghost d0: seq<real>)
    requires i + QF <= |s| && dOff + i + QF <= dst.Length
    requires DoneTo(op, s, dst, dOff, d0, i)
    modifies dst
    ensures DoneTo(op, s, dst, dOff, d0, i + QF)
  {
    FullMaskLanes();
    Advance(op, s, dst, dOff, i + F * 0, FullMask, F, d0);
    Advance(op, s, dst, dOff, i + F * 1, FullMask, F, d0);
    Advance(op, s, dst, dOff, i + F * 2, FullMask, F, d0);
    Advance(op, s, dst, dOff, i + F * 3, FullMask, F, d0);
  }

  /** The four-register loop of the activation kernels: the first end elements, QF at a time. */
  method ApplyQuads(op: Kernel, s: seq<real>, dst: array<real>, dOff: nat, end: nat, ghost d0: seq<real>)
    requires end % QF == 0 && end <= |s| && dOff + end <= dst.Length
    requires DoneTo(op, s, dst, dOff, d0, 0)
    modifies dst
    ensures DoneTo(op, s, dst, dOff, d0, end)
  {
    var i := 0;
    while i < end
      invariant i <= end && i % QF == 0
      invariant DoneTo(op, s, dst, dOff, d0, i)
    {
      StepWithin(i, end, QF);
      AdvanceQuad(op, s, dst, dOff, i, d0);
      i := i + QF;
    }
  }

  /** The single-register loop of the activation kernels: from start up to end, F at a time. */
  method ApplySingles(op: Kernel, s: seq<real>, dst: array<real>, dOff: nat, start: nat, end: nat, ghost d0: seq<real>)
    requires start <= end <= |s| && start % F == 0 && end % F == 0 && dOff + end <= dst.Length
    requires DoneTo(op, s, dst, dOff, d0, start)
    modifies dst
    ensures DoneTo(op, s, dst, dOff, d0, end)
  {
    FullMaskLanes();
    var i := start;
    while i < end
      invariant start <= i <= end && i % F == 0
      invariant DoneTo(op, s, dst, dOff, d0, i)
    {
      StepWithin(i, end, F);
      Advance(op, s, dst, dOff, i, FullMask, F, d0);
      i := i + F;
    }
  }

  /**
   * The three-phase driver shared by AddMultiplied, AddVector, AddValue and
   * both branches of NeuralRelu: lane j of the source s meets position
   * dOff + j of dst, for j < size.
   */
  method Apply(op: Kernel, s: seq<real>, dst: array<real>, dOff: nat, size: nat)
    requires size <= |s| && dOff + size <= dst.Length
    modifies dst
    ensures forall p :: 0 <= p < dst.Length ==>
              dst[p] == if dOff <= p < dOff + size then LaneOf(op, s[p - dOff], old(dst[p])) else old(dst[p])
  {
    ghost var d0 := dst[..];
    var aligned, partial := AlignLo(size, QF), AlignLo(size, F);
    AlignLoNested(size);
    FullMaskLanes();
    ApplyQuads(op, s, dst, dOff, aligned, d0);
    ApplySingles(op, s, dst, dOff, aligned, partial, d0);
    var i := partial;
    if i < size {
      var tailMask := TailMask(i, size);
      TailMaskLanes(i, size);
      Advance(op, s, dst, dOff, i, tailMask, size - i, d0);
    }
  }

  /** NeuralAddVectorMultipliedByValue: dst[j] += value * src[j] for j < size. */
  method AddVectorMultipliedByValue(src: array<real>, size: nat, value: real, dst: array<real>)
    requires size <= src.Length && size <= dst.Length
    modifies dst
    ensures forall j :: 0 <= j < dst.Length ==>
              dst[j] == if j < size then old(dst[j]) + value * old(src[j]) else old(dst[j])
  {
    Apply(AddMultiplied(value), src[..], dst, 0, size);
  }

  /** NeuralAddVector: dst[j] += src[j] for j < size. */
  method AddVectorTo(src: array<real>, size: nat, dst: array<real>)
    requires size <= src.Length && size <= dst.Length
    modifies dst
    ensures forall j :: 0 <= j < dst.Length ==>
              dst[j] == if j < size then old(dst[j]) + old(src[j]) else old(dst[j])
  {
    Apply(AddVector, src[..], dst, 0, size);
  }

  /** NeuralAddValue: dst[j] += value for j < size. */
  method AddValueTo(value: real, dst: array<real>, size: nat)
    requires size <= dst.Length
    modifies dst
    ensures forall j :: 0 <= j < dst.Length ==>
              dst[j] == if j < size then old(dst[j]) + value else old(dst[j])
  {
    Apply(AddValue(value), dst[..], dst, 0, size);
  }

  /** The leaky rectifier with the given slope. */
  function LeakyRelu(x: real, slope: real): real {
    if x > 0.0 then x else slope * x
  }

  /** For 0 <= slope <= 1, both loops of NeuralRelu compute the leaky rectifier. */
  lemma ReluLanes(x: real, slope: real)
    requires 0.0 <= slope <= 1.0
    ensures slope != 0.0 ==> LaneOf(Relu(slope), x, 0.0) == LeakyRelu(x, slope)
    ensures slope == 0.0 ==> LaneOf(ReluZero, x, 0.0) == LeakyRelu(x, slope)
  {
    if x > 0.0 {
      assert slope * x <= 1.0 * x;
    } else {
      assert slope * x >= 1.0 * x;
    }
  }

  /** NeuralRelu: dst[j] = the leaky rectifier of src[j] for j < size (src may be dst). */
  method NeuralRelu(src: array<real>, size: nat, slope: real, dst: array<real>)
    requires 0.0 <= slope <= 1.0
    requires size <= src.Length && size <= dst.Length
    modifies dst
    ensures forall j :: 0 <= j < dst.Length ==>
              dst[j] == if j < size then LeakyRelu(old(src[j]), slope) else old(dst[j])
  {
    var op := if slope == 0.0 then ReluZero else Relu(slope);
    Apply(op, src[..], dst, 0, size);
    forall x: real { ReluLanes(x, slope); }
  }
}
