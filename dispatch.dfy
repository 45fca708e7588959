// Run-time dispatch of the public C API (SimdLib.cpp).
//
// Every public entry point either walks an if/else chain of
// "tier enabled && width guard" tests that ends in the portable Base
// implementation, or calls through a function pointer that was bound
// once, at static initialisation, to the first enabled tier of a fixed
// list.  The chains are modelled as data and one interpreter, Resolve,
// gives them their meaning.

module Dispatch {

  /** An instruction-set tier; Base is the portable scalar code. */
  datatype Tier =
    | Base | Sse | Sse2 | Sse3 | Ssse3 | Sse41 | Sse42 | Avx | Avx2
    | Avx512f | Avx512bw | Vmx | Vsx | Neon | Msa

  /** Bytes in one vector register of a tier (the tier's A constant). */
  function BytesPerVector(t: Tier): (a: nat)
    ensures t == Base <==> a == 1
    ensures a == 1 || a == 16 || a == 32 || a == 64
  {
    match t
    case Base => 1
    case Avx | Avx2 => 32
    case Avx512f | Avx512bw => 64
    case _ => 16
  }

  /** Floats in one vector register of a tier (the tier's F constant). */
  function FloatsPerVector(t: Tier): (f: nat)
    ensures f * 4 == BytesPerVector(t) || (t == Base && f == 1)
  {
    match t
    case Base => 1
    case Avx | Avx2 => 8
    case Avx512f | Avx512bw => 16
    case _ => 4
  }

  const SizeMod: int := 0x1_0000_0000_0000_0000
  /** SHRT_MAX of the C library. */
  const ShortMax: nat := 32767

  /** The arguments the guards inspect. */
  datatype Args = Args(width: nat, height: nat, channelCount: nat)

  /** The shape of one guard in a chain. */
  datatype Guard =
    | Always                      // "if (T::Enable)"
    | WidthAtLeast(n: nat)        // "width >= n"
    | WidthAbove(n: nat)          // "width > n"
    | StepWidthAtLeast(n: nat)    // "(width - 1)*channelCount >= n" in size_t
    | MomentsBounds(n: nat)       // "width >= n && width < SHRT_MAX && height < SHRT_MAX"

  /** (width - 1)*channelCount evaluated in 64-bit size_t arithmetic. */
  function StepWidth(a: Args): (s: int)
    ensures 0 <= s < SizeMod
  {
    (((a.width - 1) % SizeMod) * a.channelCount) % SizeMod
  }

  predicate Holds(g: Guard, a: Args) {
    match g
    case Always => true
    case WidthAtLeast(n) => a.width >= n
    case WidthAbove(n) => a.width > n
    case StepWidthAtLeast(n) => StepWidth(a) >= n
    case MomentsBounds(n) => a.width >= n && a.width < ShortMax && a.height < ShortMax
  }

  /** One "if (flag::Enable && guard) impl::Func(...); else" link. */
  datatype Branch = Branch(flag: Tier, guard: Guard, impl: Tier)

  predicate Fires(b: Branch, enabled: set<Tier>, a: Args) {
    b.flag in enabled && Holds(b.guard, a)
  }

  /** The implementation an if/else chain runs: the first firing branch, else Base. */
  function Resolve(chain: seq<Branch>, enabled: set<Tier>, a: Args): Tier
    decreases |chain|
  {
    if |chain| == 0 then Base
    else if Fires(chain[0], enabled, a) then chain[0].impl
    else Resolve(chain[1..], enabled, a)
  }

  /** Exactly one implementation runs: the first branch that fires, or Base when none does. */
  lemma {:induction false} ResolveIsFirstFiring(chain: seq<Branch>, enabled: set<Tier>, a: Args)
    ensures (forall i :: 0 <= i < |chain| ==> !Fires(chain[i], enabled, a)) ==> Resolve(chain, enabled, a) == Base
    ensures forall i :: 0 <= i < |chain| && Fires(chain[i], enabled, a) &&
                        (forall j :: 0 <= j < i ==> !Fires(chain[j], enabled, a)) ==>
              Resolve(chain, enabled, a) == chain[i].impl
    decreases |chain|
  {
    if |chain| > 0 {
      ResolveIsFirstFiring(chain[1..], enabled, a);
      forall i | 0 <= i < |chain| && Fires(chain[i], enabled, a) &&
                 (forall j :: 0 <= j < i ==> !Fires(chain[j], enabled, a))
        ensures Resolve(chain, enabled, a) == chain[i].impl
      {
        if i > 0 {
          assert !Fires(chain[0], enabled, a);
          assert chain[1..][i - 1] == chain[i];
          forall j | 0 <= j < i - 1 ensures !Fires(chain[1..][j], enabled, a) {
            assert chain[1..][j] == chain[j + 1];
          }
        }
      }
      if forall i :: 0 <= i < |chain| ==> !Fires(chain[i], enabled, a) {
        forall i | 0 <= i < |chain| - 1 ensures !Fires(chain[1..][i], enabled, a) {
          assert chain[1..][i] == chain[i + 1];
        }
      }
    }
  }

  /** A branch that fires after none did decides the chain. */
  lemma {:induction false} ResolveAt(chain: seq<Branch>, enabled: set<Tier>, a: Args, i: nat)
    requires i < |chain| && Fires(chain[i], enabled, a)
    requires forall j :: 0 <= j < i ==> !Fires(chain[j], enabled, a)
    ensures Resolve(chain, enabled, a) == chain[i].impl
  {
    ResolveIsFirstFiring(chain, enabled, a);
  }

  /** The tier Resolve picks is Base or the implementation of a branch that fires. */
  lemma {:induction false} ResolveSound(chain: seq<Branch>, enabled: set<Tier>, a: Args)
    ensures Resolve(chain, enabled, a) == Base ||
            exists i :: 0 <= i < |chain| && Fires(chain[i], enabled, a) && chain[i].impl == Resolve(chain, enabled, a)
    decreases |chain|
  {
    if |chain| > 0 && !Fires(chain[0], enabled, a) {
      ResolveSound(chain[1..], enabled, a);
      if Resolve(chain, enabled, a) != Base {
        var i :| 0 <= i < |chain[1..]| && Fires(chain[1..][i], enabled, a) && chain[1..][i].impl == Resolve(chain, enabled, a);
        assert chain[i + 1] == chain[1..][i];
      }
    }
  }

  // ---------------------------------------------------------------------
  // The chains of the modelled entry points.

  /** The public functions whose dispatch is modelled. */
  datatype Op =
    | AbsDifferenceSum | AbsDifferenceSums3x3 | BackgroundIncrementCount
    | BgraToBgr | BayerToBgr | GaussianBlur3x3 | Laplace | Histogram
    | GetStatistic | GetMoments | GetRowSums | GetColSums | GetAbsDyRowSums
    | GetAbsDxColSums | ValueSum | SquareSum | CorrelationSum
    | ConvolutionForward(core: nat) | ConvolutionSum(core: nat)
    | Pooling1x1Max3x3 | Pooling2x2Max2x2

  /** A branch whose implementation is the tier it tests. */
  function Same(t: Tier, g: Guard): Branch { Branch(t, g, t) }

  /** The chain shared by most 8-bit image functions: Avx512bw unguarded, the others need width >= A + extra. */
  function ByteChain(extra: nat): seq<Branch> {
    [ Same(Avx512bw, Always),
      Same(Avx2, WidthAtLeast(BytesPerVector(Avx2) + extra)),
      Same(Sse2, WidthAtLeast(BytesPerVector(Sse2) + extra)),
      Same(Vmx, WidthAtLeast(BytesPerVector(Vmx) + extra)),
      Same(Neon, WidthAtLeast(BytesPerVector(Neon) + extra)) ]
  }

  function Chain(op: Op): seq<Branch> {
    match op
    case AbsDifferenceSum => ByteChain(0)
    case AbsDifferenceSums3x3 => ByteChain(2)
    case BackgroundIncrementCount =>
      [Branch(Avx512bw, Always, Avx2)] + ByteChain(0)[1..]
    case BgraToBgr =>
      [ Same(Avx512bw, Always), Same(Ssse3, WidthAtLeast(BytesPerVector(Ssse3))),
        Same(Vmx, WidthAtLeast(BytesPerVector(Vmx))), Same(Neon, WidthAtLeast(BytesPerVector(Neon))) ]
    case BayerToBgr => []
    case Histogram => []
    case GaussianBlur3x3 =>
      [ Same(Avx512bw, StepWidthAtLeast(BytesPerVector(Avx512bw))),
        Same(Avx2, StepWidthAtLeast(BytesPerVector(Avx2))),
        Same(Ssse3, StepWidthAtLeast(BytesPerVector(Ssse3))),
        Same(Sse2, StepWidthAtLeast(BytesPerVector(Sse2))),
        Same(Vmx, StepWidthAtLeast(BytesPerVector(Vmx))),
        Same(Neon, StepWidthAtLeast(BytesPerVector(Neon))) ]
    case Laplace =>
      [ Same(Avx512bw, WidthAbove(BytesPerVector(Avx512bw))),
        Same(Avx2, WidthAbove(BytesPerVector(Avx2))),
        Same(Ssse3, WidthAbove(BytesPerVector(Ssse3))),
        Same(Sse2, WidthAbove(BytesPerVector(Sse2))),
        Same(Vmx, WidthAbove(BytesPerVector(Vmx))),
        Same(Neon, WidthAbove(BytesPerVector(Neon))) ]
    case GetMoments =>
      [ Same(Avx512bw, MomentsBounds(0)),
        Same(Avx2, MomentsBounds(BytesPerVector(Avx2))),
        Same(Sse2, MomentsBounds(BytesPerVector(Sse2))),
        Same(Vmx, MomentsBounds(BytesPerVector(Vmx))),
        Same(Neon, MomentsBounds(BytesPerVector(Neon))) ]
    case GetStatistic => ByteChain(0)
    case GetRowSums => ByteChain(0)
    case GetColSums => ByteChain(0)
    case GetAbsDyRowSums => ByteChain(0)
    case GetAbsDxColSums => ByteChain(0)
    case ValueSum => ByteChain(0)
    case SquareSum => ByteChain(0)
    case CorrelationSum => ByteChain(0)
    case ConvolutionForward(_) =>
      [ Same(Avx512f, WidthAtLeast(FloatsPerVector(Avx512f))),
        Same(Avx2, WidthAtLeast(FloatsPerVector(Avx2))),
        Same(Avx, WidthAtLeast(FloatsPerVector(Avx))),
        Same(Sse, WidthAtLeast(FloatsPerVector(Sse))),
        Same(Neon, WidthAtLeast(FloatsPerVector(Neon))) ]
    case ConvolutionSum(_) =>
      [ Same(Avx512f, WidthAtLeast(FloatsPerVector(Avx512f))),
        Same(Avx2, WidthAtLeast(FloatsPerVector(Avx2))),
        Same(Avx, WidthAtLeast(FloatsPerVector(Avx))),
        Same(Sse3, WidthAtLeast(FloatsPerVector(Sse3))),
        Same(Sse, WidthAtLeast(FloatsPerVector(Sse))),
        Same(Neon, WidthAtLeast(FloatsPerVector(Neon))) ]
    case Pooling1x1Max3x3 =>
      [ Same(Avx512f, WidthAbove(FloatsPerVector(Avx512f))),
        Same(Avx2, WidthAbove(FloatsPerVector(Avx2))),
        Same(Sse, WidthAbove(FloatsPerVector(Sse))),
        Same(Neon, WidthAbove(FloatsPerVector(Neon))) ]
    case Pooling2x2Max2x2 =>
      [ Same(Avx512f, WidthAtLeast(2 * FloatsPerVector(Avx512f))),
        Same(Avx, WidthAtLeast(2 * FloatsPerVector(Avx))),
        Same(Sse, WidthAtLeast(2 * FloatsPerVector(Sse))),
        Same(Neon, WidthAtLeast(2 * FloatsPerVector(Neon))) ]
  }

  /** The implementation tier a call of op with these arguments runs on this CPU. */
  function Dispatch(op: Op, enabled: set<Tier>, a: Args): Tier {
    Resolve(Chain(op), enabled, a)
  }

  /** With no tier enabled every call runs Base. */
  lemma NothingEnabledRunsBase(op: Op, a: Args)
    ensures Dispatch(op, {}, a) == Base
  {
    ResolveIsFirstFiring(Chain(op), {}, a);
  }

  /** Functions with no SIMD branch always run Base, whatever the CPU. */
  lemma ScalarOnlyOps(enabled: set<Tier>, a: Args)
    ensures Dispatch(Histogram, enabled, a) == Base
    ensures Dispatch(BayerToBgr, enabled, a) == Base
  {
  }

  /** The 8-bit functions give Avx512bw no width guard: any width, even below one vector, runs Avx512bw. */
  lemma Avx512bwUnguarded(op: Op, enabled: set<Tier>, a: Args)
    requires op in {AbsDifferenceSum, AbsDifferenceSums3x3, BgraToBgr, GetStatistic, GetRowSums, GetColSums,
                    GetAbsDyRowSums, GetAbsDxColSums, ValueSum, SquareSum, CorrelationSum}
    requires Avx512bw in enabled
    ensures Dispatch(op, enabled, a) == Avx512bw
  {
    ResolveIsFirstFiring(Chain(op), enabled, a);
    ResolveSound(Chain(op), enabled, a);

  }

  /** BackgroundIncrementCount tests Avx512bw but runs the Avx2 code, with no width guard. */
  lemma BackgroundIncrementCountRunsAvx2(enabled: set<Tier>, a: Args)
    requires Avx512bw in enabled
    ensures Dispatch(BackgroundIncrementCount, enabled, a) == Avx2
  {
    ResolveIsFirstFiring(Chain(BackgroundIncrementCount), enabled, a);
    ResolveSound(Chain(BackgroundIncrementCount), enabled, a);

  }

  /** The 8-bit chains below Avx512bw: a tier runs iff it is the first enabled one whose A + extra fits in width. */
  lemma ByteChainThreshold(extra: nat, enabled: set<Tier>, a: Args)
    requires Avx512bw !in enabled
    ensures Resolve(ByteChain(extra), enabled, a) == Avx2 <==> Avx2 in enabled && a.width >= 32 + extra
    ensures Avx2 !in enabled ==>
              (Resolve(ByteChain(extra), enabled, a) == Sse2 <==> Sse2 in enabled && a.width >= 16 + extra)
    ensures a.width < 16 + extra ==> Resolve(ByteChain(extra), enabled, a) == Base
  {
    var c := ByteChain(extra);
    ResolveSound(c, enabled, a);
    if Avx2 in enabled && a.width >= 32 + extra {
      ResolveAt(c, enabled, a, 1);
    } else if Avx2 !in enabled && Sse2 in enabled && a.width >= 16 + extra {
      ResolveAt(c, enabled, a, 2);
    }

  }

  /** GaussianBlur3x3 selects Avx512bw iff (width - 1)*channelCount, in size_t, reaches 64. */
  lemma GaussianBlurThreshold(enabled: set<Tier>, a: Args)
    requires Avx512bw in enabled
    ensures Dispatch(GaussianBlur3x3, enabled, a) == Avx512bw <==> StepWidth(a) >= 64
  {
    ResolveIsFirstFiring(Chain(GaussianBlur3x3), enabled, a);
    ResolveSound(Chain(GaussianBlur3x3), enabled, a);

  }

  /** Without wrap-around the size_t product is the plain one. */
  lemma StepWidthNoWrap(a: Args)
    requires 1 <= a.width <= SizeMod && (a.width - 1) * a.channelCount < SizeMod
    ensures StepWidth(a) == (a.width - 1) * a.channelCount
  {
    assert (a.width - 1) % SizeMod == a.width - 1;
  }

  /** A zero width wraps (width - 1) around in size_t, so the guard passes and the vector code is chosen. */
  lemma GaussianBlurZeroWidthWraps(enabled: set<Tier>)
    requires Avx512bw in enabled
    ensures Dispatch(GaussianBlur3x3, enabled, Args(0, 1, 1)) == Avx512bw
  {
    assert StepWidth(Args(0, 1, 1)) == SizeMod - 1;
  }

  /**
   * The GaussianBlur3x3 guard value as intended, over the integers: it agrees
   * with the size_t one wherever that does not wrap, and at width 0 no tier's
   * threshold is reached, so the scalar code runs.
   */
  function StepWidthIntended(a: Args): (s: int)
    ensures a.width == 0 ==> s <= 0
    ensures 1 <= a.width <= SizeMod && (a.width - 1) * a.channelCount < SizeMod ==> s == StepWidth(a)
  {
    NoWrapAgrees(a);
    (a.width - 1) * a.channelCount
  }

  lemma NoWrapAgrees(a: Args)
    ensures 1 <= a.width <= SizeMod && (a.width - 1) * a.channelCount < SizeMod ==>
              StepWidth(a) == (a.width - 1) * a.channelCount
  {
    if 1 <= a.width <= SizeMod && (a.width - 1) * a.channelCount < SizeMod {
      StepWidthNoWrap(a);
    }
  }

  /**
   * GetStatistic gives Avx512bw no width guard, although the kernel asserts
   * width >= A: a one-pixel image reaches it with width 1 < 64.
   */
  lemma GetStatisticNarrowReachesKernel(enabled: set<Tier>)
    requires Avx512bw in enabled
    ensures Dispatch(GetStatistic, enabled, Args(1, 1, 1)) == Avx512bw
    ensures Args(1, 1, 1).width < BytesPerVector(Avx512bw)
  {
    Avx512bwUnguarded(GetStatistic, enabled, Args(1, 1, 1));
  }

  /** Laplace needs width strictly above A: width == A falls through to the next tier. */
  lemma LaplaceStrictGuard(a: Args)
    ensures a.width == 64 ==> Dispatch(Laplace, {Avx512bw, Avx2}, a) == Avx2
    ensures a.width == 32 ==> Dispatch(Laplace, {Avx2}, a) == Base
  {
    var c := Chain(Laplace);
    ResolveSound(c, {Avx2}, a);
    if a.width == 64 {
      ResolveAt(c, {Avx512bw, Avx2}, a, 1);
    }
  }

  /** Laplace runs Avx512bw exactly when width is above 64. */
  lemma LaplaceAvx512bwGuard(a: Args)
    ensures Dispatch(Laplace, {Avx512bw}, a) == Avx512bw <==> a.width > 64
  {
    ResolveSound(Chain(Laplace), {Avx512bw}, a);
  }

  /** Vector GetMoments runs only for width and height below SHRT_MAX. */
  lemma {:induction false} MomentsBounded(enabled: set<Tier>, a: Args)
    ensures Dispatch(GetMoments, enabled, a) != Base ==> a.width < ShortMax && a.height < ShortMax
    ensures Avx512bw in enabled ==>
              (Dispatch(GetMoments, enabled, a) == Avx512bw <==> a.width < ShortMax && a.height < ShortMax)
  {
    var c := Chain(GetMoments);
    ResolveSound(c, enabled, a);
    if Avx512bw in enabled && a.width < ShortMax && a.height < ShortMax {
      ResolveAt(c, enabled, a, 0);
    }
    if Dispatch(GetMoments, enabled, a) != Base {
      var i :| 0 <= i < |c| && Fires(c[i], enabled, a) && c[i].impl == Dispatch(GetMoments, enabled, a);
      assert c[i].guard.MomentsBounds?;
    }
  }

  /** The convolution forward chain picks the widest enabled float tier whose F fits in width. */
  lemma ForwardPriority(core: nat, enabled: set<Tier>, a: Args)
    ensures Avx512f in enabled && a.width >= 16 ==> Dispatch(ConvolutionForward(core), enabled, a) == Avx512f
    ensures Avx512f in enabled && Avx2 in enabled && 8 <= a.width < 16 ==>
              Dispatch(ConvolutionForward(core), enabled, a) == Avx2
    ensures a.width < 4 ==> Dispatch(ConvolutionForward(core), enabled, a) == Base
  {
    ResolveIsFirstFiring(Chain(ConvolutionForward(core)), enabled, a);
    ResolveSound(Chain(ConvolutionForward(core)), enabled, a);

  }

  /** Pooling1x1Max3x3 needs width > F. */
  lemma Pooling3x3Guard(enabled: set<Tier>, a: Args)
    requires Avx512f in enabled
    ensures Dispatch(Pooling1x1Max3x3, enabled, a) == Avx512f <==> a.width > 16
  {
    ResolveSound(Chain(Pooling1x1Max3x3), enabled, a);
  }

  /** Pooling2x2Max2x2 needs width >= 2F. */
  lemma Pooling2x2Guard(enabled: set<Tier>, a: Args)
    requires Avx512f in enabled
    ensures Dispatch(Pooling2x2Max2x2, enabled, a) == Avx512f <==> a.width >= 32
  {
    ResolveSound(Chain(Pooling2x2Max2x2), enabled, a);
  }

  // ---------------------------------------------------------------------
  // Function pointers bound once by SIMD_FUNCn.

  /** SIMD_FUNCn(func, T1, ..., Tn): the first enabled tier of the list, else Base. */
  function Bind(tiers: seq<Tier>, enabled: set<Tier>): Tier
    decreases |tiers|
  {
    if |tiers| == 0 then Base
    else if tiers[0] in enabled then tiers[0]
    else Bind(tiers[1..], enabled)
  }

  /** The binding as an if/else chain with no guard. */
  function Unguarded(tiers: seq<Tier>): (c: seq<Branch>)
    ensures |c| == |tiers|
    ensures forall i :: 0 <= i < |c| ==> c[i] == Same(tiers[i], Always)
  {
    seq(|tiers|, i requires 0 <= i < |tiers| => Same(tiers[i], Always))
  }

  /** A bound pointer behaves as an unguarded chain: the call's width and height play no part. */
  lemma {:induction false} BindIsUnguardedChain(tiers: seq<Tier>, enabled: set<Tier>, a: Args)
    ensures Bind(tiers, enabled) == Resolve(Unguarded(tiers), enabled, a)
    decreases |tiers|
  {
    if |tiers| > 0 {
      BindIsUnguardedChain(tiers[1..], enabled, a);
      assert Unguarded(tiers)[1..] == Unguarded(tiers[1..]);
    }
  }

  /** The functions reached through SIMD_FUNCn pointers. */
  datatype BoundOp =
    | ProductSum | AddVectorMultipliedByValue | AddVector | AddValue | Relu
    | ConvolutionBackward(core: nat)

  function BindList(op: BoundOp): seq<Tier> {
    match op
    case ProductSum => [Avx512f, Avx2, Avx, Sse, Vsx, Neon]
    case AddVectorMultipliedByValue => [Avx512f, Avx2, Avx, Sse, Neon]
    case AddVector => [Avx512f, Avx, Sse, Neon]
    case AddValue => [Avx512f, Avx, Sse, Neon]
    case Relu => [Avx512f, Avx, Sse, Neon]
    case ConvolutionBackward(_) => [Avx512f, Avx2, Avx, Sse, Neon]
  }

  /** Once Avx512f is enabled every bound neural pointer targets the Avx512f kernel. */
  lemma BoundPrefersAvx512f(op: BoundOp, enabled: set<Tier>)
    requires Avx512f in enabled
    ensures Bind(BindList(op), enabled) == Avx512f
  {
  }

  /** The bound tier is one of the listed tiers that is enabled, or Base. */
  lemma {:induction false} BindSound(tiers: seq<Tier>, enabled: set<Tier>)
    ensures Bind(tiers, enabled) == Base || (Bind(tiers, enabled) in tiers && Bind(tiers, enabled) in enabled)
    decreases |tiers|
  {
    if |tiers| > 0 && tiers[0] !in enabled {
      BindSound(tiers[1..], enabled);
    }
  }

  // ---------------------------------------------------------------------
  // SimdCpuInfo

  /** Bit position of a tier in the SimdCpuInfo mask (its SimdCpuInfoType value). */
  function InfoBit(t: Tier): (b: bv32)
    requires t != Base
    ensures b < 14
  {
    match t
    case Sse => 0 case Sse2 => 1 case Sse3 => 2 case Ssse3 => 3 case Sse41 => 4
    case Sse42 => 5 case Avx => 6 case Avx2 => 7 case Avx512f => 8 case Avx512bw => 9
    case Vmx => 10 case Vsx => 11 case Neon => 12 case Msa => 13
  }

  /** The tier SimdCpuInfo tests at a bit position, in the order it tests them. */
  function TierAt(p: bv32): (t: Tier)
    requires p < 14
    ensures t != Base && InfoBit(t) == p
  {
    if p == 0 then Sse else if p == 1 then Sse2 else if p == 2 then Sse3 else if p == 3 then Ssse3
    else if p == 4 then Sse41 else if p == 5 then Sse42 else if p == 6 then Avx else if p == 7 then Avx2
    else if p == 8 then Avx512f else if p == 9 then Avx512bw else if p == 10 then Vmx else if p == 11 then Vsx
    else if p == 12 then Neon else Msa
  }

  /** Whether bit b of the mask x is set. */
  predicate BitSet(x: bv32, b: bv32)
    requires b < 32
  {
    (x >> b) & 1 == 1
  }

  /** Or-ing in bit k when on keeps info below bit k + 1. */
  lemma OrBelow(info: bv32, k: bv32, on: bool)
    requires k < 14 && info < 1 << k
    ensures info | (if on then 1 << k else 0) < 1 << (k + 1)
  {
  }

  /** Or-ing in bit k when on sets bit k exactly when on, if it was clear. */
  lemma OrAt(info: bv32, k: bv32, on: bool)
    requires k < 14 && info < 1 << k
    ensures BitSet(info | (if on then 1 << k else 0), k) == on
  {
  }

  /** Or-ing in bit k leaves the bits below k as they were. */
  lemma OrKeeps(info: bv32, k: bv32, on: bool)
    requires k < 14
    ensures forall j: bv32 :: j < k ==> BitSet(info | (if on then 1 << k else 0), j) == BitSet(info, j)
  {
  }

  /** The bits below p of info record the tiers below p, and info has no bit from p up. */
  ghost predicate Recorded(info: bv32, p: bv32, enabled: set<Tier>)
  {
    p <= 14 && info < 1 << p && forall j: bv32 :: j < p ==> (BitSet(info, j) <==> TierAt(j) in enabled)
  }

  /** One "info |= T::Enable ? (1 << bit) : 0" statement, for the tier at bit p. */
  method Record(info: bv32, p: bv32, enabled: set<Tier>) returns (next: bv32)
    requires p < 14 && Recorded(info, p, enabled)
    ensures Recorded(next, p + 1, enabled)
  {
    var on := TierAt(p) in enabled;
    OrBelow(info, p, on);
    OrAt(info, p, on);
    OrKeeps(info, p, on);
    next := info | (if on then 1 << p else 0);
  }

  /** Once every tier is recorded, the bit of each tier is set iff it is enabled. */
  lemma RecordedTiers(info: bv32, enabled: set<Tier>)
    requires Recorded(info, 14, enabled)
    ensures forall t :: t != Base ==> (BitSet(info, InfoBit(t)) <==> t in enabled)
  {
    forall t | t != Base ensures BitSet(info, InfoBit(t)) <==> t in enabled {
      assert TierAt(InfoBit(t)) == t;
    }
  }

  /** SimdCpuInfo: "info |= T::Enable ? (1 << bit) : 0" for each tier in turn.  The bit
      of each tier is set iff that tier is enabled, and no higher bit is set. */
  method CpuInfo(enabled: set<Tier>) returns (info: bv32)
    ensures forall t :: t != Base ==> (BitSet(info, InfoBit(t)) <==> t in enabled)
    ensures info < 1 << 14
  {
    info := 0;
    var p: bv32 := 0;
    while p < 14
      invariant Recorded(info, p, enabled)
    {
      info := Record(info, p, enabled);
      p := p + 1;
    }
    RecordedTiers(info, enabled);
  }
}
