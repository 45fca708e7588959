# Simd library kernels in Dafny

This project models part of the Simd image-processing library and proves what
the modelled code computes. The model covers:

- **Dispatch** (`SimdLib.cpp`). Each public `Simd*` function is an if/else
  chain over instruction-set tiers, and each tier has a width guard. Some
  functions are bound once through `SIMD_FUNCn` pointers instead.
  `SimdCpuInfo` reports the enabled tiers as a bit mask.
- **The AVX-512F neural kernels** (`SimdAvx512fNeural.cpp`):
  - the vector kernels: product sum, add vector, add multiplied, add value and leaky ReLU;
  - the 2x2 to 5x5 convolutions, forward, backward and weight-gradient ("sum"), together with the rotating row `Buffer` of the backward pass;
  - the 1x1 max pooling over a 3x3 window and the 2x2 max pooling.
- **The AVX-512BW statistics kernels** (`SimdAvx512bwStatistic.cpp`):
  - `GetStatistic`;
  - `GetMoments`, both the small and the large strategy;
  - the row and column sums, and the absolute-difference row and column sums;
  - `ValueSum`, `SquareSum` and `CorrelationSum`.
- **The register reductions** of `Simd/SimdExtract.h`.
- **`GaussianBlur3x3`** (`SimdAvx512bwGaussianBlur3x3.cpp`), with its three-row buffer.
- **`BgraToBgr`** (`SimdAvx512bwBgraToBgr.cpp`), with its shuffle and permute tables.

Each kernel is modelled in the form the source has:

- A loop over registers is a `method` with a `while` loop and invariants.
- An image the kernel writes is one `array` per row (`seq<array<real>>`), or an `array2`.
- The backward convolution's row buffer and the Gaussian blur's row buffers are classes over a single allocation. Their fields are updated in place.
- A register is a sequence of lanes.
- Wrap-around is tracked explicitly. A register whose lanes wrap modulo 2^16, 2^32 or 2^64 is paired with ghost exact totals.

Every driver is proved against an independent reference definition of what it
computes:

| driver | reference |
|---|---|
| forward convolution | `ForwardAt`, the window sum |
| backward convolution | `BackwardAt`, the transposed convolution |
| convolution sums | `GradRef`, the plain double sum |
| 3x3 max pooling | `Pool3At`, the clipped neighbourhood maximum |
| 2x2 max pooling | `Pool2At`, the clipped block maximum |
| row, column and image sums | exact integer sums, reduced as the C result type reduces them |
| `GetMoments` | `ImageMoment`, the exact moments of the pixels equal to index (padding lanes excluded, see Findings) |
| Gaussian blur | `Blur`, the clamped 1-2-1 x 1-2-1 kernel with rounding |
| `BgraToBgr` | `Bgr`, dropping every fourth byte |

Lemmas relate the references to what the source promises:

- the pooling references are maxima;
- the gradient reference is the plain double sum;
- the statistics are exact below stated sizes;
- the average is the rounded mean;
- a constant image blurs to itself;
- alpha never reaches the BGR output.

## Model

| member | source | states |
|---|---|---|
| Lanes.AlignLo | Sources/simdlib/SimdAvx512fNeural.cpp:46-47 | AlignLo(x, a) is a multiple of a, at most x, and within a of x |
| Lanes.AlignHi | Sources/simdlib/SimdAvx512bwGaussianBlur3x3.cpp:109 | AlignHi(x, a) is a multiple of a, at least x, and less than x + a |
| Lanes.StepWithin | Sources/simdlib/SimdAvx512fNeural.cpp:55-65 | a register loop over multiples of a that has not reached its aligned end still has a whole register left |
| Lanes.AlignLoNested | Sources/simdlib/SimdAvx512fNeural.cpp:46-47 | the four-register loop bound AlignLo(x, QF) is a multiple of F no larger than AlignLo(x, F) |
| Lanes.TailMaskLanes | Sources/simdlib/SimdAvx512fNeural.cpp:66-70 | the tail mask __mmask16(-1) >> (F + i - size) enables exactly the size - i lanes still to do |
| Lanes.Load | Sources/simdlib/SimdAvx512fNeural.cpp:36-37 | a masked load takes the enabled lanes from memory and zeroes the others |
| Lanes.Store | Sources/simdlib/SimdAvx512fNeural.cpp:86 | a masked store writes exactly the enabled lanes and leaves every other element unchanged |
| Lanes.SumConcat | Sources/simdlib/SimdAvx512fNeural.cpp:62-71 | a lane sum splits at any point |
| FiniteSums.SumReverse | Sources/simdlib/SimdAvx512fNeural.cpp:615-619 | adding the terms in the opposite order gives the same sum (used for the reversed backward weights) |
| Extract.Wrap | Sources/simdlib/Simd/SimdExtract.h:183-192 | the value of x as a C integer type: congruent to x modulo 2^(8*bytes) and inside the type's range, for signed and unsigned types |
| Extract.WrapAdd | Sources/simdlib/Simd/SimdExtract.h:189-190 | wrapping after every addition equals wrapping once at the end |
| Extract.WrapUnsigned | Sources/simdlib/Simd/SimdExtract.h:194-207 | an unsigned 32/64-bit type keeps the remainder modulo 2^32/2^64 |
| Extract.ExtractSum | Sources/simdlib/Simd/SimdExtract.h:183-192 | the generic loop over the A / sizeof(T) lanes returns the exact lane sum wrapped to T |
| Extract.ExtractSumU32 | Sources/simdlib/Simd/SimdExtract.h:194-199 | the uint32_t reduction tree (two halvings, two hadds) agrees with the generic sum: the lane total modulo 2^32 |
| Extract.Tree16 | Sources/simdlib/Simd/SimdExtract.h:196-198 | the 16-lane reduction tree with every 32-bit addition wrapping yields the total modulo 2^32 |
| Extract.Quarters | Sources/simdlib/Simd/SimdExtract.h:196-197 | after two halvings lane k holds the sum of lanes k, k+4, k+8, k+12 modulo m |
| Extract.Combine4 | Sources/simdlib/Simd/SimdExtract.h:198 | two horizontal adds of four wrapped partial sums give the total modulo m |
| Extract.ExtractSumU64 | Sources/simdlib/Simd/SimdExtract.h:202-207 | the uint64_t reduction tree agrees with the generic sum: the lane total modulo 2^64 |
| Extract.Tree8 | Sources/simdlib/Simd/SimdExtract.h:204-206 | the 8-lane reduction tree with wrapping 64-bit additions yields the total modulo 2^64 |
| Extract.ExtractSumF32 | Sources/simdlib/Simd/SimdExtract.h:171-176 | the quarter-add and double-hadd reduction of a float register is the sum of its 16 lanes |
| Extract.ExtractSumF32x4 | Sources/simdlib/Simd/SimdExtract.h:41-46 | the four-lane float sum is the lane sum |
| Extract.ExtractInt8 | Sources/simdlib/Simd/SimdExtract.h:53-56 | shift by index & 1, 16-bit extract of lane index >> 1 and masking to the low byte return byte index of the register |
| Extract.ExtractInt64 | Sources/simdlib/Simd/SimdExtract.h:75-82 | the 32-bit fallback (signed high half times 2^32 plus unsigned low half) equals the signed 64-bit lane of the x64 path |
| Extract.Avx2Extract | Sources/simdlib/Simd/SimdExtract.h:125-132 | the extracted lane of a register of bytes is a value of the lane type |
| Extract.Avx2ExtractLanes | Sources/simdlib/Simd/SimdExtract.h:125-132 | the lanes Extract returns for index 0 .. A/sizeof(T) - 1, read as digits, give back the whole register: each byte is read exactly once |
| Extract.LittleEndianConcat | Sources/simdlib/Simd/SimdExtract.h:129-131 | the value of a concatenated byte string is the low part plus the high part shifted by the low part's width |
| ByteLanes.LoadBytes | Sources/simdlib/SimdAvx512bwStatistic.cpp:44 | a masked byte load under TailMask64(n) holds the n bytes from col and zeros |
| ByteLanes.Sad | Sources/simdlib/SimdAvx512bwStatistic.cpp:376-381 | _mm512_sad_epu8: 64-bit lane i is the sum of absolute differences over bytes 8i .. 8i+7 |
| ByteLanes.SadTotal | Sources/simdlib/SimdAvx512bwStatistic.cpp:376-381 | the SAD lanes add up to all 64 absolute differences |
| ByteLanes.SadBound | Sources/simdlib/SimdAvx512bwStatistic.cpp:376-381 | every SAD lane of bytes is at most 8 * 255 |
| ByteLanes.TracksAdd | Sources/simdlib/SimdAvx512bwStatistic.cpp:39 | adding two wrapping registers tracks the exact sum of their totals |
| ByteLanes.TracksSum | Sources/simdlib/SimdAvx512bwStatistic.cpp:88 | a wrapping register's lane sum agrees with its exact total modulo m |
| ByteLanes.TracksNoWrap | Sources/simdlib/SimdAvx512bwStatistic.cpp:169-190 | a register whose exact totals stay below m holds them unchanged |
| ByteLanes.TracksExtract32 | Sources/simdlib/SimdAvx512bwStatistic.cpp:283 | ExtractSum<uint32_t> of a wrapping register is its exact total modulo 2^32 |
| ByteLanes.TracksExtract64 | Sources/simdlib/SimdAvx512bwStatistic.cpp:488 | ExtractSum<uint64_t> of a wrapping register is its exact total modulo 2^64 |
| ByteLanes.PairSumsTotal | Sources/simdlib/SimdAvx512bwStatistic.cpp:186-190 | adding adjacent lanes keeps the total |
| ByteLanes.HorizontalSum32 | Sources/simdlib/SimdAvx512bwStatistic.cpp:186-190 | the widening of 32-bit lanes into 64-bit lanes preserves the total and keeps every lane below 2^33 |
| Dispatch.BytesPerVector | Sources/simdlib/SimdLib.cpp:4232-4257 | the A of a tier: 1 for Base, 16, 32 or 64 bytes otherwise |
| Dispatch.FloatsPerVector | Sources/simdlib/SimdLib.cpp:2934-2959 | the F of a tier is a quarter of its A (one float for Base) |
| Dispatch.StepWidth | Sources/simdlib/SimdLib.cpp:1955 | (width - 1) * channelCount as a 64-bit size_t: always in [0, 2^64) |
| Dispatch.ResolveIsFirstFiring | Sources/simdlib/SimdLib.cpp:4229-4258 | an if/else chain runs the implementation of its first firing branch, and Base when no branch fires |
| Dispatch.ResolveAt | Sources/simdlib/SimdLib.cpp:4229-4258 | a branch that fires after none has fired decides the chain |
| Dispatch.ResolveSound | Sources/simdlib/SimdLib.cpp:4229-4258 | the chosen tier is Base or the implementation of a branch that fires |
| Dispatch.NothingEnabledRunsBase | Sources/simdlib/SimdLib.cpp:4257 | with no tier enabled every modelled public function runs Base |
| Dispatch.ScalarOnlyOps | Sources/simdlib/SimdLib.cpp:2077-2080 | SimdHistogram and SimdBayerToBgr run Base whatever the CPU |
| Dispatch.Avx512bwUnguarded | Sources/simdlib/SimdLib.cpp:4232-4235 | the 8-bit functions select Avx512bw with no width guard, whenever it is enabled |
| Dispatch.BackgroundIncrementCountRunsAvx2 | Sources/simdlib/SimdLib.cpp:445-447 | SimdBackgroundIncrementCount tests Avx512bw but runs the Avx2 kernel, with no width guard |
| Dispatch.ByteChainThreshold | Sources/simdlib/SimdLib.cpp:4237-4257 | with Avx512bw not enabled, Avx2 runs iff it is enabled and width >= 32 (plus the function's margin); with Avx2 off too, Sse2 runs iff it is enabled and width >= 16 (plus the margin); below that the call runs Base |
| Dispatch.GaussianBlurThreshold | Sources/simdlib/SimdLib.cpp:1951-1985 | SimdGaussianBlur3x3 selects Avx512bw iff it is enabled and the size_t value (width - 1) * channelCount reaches 64 |
| Dispatch.StepWidthNoWrap | Sources/simdlib/SimdLib.cpp:1955 | for width >= 1 and a product below 2^64, the size_t guard value is the plain product |
| Dispatch.GaussianBlurZeroWidthWraps | Sources/simdlib/SimdLib.cpp:1955 | finding: width 0 wraps width - 1 in size_t, so the guard passes and the vector kernel is chosen |
| Dispatch.StepWidthIntended | Sources/simdlib/SimdLib.cpp:1955 | the guard value as intended, over the integers: equal to the size_t value wherever that does not wrap, and never positive at width 0, so no vector tier is chosen there |
| Dispatch.GetStatisticNarrowReachesKernel | Sources/simdlib/SimdLib.cpp:4232-4234 | finding: a one-pixel image reaches the Avx512bw GetStatistic kernel, whose assert demands width >= 64 |
| Dispatch.LaplaceStrictGuard | Sources/simdlib/SimdLib.cpp:2502-2535 | SimdLaplace needs width strictly above A: width == A falls through to the next tier |
| Dispatch.LaplaceAvx512bwGuard | Sources/simdlib/SimdLib.cpp:2505 | SimdLaplace runs Avx512bw exactly when width > 64 |
| Dispatch.MomentsBounded | Sources/simdlib/SimdLib.cpp:4260-4289 | a vector GetMoments only runs for width and height below SHRT_MAX |
| Dispatch.ForwardPriority | Sources/simdlib/SimdLib.cpp:2932-2960 | the convolution forward chain runs Avx512f when it is enabled and width >= 16, Avx2 for width 8 .. 15 when both are enabled, and Base below width 4 |
| Dispatch.Pooling3x3Guard | Sources/simdlib/SimdLib.cpp:3224-3247 | SimdNeuralPooling1x1Max3x3 runs Avx512f iff it is enabled and width > 16 |
| Dispatch.Pooling2x2Guard | Sources/simdlib/SimdLib.cpp:3249-3272 | SimdNeuralPooling2x2Max2x2 runs Avx512f iff it is enabled and width >= 32 |
| Dispatch.Unguarded | Sources/simdlib/SimdLib.cpp:2813 | a SIMD_FUNCn list is an if/else chain of guard-free branches, one per tier |
| Dispatch.BindIsUnguardedChain | Sources/simdlib/SimdLib.cpp:2813-2839 | a bound pointer runs the first enabled tier of its list, exactly as an unguarded chain would, whatever the call's arguments |
| Dispatch.BoundPrefersAvx512f | Sources/simdlib/SimdLib.cpp:2813-2909 | once Avx512f is enabled every bound neural pointer targets the Avx512f kernel |
| Dispatch.BindSound | Sources/simdlib/SimdLib.cpp:2813-2925 | the bound tier is an enabled tier of the list, or Base |
| Dispatch.InfoBit | Sources/simdlib/SimdLib.cpp:77-116 | every tier has its own bit position below 14 |
| Dispatch.TierAt | Sources/simdlib/SimdLib.cpp:77-116 | the tier probed at a bit position has that position as its bit |
| Dispatch.OrAt | Sources/simdlib/SimdLib.cpp:77 | info \|= Enable ? (1 << k) : 0 sets bit k exactly when the tier is enabled |
| Dispatch.OrKeeps | Sources/simdlib/SimdLib.cpp:77 | the same statement leaves the bits below k unchanged |
| Dispatch.OrBelow | Sources/simdlib/SimdLib.cpp:77 | the same statement keeps info below bit k + 1 |
| Dispatch.RecordedTiers | Sources/simdlib/SimdLib.cpp:118 | once every tier is recorded, a tier's bit is set iff the tier is enabled |
| Dispatch.CpuInfo | Sources/simdlib/SimdLib.cpp:73-119 | SimdCpuInfo: bit InfoBit(t) is set iff tier t is enabled, and no bit from 14 up is set |
| NeuralVector.ScheduleTiles | Sources/simdlib/SimdAvx512fNeural.cpp:89-107 | the four-register loop, the one-register loop and the masked tail together tile [0, size) in order |
| NeuralVector.ScheduleVisitsOnce | Sources/simdlib/SimdAvx512fNeural.cpp:89-107 | every float of [0, size) is visited by exactly one register, and no float outside it |
| NeuralVector.TilesCoverOnce | Sources/simdlib/SimdAvx512fNeural.cpp:89-107 | blocks that tile an interval cover each of its indices exactly once and nothing else |
| NeuralVector.ProductLanes | Sources/simdlib/SimdAvx512fNeural.cpp:34-39 | the products of the first n lanes of a register add up to the corresponding piece of the dot product |
| NeuralVector.ProductStep | Sources/simdlib/SimdAvx512fNeural.cpp:34-39 | the masked multiply-add adds a[off + k] * b[off + k] to the enabled lanes and leaves the others |
| NeuralVector.ProductQuads | Sources/simdlib/SimdAvx512fNeural.cpp:50-62 | the four accumulators of the unrolled loop, added together, hold the dot product of the first end floats |
| NeuralVector.ProductSum | Sources/simdlib/SimdAvx512fNeural.cpp:41-80 | NeuralProductSum returns the exact dot product of the first size floats |
| NeuralVector.RegisterOf | Sources/simdlib/SimdAvx512fNeural.cpp:82-87 | each lane of a kernel register is the kernel applied to the same lane of src and dst |
| NeuralVector.Step | Sources/simdlib/SimdAvx512fNeural.cpp:82-87 | one masked load, compute and store updates exactly the n enabled positions |
| NeuralVector.Apply | Sources/simdlib/SimdAvx512fNeural.cpp:89-107 | the three-phase driver applies the kernel to dst[dOff + j] for every j < size and to nothing else |
| NeuralVector.AddVectorMultipliedByValue | Sources/simdlib/SimdAvx512fNeural.cpp:109-117 | dst[j] gains value * src[j] for j < size; the rest of dst is unchanged |
| NeuralVector.AddVectorTo | Sources/simdlib/SimdAvx512fNeural.cpp:119-153 | dst[j] gains src[j] for j < size; the rest of dst is unchanged |
| NeuralVector.AddValueTo | Sources/simdlib/SimdAvx512fNeural.cpp:155-189 | dst[j] gains value for j < size; the rest of dst is unchanged |
| NeuralVector.ReluLanes | Sources/simdlib/SimdAvx512fNeural.cpp:409-458 | for 0 <= slope <= 1 both branches of NeuralRelu, max(0, x) when the slope is 0 and max(slope * x, x) otherwise, compute the leaky rectifier |
| NeuralVector.NeuralRelu | Sources/simdlib/SimdAvx512fNeural.cpp:409-466 | dst[j] is the leaky rectifier of the old src[j] for j < size, also when src is dst; the rest of dst is unchanged |
| NeuralConvolution.MulAddTreeLane | Sources/simdlib/SimdAvx512fNeural.cpp:678-683 | lane j of the multiply-add tree of a row convolution is the sum of its lane-j tap-times-weight products |
| NeuralConvolution.AddTreeLane | Sources/simdlib/SimdAvx512fNeural.cpp:685-690 | lane j of the addition tree over the K row convolutions is the sum of their lane-j values |
| NeuralConvolution.RowConvolutionLane | Sources/simdlib/SimdAvx512fNeural.cpp:1010-1017 | lane j of RowConvolution is the sum over the K taps of tap times weight |
| NeuralConvolution.ConvolveLane | Sources/simdlib/SimdAvx512fNeural.cpp:1019-1026 | lane j of Forward/Backward over K rows is the double sum over rows and taps |
| NeuralConvolution.TapLane | Sources/simdlib/SimdAvx512fNeural.cpp:886-893 | tap dx of lane j reads position off + j + dx of the row, whenever the mask is full or the row is zero past the loaded lanes |
| NeuralConvolution.WeightRows | Sources/simdlib/SimdAvx512fNeural.cpp:687-688 | weight row dy of a K x K kernel starts at dy * K and fits in the K * K weights |
| NeuralConvolution.LoadWeightsForward | Sources/simdlib/SimdAvx512fNeural.cpp:609-613 | register i holds weight i in every lane |
| NeuralConvolution.LoadWeightsBackward | Sources/simdlib/SimdAvx512fNeural.cpp:615-619 | register i holds weight size - 1 - i in every lane: the weights reversed |
| NeuralConvolution.ForwardLane | Sources/simdlib/SimdAvx512fNeural.cpp:1125-1149 | with the forward weights and full loads, lane j of the kernel on rows r .. r+K-1 at col is the forward convolution at (r, col + j) |
| NeuralConvolution.ForwardTap | Sources/simdlib/SimdAvx512fNeural.cpp:678-690 | tap (dy, dx) of that lane is source pixel (r + dy, col + j + dx) times weight (dy, dx) |
| NeuralConvolution.ForwardBlock | Sources/simdlib/SimdAvx512fNeural.cpp:1134-1144 | one register adds the forward convolution to the n destination columns from col and nothing else |
| NeuralConvolution.ForwardRow | Sources/simdlib/SimdAvx512fNeural.cpp:1130-1146 | one destination row gains the forward convolution at each of its width columns |
| NeuralConvolution.AddConvolutionForward | Sources/simdlib/SimdAvx512fNeural.cpp:1125-1181 | every destination pixel (R, C) inside width x height gains ForwardAt(src, w, K, R, C); the others are unchanged |
| NeuralBuffer.Stride | Sources/simdlib/SimdAvx512fNeural.cpp:628 | the buffer row length AlignHi(width + 2(count - 1), F) is a multiple of F with room for the zero padding on both sides |
| NeuralBuffer.RowBuffer.constructor | Sources/simdlib/SimdAvx512fNeural.cpp:625-635 | count rows of Stride(count, width) zeros, one after another in one allocation |
| NeuralBuffer.RowBuffer.Update | Sources/simdlib/SimdAvx512fNeural.cpp:637-647 | the oldest row becomes the newest; it receives the source row (or zeros) at offset count - 1 and nothing else changes |
| NeuralBuffer.RowBuffer.Fill | Sources/simdlib/SimdAvx512fNeural.cpp:639-642 | the memset or memcpy of Update: the size positions from the given offset receive the source row (or zeros) and every other position keeps its value |
| NeuralBuffer.RowBuffer.Rotate | Sources/simdlib/SimdAvx512fNeural.cpp:638-645 | the pointer loop of Update: every row pointer moves down by one and the oldest becomes the newest |
| NeuralBuffer.ApartRotated | Sources/simdlib/SimdAvx512fNeural.cpp:643-645 | rotating the row pointers keeps the rows from overlapping |
| NeuralBuffer.RowBuffer.Contents | Sources/simdlib/SimdAvx512fNeural.cpp:654 | the rows read as sequences, oldest first, one per row pointer |
| NeuralBackward.BackwardSupport | Sources/simdlib/SimdAvx512fNeural.cpp:1219-1247 | the backward convolution is zero outside the (width + K - 1) x (height + K - 1) destination |
| NeuralBackward.DoneStep | Sources/simdlib/SimdAvx512fNeural.cpp:1202-1215 | source row r adds weight row R - r into destination row R, if that is a weight row |
| NeuralBackward.DoneFinish | Sources/simdlib/SimdAvx512fNeural.cpp:1198-1217 | after the last source row the whole backward convolution has been added |
| NeuralBackward.ScatterTap | Sources/simdlib/SimdAvx512fNeural.cpp:1183-1196 | one If<dx < K>::AddMultiplied call adds src[r] times weight (dy, dx) at offset dx of destination row r + dy, extending the scattered taps from dx to dx + 1 |
| NeuralBackward.ScatterWeightRow | Sources/simdlib/SimdAvx512fNeural.cpp:1204-1213 | the five If<dx < K> calls of weight row dy add its K taps to destination row r + dy |
| NeuralBackward.ScatterSourceRow | Sources/simdlib/SimdAvx512fNeural.cpp:1202-1216 | source row r adds its K weight rows into destination rows r .. r + K - 1 |
| NeuralBackward.BackwardSmall | Sources/simdlib/SimdAvx512fNeural.cpp:1198-1217 | every destination pixel gains BackwardAt there |
| NeuralBackward.BackwardRow | Sources/simdlib/SimdAvx512fNeural.cpp:1028-1035 | buffer row dy under the reversed weights is weight row K - 1 - dy of BackwardAt |
| NeuralBackward.ReverseRow | Sources/simdlib/SimdAvx512fNeural.cpp:615-619 | a row sum whose taps are the terms of a BackRow in reverse order is that BackRow |
| NeuralBackward.BackwardLane | Sources/simdlib/SimdAvx512fNeural.cpp:1028-1035 | lane j of Convolution::Backward on the buffer around destination row R is BackwardAt(R, col + j) |
| NeuralBackward.BackwardBlock | Sources/simdlib/SimdAvx512fNeural.cpp:1232-1243 | one register adds BackwardAt to the n destination columns from col and nothing else |
| NeuralBackward.Rotated | Sources/simdlib/SimdAvx512fNeural.cpp:637-647 | Update turns the rows around R - 1 into the rows around R |
| NeuralBackward.UpdateRows | Sources/simdlib/SimdAvx512fNeural.cpp:1230 | Buffer::Update for destination row R: the buffer then holds the zero-padded window of source rows around R |
| NeuralBackward.GatherRow | Sources/simdlib/SimdAvx512fNeural.cpp:1231-1243 | one destination row of width + K - 1 gains BackwardAt at every column |
| NeuralBackward.NewBuffer | Sources/simdlib/SimdAvx512fNeural.cpp:1221-1223 | the fresh buffer holds the all-zero window above the source |
| NeuralBackward.AddRows | Sources/simdlib/SimdAvx512fNeural.cpp:1228-1247 | after the row loop over height + K - 1 destination rows, each of those rows has gained BackwardAt at every column below width + K - 1, and every other element is unchanged |
| NeuralBackward.BackwardLarge | Sources/simdlib/SimdAvx512fNeural.cpp:1219-1247 | every pixel of the (width + K - 1) x (height + K - 1) destination gains BackwardAt there |
| NeuralBackward.AddConvolutionBackward | Sources/simdlib/SimdAvx512fNeural.cpp:1249-1287 | whichever strategy width * height selects, every destination pixel gains BackwardAt |
| NeuralSum.GradIsReference | Sources/simdlib/SimdAvx512fNeural.cpp:1306-1330 | what the drivers accumulate for weight dy * K + dx is the plain double sum of dst(r, c) * src(r + dy, c + dx) |
| NeuralSum.RowGradRef | Sources/simdlib/SimdAvx512fNeural.cpp:1313-1322 | one row of that double sum is the row's shifted dot product |
| NeuralSum.WideTap | Sources/simdlib/SimdAvx512fNeural.cpp:821-841 | the two loads joined and shifted by dx hold the source at off + dx + lane |
| NeuralSum.GradLanes | Sources/simdlib/SimdAvx512fNeural.cpp:699-707 | one multiply-add of a masked dst register adds the next n terms of the shifted dot product |
| NeuralSum.StepGrad | Sources/simdlib/SimdAvx512fNeural.cpp:699-707 | one masked multiply-add raises an accumulator's lane total by the terms col to col + n of row r's shifted dot product |
| NeuralSum.Sum1x1 | Sources/simdlib/SimdAvx512fNeural.cpp:699-707 | every accumulator gains the next n terms of its weight's gradient from row r |
| NeuralSum.Sum2x1 | Sources/simdlib/SimdAvx512fNeural.cpp:709-730 | every accumulator gains the next n terms from row r and then from row r + 1 |
| NeuralSum.Sum1x2 | Sources/simdlib/SimdAvx512fNeural.cpp:732-751 | every accumulator gains the 2F terms of row r from col |
| NeuralSum.Sum2x2 | Sources/simdlib/SimdAvx512fNeural.cpp:753-792 | every accumulator gains the 2F terms of rows r and r + 1 from col |
| NeuralSum.SumRow1x1 | Sources/simdlib/SimdAvx512fNeural.cpp:1315-1321 | one row adds its whole shifted dot product to each accumulator |
| NeuralSum.SumRows2x1 | Sources/simdlib/SimdAvx512fNeural.cpp:1340-1349 | two rows add both their shifted dot products |
| NeuralSum.FullAlignedWidthWrapsAtZero | Sources/simdlib/SimdAvx512fNeural.cpp:1372 | finding: at width 0 the size_t subtraction wraps and the double-register bound is 2^64 - 32 |
| NeuralSum.FullAlignedWidth | Sources/simdlib/SimdAvx512fNeural.cpp:1372 | the intended bound: a multiple of DF whose double-register loop stops at least one column before the end of the row |
| NeuralSum.FullAlignedWidthAgrees | Sources/simdlib/SimdAvx512fNeural.cpp:1372 | for every width from 1 up the bound as written is the intended one |
| NeuralSum.SumRow1x2 | Sources/simdlib/SimdAvx512fNeural.cpp:1390-1401 | one row of the K = 2 driver adds its whole shifted dot product |
| NeuralSum.SumRows2x2 | Sources/simdlib/SimdAvx512fNeural.cpp:1378-1389 | two rows of the K = 2 driver add both their shifted dot products |
| NeuralSum.PartialSum | Sources/simdlib/SimdAvx512fNeural.cpp:1289-1294 | the four 128-bit quarters added pairwise: its lanes add up to the register's sum |
| NeuralSum.Add4ExtractedSums | Sources/simdlib/SimdAvx512fNeural.cpp:1296-1304 | dst[i .. i + 3] gain the lane sums of the four registers, and nothing else changes |
| NeuralSum.AddExtractedSums | Sources/simdlib/SimdAvx512fNeural.cpp:1323-1329 | sums[i] gains the lane sum of accumulator i for every i < K * K |
| NeuralSum.AddConvolutionSum1x1 | Sources/simdlib/SimdAvx512fNeural.cpp:1306-1330 | sums[i] gains the gradient of weight i over every row |
| NeuralSum.Gradients2x1 | Sources/simdlib/SimdAvx512fNeural.cpp:1336-1360 | after the row-pair loop and the odd-row loop, accumulator i's lane total is the gradient of weight i over all rows |
| NeuralSum.AddConvolutionSum2x1 | Sources/simdlib/SimdAvx512fNeural.cpp:1332-1367 | sums[i] gains the gradient of weight i over every row, pairs of rows first and the odd row last |
| NeuralSum.Gradients2x2 | Sources/simdlib/SimdAvx512fNeural.cpp:1369-1409 | for K = 2, accumulator i's lane total is the gradient of weight i over all rows, after both row loops |
| NeuralSum.AddConvolutionSum2x2 | Sources/simdlib/SimdAvx512fNeural.cpp:1369-1409 | for K = 2, sums[i] gains the gradient of weight i over every row |
| NeuralSum.AddConvolutionSum | Sources/simdlib/SimdAvx512fNeural.cpp:1411-1441 | NeuralAddConvolution{K}x{K}Sum: sums[i] gains the gradient of weight i for i < K * K; the other entries are unchanged |
| NeuralPooling.Pool3IsNeighbourhoodMax | Sources/simdlib/SimdAvx512fNeural.cpp:1512-1539 | the reference pixel is the maximum of the clipped 3 x 3 neighbourhood: no pixel there is larger and one equals it |
| NeuralPooling.WindowIsPool3 | Sources/simdlib/SimdAvx512fNeural.cpp:1519-1538 | the two-row first and last rows (Max3x2) agree with the clipped 3 x 3 maximum |
| NeuralPooling.Nose3Lanes | Sources/simdlib/SimdAvx512fNeural.cpp:1465-1471 | lane k of the nose register is the maximum of columns k - 1 (clamped to 0), k and k + 1 |
| NeuralPooling.Body3Lanes | Sources/simdlib/SimdAvx512fNeural.cpp:1443-1446 | lane k of a body register is the maximum of columns col + k - 1 .. col + k + 1 |
| NeuralPooling.Tail3Lanes | Sources/simdlib/SimdAvx512fNeural.cpp:1489-1495 | lane k of the tail register is the maximum of its neighbours, the last column standing in for the one past it |
| NeuralPooling.StoreNose | Sources/simdlib/SimdAvx512fNeural.cpp:1473-1485 | the nose writes the pooled values of the first F columns and nothing else |
| NeuralPooling.StoreBody | Sources/simdlib/SimdAvx512fNeural.cpp:1448-1461 | a body register writes the pooled values of its F columns and nothing else |
| NeuralPooling.StoreTail | Sources/simdlib/SimdAvx512fNeural.cpp:1497-1510 | the tail writes the pooled values of the last F columns and nothing else |
| NeuralPooling.PoolRow3 | Sources/simdlib/SimdAvx512fNeural.cpp:1519-1538 | one destination row holds the pooled value at every column below width |
| NeuralPooling.Pooling1x1Max3x3 | Sources/simdlib/SimdAvx512fNeural.cpp:1512-1547 | every destination pixel inside width x height is the maximum over its clipped 3 x 3 neighbourhood; the rest is unchanged |
| NeuralPooling.Pool2IsBlockMax | Sources/simdlib/SimdAvx512fNeural.cpp:1571-1602 | the reference pixel is the maximum of the clipped 2 x 2 block: no pixel there is larger and one equals it |
| NeuralPooling.PairMaxLanes | Sources/simdlib/SimdAvx512fNeural.cpp:1553-1569 | lane j of the shuffle-and-max is the maximum of columns 2j and 2j + 1 of the 2F column maxima |
| NeuralPooling.ColumnMaximaLanes | Sources/simdlib/SimdAvx512fNeural.cpp:1553-1560 | column c of the two loaded registers is the maximum of source column col + c over the block row's rows |
| NeuralPooling.Pool2RegLanes | Sources/simdlib/SimdAvx512fNeural.cpp:1553-1569 | lane j of the register is the pooled destination pixel col / 2 + j |
| NeuralPooling.PoolRow2 | Sources/simdlib/SimdAvx512fNeural.cpp:1576-1601 | one destination row holds the pooled value at every column below (width + 1) / 2 |
| NeuralPooling.Pooling2x2Max2x2 | Sources/simdlib/SimdAvx512fNeural.cpp:1571-1610 | destination pixel (R, C) is the maximum of the clipped source block at (2R, 2C); the rest is unchanged |
| Statistic.SadStep | Sources/simdlib/SimdAvx512bwStatistic.cpp:376-381 | one SAD step keeps the 32-bit accumulator tracking the exact sum of \|a - b\| so far |
| Statistic.SadRow | Sources/simdlib/SimdAvx512bwStatistic.cpp:277-283 | the row loop's accumulator, reduced by ExtractSum<uint32_t>, is the row's sum of \|a - b\| modulo 2^32 |
| Statistic.GetRowSums | Sources/simdlib/SimdAvx512bwStatistic.cpp:269-294 | sums[r] is the sum of row r modulo 2^32; the rest of sums is unchanged |
| Statistic.RowSumExact | Sources/simdlib/SimdAvx512bwStatistic.cpp:283 | a row shorter than 2^32 / 255 bytes has its exact sum in 32 bits |
| Statistic.DyRowsAsWritten | Sources/simdlib/SimdAvx512bwStatistic.cpp:391 | the row-pair count after the size_t `height--`: height - 1 for every height from 1 on |
| Statistic.DyRowsWrapAtZero | Sources/simdlib/SimdAvx512bwStatistic.cpp:391 | finding: at height 0 the decrement wraps to 2^64 - 1 row pairs |
| Statistic.GetAbsDyRowSums | Sources/simdlib/SimdAvx512bwStatistic.cpp:383-412 | sums[r] is the sum of \|src[r] - src[r + 1]\| modulo 2^32 for r < height - 1, and 0 for the last row; at height 0 nothing is written |
| Statistic.AbsDyOfEqualRows | Sources/simdlib/SimdAvx512bwStatistic.cpp:383-404 | an image whose rows are all equal has vertical differences of zero |
| Statistic.ValueStep | Sources/simdlib/SimdAvx512bwStatistic.cpp:475-485 | one SAD-against-zero step keeps the 64-bit register tracking n more bytes of the row |
| Statistic.ValueSumRow | Sources/simdlib/SimdAvx512bwStatistic.cpp:473-486 | one row adds its bytes to the exact total the four registers track |
| Statistic.QuadResult | Sources/simdlib/SimdAvx512bwStatistic.cpp:488 | the four registers added and reduced give the exact total modulo 2^64 |
| Statistic.ValueSum | Sources/simdlib/SimdAvx512bwStatistic.cpp:463-497 | the sum of all width x height bytes modulo 2^64 |
| Statistic.ValueSumExact | Sources/simdlib/SimdAvx512bwStatistic.cpp:488 | below 2^56 pixels the result is the exact sum |
| Statistic.MinLanes | Sources/simdlib/SimdAvx512bwStatistic.cpp:44-45 | the masked unsigned byte minimum takes the n loaded bytes and keeps the other lanes |
| Statistic.MaxLanes | Sources/simdlib/SimdAvx512bwStatistic.cpp:44-46 | the masked unsigned byte maximum takes the n loaded bytes and keeps the other lanes |
| Statistic.StatisticBlock | Sources/simdlib/SimdAvx512bwStatistic.cpp:34-48 | one register keeps every min/max lane a bound of the pixels seen in that lane and equal to one of them (or to the start value), and keeps sum tracking the total |
| Statistic.StatisticRow | Sources/simdlib/SimdAvx512bwStatistic.cpp:65-70 | one row keeps those invariants with the row added |
| Statistic.StatisticRegisters | Sources/simdlib/SimdAvx512bwStatistic.cpp:60-71 | after the rows, min512 and max512 bound every pixel lane-wise with witnesses, and sum tracks the image total |
| Statistic.QuartersLanes | Sources/simdlib/SimdAvx512bwStatistic.cpp:73-76 | the quarter reductions bound every lane, and each result is one of the lanes |
| Statistic.StatExtremes | Sources/simdlib/SimdAvx512bwStatistic.cpp:73-87 | lanes that bound every pixel and are pixels give the image's least and greatest pixel |
| Statistic.ReduceExtremes | Sources/simdlib/SimdAvx512bwStatistic.cpp:73-87 | the reduction returns a minimum and a maximum that bound every lane of min512 and max512 and are themselves lanes of them |
| Statistic.GetStatistic | Sources/simdlib/SimdAvx512bwStatistic.cpp:50-98 | for every width, narrow ones included, min and max are the least and greatest pixel (both pixels of the image); average is (sum + n / 2) / n in uint64 arithmetic, cut to a byte |
| Statistic.RoundedMeanBetween | Sources/simdlib/SimdAvx512bwStatistic.cpp:88 | rounding a mean to nearest keeps it between the least and greatest value |
| Statistic.AverageIsRoundedMean | Sources/simdlib/SimdAvx512bwStatistic.cpp:88 | below 2^56 pixels nothing wraps: the stored average is the rounded mean, between min and max |
| StatisticCols.ColSum16 | Sources/simdlib/SimdAvx512bwStatistic.cpp:321-326 | the 16-bit buffer lanes gain the n bytes from col and keep the others |
| StatisticCols.Sum16To32 | Sources/simdlib/SimdAvx512bwStatistic.cpp:328-336 | the 16-bit sums of a register's columns are added into the 32-bit sums of the same columns |
| StatisticCols.AddRow16 | Sources/simdlib/SimdAvx512bwStatistic.cpp:355-360 | one row's bytes are added into the 16-bit buffer column by column |
| StatisticCols.AddRows16 | Sources/simdlib/SimdAvx512bwStatistic.cpp:350-361 | at most 128 rows fit the 16-bit buffer without wrapping: it holds their exact column sums |
| StatisticCols.StepsCover | Sources/simdlib/SimdAvx512bwStatistic.cpp:343-344 | the (height + 127) / 128 steps of 128 rows cover the image |
| StatisticCols.ColumnSums | Sources/simdlib/SimdAvx512bwStatistic.cpp:338-366 | sums[c] is the column sum modulo 2^32 for every column below width |
| StatisticCols.GetColSums | Sources/simdlib/SimdAvx512bwStatistic.cpp:338-374 | sums[c] is the sum of column c modulo 2^32 for c < width; the rest is unchanged |
| StatisticCols.ColumnSumExact | Sources/simdlib/SimdAvx512bwStatistic.cpp:338-366 | a column of fewer than 2^32 / 255 rows has its exact sum in 32 bits |
| StatisticCols.ColumnsTotalIsImageSum | Sources/simdlib/SimdAvx512bwStatistic.cpp:338-366 | the column sums and the row sums add up to the same image total |
| StatisticCols.DxKernelLanes | Sources/simdlib/SimdAvx512bwStatistic.cpp:414-421 | GetAbsDxColSum16's loads at col and col + 1 give \|src[r][c] - src[r][c + 1]\| for the n lanes |
| StatisticCols.DxLastAsWritten | Sources/simdlib/SimdAvx512bwStatistic.cpp:425-452 | the index of the sum zeroed last after the size_t `width--`: width - 1 for every width from 1 on |
| StatisticCols.DxLastWrapsAtZero | Sources/simdlib/SimdAvx512bwStatistic.cpp:425-452 | finding: at width 0 the decrement wraps, so `sums[width] = 0` stores 2^64 - 1 entries past the start of sums |
| StatisticCols.GetAbsDxColSums | Sources/simdlib/SimdAvx512bwStatistic.cpp:423-461 | sums[c] is the sum over the rows of \|src[r][c] - src[r][c + 1]\| modulo 2^32 for c < width - 1, and 0 for the last column; at width 0 nothing is written |
| StatisticSquares.MaddTotal | Sources/simdlib/SimdAvx512bwStatistic.cpp:558-563 | the lanes of the unpack-and-madd of two byte registers add up to their dot product |
| StatisticSquares.MaddBound | Sources/simdlib/SimdAvx512bwStatistic.cpp:558-563 | every lane of that madd is at most 4 * 255 * 255 |
| StatisticSquares.RowTotal | Sources/simdlib/SimdAvx512bwStatistic.cpp:534-544 | the exact lanes one row adds up to the row's dot product |
| StatisticSquares.BlockLanesBound | Sources/simdlib/SimdAvx512bwStatistic.cpp:530-546 | a lane of a block of rows is at most (rows) * AlignHi(width, A) / 16 * 255 * 255 |
| StatisticSquares.BlocksExact | Sources/simdlib/SimdAvx512bwStatistic.cpp:530-546 | when no block can fill a 32-bit lane, the block-wise 64-bit total is the exact dot product |
| StatisticSquares.BlocksCover | Sources/simdlib/SimdAvx512bwStatistic.cpp:528-531 | the height / blockSize + 1 blocks cover rows [0, height) |
| StatisticSquares.CorrectedFits | Sources/simdlib/SimdAvx512bwStatistic.cpp:528 | with 2^20 / AlignHi(width, A) rows per block no 32-bit lane can wrap, and every block has a row |
| StatisticSquares.CorrectedProductSum | Sources/simdlib/SimdAvx512bwStatistic.cpp:519-548 | with the corrected block size no 32-bit lane wraps, so the block-wise total equals the exact sum of products |
| StatisticSquares.BrightWraps | Sources/simdlib/SimdAvx512bwStatistic.cpp:528-529 | with the block size as written, one-byte-wide bright images of up to 2^20 rows form one block whose lane 0 wraps |
| StatisticSquares.SourceBlockSizeWraps | Sources/simdlib/SimdAvx512bwStatistic.cpp:528 | finding: 66052 rows of one byte 255 give 64004 as written, not 4295031300 |
| StatisticSquares.AddReg | Sources/simdlib/SimdAvx512bwStatistic.cpp:506-509 | one (masked) register adds its products to the tracked 32-bit lanes |
| StatisticSquares.AddReg4 | Sources/simdlib/SimdAvx512bwStatistic.cpp:511-517 | four registers add their products to sums[0..3] |
| StatisticSquares.ProductRow | Sources/simdlib/SimdAvx512bwStatistic.cpp:534-544 | one row adds its dot product to the exact totals the four registers track |
| StatisticSquares.Reduce4Tracks | Sources/simdlib/SimdAvx512bwStatistic.cpp:545 | the four registers reduced into 64-bit lanes hold the block total |
| StatisticSquares.ProductBlock | Sources/simdlib/SimdAvx512bwStatistic.cpp:532-546 | one block adds the exact total of its rows to the 64-bit register when no lane wrapped |
| StatisticSquares.ProductSum | Sources/simdlib/SimdAvx512bwStatistic.cpp:528-547 | the block loop returns the block-wise value (each block's 32-bit lanes wrapped) modulo 2^64 |
| StatisticSquares.SquareSum | Sources/simdlib/SimdAvx512bwStatistic.cpp:519-556 | the sum of the squares of all bytes, modulo 2^64, with the corrected block size |
| StatisticSquares.CorrelationSum | Sources/simdlib/SimdAvx512bwStatistic.cpp:578-616 | the sum of a[r][c] * b[r][c] over the image, modulo 2^64, with the corrected block size |
| StatisticMoments.ImageTotalsStep | Sources/simdlib/SimdAvx512bwStatistic.cpp:169-193 | one more row adds that row's moments to the moments of the rows above |
| StatisticMoments.Matches | Sources/simdlib/SimdAvx512bwStatistic.cpp:123 | the intended comparison: lane i matches iff it is one of the n loaded lanes and equals index |
| StatisticMoments.MatchesAsWritten | Sources/simdlib/SimdAvx512bwStatistic.cpp:123 | the comparison as written: lane i matches iff it equals index, padding lanes included |
| StatisticMoments.AsWrittenAgrees | Sources/simdlib/SimdAvx512bwStatistic.cpp:123 | for a full register, or any index other than 0, the two comparisons agree |
| StatisticMoments.PaddingCounted | Sources/simdlib/SimdAvx512bwStatistic.cpp:123-124 | finding: the one-byte row [1] searched for index 0 has area 0, but the comparison as written counts 63 matches |
| StatisticMoments.HalvesTotal | Sources/simdlib/SimdAvx512bwStatistic.cpp:100-108 | the two madd halves of a register add up to all its products |
| StatisticMoments.ChunkMoment | Sources/simdlib/SimdAvx512bwStatistic.cpp:126-132 | the products of a register add up to moment m of the n bytes it loads; matches are counted by the tail-restricted comparison, so padding lanes never match |
| StatisticMoments.ChunkArea | Sources/simdlib/SimdAvx512bwStatistic.cpp:124 | Popcnt64 of the comparison counts the matching bytes the register loads; matches are counted by the tail-restricted comparison, so padding lanes never match |
| StatisticMoments.MomentFits | Sources/simdlib/SimdAvx512bwStatistic.cpp:233-258 | every moment of an image narrower and lower than SHRT_MAX fits a uint64_t |
| StatisticMoments.IsSmall | Sources/simdlib/SimdAvx512bwStatistic.cpp:225-231 | IsSmall implies width < 2400 |
| StatisticMoments.RowFits | Sources/simdlib/SimdAvx512bwStatistic.cpp:170-190 | a row register's exact 32-bit lanes stay below 2^32: always for x and y, and under IsSmall for the products |
| StatisticMoments.AddHalves | Sources/simdlib/SimdAvx512bwStatistic.cpp:100-118 | the madd of both halves keeps the 32-bit register tracking moment m of the bytes before col + n |
| StatisticMoments.AddWide | Sources/simdlib/SimdAvx512bwStatistic.cpp:144-153 | GetMoments8Large widens each madd half and keeps the 64-bit register tracking the moment |
| StatisticMoments.Widen | Sources/simdlib/SimdAvx512bwStatistic.cpp:186-190 | a row register that did not wrap, widened into a 64-bit register, adds its exact total |
| StatisticMoments.SmallChunk | Sources/simdlib/SimdAvx512bwStatistic.cpp:120-133 | one register of GetMoments8Small adds its matches to area and its moments to the five row registers; matches are counted by the tail-restricted comparison, so padding lanes never match |
| StatisticMoments.SmallRow | Sources/simdlib/SimdAvx512bwStatistic.cpp:171-190 | one row of GetMomentsSmall: area gains the row's matches and the row registers hold its moments; matches are counted by the tail-restricted comparison, so padding lanes never match |
| StatisticMoments.GetMomentsSmall | Sources/simdlib/SimdAvx512bwStatistic.cpp:161-194 | area is the exact count and the five 64-bit registers hold the exact moments of the image; matches are counted by the tail-restricted comparison, so padding lanes never match |
| StatisticMoments.LargeChunk | Sources/simdlib/SimdAvx512bwStatistic.cpp:135-154 | one register of GetMoments8Large adds its matches, its x and y, and its widened products; matches are counted by the tail-restricted comparison, so padding lanes never match |
| StatisticMoments.LargeRow | Sources/simdlib/SimdAvx512bwStatistic.cpp:206-219 | one row of GetMomentsLarge adds the row's moments to the 64-bit registers; matches are counted by the tail-restricted comparison, so padding lanes never match |
| StatisticMoments.GetMomentsLarge | Sources/simdlib/SimdAvx512bwStatistic.cpp:196-223 | area is the exact count and the five 64-bit registers hold the exact moments of the image; matches are counted by the tail-restricted comparison, so padding lanes never match |
| StatisticMoments.SignedLanesSum | Sources/simdlib/SimdAvx512bwStatistic.cpp:253-257 | reading 64-bit lanes as int64_t takes 2^64 off the sum for every negative lane |
| StatisticMoments.ExtractMoment | Sources/simdlib/SimdAvx512bwStatistic.cpp:253-257 | ExtractSum<int64_t> of a register holding a moment below 2^64, stored to uint64_t, is that moment |
| StatisticMoments.GetMoments | Sources/simdlib/SimdAvx512bwStatistic.cpp:233-267 | area, x, y, xx, xy and yy are the exact count and coordinate moments of the pixels equal to index; matches are counted by the tail-restricted comparison, so padding lanes never match |
| GaussianBlur.BlurRange | Sources/simdlib/SimdAvx512bwGaussianBlur3x3.cpp:57-60 | the rounded 1-2-1 x 1-2-1 blur of bytes is a byte |
| GaussianBlur.BlurConstant | Sources/simdlib/SimdAvx512bwGaussianBlur3x3.cpp:57-100 | an image of one value blurs to itself, because the weights add up to 16 |
| GaussianBlur.IncomingRow | Sources/simdlib/SimdAvx512bwGaussianBlur3x3.cpp:117-119 | the intended incoming row is the row below, clamped to the last row, and always inside the image |
| GaussianBlur.IncomingRowAgrees | Sources/simdlib/SimdAvx512bwGaussianBlur3x3.cpp:117-119 | for two rows or more the test as written clamps as intended |
| GaussianBlur.OneRowReadsPastImage | Sources/simdlib/SimdAvx512bwGaussianBlur3x3.cpp:118 | finding: for a one-row image height - 2 wraps, and row 1, outside the image, is read |
| GaussianBlur.LoadNose3 | Sources/simdlib/SimdAvx512bwGaussianBlur3x3.cpp:78 | the left, centre and right neighbours of the first register, the first pixel standing in for the one before it |
| GaussianBlur.LoadTail3 | Sources/simdlib/SimdAvx512bwGaussianBlur3x3.cpp:85 | the same for the last register, the last pixel standing in for the one after it |
| GaussianBlur.BinomialSum | Sources/simdlib/SimdAvx512bwGaussianBlur3x3.cpp:64-67 | maddubs with (1, 2) plus the right neighbours gives the 1-2-1 sum of each byte in 16-bit lanes |
| GaussianBlur.BufferHolds | Sources/simdlib/SimdAvx512bwGaussianBlur3x3.cpp:75-87 | the row buffer holds the horizontal sum of every byte, the last register at bodySize |
| GaussianBlur.BlurCol | Sources/simdlib/SimdAvx512bwGaussianBlur3x3.cpp:75-87 | BlurCol writes the horizontal sums of a source row into the buffer and nothing else |
| GaussianBlur.OutValueExact | Sources/simdlib/SimdAvx512bwGaussianBlur3x3.cpp:89-100 | with 1-2-1 sums of bytes no 16-bit lane wraps and the pack does not saturate |
| GaussianBlur.BlurRow | Sources/simdlib/SimdAvx512bwGaussianBlur3x3.cpp:97-100 | BlurRow of three row buffers is the vertical 1-2-1 sum divided by 16 with rounding, byte by byte |
| GaussianBlur.RowBlur | Sources/simdlib/SimdAvx512bwGaussianBlur3x3.cpp:123-125 | the output row built from the buffers of rows above, at and below r is the blur of row r |
| GaussianBlur.StoreBlurredRow | Sources/simdlib/SimdAvx512bwGaussianBlur3x3.cpp:123-125 | the output loop and the final overlapping store write the blur of row r at every byte of the row |
| GaussianBlur.Buffer.Rotate | Sources/simdlib/SimdAvx512bwGaussianBlur3x3.cpp:127-128 | the two swaps move the buffers up one row: src0, src1, src2 become the old src1, src2, src0 |
| GaussianBlur.FirstRow | Sources/simdlib/SimdAvx512bwGaussianBlur3x3.cpp:111-113 | before the loop src0 and src1 both hold the sums of the first row |
| GaussianBlur.BlurNextRow | Sources/simdlib/SimdAvx512bwGaussianBlur3x3.cpp:115-129 | one pass writes the blur of row r and leaves the buffers holding rows r and r + 1 |
| GaussianBlur.GaussianBlur3x3 | Sources/simdlib/SimdAvx512bwGaussianBlur3x3.cpp:102-151 | every byte of every row of dst is the clamped 3 x 3 Gaussian blur of src; bytes past the row are unchanged |
| BgraToBgr.BgrChannels | Sources/simdlib/SimdAvx512bwBgraToBgr.cpp:44-49 | each pixel keeps its blue, green and red bytes, in order, and loses its alpha byte |
| BgraToBgr.BgrIgnoresAlpha | Sources/simdlib/SimdAvx512bwBgraToBgr.cpp:44-60 | two BGRA rows that differ only in alpha convert to the same BGR row |
| BgraToBgr.Tables16 | Sources/simdlib/SimdAvx512bwBgraToBgr.cpp:32-38 | K8_SUFFLE_BGRA_TO_BGR and K32_PERMUTE_BGRA_TO_BGR are the shuffle that packs each lane's colour bytes and the permute that packs the lanes |
| BgraToBgr.Tables64 | Sources/simdlib/SimdAvx512bwBgraToBgr.cpp:40-42 | K32_PERMUTE_BGRA_TO_BGR_0, _1 and _2 pick the packed dwords of consecutive shuffled registers |
| BgraToBgr.Bgr16Bytes | Sources/simdlib/SimdAvx512bwBgraToBgr.cpp:44-49 | the 16-pixel register's first 3n bytes are the row's BGR bytes of its n pixels |
| BgraToBgr.Bgr64Bytes | Sources/simdlib/SimdAvx512bwBgraToBgr.cpp:51-60 | register t of the 64-pixel block holds BGR bytes 64t .. 64t + 63 of the block |
| BgraToBgr.Convert16 | Sources/simdlib/SimdAvx512bwBgraToBgr.cpp:44-49 | the 16-pixel form writes the BGR bytes of its n pixels and nothing else |
| BgraToBgr.Store64 | Sources/simdlib/SimdAvx512bwBgraToBgr.cpp:57-59 | one permutex2var store writes BGR bytes 3col + 64t to 3col + 64t + 63 of its row and nothing else |
| BgraToBgr.Convert64 | Sources/simdlib/SimdAvx512bwBgraToBgr.cpp:51-60 | the 64-pixel form writes the 192 BGR bytes of its pixels and nothing else |
| BgraToBgr.ConvertRow | Sources/simdlib/SimdAvx512bwBgraToBgr.cpp:67-79 | the three column loops write the whole BGR row |
| BgraToBgr.BgraToBgr | Sources/simdlib/SimdAvx512bwBgraToBgr.cpp:62-91 | row r of bgr holds the BGR bytes of row r of bgra; bytes past 3 * width are unchanged |

## Left out

- Floating point: every float is an exact real, so the neural results are exact sums, not IEEE-rounded ones, and association order is not modelled.
- The sigmoid, tanh, derivative, weight-update and adaptive-gradient kernels of `SimdAvx512fNeural.cpp`, and `NeuralPooling2x2Max3x3`: these are float approximations or use instructions outside the modelled set.
- Alignment: the `align` template flag and the `Aligned` tests select aligned or unaligned loads of the same values, so the model has one path.
- `Allocate` and `Free` are not modelled: buffers are fresh Dafny arrays.
- The CPU probes behind each `Enable` flag are not modelled: the set of enabled tiers is a parameter.
- `SimdLoad.h`, `SimdStore.h`, `SimdMath.h` and `SimdConst.h` are not part of this model.
  - Loads, stores, `TailMask64`, `AlignLo`/`AlignHi`, `LoadNose3`/`LoadBody3`/`LoadTail3`, `UnpackU8`, `BinomialSum16` and `HorizontalSum32` are modelled by their documented net effect.
- Shuffle and permute constants are modelled by their net effect where the net effect is a reordering the code undoes (`K32_PERMUTE_FOR_COL_SUMS`, the unpack orders of `GetColSum16`/`Sum16To32`). The BGRA→BGR tables are modelled exactly.
- Strides: every image row is a separate sequence or array row. Pointer arithmetic over strides, and aliasing between rows, is not modelled.
- Lane masks are modelled as lane counts (`FirstLanes`), because every mask in these kernels enables a prefix of lanes.
- A load past the end of a row reads 0 in the model. The lemmas show that no stored lane depends on such a read.
- NeuralBackward.BackwardLarge: requires height >= 1. The dispatcher takes the large path only when width * height >= 1024.
- NeuralPooling.Pooling1x1Max3x3: requires width > F and height > 1, the kernel's own assert.
- NeuralPooling.Pooling2x2Max2x2: requires width >= DF, the dispatcher's guard.
- Statistic.GetStatistic: requires a nonzero size_t product width * height, the first half of the kernel's assert; without it the average divides by zero. The second half, width >= A, is not required (see Findings).
- StatisticMoments.GetMoments: requires width and height below SHRT_MAX, the kernel's own assert and the dispatcher's guard. The results are exact, and `MomentFits` shows they fit the uint64_t outputs.
- StatisticMoments.GetMoments: counts a byte as a match only among the n bytes a register loads (the corrected comparison, see Findings). The source compares the whole masked load, so at index 0 with width % 64 != 0 the padding lanes past the tail match too. The source then adds them to area and, through the `~mask` zeroing of the row and column registers, adds their row and column (a column at or past width) to x, y, xx, xy and yy. The model does not compute those six as-written values; `StatisticMoments.PaddingCounted` exhibits the extra matches.
- StatisticMoments.GetMomentsSmall, StatisticMoments.GetMomentsLarge: the same corrected comparison as GetMoments, so at index 0 the padding matches are missing from all six results.
- StatisticMoments.SmallRow, StatisticMoments.LargeRow: the same corrected comparison on the row's masked tail register.
- StatisticMoments.SmallChunk, StatisticMoments.LargeChunk: the same corrected comparison; a masked register adds only its n loaded bytes' matches and their coordinates.
- StatisticMoments.ChunkArea, StatisticMoments.ChunkMoment: stated for the corrected comparison; for the source's comparison at index 0 they would also count the padding lanes.
- StatisticSquares.SquareSum and StatisticSquares.CorrelationSum use the corrected block size (see Findings). They require 0 < width < 2^20. The upper bound is the kernel's own assert; at width 0 the source divides by zero.
- GaussianBlur.GaussianBlur3x3: requires 1 <= step <= 4 and step * (width - 1) >= A. This is the dispatcher's Avx512bw guard evaluated over the integers (`Dispatch.StepWidthIntended`), stronger than the kernel's own assert against Avx2::A. Unlike the size_t guard, it excludes width 0 (see Findings). The channel switch (`channelCount` 1 to 4) is folded into the `step` parameter.
- GaussianBlur.GaussianBlur3x3: the modelled row loop uses the corrected incoming row (see Findings), so at height 1 it blurs from row 0 where the source reads row 1, outside the image.
- GaussianBlur.BlurNextRow: sums the corrected incoming row `IncomingRow` into src2. At height 1 it reads row 0 where the source reads row 1, outside the image (`GaussianBlur.OneRowReadsPastImage`). The model does not capture that out-of-bounds read.
- Statistic.GetAbsDyRowSums: at height 0 the model writes nothing, as intended. The source's size_t `height--` wraps there, and its row loop runs past the image (see Findings). The out-of-bounds reads are not modelled.
- StatisticCols.GetAbsDxColSums: at width 0 the model writes nothing, as intended. The source's size_t `width--` wraps there, and its final store lands outside sums (see Findings). The out-of-bounds accesses are not modelled.
- `DllMain`, `SimdVersion` and every other public function outside the modelled dispatch chains are not modelled.

## Findings

| source | as written | input that shows it | evidently intended | confidence | as-written member | corrected member |
|---|---|---|---|---|---|---|
| Sources/simdlib/SimdAvx512fNeural.cpp:1372 | `fullAlignedWidth = AlignLo(width - 1, DF)` in size_t arithmetic | width 0: the bound becomes 2^64 - 32, and the double-register loop would read past the row | AlignLo(width - 1, DF) only for width >= 1, with no double-register step at width 0 | low, not executed (the public dispatcher's `width >= Avx512f::F` guard keeps width 0 away) | NeuralSum.FullAlignedWidthWrapsAtZero | NeuralSum.FullAlignedWidth |
| Sources/simdlib/SimdAvx512bwStatistic.cpp:528 | `blockSize = (256 * 256 * F) / width`; the same line is repeated at 587 for CorrelationSum | a 1-byte-wide image of 66052 rows of 255: every product lands in lane 0 of one block, and the 32-bit lane wraps. The result is 64004 instead of 4295031300 | a block size over the bytes the registers actually load, `(256 * 256 * F) / AlignHi(width, A)` | medium, not executed | StatisticSquares.SourceBlockSizeWraps | StatisticSquares.CorrectedProductSum |
| Sources/simdlib/SimdAvx512bwStatistic.cpp:123 | `_mm512_cmpeq_epi8_mask(_mask, index)` on a masked load, not restricted to the tail mask; the same at line 138 for the large strategy | index 0, a row whose width is not a multiple of 64: the zero lanes past the tail count as matches. For the row [1], area is 63 instead of 0. The `~mask` zeroing at lines 126-131 and 141-147 keeps those lanes' row and column values, so they also add to x, y, xx, xy and yy | the comparison ANDed with the tail mask | high, not executed | StatisticMoments.PaddingCounted | StatisticMoments.GetMoments |
| Sources/simdlib/SimdAvx512bwGaussianBlur3x3.cpp:118 | `if(row >= height - 2)` with size_t height | height 1: height - 2 wraps to 2^64 - 1, so the test fails and src2 is row 1, which lies outside the image | clamp the incoming row to height - 1 for every height | medium, not executed | GaussianBlur.OneRowReadsPastImage | GaussianBlur.IncomingRow |
| Sources/simdlib/SimdLib.cpp:1955 | `(width - 1)*channelCount >= Avx512bw::A` in size_t | width 0: width - 1 wraps to 2^64 - 1, the guard passes, and the kernel runs with size 0. `bodySize = AlignHi(0, A) - A` (SimdAvx512bwGaussianBlur3x3.cpp:109) wraps too, and `BlurCol` reads and writes far past the empty buffer even before the row loop | the guard over the integers, so width 0 takes the scalar code | medium, not executed | Dispatch.GaussianBlurZeroWidthWraps | Dispatch.StepWidthIntended |
| Sources/simdlib/SimdAvx512bwStatistic.cpp:53 | `assert(width*height && width >= A)` in a kernel that SimdGetStatistic (SimdLib.cpp:4232-4234) calls with no width guard | width 1: a one-pixel image reaches the Avx512bw kernel, and a debug build aborts. A release build returns correct results, because the tail mask covers the row | the assert without `width >= A`: the kernel is correct for every width | low, not executed (only debug builds abort) | Dispatch.GetStatisticNarrowReachesKernel | Statistic.GetStatistic |
| Sources/simdlib/SimdAvx512bwStatistic.cpp:391 | `height--` in size_t, with no guard in SimdGetAbsDyRowSums | height 0: the row loop runs 2^64 - 1 times and reads rows of an empty image | no row pairs at height 0 | medium, not executed | Statistic.DyRowsWrapAtZero | Statistic.GetAbsDyRowSums |
| Sources/simdlib/SimdAvx512bwStatistic.cpp:425 | `width--` in size_t, with no guard in SimdGetAbsDxColSums | width 0: width becomes 2^64 - 1, and the final `sums[width] = 0` (line 452) stores outside sums | no sums written at width 0 | medium, not executed | StatisticCols.DxLastWrapsAtZero | StatisticCols.GetAbsDxColSums |
