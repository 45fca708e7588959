// Vector registers, lane masks and the alignment helpers shared by the
// AVX-512 kernels.
//
// A 512-bit float register (__m512) is modelled as a sequence of F = 16
// exact reals; a 16-lane mask (__mmask16) as a bv16 whose bit k enables
// lane k.  A masked load yields 0 in a disabled lane and a masked store
// leaves a disabled lane of memory as it was.

module Lanes {

  /** Floats in one 512-bit register, two registers and four registers. */
  const F: nat := 16
  const DF: nat := 32
  const QF: nat := 64
  /** Bytes in one 512-bit register. */
  const A: nat := 64

  /** AlignLo(x, a): x rounded down to a multiple of a. */
  function AlignLo(x: nat, a: nat): (r: nat)
    requires a > 0
    ensures r % a == 0 && r <= x < r + a
  {
    MultipleMod(x / a, a);
    x - x % a
  }

  /** AlignHi(x, a): x rounded up to a multiple of a. */
  function AlignHi(x: nat, a: nat): (r: nat)
    requires a > 0
    ensures r % a == 0 && x <= r < x + a
  {
    MultipleMod(x / a, a);
    MultipleMod(x / a + 1, a);
    if x % a == 0 then x else x - x % a + a
  }

  /** A multiple of a leaves no remainder. */
  lemma MultipleMod(q: int, a: nat)
    requires a > 0
    ensures (q * a) % a == 0
  {
    ModShift(0, q, a);
  }

  /** Adding a multiple of a does not change the remainder. */
  lemma ModShift(z: int, q: int, a: nat)
    requires a > 0
    ensures (z + q * a) % a == z % a
  {
    var d1, r1 := (z + q * a) / a, (z + q * a) % a;
    var d2, r2 := z / a, z % a;
    assert (d1 - d2 - q) * a == r2 - r1;
    MulBounds(d1 - d2 - q, a);
  }

  lemma MulBounds(t: int, a: int)
    requires a > 0
    ensures t >= 1 ==> t * a >= a
    ensures t <= -1 ==> t * a <= -a
  {
  }

  /** A register loop over multiples of a that has not reached end has a whole register left. */
  lemma StepWithin(i: nat, end: nat, a: nat)
    requires a > 0 && i < end && i % a == 0 && end % a == 0
    ensures i + a <= end && (i + a) % a == 0
  {
    var qi, qe := i / a, end / a;
    assert (qe - qi) * a == end - i;
    MulBounds(qe - qi, a);
    ModShift(i, 1, a);
  }

  /** The four-register loop stops no later than the one-register loop. */
  lemma AlignLoNested(x: nat)
    ensures AlignLo(x, QF) <= AlignLo(x, F) && AlignLo(x, QF) % F == 0
  {
    var q := AlignLo(x, QF);
    assert q % F == 0;
  }

  // ---------------------------------------------------------------------
  // Masks

  /** Whether lane k of a 16-lane mask is enabled. */
  predicate On(m: bv16, k: nat)
    requires k < F
  {
    (m >> k) & 1 == 1
  }

  /** The mask enables exactly the first n lanes. */
  ghost predicate FirstLanes(m: bv16, n: nat) {
    n <= F && forall k :: 0 <= k < F ==> (On(m, k) <==> k < n)
  }

  /** __mmask16(-1): every lane. */
  const FullMask: bv16 := 0xFFFF

  lemma FullMaskLanes()
    ensures FirstLanes(FullMask, F)
  {
  }

  /** The tail mask of the float kernels: __mmask16(-1) >> (F + i - size). */
  function TailMask(i: nat, size: nat): bv16
    requires i <= size < i + F
  {
    FullMask >> (F + i - size)
  }

  /** The tail mask enables the size - i lanes still to do, and no more. */
  lemma TailMaskLanes(i: nat, size: nat)
    requires i <= size < i + F
    ensures FirstLanes(TailMask(i, size), size - i)
  {
  }

  // ---------------------------------------------------------------------
  // Registers

  type Vec = v: seq<real> | |v| == F witness seq(F, k => 0.0)

  /** _mm512_set1_ps(x). */
  function Splat(x: real): (v: Vec)
    ensures forall k :: 0 <= k < F ==> v[k] == x
  {
    seq(F, k => x)
  }

  /** Load<align, mask>(a + off, m): the enabled lanes come from memory, the others are 0. */
  function Load(a: seq<real>, off: nat, m: bv16): (v: Vec)
    requires forall k :: 0 <= k < F && On(m, k) ==> off + k < |a|
    ensures forall k :: 0 <= k < F ==> v[k] == if On(m, k) then a[off + k] else 0.0
  {
    seq(F, k requires 0 <= k < F => if On(m, k) then a[off + k] else 0.0)
  }

  /**
   * Position p of a row, or 0 past either end.  The kernels read past the
   * end of a row (the rest of the 16 lanes of a tail register); the model
   * reads 0 there, and the lemmas about each kernel show that no stored
   * lane depends on such a read.
   */
  function At(a: seq<real>, p: int): real {
    if 0 <= p < |a| then a[p] else 0.0
  }

  /**
   * Load<align, mask>(a + off, m) on a row that the load may run past, for
   * a mask m that enables the first n lanes (FirstLanes(m, n); every mask
   * of the float kernels is of this kind, see TailMaskLanes).
   */
  function LoadRow(a: seq<real>, off: int, n: nat): (v: Vec)
    ensures forall k :: 0 <= k < F ==> v[k] == if k < n then At(a, off + k) else 0.0
  {
    seq(F, k requires 0 <= k < F => if k < n then At(a, off + k) else 0.0)
  }

  /** Alignr<s>(lo, hi): lanes s .. s + 15 of the 32 lanes lo followed by hi. */
  function Alignr(lo: Vec, hi: Vec, s: nat): (v: Vec)
    requires s < F
    ensures forall k :: 0 <= k < F ==> v[k] == if k + s < F then lo[k + s] else hi[k + s - F]
  {
    seq(F, k requires 0 <= k < F => if k + s < F then lo[k + s] else hi[k + s - F])
  }

  /** _mm512_add_ps. */
  function Add(x: Vec, y: Vec): (v: Vec)
    ensures forall k :: 0 <= k < F ==> v[k] == x[k] + y[k]
  {
    seq(F, k requires 0 <= k < F => x[k] + y[k])
  }

  /** _mm512_mul_ps. */
  function Mul(x: Vec, y: Vec): (v: Vec)
    ensures forall k :: 0 <= k < F ==> v[k] == x[k] * y[k]
  {
    seq(F, k requires 0 <= k < F => x[k] * y[k])
  }

  /** _mm512_fmadd_ps(x, y, z) = x*y + z, exact over the reals. */
  function Fma(x: Vec, y: Vec, z: Vec): (v: Vec)
    ensures forall k :: 0 <= k < F ==> v[k] == x[k] * y[k] + z[k]
  {
    seq(F, k requires 0 <= k < F => x[k] * y[k] + z[k])
  }

  function MaxReal(x: real, y: real): real { if x >= y then x else y }

  /** _mm512_max_ps. */
  function Max(x: Vec, y: Vec): (v: Vec)
    ensures forall k :: 0 <= k < F ==> v[k] == MaxReal(x[k], y[k])
  {
    seq(F, k requires 0 <= k < F => MaxReal(x[k], y[k]))
  }

  /** Store<align, mask>(a + off, v, m): writes the enabled lanes only. */
  method Store(a: array<real>, off: nat, v: Vec, m: bv16)
    requires forall k :: 0 <= k < F && On(m, k) ==> off + k < a.Length
    modifies a
    ensures forall j :: 0 <= j < a.Length ==>
              a[j] == if off <= j < off + F && On(m, j - off) then v[j - off] else old(a[j])
  {
    forall k | 0 <= k < F && On(m, k) {
      a[off + k] := v[k];
    }
  }

  // ---------------------------------------------------------------------
  // Lane sums

  /** The sum of the lanes of a register (or of any sequence), left to right. */
  function Sum(s: seq<real>): real
    decreases |s|
  {
    if |s| == 0 then 0.0 else Sum(s[..|s| - 1]) + s[|s| - 1]
  }

  /** Summing lane-wise sums is summing each register. */
  lemma {:induction false} SumAdd(x: seq<real>, y: seq<real>, z: seq<real>)
    requires |x| == |y| == |z|
    requires forall k :: 0 <= k < |z| ==> z[k] == x[k] + y[k]
    ensures Sum(z) == Sum(x) + Sum(y)
    decreases |z|
  {
    if |z| > 0 {
      var n := |z| - 1;
      SumAdd(x[..n], y[..n], z[..n]);
    }
  }

  /** The lanes k < n of a register whose lanes past n are zero hold its whole sum. */
  lemma {:induction false} SumPrefix(s: seq<real>, n: nat)
    requires n <= |s|
    requires forall k :: n <= k < |s| ==> s[k] == 0.0
    ensures Sum(s) == Sum(s[..n])
    decreases |s|
  {
    if |s| > n {
      SumPrefix(s[..|s| - 1], n);
      assert s[..|s| - 1][..n] == s[..n];
    } else {
      assert s[..n] == s;
    }
  }

  /** A sum splits at any point. */
  lemma {:induction false} SumConcat(x: seq<real>, y: seq<real>)
    ensures Sum(x + y) == Sum(x) + Sum(y)
    decreases |y|
  {
    if |y| > 0 {
      SumConcat(x, y[..|y| - 1]);
      assert (x + y)[..|x + y| - 1] == x + y[..|y| - 1];
    } else {
      assert x + y == x;
    }
  }
}
