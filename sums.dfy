// Finite sums over an index range, the vocabulary in which the convolution
// and the gradient sums are specified.

module FiniteSums {

  /** f(0) + f(1) + ... + f(n - 1), accumulated left to right. */
  function SumF(n: nat, f: int -> real): real
  {
    if n == 0 then 0.0 else SumF(n - 1, f) + f(n - 1)
  }

  /** A sum depends only on the terms it adds. */
  lemma {:induction false} SumExt(n: nat, f: int -> real, g: int -> real)
    requires forall i :: 0 <= i < n ==> f(i) == g(i)
    ensures SumF(n, f) == SumF(n, g)
  {
    if n > 0 {
      SumExt(n - 1, f, g);
    }
  }

  /** A sum of zeros is zero. */
  lemma {:induction false} SumZero(n: nat, f: int -> real)
    requires forall i :: 0 <= i < n ==> f(i) == 0.0
    ensures SumF(n, f) == 0.0
  {
    if n > 0 {
      SumZero(n - 1, f);
    }
  }

  /** The sum of term-wise sums is the sum of the two sums. */
  lemma {:induction false} SumPlus(n: nat, f: int -> real, g: int -> real, h: int -> real)
    requires forall i :: 0 <= i < n ==> h(i) == f(i) + g(i)
    ensures SumF(n, h) == SumF(n, f) + SumF(n, g)
  {
    if n > 0 {
      SumPlus(n - 1, f, g, h);
    }
  }

  /** The first term can be taken off the front. */
  lemma {:induction false} SumFirst(n: nat, f: int -> real)
    requires n > 0
    ensures SumF(n, f) == f(0) + SumF(n - 1, i => f(i + 1))
  {
    if n > 1 {
      SumFirst(n - 1, f);
      assert SumF(n - 2, (i => f(i + 1))) + f(n - 1) == SumF(n - 1, i => f(i + 1));
    }
  }

  /** Adding the terms in the opposite order gives the same sum. */
  lemma {:induction false} SumReverse(n: nat, f: int -> real)
    ensures SumF(n, f) == SumF(n, i => f(n - 1 - i))
  {
    if n > 0 {
      var g := i => f(n - 1 - i);
      SumFirst(n, g);
      SumReverse(n - 1, f);
      SumExt(n - 1, i => g(i + 1), i => f(n - 2 - i));
    }
  }

  /** Two sums whose terms are the same terms in reverse order are equal. */
  lemma SumReversed(n: nat, f: int -> real, g: int -> real)
    requires forall i :: 0 <= i < n ==> f(i) == g(n - 1 - i)
    ensures SumF(n, f) == SumF(n, g)
  {
    SumReverse(n, g);
    SumExt(n, f, i => g(n - 1 - i));
  }

  /** A sum with a single non-zero term at k is that term. */
  lemma {:induction false} SumSingle(n: nat, k: int, f: int -> real)
    requires forall i :: 0 <= i < n && i != k ==> f(i) == 0.0
    ensures SumF(n, f) == if 0 <= k < n then f(k) else 0.0
  {
    if n > 0 {
      SumSingle(n - 1, k, f);
    }
  }

}
