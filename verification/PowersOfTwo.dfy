/** Powers of two and the two binary shapes that decide which proofs a verifier accepts. */
module PowersOfTwo {

  function Pow2(e: nat): (p: nat)
    ensures p >= 1
  {
    if e == 0 then 1 else 2 * Pow2(e - 1)
  }

  /** True of 1, 2, 4, 8, ... */
  predicate IsPow2(n: nat) {
    n == 1 || (n > 1 && n % 2 == 0 && IsPow2(n / 2))
  }

  /** The number of levels above the leaves of a tree of n leaves, that is, log2(n) rounded up. */
  function Depth(n: nat): nat
    requires n > 0
  {
    if n == 1 then 0 else 1 + Depth((n + 1) / 2)
  }

  /** Depth(n) is the least exponent whose power of two reaches n. */
  lemma {:induction false} DepthIsLogarithm(n: nat)
    requires n > 0
    ensures n <= Pow2(Depth(n))
    ensures n > 1 ==> Depth(n) > 0 && Pow2(Depth(n) - 1) < n
  {
    if n > 1 {
      DepthIsLogarithm((n + 1) / 2);
    }
  }

  /** The largest power of two smaller than n: the split point of section 2.1 of RFC 6962. */
  function Split(n: nat): (k: nat)
    requires n > 1
    ensures IsPow2(k) && k < n <= 2 * k
  {
    if n == 2 then 1 else 2 * Split((n + 1) / 2)
  }

  /** Binary 1...1: every bit of p below its top bit is set. */
  predicate AllOnes(p: nat) {
    p == 0 || (p % 2 == 1 && AllOnes(p / 2))
  }

  /** Binary 1...10...0: a block of ones followed by a block of zeros. */
  predicate OnesThenZeros(p: nat) {
    if p > 0 && p % 2 == 0 then OnesThenZeros(p / 2) else AllOnes(p)
  }

  lemma {:induction false} Pow2IsPow2(e: nat)
    ensures IsPow2(Pow2(e))
  {
    if e > 0 {
      Pow2IsPow2(e - 1);
    }
  }

  lemma {:induction false} IsPow2Exponent(n: nat) returns (e: nat)
    requires IsPow2(n)
    ensures n == Pow2(e)
  {
    if n == 1 {
      e := 0;
    } else {
      var e' := IsPow2Exponent(n / 2);
      e := e' + 1;
    }
  }

  /** A number is all ones exactly when its successor is a power of two. */
  lemma {:induction false} AllOnesIffSuccessorPow2(p: nat)
    ensures AllOnes(p) <==> IsPow2(p + 1)
  {
    if p > 0 {
      if p % 2 == 1 {
        assert (p + 1) / 2 == p / 2 + 1;
        AllOnesIffSuccessorPow2(p / 2);
      }
    }
  }

  /** OnesThenZeros in arithmetic: the differences of two powers of two. */
  lemma {:induction false} OnesThenZerosIffDifference(p: nat)
    ensures OnesThenZeros(p) <==> exists a: nat, b: nat :: b <= a && p == Pow2(a) - Pow2(b)
  {
    if OnesThenZeros(p) {
      var a, b := DifferenceOf(p);
    }
    if exists a: nat, b: nat :: b <= a && p == Pow2(a) - Pow2(b) {
      var a: nat, b: nat :| b <= a && p == Pow2(a) - Pow2(b);
      DifferenceIsOnesThenZeros(a, b);
    }
  }

  lemma {:induction false} DifferenceOf(p: nat) returns (a: nat, b: nat)
    requires OnesThenZeros(p)
    ensures b <= a && p == Pow2(a) - Pow2(b)
  {
    if p > 0 && p % 2 == 0 {
      var a', b' := DifferenceOf(p / 2);
      a, b := a' + 1, b' + 1;
    } else {
      AllOnesIffSuccessorPow2(p);
      a := IsPow2Exponent(p + 1);
      b := 0;
    }
  }

  lemma {:induction false} BelowPow2AllOnes(a: nat)
    ensures AllOnes(Pow2(a) - 1)
  {
    if a > 0 {
      BelowPow2AllOnes(a - 1);
      assert Pow2(a) - 1 == 2 * (Pow2(a - 1) - 1) + 1;
    }
  }

  lemma {:induction false} DifferenceIsOnesThenZeros(a: nat, b: nat)
    requires b <= a
    ensures Pow2(b) <= Pow2(a) && OnesThenZeros(Pow2(a) - Pow2(b))
  {
    hide OnesThenZeros, AllOnes;
    if b == 0 {
      BelowPow2AllOnes(a);
      AllOnesIsOnesThenZeros(Pow2(a) - 1);
    } else {
      DifferenceIsOnesThenZeros(a - 1, b - 1);
      DoubleOnesThenZeros(Pow2(a - 1) - Pow2(b - 1));
    }
  }

  lemma {:induction false} AllOnesIsOnesThenZeros(p: nat)
    requires AllOnes(p)
    ensures OnesThenZeros(p)
  {
  }

  lemma {:induction false} DoubleOnesThenZeros(p: nat)
    requires OnesThenZeros(p)
    ensures OnesThenZeros(2 * p)
  {
    if p > 0 {
      assert (2 * p) % 2 == 0 && (2 * p) / 2 == p;
    }
  }
}
