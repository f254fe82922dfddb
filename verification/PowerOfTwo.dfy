/** The bit trick that chooses between the fast and the quadratic transform. */
module PowerOfTwoTest {
  import opened BitReversal

  /** Bitwise conjunction of two natural numbers. */
  function BitAnd(a: nat, b: nat): nat {
    if a == 0 || b == 0 then 0
    else 2 * BitAnd(a / 2, b / 2) + (if a % 2 == 1 && b % 2 == 1 then 1 else 0)
  }

  predicate IsPowerOf2(n: nat) {
    n > 0 && BitAnd(n, n - 1) == 0
  }

  lemma {:induction false} BitAndSelf(a: nat)
    ensures BitAnd(a, a) == a
  {
    if a != 0 {
      BitAndSelf(a / 2);
    }
  }

  /** The exponent of a number that passes the test. */
  lemma {:induction false} ExponentOf(n: nat) returns (k: nat)
    requires IsPowerOf2(n)
    ensures n == Pow2(k)
  {
    if n == 1 {
      k := 0;
    } else {
      if n % 2 == 1 {
        BitAndSelf(n / 2);
      }
      assert (n - 1) / 2 == n / 2 - 1;
      k := ExponentOf(n / 2);
      k := k + 1;
    }
  }

  lemma {:induction false} Pow2Passes(k: nat)
    ensures IsPowerOf2(Pow2(k))
  {
    if k != 0 {
      Pow2Passes(k - 1);
      var half := Pow2(k - 1);
      assert Pow2(k) == 2 * half && Pow2(k) / 2 == half && (Pow2(k) - 1) / 2 == half - 1 && Pow2(k) % 2 == 0;
    }
  }

  /** `n & (n - 1)` is zero for exactly the powers of two. */
  lemma TestIsExact(n: nat)
    ensures IsPowerOf2(n) <==> exists k :: n == Pow2(k)
  {
    if IsPowerOf2(n) {
      var k := ExponentOf(n);
    }
    forall k | n == Pow2(k) ensures IsPowerOf2(n) {
      Pow2Passes(k);
    }
  }
}
