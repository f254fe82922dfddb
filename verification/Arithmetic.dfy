/** Arithmetic that several components share: C's conversion of reals, bytes, and the order of multiples. */
module Arithmetic {

  /** The unsigned byte of pixels, colour components and coded streams. */
  type byte = b: int | 0 <= b < 256

  /** A real cut off toward zero. */
  function Cut(x: real): int {
    if 0.0 <= x then x.Floor else -(-x).Floor
  }

  lemma MultipleOrder(d: nat, v: nat, n: nat)
    ensures v < n ==> d * v + d <= d * n
    ensures v >= n ==> d * v >= d * n
  {
    if v < n {
      var gap := n - v - 1;
      assert d * n == d * v + d + d * gap;
    } else {
      var gap := v - n;
      assert d * v == d * n + d * gap;
    }
  }
}
