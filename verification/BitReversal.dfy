/** Powers of two, and the permutation that sends an index to the reversal of its `k` bits. */
module BitReversal {

  function Pow2(k: nat): (p: nat)
    ensures p > 0
  {
    if k == 0 then 1 else 2 * Pow2(k - 1)
  }

  lemma {:induction false} Pow2Add(a: nat, b: nat)
    ensures Pow2(a + b) == Pow2(a) * Pow2(b)
  {
    if a != 0 {
      Pow2Add(a - 1, b);
    }
  }

  lemma {:induction false} Pow2Monotone(a: nat, b: nat)
    ensures a <= b <==> Pow2(a) <= Pow2(b)
  {
    if a != 0 && b != 0 {
      Pow2Monotone(a - 1, b - 1);
    }
  }

  /** The low `k` bits of `i`, most significant first. */
  function Rev(k: nat, i: nat): (r: nat)
    ensures r < Pow2(k)
  {
    if k == 0 then 0 else (if i % 2 == 1 then Pow2(k - 1) else 0) + Rev(k - 1, i / 2)
  }

  /** Reversal read from the other end: the top bit of `i` becomes the lowest bit. */
  lemma {:induction false} RevFromTop(k: nat, i: nat)
    requires i < Pow2(k + 1)
    ensures Rev(k + 1, i) == if i < Pow2(k) then 2 * Rev(k, i) else 2 * Rev(k, i - Pow2(k)) + 1
  {
    if k != 0 {
      var j := if i < Pow2(k) then i else i - Pow2(k);
      RevFromTop(k - 1, i / 2);
      assert j % 2 == i % 2;
      assert j / 2 == if i / 2 < Pow2(k - 1) then i / 2 else i / 2 - Pow2(k - 1);
    }
  }

  /** Reversing twice gives the index back, so the table is a permutation of its own indices. */
  lemma {:induction false} RevInvolution(k: nat, i: nat)
    requires i < Pow2(k)
    ensures Rev(k, Rev(k, i)) == i
  {
    if k != 0 {
      RevInvolution(k - 1, i / 2);
      RevFromTop(k - 1, Rev(k, i));
    }
  }

  lemma RevInjective(k: nat, i: nat, j: nat)
    requires i < Pow2(k) && j < Pow2(k) && Rev(k, i) == Rev(k, j)
    ensures i == j
  {
    RevInvolution(k, i);
    RevInvolution(k, j);
  }

  /** `i` without its low `t` bits: the number of the block of size `Pow2(t)` that holds `i`. */
  function Shr(i: nat, t: nat): nat {
    if t == 0 then i else Shr(i / 2, t - 1)
  }

  /** The low `t` bits of `i`: its place within that block. */
  function Low(i: nat, t: nat): (r: nat)
    ensures r < Pow2(t)
  {
    if t == 0 then 0 else 2 * Low(i / 2, t - 1) + i % 2
  }

  lemma {:induction false} ShrLow(i: nat, t: nat)
    ensures i == Pow2(t) * Shr(i, t) + Low(i, t)
  {
    if t != 0 {
      ShrLow(i / 2, t - 1);
      Twice(Pow2(t - 1), Shr(i, t));
    }
  }

  lemma Twice(a: int, b: int)
    ensures 2 * a * b == 2 * (a * b)
  {}

  lemma {:induction false} ShrLowUnique(i: nat, t: nat, block: nat, place: nat)
    requires i == Pow2(t) * block + place && place < Pow2(t)
    ensures Shr(i, t) == block && Low(i, t) == place
  {
    if t != 0 {
      Twice(Pow2(t - 1), block);
      ShrLowUnique(i / 2, t - 1, block, place / 2);
    }
  }

  /** The low `t` bits of `i` become the high `t` bits of its reversal. */
  lemma {:induction false} RevSplit(k: nat, t: nat, i: nat)
    requires t <= k
    ensures Rev(k, i) == Rev(k - t, Shr(i, t)) + Pow2(k - t) * Rev(t, i)
  {
    if t != 0 {
      RevSplit(k - 1, t - 1, i / 2);
      Pow2Add(k - t, t - 1);
      ScaledStep(Pow2(k - t), Pow2(t - 1), Rev(t - 1, i / 2), i % 2 == 1);
    }
  }

  lemma ScaledStep(h: nat, low: nat, x: nat, odd: bool)
    ensures h * ((if odd then low else 0) + x) == (if odd then h * low else 0) + h * x
  {}

  /** What the swap loop has left at `p` once it has passed every index below `i`. */
  function SwappedBelow(k: nat, i: nat, p: nat): nat {
    if p < i || Rev(k, p) < i then Rev(k, p) else p
  }

  /** A carry out of the top bit of the reversed counter. */
  lemma CarryStep(level: nat, rest: nat)
    requires 0 < level
    ensures Pow2(level) / 2 == Pow2(level - 1)
    ensures Rev(level, rest) >= Pow2(level - 1) <==> rest % 2 == 1
    ensures rest % 2 == 1 ==> Rev(level, rest) == Pow2(level - 1) + Rev(level - 1, rest / 2)
    ensures rest % 2 == 1 ==> Rev(level, rest + 1) == Rev(level - 1, rest / 2 + 1)
    ensures rest % 2 == 0 ==> Rev(level, rest + 1) == Pow2(level - 1) + Rev(level, rest)
  {
    assert rest % 2 == 1 ==> (rest + 1) / 2 == rest / 2 + 1;
    assert rest % 2 == 0 ==> (rest + 1) / 2 == rest / 2;
  }

  /** The inner `while` adds one to `j` with the carry running from the top bit down. */
  method ReversedIncrement(ghost k: nat, size: nat, ghost i: nat, j0: nat) returns (j: nat)
    requires size == Pow2(k) && j0 == Rev(k, i)
    ensures j == Rev(k, i + 1)
  {
    j := j0;
    var m := size / 2;
    ghost var level, rest := k, i;
    while m >= 1 && j >= m
      invariant m == Pow2(level) / 2
      invariant j == Rev(level, rest)
      invariant Rev(k, i + 1) == Rev(level, rest + 1)
      decreases m
    {
      CarryStep(level, rest);
      j := j - m;
      m := m / 2;
      level, rest := level - 1, rest / 2;
    }
    if level > 0 {
      CarryStep(level, rest);
    }
    j := j + m;
  }

  /** The swap loop of the table initialiser, driven by the reversed-carry counter `j`. */
  method TableBitrevInit(table: array<nat>, ghost k: nat)
    requires table.Length == Pow2(k)
    modifies table
    ensures forall p :: 0 <= p < table.Length ==> table[p] == Rev(k, p)
    ensures forall p :: 0 <= p < table.Length ==> table[p] < table.Length && table[table[p]] == p
  {
    var i: nat := 0;
    while i < table.Length
      invariant i <= table.Length
      invariant forall p :: 0 <= p < i ==> table[p] == p
    {
      table[i] := i;
      i := i + 1;
    }

    var j := 0;
    ZeroReversed(k);
    i := 0;
    while i < table.Length
      invariant i <= table.Length
      invariant j == Rev(k, i)
      invariant forall p :: 0 <= p < table.Length ==> table[p] == SwappedBelow(k, i, p)
    {
      RevInvolution(k, i);
      forall p | 0 <= p < table.Length ensures Rev(k, p) == i <==> p == j {
        RevInvolution(k, p);
      }
      if j > i {
        table[i], table[j] := table[j], table[i];
      }
      j := ReversedIncrement(k, table.Length, i, j);
      i := i + 1;
    }
    forall p | 0 <= p < table.Length ensures table[Rev(k, p)] == p {
      RevInvolution(k, p);
    }
  }

  lemma {:induction false} ZeroReversed(k: nat)
    ensures Rev(k, 0) == 0
  {
    if k != 0 {
      ZeroReversed(k - 1);
    }
  }
}
