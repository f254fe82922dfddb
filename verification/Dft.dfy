/** The defining sum of the discrete Fourier transform, and the laws the fast form rests on. */
module DftSpec {
  import opened ComplexNumbers
  import opened BitReversal

  /** Sample `i` as a complex number; samples outside the input count as zero padding. */
  function At(x: seq<real>, i: int): Complex {
    if 0 <= i < |x| then Complex(x[i], 0.0) else ZERO
  }

  /** Sum over `j < n` of `x[start + step * j] * w^(bin * j)`. */
  function Dft(x: seq<real>, start: int, step: nat, n: nat, w: Complex, bin: nat): Complex {
    if n == 0 then ZERO
    else Add(Dft(x, start, step, n - 1, w, bin), Term(x, start, step, w, bin, n - 1))
  }

  function Term(x: seq<real>, start: int, step: nat, w: Complex, bin: nat, j: nat): Complex {
    Mul(At(x, start + step * j), Pow(w, bin * j))
  }

  /** Bin `bin` of the spectrum of the first `n` samples, for a root `w` of order `n`. */
  function Bin(x: seq<real>, n: nat, w: Complex, bin: nat): Complex {
    Dft(x, 0, 1, n, w, bin)
  }

  lemma AddShuffle(a: Complex, b: Complex, c: Complex, d: Complex)
    ensures Add(Add(Add(a, b), c), d) == Add(Add(a, c), Add(b, d))
  {}

  lemma ScaleIndex(a: int, j: int)
    ensures a * (2 * j) == 2 * a * j == 2 * (a * j)
    ensures a * (2 * j + 1) == a + 2 * (a * j)
  {}

  lemma SplitTerms(x: seq<real>, start: int, step: nat, w: Complex, bin: nat, j: nat)
    ensures Term(x, start, step, w, bin, 2 * j) == Term(x, start, 2 * step, Pow(w, 2), bin, j)
    ensures Term(x, start, step, w, bin, 2 * j + 1)
         == Mul(Pow(w, bin), Term(x, start + step, 2 * step, Pow(w, 2), bin, j))
  {
    hide Mul, Pow, At;
    ScaleIndex(step, j);
    ScaleIndex(bin, j);
    PowPow(w, 2, bin * j);
    PowAdd(w, bin, 2 * (bin * j));
    var a, p, q := At(x, start + step * (2 * j + 1)), Pow(w, bin), Pow(w, 2 * (bin * j));
    MulAssociates(a, p, q);
    MulCommutes(a, p);
    MulAssociates(p, a, q);
  }

  lemma ZeroSum(z: Complex)
    ensures Add(ZERO, Mul(z, ZERO)) == ZERO
  {}

  lemma Distribute(a: int, b: int, c: int)
    ensures (b + c) * a == b * a + c * a
  {}

  /** Decimation in time: a transform of size 2n is two transforms of size n over the even and the
      odd samples, the odd one turned by `w^bin`. */
  lemma {:induction false} EvenOddSplit(x: seq<real>, start: int, step: nat, n: nat, w: Complex, bin: nat)
    ensures Dft(x, start, step, 2 * n, w, bin)
         == Add(Dft(x, start, 2 * step, n, Pow(w, 2), bin),
                Mul(Pow(w, bin), Dft(x, start + step, 2 * step, n, Pow(w, 2), bin)))
  {
    hide Mul, Pow, Add, Term;
    ZeroSum(Pow(w, bin));
    if n != 0 {
      EvenOddSplit(x, start, step, n - 1, w, bin);
      SplitTerms(x, start, step, w, bin, n - 1);
      var u := Pow(w, 2);
      var even, odd := Dft(x, start, 2 * step, n - 1, u, bin), Dft(x, start + step, 2 * step, n - 1, u, bin);
      var e, o := Term(x, start, 2 * step, u, bin, n - 1), Term(x, start + step, 2 * step, u, bin, n - 1);
      MulDistributes(Pow(w, bin), odd, o);
      AddShuffle(even, Mul(Pow(w, bin), odd), e, Mul(Pow(w, bin), o));
    }
  }

  /** The twiddle table: entry 0 is the root of order 2 and every entry squares to the one before. */
  ghost predicate RootTower(tw: seq<Complex>) {
    && (|tw| > 0 ==> tw[0] == MINUS_ONE)
    && forall s, t :: 0 <= s < t < |tw| && t == s + 1 ==> Mul(tw[t], tw[t]) == tw[s]
  }

  /** The root of order `Pow2(t)`; table entry `t` holds the root of the next order. */
  function Root(tw: seq<Complex>, t: nat): Complex
    requires t <= |tw|
  {
    if t == 0 then ONE else tw[t - 1]
  }

  lemma RootSquared(tw: seq<Complex>, t: nat)
    requires RootTower(tw) && t < |tw|
    ensures Pow(Root(tw, t + 1), 2) == Root(tw, t)
  {
    PowTwo(tw[t]);
    if t > 0 {
      hide Pow, Mul;
      assert Mul(tw[t], tw[t]) == tw[t - 1];
    }
  }

  lemma MinusOneSquared()
    ensures Mul(MINUS_ONE, MINUS_ONE) == ONE
  {}

  lemma RootTwo(tw: seq<Complex>)
    requires RootTower(tw) && |tw| > 0
    ensures Root(tw, 1) == MINUS_ONE
  {}

  lemma SignPowers(z: Complex)
    requires Mul(z, z) == ONE
    ensures Pow(z, 1) == z && Pow(z, 2) == ONE
  {
    MulUnit(z);
    PowTwo(z);
    hide Mul;
    assert Pow(z, 1) == Mul(z, Pow(z, 0));
  }

  lemma {:induction false} RootHalfTurn(tw: seq<Complex>, t: nat)
    requires RootTower(tw) && t < |tw|
    ensures Pow(Root(tw, t + 1), Pow2(t)) == MINUS_ONE
    ensures Pow(Root(tw, t + 1), Pow2(t + 1)) == ONE
  {
    MinusOneSquared();
    hide Pow, Mul, Root;
    if t == 0 {
      RootTwo(tw);
      SignPowers(Root(tw, 1));
    } else {
      RootSquared(tw, t);
      RootHalfTurn(tw, t - 1);
      PowPow(Root(tw, t + 1), 2, Pow2(t - 1));
      PowPow(Root(tw, t + 1), 2, Pow2(t));
    }
  }

  lemma RootOrder(tw: seq<Complex>, t: nat)
    requires RootTower(tw) && t <= |tw|
    ensures Pow(Root(tw, t), Pow2(t)) == ONE
  {
    if t == 0 {
      PowOne(1);
    } else {
      RootHalfTurn(tw, t - 1);
    }
  }

  /** A root of order `period` cannot tell bins apart that differ by `period`. */
  lemma {:induction false} DftPeriodic(x: seq<real>, start: int, step: nat, n: nat, w: Complex, period: nat, bin: nat)
    requires Pow(w, period) == ONE
    ensures Dft(x, start, step, n, w, bin + period) == Dft(x, start, step, n, w, bin)
  {
    hide Pow, Mul, At;
    if n != 0 {
      DftPeriodic(x, start, step, n - 1, w, period, bin);
      var j := n - 1;
      Distribute(j, bin, period);
      PowAdd(w, bin * j, period * j);
      PowPow(w, period, j);
      PowOne(j);
      MulUnit(Pow(w, bin * j));
    }
  }

  /** One butterfly: with `w` the root of order `Pow2(t + 1)`, bins `m` and `m + Pow2(t)` of the
      transform of twice the size come from bin `m` of the two halves. */
  lemma Butterfly(x: seq<real>, start: int, step: nat, tw: seq<Complex>, t: nat, m: nat)
    requires RootTower(tw) && t < |tw|
    ensures
      var w, u, half := Root(tw, t + 1), Root(tw, t), Pow2(t);
      var even, odd := Dft(x, start, 2 * step, half, u, m), Dft(x, start + step, 2 * step, half, u, m);
      var turned := Mul(Pow(w, m), odd);
      && Dft(x, start, step, 2 * half, w, m) == Add(even, turned)
      && Dft(x, start, step, 2 * half, w, m + half) == Sub(even, turned)
  {
    var w, u, half := Root(tw, t + 1), Root(tw, t), Pow2(t);
    RootSquared(tw, t);
    RootOrder(tw, t);
    RootHalfTurn(tw, t);
    hide Dft, Pow, Root;
    EvenOddSplit(x, start, step, half, w, m);
    EvenOddSplit(x, start, step, half, w, m + half);
    DftPeriodic(x, start, 2 * step, half, u, half, m);
    DftPeriodic(x, start + step, 2 * step, half, u, half, m);
    PowAdd(w, m, half);
    TurnNegates(Pow(w, m), Dft(x, start + step, 2 * step, half, u, m));
  }

  lemma TurnNegates(a: Complex, b: Complex)
    ensures forall e :: Add(e, Mul(Mul(a, MINUS_ONE), b)) == Sub(e, Mul(a, b))
  {}

  /** A power of a number on the unit circle stays on it. */
  lemma PowInverse(w: Complex, n: nat)
    requires Norm2(w) == 1.0
    ensures Mul(Conj(Pow(w, n)), Pow(w, n)) == ONE == Mul(Pow(w, n), Conj(Pow(w, n)))
  {
    ConjInverts(w);
    hide Mul, Conj;
    ConjPow(w, n);
    PowProduct(Conj(w), w, n);
    PowOne(n);
    MulCommutes(Pow(w, n), Conj(Pow(w, n)));
  }

  lemma MirroredPower(w: Complex, n: nat, bin: nat, j: nat)
    requires Norm2(w) == 1.0 && Pow(w, n) == ONE && bin <= n
    ensures Pow(w, (n - bin) * j) == Conj(Pow(w, bin * j))
  {
    hide Mul, Conj, Norm2, Pow;
    Distribute(j, n - bin, bin);
    PowAdd(w, (n - bin) * j, bin * j);
    PowPow(w, n, j);
    PowOne(j);
    PowInverse(w, bin * j);
    Cancel(Pow(w, (n - bin) * j), Conj(Pow(w, bin * j)), Pow(w, bin * j), Conj(Pow(w, bin * j)));
  }

  lemma ConjReal(x: seq<real>, i: int)
    ensures Conj(At(x, i)) == At(x, i)
  {}

  lemma MirroredTerm(x: seq<real>, n: nat, w: Complex, bin: nat, j: nat)
    requires Norm2(w) == 1.0 && Pow(w, n) == ONE && bin <= n
    ensures Term(x, 0, 1, w, n - bin, j) == Conj(Term(x, 0, 1, w, bin, j))
  {
    hide Mul, Conj, Norm2, Pow, At;
    MirroredPower(w, n, bin, j);
    ConjReal(x, 0 + 1 * j);
    ConjMul(At(x, 0 + 1 * j), Pow(w, bin * j));
  }

  lemma {:induction false} MirroredSum(x: seq<real>, m: nat, n: nat, w: Complex, bin: nat)
    requires Norm2(w) == 1.0 && Pow(w, n) == ONE && bin <= n
    ensures Dft(x, 0, 1, m, w, n - bin) == Conj(Dft(x, 0, 1, m, w, bin))
  {
    hide Norm2, Pow, Add, Term;
    if m != 0 {
      MirroredSum(x, m - 1, n, w, bin);
      MirroredTerm(x, n, w, bin, m - 1);
      ConjMul(Dft(x, 0, 1, m - 1, w, bin), Term(x, 0, 1, w, bin, m - 1));
    }
  }

  /** The spectrum of real input is conjugate symmetric about its middle, so the bins above the
      middle repeat the amplitudes of the bins below it. */
  lemma ConjugateSymmetry(x: seq<real>, n: nat, w: Complex, bin: nat)
    requires Norm2(w) == 1.0 && Pow(w, n) == ONE && bin <= n
    ensures Bin(x, n, w, n - bin) == Conj(Bin(x, n, w, bin))
    ensures Norm2(Bin(x, n, w, n - bin)) == Norm2(Bin(x, n, w, bin))
  {
    hide Pow, Mul, Dft;
    MirroredSum(x, n, n, w, bin);
  }
}
