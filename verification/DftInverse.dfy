/** What the spectrum says about the samples: the bins add up to them again. */
module DftInverse {
  import opened ComplexNumbers
  import opened BitReversal
  import opened DftSpec

  // ----- Roots of unity

  /** A root of order `n` and of no smaller order. */
  ghost predicate Primitive(w: Complex, n: nat) {
    0 < n && Pow(w, n) == ONE && forall d :: 0 < d < n ==> Pow(w, d) != ONE
  }

  lemma NoZeroDivisors(a: Complex, b: Complex)
    requires Mul(a, b) == ZERO && a != ZERO
    ensures b == ZERO
  {
    var n := Norm2(a);
    SquaresPositive(a);
    MulAssociates(Conj(a), a, b);
    assert Mul(Conj(a), a) == Complex(n, 0.0);
    assert Mul(Conj(a), ZERO) == ZERO;
    assert Mul(Complex(n, 0.0), b) == Complex(n * b.re, n * b.im);
    hide Mul, Norm2;
    NoFactorZero(n, b.re);
    NoFactorZero(n, b.im);
  }

  lemma SquaresPositive(a: Complex)
    requires a != ZERO
    ensures Norm2(a) > 0.0
  {
    hide Norm2, Product;
    NormIsSquares(a);
    SignOfProduct(a.re, a.re);
    SignOfProduct(a.im, a.im);
  }

  function Product(x: real, y: real): real {
    x * y
  }

  lemma NormIsSquares(a: Complex)
    ensures Norm2(a) == Product(a.re, a.re) + Product(a.im, a.im)
  {}

  lemma SignOfProduct(x: real, y: real)
    ensures x == 0.0 ==> Product(x, y) == 0.0
    ensures 0.0 < x && 0.0 < y ==> 0.0 < Product(x, y)
    ensures x < 0.0 && y < 0.0 ==> 0.0 < Product(x, y)
  {}

  lemma NoFactorZero(n: real, x: real)
    requires n > 0.0 && n * x == 0.0
    ensures x == 0.0
  {}

  lemma {:induction false} NormOfPower(z: Complex, n: nat)
    ensures Norm2(Pow(z, n)) == RealPow(Norm2(z), n)
  {
    if n != 0 {
      NormOfPower(z, n - 1);
      NormOfProduct(z, Pow(z, n - 1));
    }
  }

  lemma NormOfProduct(a: Complex, b: Complex)
    ensures Norm2(Mul(a, b)) == Norm2(a) * Norm2(b)
  {
    var p, q, r, s := a.re * b.re, a.im * b.im, a.re * b.im, a.im * b.re;
    assert p * q == r * s;
    assert p * p + q * q + r * r + s * s == Norm2(a) * Norm2(b) by {
      assert p * p == (a.re * a.re) * (b.re * b.re) && q * q == (a.im * a.im) * (b.im * b.im);
      assert r * r == (a.re * a.re) * (b.im * b.im) && s * s == (a.im * a.im) * (b.re * b.re);
    }
  }

  function RealPow(r: real, n: nat): real {
    if n == 0 then 1.0 else r * RealPow(r, n - 1)
  }

  lemma {:induction false} PowerAwayFromOne(r: real, n: nat)
    requires 0.0 <= r && 0 < n
    ensures r < 1.0 ==> 0.0 <= RealPow(r, n) < 1.0
    ensures r > 1.0 ==> RealPow(r, n) > 1.0
  {
    hide RealPow;
    var p := RealPow(r, n - 1);
    RealPowStep(r, n);
    if n > 1 {
      PowerAwayFromOne(r, n - 1);
      ProductSide(r, p);
      assert RealPow(r, n) == r * p;
    }
  }

  lemma RealPowStep(r: real, n: nat)
    requires 0 < n
    ensures RealPow(r, n) == r * RealPow(r, n - 1) && (n == 1 ==> RealPow(r, n) == r)
  {}

  lemma ProductSide(r: real, p: real)
    ensures 0.0 <= r < 1.0 && 0.0 <= p < 1.0 ==> 0.0 <= r * p < 1.0
    ensures r > 1.0 && p > 1.0 ==> r * p > 1.0
  {
    var q := r * (1.0 - p);
    assert q == r - r * p;
    assert 0.0 <= r && p <= 1.0 ==> q >= 0.0;
    assert r > 1.0 && p > 1.0 ==> q < 0.0;
    assert 0.0 <= r && 0.0 <= p ==> 0.0 <= r * p;
  }

  /** A root of unity lies on the unit circle. */
  lemma RootsAreUnits(w: Complex, n: nat)
    requires 0 < n && Pow(w, n) == ONE
    ensures Norm2(w) == 1.0
  {
    NormOfPower(w, n);
    NormIsSquares(w);
    SignOfProduct(w.re, w.re);
    SignOfProduct(w.im, w.im);
    PowerAwayFromOne(Norm2(w), n);
  }

  lemma {:induction false} OddPowerOfMinusOne(d: nat)
    requires d % 2 == 1
    ensures Pow(MINUS_ONE, d) == MINUS_ONE
  {
    hide Mul, Pow;
    var e := d / 2;
    assert d == 1 + 2 * e;
    MinusOneSquared();
    SignPowers(MINUS_ONE);
    PowPow(MINUS_ONE, 2, e);
    PowOne(e);
    PowAdd(MINUS_ONE, 1, 2 * e);
    MulUnit(MINUS_ONE);
  }

  /** The roots in the twiddle table are primitive: the fast transform tells all bins apart. */
  lemma {:induction false} TowerIsPrimitive(tw: seq<Complex>, t: nat)
    requires RootTower(tw) && t <= |tw|
    ensures Primitive(Root(tw, t), Pow2(t))
  {
    RootOrder(tw, t);
    if t > 0 {
      TowerIsPrimitive(tw, t - 1);
      forall d | 0 < d < Pow2(t) ensures Pow(Root(tw, t), d) != ONE {
        if Pow(Root(tw, t), d) == ONE {
          NoSmallerOrder(tw, t, d);
        }
      }
    }
  }

  lemma NoSmallerOrder(tw: seq<Complex>, t: nat, d: nat)
    requires RootTower(tw) && 0 < t <= |tw| && 0 < d < Pow2(t)
    requires Primitive(Root(tw, t - 1), Pow2(t - 1))
    ensures Pow(Root(tw, t), d) != ONE
  {
    hide Mul, Root, RootTower, Pow;
    var w, half := Root(tw, t), Pow2(t - 1);
    assert d * half == half * d && ONE != MINUS_ONE;
    if d % 2 == 0 {
      RootSquared(tw, t - 1);
      PowPow(w, 2, d / 2);
    } else if Pow(w, d) == ONE {
      RootHalfTurn(tw, t - 1);
      PowPow(w, d, half);
      PowPow(w, half, d);
      PowOne(half);
      OddPowerOfMinusOne(d);
    }
  }

  // ----- Orthogonality

  /** `1 + z + ... + z^(n-1)` */
  function PowerSum(z: Complex, n: nat): Complex {
    if n == 0 then ZERO else Add(PowerSum(z, n - 1), Pow(z, n - 1))
  }

  lemma {:induction false} PowerSumCloses(z: Complex, n: nat)
    ensures Mul(Sub(z, ONE), PowerSum(z, n)) == Sub(Pow(z, n), ONE)
  {
    if n == 0 {
      assert Mul(Sub(z, ONE), ZERO) == ZERO;
    } else {
      PowerSumCloses(z, n - 1);
      var s, p := PowerSum(z, n - 1), Pow(z, n - 1);
      MulDistributes(Sub(z, ONE), s, p);
      OneLess(z, p);
      hide Mul;
    }
  }

  lemma OneLess(z: Complex, p: Complex)
    ensures Mul(Sub(z, ONE), p) == Sub(Mul(z, p), p)
  {}

  lemma {:induction false} PowerSumOfOne(n: nat)
    ensures PowerSum(ONE, n) == Complex(n as real, 0.0)
  {
    hide Pow;
    if n != 0 {
      PowerSumOfOne(n - 1);
      PowOne(n - 1);
    }
  }

  /** `w^j` turned back by `w^m`. */
  function Turn(w: Complex, j: nat, m: nat): Complex {
    Mul(Pow(w, j), Conj(Pow(w, m)))
  }

  lemma PowerOfTurn(w: Complex, j: nat, m: nat, p: nat)
    ensures Pow(Turn(w, j, m), p) == Mul(Pow(w, p * j), Conj(Pow(w, p * m)))
  {
    hide Mul, Pow, Conj;
    PowProduct(Pow(w, j), Conj(Pow(w, m)), p);
    PowPow(w, j, p);
    PowPow(w, m, p);
    ConjPow(Pow(w, m), p);
    assert p * j == j * p && p * m == m * p;
  }

  lemma TurnCloses(w: Complex, n: nat, j: nat, m: nat)
    requires Pow(w, n) == ONE
    ensures Pow(Turn(w, j, m), n) == ONE
  {
    UnitTurn();
    hide Mul, Pow, Conj, Turn;
    PowerOfTurn(w, j, m, n);
    PowPow(w, n, j);
    PowPow(w, n, m);
    PowOne(j);
    PowOne(m);
  }

  lemma UnitTurn()
    ensures Mul(ONE, Conj(ONE)) == ONE
  {}

  /** Equal powers of a primitive root have equal exponents below its order. */
  lemma ExponentsTold(w: Complex, n: nat, j: nat, m: nat)
    requires Primitive(w, n) && j <= m < n && Pow(w, j) == Pow(w, m)
    ensures j == m
  {
    RootsAreUnits(w, n);
    hide Mul, Pow, Conj, Norm2;
    PowAdd(w, m - j, j);
    PowInverse(w, j);
    MulUnit(Pow(w, j));
    Cancel(Pow(w, m - j), ONE, Pow(w, j), Conj(Pow(w, j)));
  }

  lemma TurnIsOneIff(w: Complex, n: nat, j: nat, m: nat)
    requires Primitive(w, n) && j < n && m < n
    ensures Turn(w, j, m) == ONE <==> j == m
  {
    RootsAreUnits(w, n);
    hide Mul, Pow, Conj, Norm2, Primitive;
    PowInverse(w, m);
    if Turn(w, j, m) == ONE {
      Cancel(Pow(w, j), Pow(w, m), Conj(Pow(w, m)), Pow(w, m));
      if j <= m {
        ExponentsTold(w, n, j, m);
      } else {
        ExponentsTold(w, n, m, j);
      }
    }
  }

  lemma Orthogonal(w: Complex, n: nat, j: nat, m: nat)
    requires Primitive(w, n) && j < n && m < n
    ensures PowerSum(Turn(w, j, m), n) == if j == m then Complex(n as real, 0.0) else ZERO
  {
    TurnCloses(w, n, j, m);
    hide Turn, Pow, Mul, Primitive;
    var z := Turn(w, j, m);
    TurnIsOneIff(w, n, j, m);
    if j == m {
      PowerSumOfOne(n);
    } else {
      PowerSumCloses(z, n);
      assert Sub(z, ONE) != ZERO;
      NoZeroDivisors(Sub(z, ONE), PowerSum(z, n));
    }
  }

  // ----- The inverse transform

  /** Sum over the bins `p < bins` of the first `samples` samples' spectrum, each turned back by `w^(p * m)`. */
  function Backward(x: seq<real>, samples: nat, w: Complex, m: nat, bins: nat): Complex {
    if bins == 0 then ZERO
    else
      var p := bins - 1;
      Add(Backward(x, samples, w, m, p), Mul(Dft(x, 0, 1, samples, w, p), Conj(Pow(w, p * m))))
  }

  /** A sample's share of the bins, turned back. */
  lemma SampleShare(x: seq<real>, s: nat, w: Complex, m: nat, p: nat)
    ensures Mul(Term(x, 0, 1, w, p, s), Conj(Pow(w, p * m))) == Mul(At(x, s), Pow(Turn(w, s, m), p))
  {
    PowerOfTurn(w, s, m, p);
    hide Mul, Pow, At, Conj, Turn;
    MulAssociates(At(x, s), Pow(w, p * s), Conj(Pow(w, p * m)));
    assert 0 + 1 * s == s;
  }

  lemma {:induction false} OneSampleMore(x: seq<real>, s: nat, w: Complex, m: nat, bins: nat)
    ensures Backward(x, s + 1, w, m, bins)
         == Add(Backward(x, s, w, m, bins), Mul(At(x, s), PowerSum(Turn(w, s, m), bins)))
  {
    hide Mul, Pow, Conj, Turn, Term, At, Dft;
    ZeroTimes(At(x, s));
    if bins != 0 {
      var p := bins - 1;
      OneSampleMore(x, s, w, m, p);
      DftStep(x, s, w, p);
      var back, share := Conj(Pow(w, p * m)), Term(x, 0, 1, w, p, s);
      var before := Dft(x, 0, 1, s, w, p);
      TimesSum(before, share, back);
      SampleShare(x, s, w, m, p);
      MulDistributes(At(x, s), PowerSum(Turn(w, s, m), p), Pow(Turn(w, s, m), p));
      FourSums(Backward(x, s, w, m, p), Mul(At(x, s), PowerSum(Turn(w, s, m), p)), Mul(before, back), Mul(share, back));
    }
  }

  lemma ZeroTimes(a: Complex)
    ensures Mul(a, ZERO) == ZERO == Mul(ZERO, a)
  {}

  lemma DftStep(x: seq<real>, s: nat, w: Complex, p: nat)
    ensures Dft(x, 0, 1, s + 1, w, p) == Add(Dft(x, 0, 1, s, w, p), Term(x, 0, 1, w, p, s))
  {}

  lemma TimesSum(a: Complex, b: Complex, c: Complex)
    ensures Mul(Add(a, b), c) == Add(Mul(a, c), Mul(b, c))
  {
    hide Mul;
    MulCommutes(Add(a, b), c);
    MulDistributes(c, a, b);
    MulCommutes(c, a);
    MulCommutes(c, b);
  }

  lemma FourSums(a: Complex, b: Complex, c: Complex, d: Complex)
    ensures Add(Add(a, b), Add(c, d)) == Add(Add(a, c), Add(b, d))
  {}

  lemma {:induction false} SamplesComeBack(x: seq<real>, s: nat, n: nat, w: Complex, m: nat)
    requires Primitive(w, n) && s <= n && m < n
    ensures Backward(x, s, w, m, n) == if m < s then Mul(At(x, m), Complex(n as real, 0.0)) else ZERO
  {
    hide Mul, Primitive, At, Turn, Backward, PowerSum;
    if s == 0 {
      NothingBack(x, w, m, n);
    } else {
      SamplesComeBack(x, s - 1, n, w, m);
      OneSampleMore(x, s - 1, w, m, n);
      Orthogonal(w, n, s - 1, m);
      ZeroTimes(At(x, s - 1));
    }
  }

  lemma {:induction false} NothingBack(x: seq<real>, w: Complex, m: nat, bins: nat)
    ensures Backward(x, 0, w, m, bins) == ZERO
  {
    hide Mul, Pow;
    if bins != 0 {
      NothingBack(x, w, m, bins - 1);
      ZeroTimes(Conj(Pow(w, (bins - 1) * m)));
    }
  }

  /** The transform inverts: the bins, turned back and added up, are `n` times each sample. */
  lemma TransformInverts(x: seq<real>, n: nat, w: Complex, m: nat)
    requires Primitive(w, n) && m < n <= |x|
    ensures Backward(x, n, w, m, n) == Complex(n as real * x[m], 0.0)
  {
    hide Mul, Primitive, Backward;
    SamplesComeBack(x, n, n, w, m);
    RealProduct(x[m], n as real);
    assert At(x, m) == Complex(x[m], 0.0);
  }

  lemma RealProduct(a: real, b: real)
    ensures Mul(Complex(a, 0.0), Complex(b, 0.0)) == Complex(b * a, 0.0)
  {}

  /** So no two inputs share a spectrum. */
  lemma SpectrumTellsInputs(x: seq<real>, y: seq<real>, n: nat, w: Complex)
    requires Primitive(w, n) && n == |x| == |y|
    requires forall p :: 0 <= p < n ==> Bin(x, n, w, p) == Bin(y, n, w, p)
    ensures x == y
  {
    hide Backward, Bin, Pow, Mul;
    forall m | 0 <= m < n ensures x[m] == y[m] {
      SameBackward(x, y, n, w, m, n);
      TransformInverts(x, n, w, m);
      TransformInverts(y, n, w, m);
      SameFactor(n, x[m], y[m]);
    }
  }

  lemma SameFactor(n: nat, a: real, b: real)
    requires n > 0 && Complex(n as real * a, 0.0) == Complex(n as real * b, 0.0)
    ensures a == b
  {
    NoFactorZero(n as real, a - b);
  }

  lemma {:induction false} SameBackward(x: seq<real>, y: seq<real>, n: nat, w: Complex, m: nat, bins: nat)
    requires bins <= n && forall p :: 0 <= p < n ==> Bin(x, n, w, p) == Bin(y, n, w, p)
    ensures Backward(x, n, w, m, bins) == Backward(y, n, w, m, bins)
  {
    hide Mul, Pow, Conj, Dft;
    if bins != 0 {
      SameBackward(x, y, n, w, m, bins - 1);
      assert Bin(x, n, w, bins - 1) == Bin(y, n, w, bins - 1);
    }
  }

  // ----- Bin 0

  function Sum(x: seq<real>, n: nat): real
    requires n <= |x|
  {
    if n == 0 then 0.0 else Sum(x, n - 1) + x[n - 1]
  }

  /** Bin 0 is the sum of the samples. */
  lemma {:induction false} BinZeroIsTheSum(x: seq<real>, n: nat, w: Complex)
    requires n <= |x|
    ensures Bin(x, n, w, 0) == Complex(Sum(x, n), 0.0)
  {
    if n != 0 {
      BinZeroIsTheSum(x, n - 1, w);
      assert 0 * (n - 1) == 0 && Pow(w, 0) == ONE;
      MulUnit(Complex(x[n - 1], 0.0));
      hide Mul;
      assert Term(x, 0, 1, w, 0, n - 1) == Mul(Complex(x[n - 1], 0.0), ONE);
    }
  }
}
