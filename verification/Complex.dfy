/** Exact complex arithmetic: a pair (real[i], imag[i]) of the Fourier engine as one number. */
module ComplexNumbers {

  datatype Complex = Complex(re: real, im: real)

  const ZERO := Complex(0.0, 0.0)
  const ONE := Complex(1.0, 0.0)
  const MINUS_ONE := Complex(-1.0, 0.0)

  function Add(a: Complex, b: Complex): Complex {
    Complex(a.re + b.re, a.im + b.im)
  }

  function Sub(a: Complex, b: Complex): Complex {
    Complex(a.re - b.re, a.im - b.im)
  }

  function Mul(a: Complex, b: Complex): Complex {
    Complex(a.re * b.re - a.im * b.im, a.re * b.im + a.im * b.re)
  }

  function Conj(a: Complex): Complex {
    Complex(a.re, -a.im)
  }

  /** The squared modulus, the quantity under the root in the amplitude spectrum. */
  function Norm2(a: Complex): real {
    a.re * a.re + a.im * a.im
  }

  function Pow(z: Complex, n: nat): Complex {
    if n == 0 then ONE else Mul(z, Pow(z, n - 1))
  }

  lemma MulCommutes(a: Complex, b: Complex)
    ensures Mul(a, b) == Mul(b, a)
  {}

  lemma MulAssociates(a: Complex, b: Complex, c: Complex)
    ensures Mul(Mul(a, b), c) == Mul(a, Mul(b, c))
  {
    assert Mul(Mul(a, b), c).re == Mul(a, Mul(b, c)).re;
    assert Mul(Mul(a, b), c).im == Mul(a, Mul(b, c)).im;
  }

  lemma MulDistributes(a: Complex, b: Complex, c: Complex)
    ensures Mul(a, Add(b, c)) == Add(Mul(a, b), Mul(a, c))
    ensures Mul(a, Sub(b, c)) == Sub(Mul(a, b), Mul(a, c))
  {
    Distributes(a.re, b.re, c.re);
    Distributes(a.im, b.im, c.im);
    Distributes(a.re, b.im, c.im);
    Distributes(a.im, b.re, c.re);
  }

  lemma Distributes(x: real, y: real, z: real)
    ensures x * (y + z) == x * y + x * z && x * (y - z) == x * y - x * z
  {}

  lemma MulUnit(a: Complex)
    ensures Mul(ONE, a) == a == Mul(a, ONE)
    ensures Mul(MINUS_ONE, a) == Sub(ZERO, a)
  {}

  lemma {:induction false} PowAdd(z: Complex, m: nat, n: nat)
    ensures Pow(z, m + n) == Mul(Pow(z, m), Pow(z, n))
  {
    hide Mul;
    if m == 0 {
      MulUnit(Pow(z, n));
    } else {
      PowAdd(z, m - 1, n);
      MulAssociates(z, Pow(z, m - 1), Pow(z, n));
    }
  }

  lemma {:induction false} PowOne(n: nat)
    ensures Pow(ONE, n) == ONE
  {
    hide Mul;
    if n != 0 {
      PowOne(n - 1);
      MulUnit(ONE);
    }
  }

  lemma PowTwo(z: Complex)
    ensures Pow(z, 2) == Mul(z, z)
  {
    MulUnit(z);
    hide Mul;
    assert Pow(z, 1) == Mul(z, Pow(z, 0));
  }

  lemma {:induction false} PowPow(z: Complex, m: nat, n: nat)
    ensures Pow(z, m * n) == Pow(Pow(z, m), n)
  {
    hide Mul;
    if n != 0 {
      assert m * n == m + m * (n - 1);
      PowPow(z, m, n - 1);
      PowAdd(z, m, m * (n - 1));
    }
  }

  /** `Pow(a, n) * Pow(b, n) == Pow(a * b, n)` */
  lemma {:induction false} PowProduct(a: Complex, b: Complex, n: nat)
    ensures Mul(Pow(a, n), Pow(b, n)) == Pow(Mul(a, b), n)
  {
    hide Mul;
    if n == 0 {
      MulUnit(ONE);
    } else {
      PowProduct(a, b, n - 1);
      var p, q := Pow(a, n - 1), Pow(b, n - 1);
      calc {
        Mul(Mul(a, p), Mul(b, q));
        { MulAssociates(a, p, Mul(b, q)); }
        Mul(a, Mul(p, Mul(b, q)));
        { MulAssociates(p, b, q); MulCommutes(p, b); MulAssociates(b, p, q); }
        Mul(a, Mul(b, Mul(p, q)));
        { MulAssociates(a, b, Mul(p, q)); }
        Mul(Mul(a, b), Mul(p, q));
      }
    }
  }

  lemma ConjMul(a: Complex, b: Complex)
    ensures Conj(Mul(a, b)) == Mul(Conj(a), Conj(b))
    ensures Conj(Add(a, b)) == Add(Conj(a), Conj(b))
  {}

  lemma {:induction false} ConjPow(z: Complex, n: nat)
    ensures Conj(Pow(z, n)) == Pow(Conj(z), n)
  {
    hide Mul;
    if n != 0 {
      ConjPow(z, n - 1);
      ConjMul(z, Pow(z, n - 1));
    }
  }

  /** On the unit circle the conjugate is the inverse. */
  lemma ConjInverts(z: Complex)
    requires Norm2(z) == 1.0
    ensures Mul(Conj(z), z) == ONE
  {}

  lemma {:induction false} Cancel(a: Complex, b: Complex, c: Complex, inverse: Complex)
    requires Mul(a, c) == Mul(b, c)
    requires Mul(c, inverse) == ONE
    ensures a == b
  {
    hide Mul;
    MulAssociates(a, c, inverse);
    MulAssociates(b, c, inverse);
    MulUnit(a);
    MulUnit(b);
  }
}
