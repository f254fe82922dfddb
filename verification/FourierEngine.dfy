/** The engine around the two transforms: table initialisation, the cached tables, and the dispatch
    that picks a transform by size. */
module FourierEngine {
  import opened ComplexNumbers
  import opened BitReversal
  import opened PowerOfTwoTest
  import opened DftSpec
  import opened Fourier
  import opened DftInverse

  /** `circle(i, n)` stands for the float pair (cosf(theta), sinf(theta)) at theta = -2 * pi * i / n.
      These are the laws of that pair in exact arithmetic that the engine relies on. */
  ghost predicate UnitCircle(circle: (nat, nat) -> Complex) {
    && circle(1, 2) == MINUS_ONE
    && (forall m :: HalvesItsAngle(circle, m))
    && (forall i, n :: TurnsByPowers(circle, i, n))
    && (forall n :: ClosesUp(circle, n))
  }

  predicate HalvesItsAngle(circle: (nat, nat) -> Complex, m: nat) {
    0 < m ==> Mul(circle(1, 2 * m), circle(1, 2 * m)) == circle(1, m)
  }

  predicate TurnsByPowers(circle: (nat, nat) -> Complex, i: nat, n: nat) {
    0 < n ==> circle(i, n) == Pow(circle(1, n), i)
  }

  ghost predicate ClosesUp(circle: (nat, nat) -> Complex, n: nat) {
    0 < n ==> Norm2(circle(1, n)) == 1.0 && Primitive(circle(1, n), n)
  }

  /** The table of the fast transform: one root for every size a stage works at. */
  method FftTableCossinInit(spectrumSize: nat, circle: (nat, nat) -> Complex, ghost k: nat)
    returns (costable: array<real>, sintable: array<real>)
    requires spectrumSize == Pow2(k) && UnitCircle(circle)
    ensures fresh(costable) && fresh(sintable) && costable != sintable
    ensures costable.Length == sintable.Length == k
    ensures RootTower(Pairs(costable, sintable))
    ensures Root(Pairs(costable, sintable), k) == circle(1, spectrumSize)
  {
    hide Mul, Pow, Norm2, Root;
    var dftsize := 2;
    var tabsize := 0;
    assert dftsize == Pow2(1);
    while dftsize <= spectrumSize
      invariant tabsize <= k && dftsize == Pow2(tabsize + 1)
      decreases k - tabsize
    {
      Pow2Monotone(tabsize + 1, k);
      tabsize := tabsize + 1;
      dftsize := dftsize * 2;
    }
    Pow2Monotone(tabsize + 1, k);

    costable := new real[tabsize];
    sintable := new real[tabsize];
    dftsize := 2;
    var i := 0;
    assert dftsize == Pow2(1);
    while dftsize <= spectrumSize
      invariant i <= k && dftsize == Pow2(i + 1)
      invariant forall t :: 0 <= t < i ==> Complex(costable[t], sintable[t]) == circle(1, Pow2(t + 1))
      decreases k - i
    {
      Pow2Monotone(i + 1, k);
      var theta := circle(1, dftsize);
      costable[i] := theta.re;
      sintable[i] := theta.im;
      i := i + 1;
      dftsize := dftsize * 2;
    }
    Pow2Monotone(i + 1, k);
    TableIsTower(circle, Pairs(costable, sintable));
  }

  lemma RootOfOrderOne(circle: (nat, nat) -> Complex)
    requires UnitCircle(circle)
    ensures circle(1, 1) == ONE
  {
    MinusOneSquared();
    assert HalvesItsAngle(circle, 1);
  }

  lemma TableIsTower(circle: (nat, nat) -> Complex, tw: seq<Complex>)
    requires UnitCircle(circle)
    requires forall t :: 0 <= t < |tw| ==> tw[t] == circle(1, Pow2(t + 1))
    ensures RootTower(tw)
    ensures Root(tw, |tw|) == circle(1, Pow2(|tw|))
  {
    hide Mul, Pow, Norm2;
    RootOfOrderOne(circle);
    assert Pow2(1) == 2;
    forall s, t | 0 <= s < t < |tw| && t == s + 1 ensures Mul(tw[t], tw[t]) == tw[s] {
      assert HalvesItsAngle(circle, Pow2(s + 1));
    }
  }

  /** The table of the quadratic transform: entry `i` is the `i`-th power of the root of order
      `spectrumSize`. */
  method DftTableCossinInit(spectrumSize: nat, circle: (nat, nat) -> Complex)
    returns (costable: array<real>, sintable: array<real>)
    requires 0 < spectrumSize && UnitCircle(circle)
    ensures fresh(costable) && fresh(sintable)
    ensures costable.Length == sintable.Length == spectrumSize / 2 + 1
    ensures forall i :: 0 <= i < costable.Length ==>
      Complex(costable[i], sintable[i]) == Pow(circle(1, spectrumSize), i)
  {
    hide Mul, Pow, Norm2;
    var tabsize := spectrumSize / 2 + 1;
    costable := new real[tabsize];
    sintable := new real[tabsize];
    for i := 0 to tabsize
      invariant forall p :: 0 <= p < i ==> Complex(costable[p], sintable[p]) == Pow(circle(1, spectrumSize), p)
    {
      assert TurnsByPowers(circle, i, spectrumSize);
      var theta := circle(i, spectrumSize);
      costable[i] := theta.re;
      sintable[i] := theta.im;
    }
  }

  /** A transform context: the arrays it computes bins into and the choice of transform. */
  class VisDft {
    var samplesIn: nat
    var spectrumSize: nat
    var re: array<real>
    var im: array<real>
    var bruteForce: bool

    ghost predicate Valid()
      reads this
    {
      && spectrumSize == samplesIn == re.Length == im.Length && re != im
      && (!bruteForce ==> IsPowerOf2(spectrumSize))
    }

    constructor Init(samplesIn: nat)
      ensures Valid() && fresh(re) && fresh(im)
      ensures spectrumSize == samplesIn && (bruteForce <==> !IsPowerOf2(samplesIn))
    {
      this.samplesIn, this.spectrumSize := samplesIn, samplesIn;
      bruteForce := !IsPowerOf2(samplesIn);
      re := new real[samplesIn];
      im := new real[samplesIn];
    }

    /** Runs the chosen transform with freshly initialised tables. The bins do not depend on
        `bruteForce`: whichever transform runs, the lower half of the spectrum is the same. */
    method Transform(input: seq<real>, circle: (nat, nat) -> Complex)
      requires Valid() && 0 < spectrumSize && UnitCircle(circle) && samplesIn <= |input|
      modifies re, im
      ensures forall i :: 0 <= i <= spectrumSize / 2 && i < spectrumSize ==>
        Complex(re[i], im[i]) == Bin(input[..spectrumSize], spectrumSize, circle(1, spectrumSize), i)
    {
      hide UnitCircle, Bin, Pow, Mul, Root, RootTower;
      if bruteForce {
        var costable, sintable := DftTableCossinInit(spectrumSize, circle);
        PerformDftBruteForce(re, im, costable, sintable, spectrumSize, input, circle(1, spectrumSize));
      } else {
        ghost var k := ExponentOf(spectrumSize);
        var bitrevtable := new nat[spectrumSize];
        TableBitrevInit(bitrevtable, k);
        var costable, sintable := FftTableCossinInit(spectrumSize, circle, k);
        PerformFftRadix2Dit(re, im, bitrevtable, costable, sintable, spectrumSize, samplesIn, input, k);
      }
    }

    /** The transform, then the amplitudes of the lower half of the spectrum: what is not negative and
        whose square, scaled back, is the squared modulus of the bin. */
    method Perform(output: array<real>, input: seq<real>, circle: (nat, nat) -> Complex,
                   norm: (real, real) -> real)
      requires Valid() && 0 < spectrumSize && UnitCircle(circle) && IsModulus(norm) && samplesIn <= |input|
      requires output.Length >= spectrumSize / 2 && output != re && output != im
      modifies re, im, output
      ensures forall i :: 0 <= i < spectrumSize / 2 ==>
        IsAmplitude(output[i], Bin(input[..spectrumSize], spectrumSize, circle(1, spectrumSize), i), spectrumSize)
      ensures forall i :: spectrumSize / 2 <= i < output.Length ==> output[i] == old(output[i])
    {
      hide UnitCircle, Bin, Scaler, IsModulus, IsAmplitude, Amplitude;
      Transform(input, circle);
      ComplexToNormScale(output, re, im, spectrumSize / 2, Scaler(spectrumSize), norm);
      forall i | 0 <= i < spectrumSize / 2
        ensures IsAmplitude(
          output[i], Bin(input[..spectrumSize], spectrumSize, circle(1, spectrumSize), i), spectrumSize)
      {
        AmplitudeIs(Complex(re[i], im[i]), spectrumSize, norm);
      }
    }
  }

  /** At every power of two the two transforms, each with its own table, leave the same bins up to the
      middle: the fast form refines the defining one. */
  method BothTransforms(input: seq<real>, spectrumSize: nat, circle: (nat, nat) -> Complex)
    returns (fast: VisDft, slow: VisDft)
    requires IsPowerOf2(spectrumSize) && spectrumSize <= |input| && UnitCircle(circle)
    ensures !fast.bruteForce && slow.bruteForce && fast.re.Length == slow.re.Length == spectrumSize
    ensures fast.im.Length == slow.im.Length == spectrumSize
    ensures forall i :: 0 <= i <= spectrumSize / 2 && i < spectrumSize ==>
      fast.re[i] == slow.re[i] && fast.im[i] == slow.im[i]
  {
    hide UnitCircle, Bin, BitAnd;
    fast := new VisDft.Init(spectrumSize);
    slow := new VisDft.Init(spectrumSize);
    slow.bruteForce := true;
    fast.Transform(input, circle);
    ghost var re, im := fast.re[..], fast.im[..];
    slow.Transform(input, circle);
    assert fast.re[..] == re && fast.im[..] == im;
  }

  function Scaler(spectrumSize: nat): real
    requires 0 < spectrumSize
  {
    1.0 / spectrumSize as real
  }

  /** `norm` stands for the square root of the sum of the squares. */
  ghost predicate IsModulus(norm: (real, real) -> real) {
    forall x, y :: IsRootOfSquares(norm, x, y)
  }

  predicate IsRootOfSquares(norm: (real, real) -> real, x: real, y: real) {
    0.0 <= norm(x, y) && norm(x, y) * norm(x, y) == x * x + y * y
  }

  predicate IsAmplitude(a: real, bin: Complex, n: nat) {
    0.0 <= a && (n as real * a) * (n as real * a) == Norm2(bin)
  }

  lemma AmplitudeIs(bin: Complex, n: nat, norm: (real, real) -> real)
    requires 0 < n && IsModulus(norm)
    ensures IsAmplitude(Amplitude(bin, Scaler(n), norm), bin, n)
  {
    assert IsRootOfSquares(norm, bin.re, bin.im);
    ScaledBack(norm(bin.re, bin.im), n as real);
  }

  lemma ScaledBack(x: real, n: real)
    requires 0.0 < n && 0.0 <= x
    ensures 0.0 <= x * (1.0 / n) && n * (x * (1.0 / n)) == x
  {
    var inverse := 1.0 / n;
    assert n * inverse == 1.0;
    assert n * (x * inverse) == x * (n * inverse);
    assert inverse > 0.0;
  }

  function Amplitude(bin: Complex, scaler: real, norm: (real, real) -> real): real {
    norm(bin.re, bin.im) * scaler
  }

  method ComplexToNormScale(dest: array<real>, re: array<real>, im: array<real>, n: nat, scaler: real,
                            norm: (real, real) -> real)
    requires n <= dest.Length && n <= re.Length && n <= im.Length && dest != re && dest != im
    modifies dest
    ensures forall i :: 0 <= i < n ==> dest[i] == Amplitude(Complex(re[i], im[i]), scaler, norm)
    ensures forall i :: n <= i < dest.Length ==> dest[i] == old(dest[i])
  {
    for i := 0 to n
      invariant forall p :: 0 <= p < i ==> dest[p] == Amplitude(Complex(re[p], im[p]), scaler, norm)
      invariant forall p :: i <= p < dest.Length ==> dest[p] == old(dest[p])
    {
      dest[i] := norm(re[i], im[i]) * scaler;
    }
  }

  /** The bins the engine drops repeat the amplitudes it keeps. */
  lemma DroppedBinsRepeat(circle: (nat, nat) -> Complex, x: seq<real>, n: nat, bin: nat)
    requires UnitCircle(circle) && 0 < n && bin <= n
    ensures Bin(x, n, circle(1, n), n - bin) == Conj(Bin(x, n, circle(1, n), bin))
    ensures Norm2(Bin(x, n, circle(1, n), n - bin)) == Norm2(Bin(x, n, circle(1, n), bin))
  {
    hide Pow, Mul, Bin, Norm2;
    assert ClosesUp(circle, n);
    ConjugateSymmetry(x, n, circle(1, n), bin);
  }

  /** The bins of a transform determine the samples: turned back and added up, they are each sample, times
      their number. */
  lemma SamplesFromBins(circle: (nat, nat) -> Complex, x: seq<real>, n: nat, m: nat)
    requires UnitCircle(circle) && m < n <= |x|
    ensures Backward(x, n, circle(1, n), m, n) == Complex(n as real * x[m], 0.0)
  {
    hide Mul, Norm2, Backward, Primitive;
    assert ClosesUp(circle, n);
    TransformInverts(x, n, circle(1, n), m);
  }
}
