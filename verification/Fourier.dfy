/** The Fourier engine: its tables, the quadratic transform, and the in-place radix-2 transform. */
module Fourier {
  import opened Arithmetic
  import opened ComplexNumbers
  import opened BitReversal
  import opened DftSpec

  /** Two float arrays read as one sequence of complex numbers. */
  ghost function Pairs(re: array<real>, im: array<real>): (s: seq<Complex>)
    requires re.Length == im.Length
    reads re, im
    ensures |s| == re.Length && forall i :: 0 <= i < |s| ==> s[i] == Complex(re[i], im[i])
  {
    seq(re.Length, i requires 0 <= i < re.Length reads re, im => Complex(re[i], im[i]))
  }

  /** What position `p` holds after `t` stages: a bin of the transform of the `Pow2(t)` samples that
      bit reversal has brought into its block. */
  ghost function StageValue(x: seq<real>, k: nat, tw: seq<Complex>, t: nat, p: nat): Complex
    requires t <= k == |tw|
  {
    Dft(x, Rev(k - t, Shr(p, t)), Pow2(k - t), Pow2(t), Root(tw, t), Low(p, t))
  }

  lemma StageZero(x: seq<real>, k: nat, tw: seq<Complex>, p: nat)
    requires |tw| == k
    ensures StageValue(x, k, tw, 0, p) == At(x, Rev(k, p))
  {
    var a := At(x, Rev(k, p));
    MulUnit(a);
    assert Dft(x, Rev(k, p), Pow2(k), 0, ONE, 0) == ZERO;
    assert Pow(ONE, 0 * 0) == ONE;
    assert Pow2(k) * 0 == 0;
    assert Term(x, Rev(k, p), Pow2(k), ONE, 0, 0) == Mul(a, ONE);
    hide Mul;
    assert Pow2(0) == 1;
  }

  lemma StageLast(x: seq<real>, tw: seq<Complex>, p: nat)
    requires p < Pow2(|tw|)
    ensures StageValue(x, |tw|, tw, |tw|, p) == Bin(x, Pow2(|tw|), Root(tw, |tw|), p)
  {
    ShrLowUnique(p, |tw|, 0, p);
  }

  /** `p` and its partner half a block further up hold the two inputs of one butterfly, whose two
      outputs are what the next stage asks for at the same two positions. */
  lemma StageStep(x: seq<real>, k: nat, tw: seq<Complex>, t: nat, q: nat, m: nat, i: nat, j: nat)
    requires RootTower(tw) && t < k == |tw|
    requires Partners(t, q, m, i, j)
    ensures
      var turned := Mul(Pow(Root(tw, t + 1), m), StageValue(x, k, tw, t, j));
      && StageValue(x, k, tw, t + 1, i) == Add(StageValue(x, k, tw, t, i), turned)
      && StageValue(x, k, tw, t + 1, j) == Sub(StageValue(x, k, tw, t, i), turned)
  {
    hide StageValue, Dft, Pow, Mul, Add, Sub, Root, Rev, Pow2, Shr, Low, RootTower;
    var rest := k - t - 1;
    RevDoubled(rest, q);
    RevDoubled(t, 0);
    StageUnfold(x, k, tw, t, i, rest + 1);
    StageUnfold(x, k, tw, t, j, rest + 1);
    StageUnfold(x, k, tw, t + 1, i, rest);
    StageUnfold(x, k, tw, t + 1, j, rest);
    var start, step := Rev(rest, q), Pow2(rest);
    Butterfly(x, start, step, tw, t, m);
  }

  lemma StageUnfold(x: seq<real>, k: nat, tw: seq<Complex>, t: nat, p: nat, rest: nat)
    requires k == |tw| == t + rest
    ensures StageValue(x, k, tw, t, p)
         == Dft(x, Rev(rest, Shr(p, t)), Pow2(rest), Pow2(t), Root(tw, t), Low(p, t))
  {}

  lemma RevDoubled(k: nat, q: nat)
    ensures Rev(k + 1, 2 * q) == Rev(k, q) && Rev(k + 1, 2 * q + 1) == Rev(k, q) + Pow2(k)
    ensures Pow2(k + 1) == 2 * Pow2(k)
  {
    assert 2 * q / 2 == q && 2 * q % 2 == 0 && (2 * q + 1) / 2 == q && (2 * q + 1) % 2 == 1;
  }

  /** Positions `i` and `j` are the two ends of butterfly `m` in block `q` of the larger size. */
  predicate Partners(t: nat, q: nat, m: nat, i: nat, j: nat) {
    && Shr(i, t) == 2 * q && Low(i, t) == m && Shr(i, t + 1) == q && Low(i, t + 1) == m
    && Shr(j, t) == 2 * q + 1 && Low(j, t) == m && Shr(j, t + 1) == q && Low(j, t + 1) == m + Pow2(t)
  }

  lemma Places(t: nat, q: nat, m: nat, i: nat, j: nat)
    requires m < Pow2(t)
    requires i == Pow2(t + 1) * q + m && j == i + Pow2(t)
    ensures Partners(t, q, m, i, j)
  {
    assert Pow2(t + 1) == 2 * Pow2(t);
    hide Pow2;
    Twice(Pow2(t), q);
    BlockArithmetic(Pow2(t), q);
    ShrLowUnique(i, t, 2 * q, m);
    ShrLowUnique(i, t + 1, q, m);
    ShrLowUnique(j, t, 2 * q + 1, m);
    ShrLowUnique(j, t + 1, q, m + Pow2(t));
  }

  lemma BlockArithmetic(h: int, q: int)
    ensures h * (2 * q) == 2 * (h * q) && h * (2 * q + 1) == 2 * (h * q) + h
  {}

  /** A position whose place within half a block is `m` is one of the two of its butterfly. */
  lemma OnlyTwoPlaces(p: nat, t: nat)
    ensures var i := Pow2(t + 1) * Shr(p, t + 1) + Low(p, t); p == i || p == i + Pow2(t)
  {
    LowNext(p, t);
    ShrLow(p, t + 1);
  }

  lemma {:induction false} LowNext(p: nat, t: nat)
    ensures Low(p, t + 1) == Low(p, t) || Low(p, t + 1) == Low(p, t) + Pow2(t)
  {
    if t == 0 {
      assert Low(p / 2, 0) == 0;
    } else {
      LowNext(p / 2, t - 1);
    }
  }

  lemma BlockFits(k: nat, t: nat, q: nat)
    requires t < k
    ensures q < Pow2(k - t - 1) ==> Pow2(t + 1) * q + Pow2(t + 1) <= Pow2(k)
    ensures q >= Pow2(k - t - 1) ==> Pow2(t + 1) * q >= Pow2(k)
  {
    Pow2Add(t + 1, k - t - 1);
    MultipleOrder(Pow2(t + 1), q, Pow2(k - t - 1));
  }

  /** The whole array part way through stage `t`: positions placed below `m` in their half block are
      done, and of those placed exactly at `m` the ones in the first `q` blocks. */
  ghost predicate InStage(bins: seq<Complex>, x: seq<real>, k: nat, tw: seq<Complex>, t: nat, m: nat, q: nat)
    requires t < k == |tw|
  {
    forall p :: 0 <= p < |bins| ==>
      bins[p] == StageValue(x, k, tw, if Low(p, t) < m || (Low(p, t) == m && Shr(p, t + 1) < q) then t + 1 else t, p)
  }

  /** One butterfly in place. */
  method ButterflyAt(re: array<real>, im: array<real>, i: nat, j: nat, wr: real, wi: real)
    requires re != im && re.Length == im.Length && i < j < re.Length
    modifies re, im
    ensures
      var u, turned := old(Pairs(re, im)[i]), Mul(Complex(wr, wi), old(Pairs(re, im)[j]));
      Pairs(re, im) == old(Pairs(re, im))[i := Add(u, turned)][j := Sub(u, turned)]
  {
    ghost var was := Pairs(re, im);
    var tempr := wr * re[j] - wi * im[j];
    var tempi := wr * im[j] + wi * re[j];
    assert Complex(tempr, tempi) == Mul(Complex(wr, wi), was[j]);

    re[j] := re[i] - tempr;
    im[j] := im[i] - tempi;

    re[i] := re[i] + tempr;
    im[i] := im[i] + tempi;
    assert Pairs(re, im)[i] == Add(was[i], Complex(tempr, tempi));
    assert Pairs(re, im)[j] == Sub(was[i], Complex(tempr, tempi));
  }

  lemma StageAdvance(before: seq<Complex>, after: seq<Complex>, x: seq<real>, k: nat, tw: seq<Complex>,
                     t: nat, m: nat, q: nat, i: nat, j: nat)
    requires RootTower(tw) && t < k == |tw| && InStage(before, x, k, tw, t, m, q)
    requires i == Pow2(t + 1) * q + m && j == i + Pow2(t) && Partners(t, q, m, i, j)
    requires j < |before|
    requires
      var turned := Mul(Pow(Root(tw, t + 1), m), before[j]);
      after == before[i := Add(before[i], turned)][j := Sub(before[i], turned)]
    ensures InStage(after, x, k, tw, t, m, q + 1)
  {
    StageStep(x, k, tw, t, q, m, i, j);
    forall p | 0 <= p < |after| && p != i && p != j
      ensures !(Low(p, t) == m && Shr(p, t + 1) == q)
    {
      OnlyTwoPlaces(p, t);
    }
    hide StageValue, Low, Shr, Pow2, Mul, Add, Sub, Pow, Root, RootTower;
  }

  /** The innermost loop: butterfly `m` of every block, all turned by the same twiddle factor. */
  method ButterflyColumn(re: array<real>, im: array<real>, ghost x: seq<real>, ghost k: nat, ghost tw: seq<Complex>,
                         ghost t: nat, m: nat, dftsize: nat, hdftsize: nat, wr: real, wi: real)
    requires re != im && re.Length == im.Length == Pow2(k)
    requires RootTower(tw) && t < k == |tw| && m < hdftsize == Pow2(t) && dftsize == Pow2(t + 1)
    requires Complex(wr, wi) == Pow(Root(tw, t + 1), m)
    requires InStage(Pairs(re, im), x, k, tw, t, m, 0)
    modifies re, im
    ensures InStage(Pairs(re, im), x, k, tw, t, m + 1, 0)
  {
    hide StageValue, Mul, Add, Sub, Pow, Root, RootTower, Partners;
    var i := m;
    ghost var q := 0;
    while i < re.Length
      invariant i == dftsize * q + m
      invariant InStage(Pairs(re, im), x, k, tw, t, m, q)
      decreases re.Length - i
    {
      var j := i + hdftsize;
      BlockFits(k, t, q);
      Places(t, q, m, i, j);
      ghost var before := Pairs(re, im);
      ButterflyAt(re, im, i, j, wr, wi);
      StageAdvance(before, Pairs(re, im), x, k, tw, t, m, q, i, j);
      i := i + dftsize;
      q := q + 1;
    }
    ColumnDone(Pairs(re, im), x, k, tw, t, m, q, i);
  }

  lemma ColumnDone(bins: seq<Complex>, x: seq<real>, k: nat, tw: seq<Complex>, t: nat, m: nat, q: nat, i: nat)
    requires t < k == |tw| && m < Pow2(t) && i == Pow2(t + 1) * q + m
    requires |bins| == Pow2(k) <= i && InStage(bins, x, k, tw, t, m, q)
    ensures InStage(bins, x, k, tw, t, m + 1, 0)
  {
    BlockFits(k, t, q);
    var u := t + 1;
    forall p | 0 <= p < |bins| ensures Shr(p, u) < q {
      ShrLow(p, u);
      BlockFits(k, t, Shr(p, t + 1));
    }
    hide StageValue, Low, Shr;
  }

  /** The twiddle factor moved on by one: both transforms build the powers of a root this way. */
  method NextPower(wr: real, wi: real, wpr: real, wpi: real, ghost w: Complex, ghost m: nat)
    returns (nr: real, ni: real)
    requires Complex(wr, wi) == Pow(w, m) && Complex(wpr, wpi) == w
    ensures Complex(nr, ni) == Pow(w, m + 1)
  {
    MulCommutes(w, Pow(w, m));
    nr := wr * wpr - wi * wpi;
    ni := wi * wpr + wr * wpi;
  }

  /** One stage: every butterfly of the blocks of size `dftsize`, the twiddle factor moved on between
      columns by one complex multiplication. */
  method FftStage(re: array<real>, im: array<real>, ghost x: seq<real>, ghost k: nat, ghost tw: seq<Complex>,
                  ghost t: nat, dftsize: nat, wpr: real, wpi: real)
    requires re != im && re.Length == im.Length == Pow2(k)
    requires RootTower(tw) && t < k == |tw| && dftsize == Pow2(t + 1)
    requires Complex(wpr, wpi) == tw[t]
    requires InStage(Pairs(re, im), x, k, tw, t, 0, 0)
    modifies re, im
    ensures InStage(Pairs(re, im), x, k, tw, t, Pow2(t), 0)
  {
    var wr, wi := 1.0, 0.0;
    var hdftsize := dftsize / 2;
    var m := 0;
    while m < hdftsize
      invariant m <= hdftsize
      invariant Complex(wr, wi) == Pow(Root(tw, t + 1), m)
      invariant InStage(Pairs(re, im), x, k, tw, t, m, 0)
    {
      ButterflyColumn(re, im, x, k, tw, t, m, dftsize, hdftsize, wr, wi);
      wr, wi := NextPower(wr, wi, wpr, wpi, tw[t], m);
      m := m + 1;
    }
  }

  lemma StageBoundary(bins: seq<Complex>, x: seq<real>, k: nat, tw: seq<Complex>, t: nat)
    requires t < k == |tw| && InStage(bins, x, k, tw, t, Pow2(t), 0)
    ensures forall p :: 0 <= p < |bins| ==> bins[p] == StageValue(x, k, tw, t + 1, p)
    ensures t + 1 < k ==> InStage(bins, x, k, tw, t + 1, 0, 0)
  {}

  /** The in-place transform, over the bit reversal table and the twiddle table: every bin ends as
      its defining sum over the zero-padded input. */
  method PerformFftRadix2Dit(re: array<real>, im: array<real>, bitrevtable: array<nat>,
                             costable: array<real>, sintable: array<real>,
                             spectrumSize: nat, samplesIn: nat, input: seq<real>, ghost k: nat)
    requires re != im && re.Length == im.Length == bitrevtable.Length == spectrumSize == Pow2(k)
    requires re != costable && re != sintable && im != costable && im != sintable
    requires forall p :: 0 <= p < spectrumSize ==> bitrevtable[p] == Rev(k, p)
    requires costable.Length == sintable.Length == k && RootTower(Pairs(costable, sintable))
    requires samplesIn <= |input|
    modifies re, im
    ensures
      var w := Root(Pairs(costable, sintable), k);
      forall p :: 0 <= p < spectrumSize ==> Complex(re[p], im[p]) == Bin(input[..samplesIn], spectrumSize, w, p)
  {
    hide Bin, Rev, StageValue, Root, RootTower;
    ghost var x := input[..samplesIn];
    ghost var tw := Pairs(costable, sintable);
    LoadReversed(re, im, bitrevtable, spectrumSize, samplesIn, input, k, tw);
    RunStages(re, im, costable, sintable, spectrumSize, x, k);
    forall p | 0 <= p < spectrumSize
      ensures Complex(re[p], im[p]) == Bin(x, spectrumSize, Root(tw, k), p)
    {
      StageLast(x, tw, p);
      assert Pairs(re, im)[p] == Complex(re[p], im[p]);
    }
  }

  /** The input goes in by the bit reversal table, padded with zeros. */
  method LoadReversed(re: array<real>, im: array<real>, bitrevtable: array<nat>, spectrumSize: nat, samplesIn: nat,
                      input: seq<real>, ghost k: nat, ghost tw: seq<Complex>)
    requires re != im && re.Length == im.Length == bitrevtable.Length == spectrumSize && |tw| == k
    requires forall p :: 0 <= p < spectrumSize ==> bitrevtable[p] == Rev(k, p)
    requires samplesIn <= |input|
    modifies re, im
    ensures forall p :: 0 <= p < spectrumSize ==> Pairs(re, im)[p] == StageValue(input[..samplesIn], k, tw, 0, p)
  {
    hide Rev, StageValue;
    ghost var x := input[..samplesIn];
    var i := 0;
    while i < spectrumSize
      invariant i <= spectrumSize
      invariant forall p :: 0 <= p < i ==> re[p] == At(x, Rev(k, p)).re
    {
      var idx := bitrevtable[i];
      if idx < samplesIn {
        re[i] := input[idx];
      } else {
        re[i] := 0.0;
      }
      i := i + 1;
    }
    forall p | 0 <= p < im.Length {
      im[p] := 0.0;
    }
    forall p | 0 <= p < spectrumSize ensures Pairs(re, im)[p] == StageValue(x, k, tw, 0, p) {
      StageZero(x, k, tw, p);
    }
  }

  /** The passes over the spectrum, from size 2 to the whole. */
  method RunStages(re: array<real>, im: array<real>, costable: array<real>, sintable: array<real>,
                   spectrumSize: nat, ghost x: seq<real>, ghost k: nat)
    requires re != im && re.Length == im.Length == spectrumSize == Pow2(k)
    requires re != costable && re != sintable && im != costable && im != sintable
    requires costable.Length == sintable.Length == k && RootTower(Pairs(costable, sintable))
    requires forall p :: 0 <= p < spectrumSize ==> Pairs(re, im)[p] == StageValue(x, k, Pairs(costable, sintable), 0, p)
    modifies re, im
    ensures forall p :: 0 <= p < spectrumSize ==> Pairs(re, im)[p] == StageValue(x, k, Pairs(costable, sintable), k, p)
  {
    hide Mul, StageValue, Root, RootTower;
    ghost var tw := Pairs(costable, sintable);
    var dftsize := 2;
    var t := 0;
    assert dftsize == Pow2(1);
    while dftsize <= spectrumSize
      invariant t <= k && dftsize == Pow2(t + 1) && Pairs(costable, sintable) == tw
      invariant forall p :: 0 <= p < spectrumSize ==> Pairs(re, im)[p] == StageValue(x, k, tw, t, p)
      decreases k - t
    {
      Pow2Monotone(t + 1, k);
      var wpr, wpi := costable[t], sintable[t];
      FftStage(re, im, x, k, tw, t, dftsize, wpr, wpi);
      StageBoundary(Pairs(re, im), x, k, tw, t);
      dftsize := dftsize * 2;
      t := t + 1;
    }
    Pow2Monotone(t + 1, k);
  }

  /** One sample's term added to a bin. */
  method AddSample(xr: real, xi: real, sample: real, wr: real, wi: real,
                   ghost x: seq<real>, ghost w: Complex, ghost i: nat, ghost j: nat) returns (nr: real, ni: real)
    requires j < |x| && sample == x[j]
    requires Complex(xr, xi) == Dft(x, 0, 1, j, w, i) && Complex(wr, wi) == Pow(Pow(w, i), j)
    ensures Complex(nr, ni) == Dft(x, 0, 1, j + 1, w, i)
  {
    PowPow(w, i, j);
    RealTimes(sample, Complex(wr, wi));
    hide Pow, Mul;
    assert Term(x, 0, 1, w, i, j) == Mul(At(x, j), Pow(w, i * j));
    nr := xr + sample * wr;
    ni := xi + sample * wi;
  }

  /** The inner loop of the quadratic transform, for one bin: each power of the table entry comes from
      the one before by a complex multiplication. */
  method BruteForceBin(input: seq<real>, spectrumSize: nat, cos: real, sin: real, ghost w: Complex, ghost i: nat)
    returns (xr: real, xi: real)
    requires spectrumSize <= |input| && Complex(cos, sin) == Pow(w, i)
    ensures Complex(xr, xi) == Bin(input[..spectrumSize], spectrumSize, w, i)
  {
    ghost var x := input[..spectrumSize];
    NothingSummed(x, w, i);
    hide Pow, Mul, Term, At, Dft;
    xr, xi := 0.0, 0.0;
    var wr, wi := 1.0, 0.0;
    var j := 0;
    while j < spectrumSize
      invariant j <= spectrumSize
      invariant Complex(xr, xi) == Dft(x, 0, 1, j, w, i)
      invariant Complex(wr, wi) == Pow(Pow(w, i), j)
    {
      xr, xi := AddSample(xr, xi, input[j], wr, wi, x, w, i, j);
      wr, wi := NextPower(wr, wi, cos, sin, Pow(w, i), j);
      j := j + 1;
    }
  }

  /** The quadratic transform: the bins up to the middle. */
  method PerformDftBruteForce(re: array<real>, im: array<real>, costable: array<real>, sintable: array<real>,
                              spectrumSize: nat, input: seq<real>, ghost w: Complex)
    requires 0 < spectrumSize == re.Length == im.Length && re != im && spectrumSize <= |input|
    requires re != costable && re != sintable && im != costable && im != sintable
    requires costable.Length == sintable.Length == spectrumSize / 2 + 1
    requires forall i :: 0 <= i < costable.Length ==> Complex(costable[i], sintable[i]) == Pow(w, i)
    modifies re, im
    ensures forall i :: 0 <= i < spectrumSize / 2 + 1 ==>
      Complex(re[i], im[i]) == Bin(input[..spectrumSize], spectrumSize, w, i)
  {
    hide Pow, Mul, Dft;
    var i := 0;
    while i < spectrumSize / 2 + 1
      invariant i <= spectrumSize / 2 + 1
      invariant forall p :: 0 <= p < i ==> Complex(re[p], im[p]) == Bin(input[..spectrumSize], spectrumSize, w, p)
    {
      re[i], im[i] := BruteForceBin(input, spectrumSize, costable[i], sintable[i], w, i);
      i := i + 1;
    }
  }

  lemma NothingSummed(x: seq<real>, w: Complex, i: nat)
    ensures Dft(x, 0, 1, 0, w, i) == Complex(0.0, 0.0) && Pow(Pow(w, i), 0) == Complex(1.0, 0.0)
  {}

  lemma RealTimes(a: real, z: Complex)
    ensures Mul(Complex(a, 0.0), z) == Complex(a * z.re, a * z.im)
  {}
}
