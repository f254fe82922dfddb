/** The linear congruential generator: its full period, and what `int_range` returns over one. */
module Random {
  import opened Arithmetic
  import opened BitReversal

  const WORD: nat := 0x1_0000_0000
  const VAL_A: nat := 1664525
  const VAL_C: nat := 1013904223
  const RANDOM_MAX: nat := 4294967295

  /** One draw: the next state for multiplier `a`, increment `c` and modulus `n`. */
  function Next(a: nat, c: nat, n: nat, x: nat): (y: nat)
    requires 0 < n
    ensures y < n
  {
    (a * x + c) % n
  }

  /** The state after `i` draws. */
  function Draw(a: nat, c: nat, n: nat, x: nat, i: nat): nat
    requires 0 < n
  {
    if i == 0 then x else Next(a, c, n, Draw(a, c, n, x, i - 1))
  }

  /** The conditions of the Hull-Dobell theorem for a modulus that is a power of two. */
  predicate FullPeriodConstants(a: nat, c: nat) {
    a % 4 == 1 && c % 2 == 1
  }

  // ----- Geometric sums and their powers of two

  function Power(a: nat, i: nat): nat {
    if i == 0 then 1 else a * Power(a, i - 1)
  }

  /** `1 + a + ... + a^(i-1)` */
  function Geometric(a: nat, i: nat): nat {
    if i == 0 then 0 else 1 + a * Geometric(a, i - 1)
  }

  lemma {:induction false} PowerModFour(a: nat, i: nat)
    requires a % 4 == 1
    ensures Power(a, i) % 4 == 1
  {
    if i != 0 {
      PowerModFour(a, i - 1);
      ProductModFour(a, Power(a, i - 1));
    }
  }

  lemma ProductModFour(x: nat, y: nat)
    requires x % 4 == 1 && y % 4 == 1
    ensures x * y % 4 == 1
  {
    var p, q := x / 4, y / 4;
    assert x * y == 4 * (p * y + q) + 1 by {
      assert x * y == (4 * p + 1) * y == 4 * (p * y) + y;
    }
  }

  lemma {:induction false} GeometricAdd(a: nat, i: nat, j: nat)
    ensures Geometric(a, i + j) == Geometric(a, i) + Power(a, i) * Geometric(a, j)
  {
    if i != 0 {
      GeometricAdd(a, i - 1, j);
      DistributeThrough(a, Geometric(a, i - 1), Power(a, i - 1), Geometric(a, j));
    }
  }

  lemma DistributeThrough(a: nat, g: nat, p: nat, h: nat)
    ensures a * (g + p * h) == a * g + a * p * h
  {
    assert a * (p * h) == a * p * h;
  }

  /** `a^i - 1 == (a - 1) * (1 + ... + a^(i-1))` */
  lemma {:induction false} PowerAsGeometric(a: nat, i: nat)
    requires 0 < a
    ensures Power(a, i) == 1 + (a - 1) * Geometric(a, i)
  {
    if i != 0 {
      PowerAsGeometric(a, i - 1);
      var g := Geometric(a, i - 1);
      assert a * (1 + (a - 1) * g) == a + a * ((a - 1) * g);
      assert (a - 1) * (1 + a * g) == a - 1 + (a - 1) * (a * g);
      assert a * ((a - 1) * g) == (a - 1) * (a * g);
    }
  }

  lemma OddTimesOdd(x: nat, y: nat)
    requires x % 2 == 1 && y % 2 == 1
    ensures x * y % 2 == 1
  {
    var p := x / 2;
    assert x * y == 2 * (p * y) + y by {
      assert x * y == (2 * p + 1) * y;
    }
  }

  /** An odd factor does not change which powers of two divide a number. */
  lemma {:induction false} OddFactor(odd: nat, y: nat, k: nat)
    requires odd % 2 == 1
    ensures Low(odd * y, k) == 0 <==> Low(y, k) == 0
  {
    if k != 0 {
      if y % 2 == 1 {
        OddTimesOdd(odd, y);
      } else {
        assert odd * y == 2 * (odd * (y / 2)) by {
          assert y == 2 * (y / 2);
        }
        OddFactor(odd, y / 2, k - 1);
      }
    }
  }

  /** An even number of terms pairs up: the sum doubles, times an odd number. */
  lemma EvenGeometric(a: nat, m: nat) returns (half: nat)
    requires a % 4 == 1
    ensures half % 2 == 1 && Geometric(a, 2 * m) == 2 * (half * Geometric(a, m))
  {
    hide Power, Geometric;
    PowerModFour(a, m);
    GeometricAdd(a, m, m);
    half := (1 + Power(a, m)) / 2;
    DoubleSum(Geometric(a, m), Power(a, m), half);
  }

  lemma DoubleSum(g: nat, p: nat, half: nat)
    requires 1 + p == 2 * half
    ensures g + p * g == 2 * (half * g)
  {
    assert g + p * g == (1 + p) * g == 2 * half * g;
  }

  lemma OddGeometric(a: nat, m: nat)
    requires a % 4 == 1
    ensures Geometric(a, 2 * m + 1) % 2 == 1
  {
    var half := EvenGeometric(a, m);
    EvenTimes(a, half * Geometric(a, m));
  }

  lemma EvenTimes(a: nat, y: nat)
    ensures (1 + a * (2 * y)) % 2 == 1
  {
    assert a * (2 * y) == 2 * (a * y);
  }

  lemma LowOfEven(z: nat, k: nat)
    requires 0 < k
    ensures Low(2 * z, k) == 2 * Low(z, k - 1)
  {
    var y := 2 * z;
    assert y / 2 == z && y % 2 == 0;
    hide Pow2;
    assert Low(y, k) == 2 * Low(y / 2, k - 1) + y % 2;
  }

  /** A geometric sum and its number of terms are divisible by the same powers of two. */
  lemma {:induction false} GeometricDivisibility(a: nat, i: nat, k: nat)
    requires a % 4 == 1
    ensures Low(Geometric(a, i), k) == 0 <==> Low(i, k) == 0
  {
    if k != 0 {
      var m := i / 2;
      if i % 2 == 0 {
        var half := EvenGeometric(a, m);
        LowOfEven(m, k);
        LowOfEven(half * Geometric(a, m), k);
        GeometricDivisibility(a, m, k - 1);
        OddFactor(half, Geometric(a, m), k - 1);
      } else {
        OddGeometric(a, m);
        assert i == 2 * m + 1;
      }
    }
  }

  // ----- The period

  lemma ModShift(u: int, e: int, n: int)
    requires 0 < n
    ensures (u + n * e) % n == u % n
  {
    DivUnique(u + n * e, n, u / n + e, u % n);
  }

  lemma DivUnique(i: int, n: int, q: int, r: int)
    requires 0 <= r < n && i == n * q + r
    ensures i / n == q && i % n == r
  {
    var d := i / n - q;
    assert n * d == r - i % n by {
      assert n * (i / n) == n * q + n * d;
    }
    SmallMultiple(n, d);
  }

  lemma SmallMultiple(n: int, d: int)
    requires -n < n * d < n
    ensures d == 0
  {}

  /** What the first draw adds to the state, before reduction. */
  function FirstStep(a: nat, c: nat, x: nat): nat
    requires 0 < a
  {
    (a - 1) * x + c
  }

  /** What `i` draws add to the state, before reduction. */
  function Drift(a: nat, c: nat, x: nat, i: nat): nat
    requires 0 < a
  {
    FirstStep(a, c, x) * Geometric(a, i)
  }

  lemma {:induction false} DrawIsDrift(a: nat, c: nat, n: nat, x: nat, i: nat)
    requires 0 < a && x < n
    ensures Draw(a, c, n, x, i) == (x + Drift(a, c, x, i)) % n
  {
    if i == 0 {
      DivUnique(x, n, 0, x);
    } else {
      DrawIsDrift(a, c, n, x, i - 1);
      var s := x + Drift(a, c, x, i - 1);
      DriftStep(a, c, x, i);
      hide Drift, Geometric;
      ModStep(a, c, s, n);
    }
  }

  lemma ModStep(a: nat, c: nat, s: nat, n: nat)
    requires 0 < n
    ensures (a * (s % n) + c) % n == (a * s + c) % n
  {
    var q, r := s / n, s % n;
    assert a * s == a * r + n * (a * q) by {
      assert s == n * q + r;
      assert a * s == a * (n * q) + a * r;
      assert a * (n * q) == n * (a * q);
    }
    ModShift(a * r + c, a * q, n);
  }

  /** One more draw: `x + drift` goes to `a * (x + drift) + c`. */
  lemma DriftStep(a: nat, c: nat, x: nat, i: nat)
    requires 0 < a && 0 < i
    ensures a * (x + Drift(a, c, x, i - 1)) + c == x + Drift(a, c, x, i)
  {
    DriftArithmetic(a, x, FirstStep(a, c, x), c, Geometric(a, i - 1));
  }

  lemma DriftArithmetic(a: int, x: int, u: int, c: int, g: int)
    requires u == (a - 1) * x + c
    ensures a * (x + u * g) + c == x + u * (1 + a * g)
  {
    assert a * x + c == x + u;
    assert a * (x + u * g) == a * x + a * (u * g);
    assert u * (1 + a * g) == u + u * (a * g);
    assert a * (u * g) == u * (a * g);
  }

  lemma ModIsLow(y: nat, k: nat)
    ensures y % Pow2(k) == Low(y, k)
  {
    ShrLow(y, k);
    DivUnique(y, Pow2(k), Shr(y, k), Low(y, k));
  }

  /** Hull-Dobell for a power of two: `i` draws come back to the state exactly when the modulus
      divides `i`. */
  lemma ReturnsExactlyAtPeriod(a: nat, c: nat, k: nat, x: nat, i: nat)
    requires FullPeriodConstants(a, c) && x < Pow2(k)
    ensures Draw(a, c, Pow2(k), x, i) == x <==> i % Pow2(k) == 0
  {
    hide Drift, Pow2, Draw;
    DrawIsDrift(a, c, Pow2(k), x, i);
    CongruentShift(x, Drift(a, c, x, i), Pow2(k));
    DriftDivisibility(a, c, k, x, i);
  }

  lemma DriftDivisibility(a: nat, c: nat, k: nat, x: nat, i: nat)
    requires FullPeriodConstants(a, c)
    ensures Drift(a, c, x, i) % Pow2(k) == 0 <==> i % Pow2(k) == 0
  {
    FirstStepOdd(a, c, x);
    hide FirstStep, Geometric, Low, Pow2;
    ModIsLow(i, k);
    ModIsLow(Drift(a, c, x, i), k);
    OddFactor(FirstStep(a, c, x), Geometric(a, i), k);
    GeometricDivisibility(a, i, k);
  }

  lemma FirstStepOdd(a: nat, c: nat, x: nat)
    requires FullPeriodConstants(a, c)
    ensures FirstStep(a, c, x) % 2 == 1
  {
    var h := (a - 1) / 2;
    assert (a - 1) * x == 2 * (h * x) by {
      assert a - 1 == 2 * h;
    }
  }

  lemma CongruentShift(x: nat, d: nat, n: nat)
    requires x < n
    ensures (x + d) % n == x <==> d % n == 0
  {
    var q, r := d / n, d % n;
    if x + r < n {
      DivUnique(x + d, n, q, x + r);
    } else {
      assert x + d == n * (q + 1) + (x + r - n);
      DivUnique(x + d, n, q + 1, x + r - n);
    }
  }

  lemma {:induction false} DrawAdd(a: nat, c: nat, n: nat, x: nat, i: nat, j: nat)
    requires 0 < n
    ensures Draw(a, c, n, x, i + j) == Draw(a, c, n, Draw(a, c, n, x, i), j)
  {
    if j != 0 {
      DrawAdd(a, c, n, x, i, j - 1);
    }
  }

  lemma DrawNone(a: nat, c: nat, n: nat, x: nat)
    requires 0 < n
    ensures Draw(a, c, n, x, 0) == x
  {}

  /** Within one period no state comes twice. */
  lemma DrawsDistinct(a: nat, c: nat, k: nat, x: nat, i: nat, j: nat)
    requires FullPeriodConstants(a, c) && x < Pow2(k) && i < j < i + Pow2(k)
    ensures Draw(a, c, Pow2(k), x, i) != Draw(a, c, Pow2(k), x, j)
  {
    var n := Pow2(k);
    var y := Draw(a, c, n, x, i);
    DrawAdd(a, c, n, x, i, j - i);
    ReturnsExactlyAtPeriod(a, c, k, y, j - i);
    DivUnique(j - i, n, 0, j - i);
  }

  // ----- Counting over one period

  ghost function Interval(lo: nat, hi: nat): (s: set<nat>)
    requires lo <= hi
    ensures forall y :: y in s <==> lo <= y < hi
    ensures |s| == hi - lo
    decreases hi
  {
    if lo == hi then {} else Interval(lo, hi - 1) + {hi - 1}
  }

  ghost predicate Injective(f: nat -> nat, s: set<nat>) {
    forall i, j :: i in s && j in s && i != j ==> f(i) != f(j)
  }

  ghost function Image(f: nat -> nat, s: set<nat>): set<nat> {
    set i | i in s :: f(i)
  }

  lemma {:induction false} InjectiveImage(f: nat -> nat, s: set<nat>)
    requires Injective(f, s)
    ensures |Image(f, s)| == |s|
  {
    if s != {} {
      var i :| i in s;
      var rest := s - {i};
      InjectiveImage(f, rest);
      assert Image(f, s) == Image(f, rest) + {f(i)};
    }
  }

  lemma SameSizeSubset(s: set<nat>, t: set<nat>)
    requires s <= t && |s| == |t|
    ensures s == t
  {
    assert |t - s| == |t| - |s|;
    assert t == s + (t - s);
  }

  lemma ImageOfHits(f: nat -> nat, all: set<nat>, p: nat -> bool, hits: set<nat>, values: set<nat>)
    requires Image(f, all) == all
    requires hits == (set i | i in all && p(f(i))) && values == (set y | y in all && p(y))
    ensures Image(f, hits) == values
  {
    forall y | y in values ensures y in Image(f, hits) {
      assert y in Image(f, all);
      var i :| i in all && f(i) == y;
    }
    forall y | y in Image(f, hits) ensures y in values {
      assert y in Image(f, all);
    }
  }

  /** An injection of a finite set into itself takes each property of values to as many arguments. */
  lemma InjectionCounts(f: nat -> nat, all: set<nat>, p: nat -> bool)
    requires Injective(f, all) && Image(f, all) <= all
    ensures |set i | i in all && p(f(i))| == |set y | y in all && p(y)|
  {
    InjectiveImage(f, all);
    SameSizeSubset(Image(f, all), all);
    var hits, values := set i | i in all && p(f(i)), set y | y in all && p(y);
    ImageOfHits(f, all, p, hits, values);
    assert Injective(f, hits);
    hide Image, Injective;
    InjectiveImage(f, hits);
  }

  /** The draws of one period, by index, at which the state satisfies `p`. */
  ghost function Hits(a: nat, c: nat, n: nat, x: nat, p: nat -> bool): set<nat>
    requires 0 < n
  {
    set i | i in Interval(0, n) && p(Draw(a, c, n, x, i))
  }

  /** Over one period every value below the modulus is drawn once, so a property holds of as many
      draws as of values. */
  lemma PeriodCounts(a: nat, c: nat, k: nat, x: nat, p: nat -> bool)
    requires FullPeriodConstants(a, c) && x < Pow2(k)
    ensures |Hits(a, c, Pow2(k), x, p)| == |set y | y in Interval(0, Pow2(k)) && p(y)|
  {
    var n := Pow2(k);
    var f := (i: nat) => Draw(a, c, n, x, i);
    DrawsInject(a, c, k, x, f);
    InjectionCounts(f, Interval(0, n), p);
    hide Draw, Pow2, Interval, Image, Injective;
    assert Hits(a, c, n, x, p) == set i | i in Interval(0, n) && p(f(i));
  }

  lemma DrawsInject(a: nat, c: nat, k: nat, x: nat, f: nat -> nat)
    requires FullPeriodConstants(a, c) && x < Pow2(k)
    requires forall i :: f(i) == Draw(a, c, Pow2(k), x, i)
    ensures Injective(f, Interval(0, Pow2(k))) && Image(f, Interval(0, Pow2(k))) <= Interval(0, Pow2(k))
  {
    var n := Pow2(k);
    hide Pow2, Draw, FullPeriodConstants;
    forall i | i in Interval(0, n) ensures f(i) in Interval(0, n) {
      DrawBelow(a, c, n, x, i);
    }
    forall i, j | i in Interval(0, n) && j in Interval(0, n) && i != j ensures f(i) != f(j) {
      if i < j { DrawsDistinct(a, c, k, x, i, j); } else { DrawsDistinct(a, c, k, x, j, i); }
    }
  }

  lemma DrawBelow(a: nat, c: nat, n: nat, x: nat, i: nat)
    requires x < n
    ensures Draw(a, c, n, x, i) < n
  {}

  // ----- Drawing from a range

  /** The number of values asked for, as the unsigned expression `max - min + 1` evaluates. */
  function RangeWidth(min: int, max: int): (n: nat)
    ensures n < WORD
  {
    (max - min + 1) % WORD
  }

  /** What `int_range` returns for a draw: the draw over the step, moved up by `min`, as a word. */
  function InRange(min: int, max: int, draw: nat): (r: nat)
    requires RangeWidth(min, max) != 0
    ensures r < WORD
  {
    (draw / (RANDOM_MAX / RangeWidth(min, max)) + min) % WORD
  }

  class RandomContext {
    var seed: nat
    var seedState: nat

    ghost predicate Valid()
      reads this
    {
      seed < WORD && seedState < WORD
    }

    constructor (seed: nat)
      requires seed < WORD
      ensures Valid() && this.seed == seedState == seed
    {
      this.seed, this.seedState := seed, seed;
    }

    method SetSeed(seed: nat)
      requires seed < WORD
      modifies this
      ensures Valid() && this.seed == seedState == seed
    {
      this.seed := seed;
      seedState := seed;
    }

    method Int() returns (r: nat)
      requires Valid()
      modifies `seedState
      ensures Valid() && r == seedState == Draw(VAL_A, VAL_C, WORD, old(seedState), 1)
    {
      seedState := (VAL_A * seedState + VAL_C) % WORD;
      r := seedState;
      assert Draw(VAL_A, VAL_C, WORD, old(seedState), 0) == old(seedState);
    }

    method IntRange(min: int, max: int) returns (r: nat)
      requires Valid() && RangeWidth(min, max) != 0
      modifies `seedState
      ensures Valid() && seedState == Draw(VAL_A, VAL_C, WORD, old(seedState), 1)
      ensures r == InRange(min, max, seedState)
    {
      var draw := Int();
      var n := (max - min + 1) % WORD;
      r := (draw / (RANDOM_MAX / n) + min) % WORD;
    }

    /** Any number of draws in a row. */
    method Ints(count: nat) returns (draws: seq<nat>)
      requires Valid()
      modifies `seedState
      ensures Valid() && |draws| == count
      ensures forall i :: 0 <= i < count ==> draws[i] == Draw(VAL_A, VAL_C, WORD, old(seedState), i + 1)
    {
      hide Draw;
      draws := [];
      ghost var start := seedState;
      DrawNone(VAL_A, VAL_C, WORD, start);
      while |draws| < count
        invariant Valid() && |draws| <= count
        invariant seedState == Draw(VAL_A, VAL_C, WORD, start, |draws|)
        invariant forall i :: 0 <= i < |draws| ==> draws[i] == Draw(VAL_A, VAL_C, WORD, start, i + 1)
      {
        DrawAdd(VAL_A, VAL_C, WORD, start, |draws|, 1);
        var r := Int();
        draws := draws + [r];
      }
    }
  }

  lemma WordIsPowerOfTwo()
    ensures WORD == Pow2(32) && FullPeriodConstants(VAL_A, VAL_C)
  {
    assert Pow2(8) == 256;
    Pow2Add(8, 8);
    Pow2Add(16, 16);
  }

  /** The shipped constants: any 2^32 draws in a row are pairwise distinct, and then the state is back
      where it began, for the first time. */
  lemma GeneratorHasFullPeriod(seed: nat)
    requires seed < WORD
    ensures forall i, j :: 0 <= i < j <= i + WORD - 1 ==>
      Draw(VAL_A, VAL_C, WORD, seed, i) != Draw(VAL_A, VAL_C, WORD, seed, j)
    ensures forall i :: 0 <= i ==> (Draw(VAL_A, VAL_C, WORD, seed, i) == seed <==> i % WORD == 0)
  {
    WordIsPowerOfTwo();
    hide Pow2, Draw;
    forall i: nat, j: nat | i < j <= i + WORD - 1
      ensures Draw(VAL_A, VAL_C, WORD, seed, i) != Draw(VAL_A, VAL_C, WORD, seed, j)
    {
      DrawsDistinct(VAL_A, VAL_C, 32, seed, i, j);
    }
    forall i: nat ensures Draw(VAL_A, VAL_C, WORD, seed, i) == seed <==> i % WORD == 0 {
      ReturnsExactlyAtPeriod(VAL_A, VAL_C, 32, seed, i);
    }
  }

  // ----- What a whole period of `int_range` calls returns

  /** The calls of one period, by index, that return `min + v`, as a word. */
  ghost function CallsReturning(seed: nat, min: int, max: int, v: nat): set<nat>
    requires RangeWidth(min, max) != 0
  {
    set i | i in Interval(0, WORD) && InRange(min, max, Draw(VAL_A, VAL_C, WORD, seed, i + 1)) == (v + min) % WORD
  }

  function Step(min: int, max: int): (d: nat)
    requires RangeWidth(min, max) != 0
    ensures 0 < d
  {
    var n := RangeWidth(min, max);
    assert n <= RANDOM_MAX;
    QuotientPositive(RANDOM_MAX, n);
    RANDOM_MAX / n
  }

  lemma QuotientPositive(a: nat, n: nat)
    requires 0 < n <= a
    ensures 0 < a / n
  {}

  /** How many words divide down to `v`: the part of `[v * d, v * d + d)` below 2^32. */
  function Share(d: nat, v: nat): nat {
    WordsFrom(v * d, d)
  }

  function WordsFrom(lo: nat, d: nat): nat {
    if WORD <= lo then 0 else if WORD <= lo + d then WORD - lo else d
  }

  lemma QuotientInterval(y: nat, d: nat, v: nat)
    requires 0 < d
    ensures y / d == v <==> v * d <= y < v * d + d
  {
    var q, r := y / d, y % d;
    assert y == d * q + r;
    if v * d <= y < v * d + d {
      DivUnique(y, d, v, y - v * d);
    }
  }

  lemma WordsBetween(lo: nat, d: nat, values: set<nat>)
    requires forall y :: y in values <==> y in Interval(0, WORD) && lo <= y < lo + d
    ensures |values| == WordsFrom(lo, d)
  {
    var from := if WORD <= lo then WORD else lo;
    var to := if WORD <= lo + d then WORD else lo + d;
    assert values == Interval(from, to);
  }

  ghost function WordsDividingTo(d: nat, v: nat): set<nat>
    requires 0 < d
  {
    set y | y in Interval(0, WORD) && y / d == v
  }

  lemma WordQuotients(d: nat, v: nat)
    requires 0 < d
    ensures |WordsDividingTo(d, v)| == Share(d, v)
  {
    var lo := v * d;
    hide WordsFrom, Interval;
    forall y: nat ensures y / d == v <==> lo <= y < lo + d {
      QuotientInterval(y, d, v);
    }
    WordsBetween(lo, d, WordsDividingTo(d, v));
  }

  lemma OffsetsDiffer(min: int, q: nat, v: nat)
    requires q < WORD && v < WORD
    ensures (q + min) % WORD == (v + min) % WORD <==> q == v
  {}

  lemma ReturnsQuotient(min: int, max: int, draw: nat, v: nat)
    requires RangeWidth(min, max) != 0 && draw < WORD && v < WORD
    ensures InRange(min, max, draw) == (v + min) % WORD <==> draw / Step(min, max) == v
  {
    var d := Step(min, max);
    QuotientSmall(draw, d);
    OffsetsDiffer(min, draw / d, v);
  }

  lemma QuotientSmall(y: nat, d: nat)
    requires 0 < d
    ensures y / d <= y
  {
    ProductGrows(d, y / d);
  }

  lemma {:induction false} ProductGrows(d: nat, q: nat)
    requires 0 < d
    ensures q <= d * q
  {}

  /** Over one full period `min + v` is returned once for every word that divides down to `v`. */
  lemma CallsCounted(seed: nat, min: int, max: int, v: nat)
    requires RangeWidth(min, max) != 0 && seed < WORD && v < WORD
    ensures |CallsReturning(seed, min, max, v)| == Share(Step(min, max), v)
  {
    var d := Step(min, max);
    var first := Draw(VAL_A, VAL_C, WORD, seed, 1);
    var p := (y: nat) => y / d == v;
    WordIsPowerOfTwo();
    DrawBelow(VAL_A, VAL_C, WORD, seed, 1);
    PeriodCounts(VAL_A, VAL_C, 32, first, p);
    WordQuotients(d, v);
    CallsAreHits(seed, min, max, v, first, p);
    hide Draw, Pow2, Step, InRange, Share, Interval, CallsReturning, Hits;
    assert WordsDividingTo(d, v) == set y | y in Interval(0, WORD) && p(y);
  }

  lemma CallsAreHits(seed: nat, min: int, max: int, v: nat, first: nat, p: nat -> bool)
    requires RangeWidth(min, max) != 0 && seed < WORD && v < WORD
    requires first == Draw(VAL_A, VAL_C, WORD, seed, 1)
    requires forall y: nat :: p(y) <==> y / Step(min, max) == v
    ensures CallsReturning(seed, min, max, v) == Hits(VAL_A, VAL_C, WORD, first, p)
  {
    hide Draw, Step, InRange, Interval;
    forall i | i in Interval(0, WORD)
      ensures InRange(min, max, Draw(VAL_A, VAL_C, WORD, seed, i + 1)) == (v + min) % WORD
        <==> p(Draw(VAL_A, VAL_C, WORD, first, i))
    {
      DrawAdd(VAL_A, VAL_C, WORD, seed, 1, i);
      DrawBelow(VAL_A, VAL_C, WORD, seed, i + 1);
      ReturnsQuotient(min, max, Draw(VAL_A, VAL_C, WORD, seed, i + 1), v);
    }
  }

  /** The header promises results between `min` and `max`. Over a period each of them is returned
      equally often, and `max + 1` is returned too, at least once, whatever the range. */
  lemma IntRangeOverAPeriod(seed: nat, min: int, max: int)
    requires RangeWidth(min, max) != 0 && seed < WORD
    ensures forall v :: 0 <= v < RangeWidth(min, max) ==>
      |CallsReturning(seed, min, max, v)| == Step(min, max)
    ensures |CallsReturning(seed, min, max, RangeWidth(min, max))|
         == Least(Step(min, max), Leftover(min, max)) >= 1
  {
    var n, d := RangeWidth(min, max), Step(min, max);
    StepDivides(min, max);
    hide RangeWidth, Step, InRange, CallsReturning, Leftover;
    CallsCounted(seed, min, max, n);
    OvershootShare(n, d, Leftover(min, max));
    forall v | 0 <= v < n ensures |CallsReturning(seed, min, max, v)| == d {
      CallsCounted(seed, min, max, v);
      FullShare(n, d, Leftover(min, max), v);
    }
  }

  /** Nothing beyond `max + 1` is ever returned exactly when the words left over fit in one step;
      every range of at most 65535 values is like that. */
  lemma NothingFurther(seed: nat, min: int, max: int)
    requires RangeWidth(min, max) != 0 && seed < WORD
    ensures (forall v :: RangeWidth(min, max) < v < WORD ==> CallsReturning(seed, min, max, v) == {})
      <==> Leftover(min, max) <= Step(min, max)
    ensures RangeWidth(min, max) <= 65535 ==> Leftover(min, max) <= Step(min, max)
  {
    var n, d, left := RangeWidth(min, max), Step(min, max), Leftover(min, max);
    StepDivides(min, max);
    if n <= 65535 {
      SmallRange(n, d, left);
    }
    hide RangeWidth, Step, InRange, CallsReturning, Leftover, Share;
    if left <= d {
      forall v | n < v < WORD ensures CallsReturning(seed, min, max, v) == {} {
        CallsCounted(seed, min, max, v);
        NoShare(n, d, left, v);
      }
    } else {
      CallsCounted(seed, min, max, n + 1);
      SomeShare(n, d, left);
    }
  }

  function Least(a: nat, b: nat): nat {
    if a < b then a else b
  }

  /** The words at and above `n * d`, which are not needed for the range itself. */
  function Leftover(min: int, max: int): nat
    requires RangeWidth(min, max) != 0
  {
    RANDOM_MAX % RangeWidth(min, max) + 1
  }

  lemma StepDivides(min: int, max: int)
    requires RangeWidth(min, max) != 0
    ensures WORD == RangeWidth(min, max) * Step(min, max) + Leftover(min, max)
    ensures 1 <= Leftover(min, max) <= RangeWidth(min, max) < WORD
  {}

  lemma FullShare(n: nat, d: nat, left: nat, v: nat)
    requires WORD == n * d + left && 1 <= left && v < n
    ensures Share(d, v) == d
  {
    MultipleOrder(d, v, n);
  }

  lemma OvershootShare(n: nat, d: nat, left: nat)
    requires WORD == n * d + left && 1 <= left
    ensures Share(d, n) == Least(d, left)
  {}

  lemma NoShare(n: nat, d: nat, left: nat, v: nat)
    requires WORD == n * d + left && left <= d && n < v
    ensures Share(d, v) == 0
  {
    MultipleOrder(d, n, v);
  }

  lemma SomeShare(n: nat, d: nat, left: nat)
    requires WORD == n * d + left && 0 < d < left <= n < WORD
    ensures n + 1 < WORD && Share(d, n + 1) != 0
  {
    assert (n + 1) * d == n * d + d;
    ProductGrows(d, n);
  }

  lemma SmallRange(n: nat, d: nat, left: nat)
    requires WORD == n * d + left && left <= n <= 65535
    ensures left <= d
  {
    if d < left {
      ProductBound(n, d);
    }
  }

  lemma ProductBound(n: nat, d: nat)
    requires n <= 65535 && d <= 65535
    ensures n * d <= 65535 * 65535
  {
    var gap, over := 65535 - n, 65535 - d;
    assert 65535 * d == n * d + gap * d;
    assert gap * d >= 0 && over >= 0;
  }

  /** A word read as a signed one. */
  function Signed(w: nat): int {
    if w < 0x8000_0000 then w else w - WORD
  }

  predicate IsInt(x: int) {
    -0x8000_0000 <= x < 0x8000_0000
  }

  /** A call keeps the promise of the header, its result read as the type of `min` and `max`, exactly when
      its draw is below `n * d`. */
  lemma IntRangeStaysInRange(min: int, max: int, draw: nat)
    requires IsInt(min) && IsInt(max) && min <= max && RangeWidth(min, max) != 0 && draw < WORD
    ensures min <= Signed(InRange(min, max, draw)) <= max <==> draw < RangeWidth(min, max) * Step(min, max)
  {
    var d := Step(min, max);
    QuotientSmall(draw, d);
    QuotientBelow(draw, d, max - min + 1);
    WordInRange(draw / d, min, max);
  }

  lemma WordInRange(q: nat, min: int, max: int)
    requires q < WORD && IsInt(min) && IsInt(max) && min <= max
    ensures min <= Signed((q + min) % WORD) <= max <==> q < max - min + 1
  {}

  lemma QuotientBelow(y: nat, d: nat, n: nat)
    requires 0 < d
    ensures y / d < n <==> y < n * d
  {
    var q, r := y / d, y % d;
    assert y == q * d + r;
    if q < n { MultipleOrder(d, q, n); }
    if n < q { MultipleOrder(d, n, q); }
  }
}
