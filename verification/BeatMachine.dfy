/** Adaptive beat refinement as a state machine: tick history, smoothed tempo, and the lock that holds a
    found tempo. */
module BeatMachine {
  import opened Arithmetic

  const MAX_BPM := 170
  const MIN_BPM := 60
  const TOP_CONF_ADOPT := 8
  const MIN_STICKY := 8
  const STICKY_THRESHOLD := 70
  const STICKY_THRESHOLD_LOW := 85

  /** The size of the history and of both rings. */
  const SIZE := 8
  const DIVISORS := 8

  datatype Kind = NoKind | Real | Guessed
  datatype Tick = Tick(tc: int, kind: Kind)

  /** What floating point makes of the history in one round: confidence figures and typical drift. The
      model takes them as they come. */
  datatype Measured = Measured(confidence: nat, confidence1: int, confidence2: int, drift: real)

  // ----- Arithmetic of the C operators

  /** Division cut off toward zero. */
  function Quotient(a: int, b: int): int
    requires b != 0
  {
    if 0 <= a then (if 0 < b then a / b else -(a / -b))
    else if 0 < b then -(-a / b)
    else -a / -b
  }

  function Abs(a: int): nat {
    if a < 0 then -a else a
  }

  // ----- The tick history

  /** A history with its intervals replaced: the newest tick stays and the others follow from it. */
  function Rebuilt(hist: seq<Tick>, interval: int -> int, i: nat): int
    requires i < |hist|
  {
    if i == 0 then hist[0].tc
    else Rebuilt(hist, interval, i - 1) - interval(hist[i - 1].tc - hist[i].tc)
  }

  function RebuiltHistory(hist: seq<Tick>, interval: int -> int): (r: seq<Tick>)
    ensures |r| == |hist|
  {
    seq(|hist|, i requires 0 <= i < |hist| => Tick(Rebuilt(hist, interval, i), hist[i].kind))
  }

  /** Every tick of the history has been filled. */
  predicate LearntFrom(h: seq<Tick>) {
    forall i :: 0 <= i < |h| ==> h[i].tc != 0
  }

  function Differences(h: seq<Tick>): (r: seq<int>)
    requires 0 < |h|
    ensures |r| == |h| - 1
  {
    seq(|h| - 1, i requires 0 <= i < |h| - 1 => h[i].tc - h[i + 1].tc)
  }

  lemma RebuiltStart(h: seq<Tick>, interval: int -> int)
    requires 0 < |h|
    ensures RebuiltHistory(h, interval)[0] == h[0]
  {}

  lemma RebuiltNext(h: seq<Tick>, interval: int -> int, i: nat)
    requires 0 < i < |h|
    ensures
      var r := RebuiltHistory(h, interval);
      r[i] == Tick(r[i - 1].tc - interval(h[i - 1].tc - h[i].tc), h[i].kind)
  {}

  function Halve(x: int): int {
    Quotient(x, 2)
  }

  function Twice(x: int): int {
    x * 2
  }

  /** Every interval of the rebuilt history is the changed interval of the old one. */
  lemma RebuiltIntervals(hist: seq<Tick>, interval: int -> int, i: nat)
    requires i + 1 < |hist|
    ensures
      var r := RebuiltHistory(hist, interval);
      r[0] == hist[0] && r[i].tc - r[i + 1].tc == interval(hist[i].tc - hist[i + 1].tc)
  {}

  predicate Even(hist: seq<Tick>, i: nat)
    requires i < |hist|
  {
    forall k :: 0 <= k < i ==> (hist[k].tc - hist[k + 1].tc) % 2 == 0
  }

  function DoubledAndHalved(hist: seq<Tick>): (r: seq<Tick>)
    ensures |r| == |hist|
  {
    RebuiltHistory(RebuiltHistory(hist, Halve), Twice)
  }

  /** An interval survives doubling and halving exactly when it is even. */
  lemma IntervalsMadeEven(hist: seq<Tick>, i: nat)
    requires i + 1 < |hist|
    ensures
      var r, d := DoubledAndHalved(hist), hist[i].tc - hist[i + 1].tc;
      && r[0] == hist[0] && r[i + 1].kind == hist[i + 1].kind
      && (r[i].tc - r[i + 1].tc == d <==> d % 2 == 0)
  {
    RebuiltIntervals(hist, Halve, i);
    RebuiltIntervals(RebuiltHistory(hist, Halve), Twice, i);
  }

  /** Halving the tempo after doubling it brings the newest ticks back exactly as far as the intervals
      between them are even. */
  lemma {:induction false} HalvedAfterDoubled(hist: seq<Tick>, i: nat)
    requires i < |hist|
    ensures DoubledAndHalved(hist)[..i + 1] == hist[..i + 1] <==> Even(hist, i)
  {
    hide DoubledAndHalved, Even;
    var r := DoubledAndHalved(hist);
    if i == 0 {
      NewestTick(hist);
    } else {
      HalvedAfterDoubled(hist, i - 1);
      IntervalsMadeEven(hist, i - 1);
      OneTickMore(r, hist, i);
      OneMoreEven(hist, i);
    }
  }

  lemma NewestTick(hist: seq<Tick>)
    requires 0 < |hist|
    ensures DoubledAndHalved(hist)[..1] == hist[..1] && Even(hist, 0)
  {
    RebuiltStart(hist, Halve);
    RebuiltStart(RebuiltHistory(hist, Halve), Twice);
    hide RebuiltHistory;
  }

  lemma OneMoreEven(hist: seq<Tick>, i: nat)
    requires 0 < i < |hist|
    ensures Even(hist, i) <==> Even(hist, i - 1) && (hist[i - 1].tc - hist[i].tc) % 2 == 0
  {}

  lemma OneTickMore(r: seq<Tick>, hist: seq<Tick>, i: nat)
    requires 0 < i < |r| == |hist|
    ensures r[..i + 1] == hist[..i + 1] <==> r[..i] == hist[..i] && r[i] == hist[i]
    ensures r[..i] == hist[..i] ==> r[i - 1] == hist[i - 1]
  {
    assert r[..i + 1] == r[..i] + [r[i]] && hist[..i + 1] == hist[..i] + [hist[i]];
    assert r[..i][i - 1] == r[i - 1] && hist[..i][i - 1] == hist[i - 1];
  }

  // ----- The smoothed tempo

  function PositiveSum(s: seq<int>): nat {
    if s == [] then 0 else PositiveSum(s[..|s| - 1]) + if s[|s| - 1] > 0 then s[|s| - 1] else 0
  }

  function PositiveCount(s: seq<int>): nat {
    if s == [] then 0 else PositiveCount(s[..|s| - 1]) + if s[|s| - 1] > 0 then 1 else 0
  }

  /** The average of the positive entries, zero when there are none. */
  function Smoothed(s: seq<int>): nat {
    if PositiveCount(s) == 0 then 0 else PositiveSum(s) / PositiveCount(s)
  }

  lemma {:induction false} PositiveSumBounds(s: seq<int>, lo: nat, hi: nat)
    requires forall i :: 0 <= i < |s| && s[i] > 0 ==> lo <= s[i] <= hi
    ensures lo * PositiveCount(s) <= PositiveSum(s) <= hi * PositiveCount(s)
  {
    if s != [] {
      PositiveSumBounds(s[..|s| - 1], lo, hi);
      var c := PositiveCount(s[..|s| - 1]);
      assert lo * (c + 1) == lo * c + lo && hi * (c + 1) == hi * c + hi;
    }
  }

  /** The smoothed tempo lies between the smallest and the largest entry that counts. */
  lemma SmoothedBetween(s: seq<int>, lo: nat, hi: nat)
    requires forall i :: 0 <= i < |s| && s[i] > 0 ==> lo <= s[i] <= hi
    ensures PositiveCount(s) != 0 ==> lo <= Smoothed(s) <= hi
  {
    PositiveSumBounds(s, lo, hi);
    if PositiveCount(s) != 0 {
      AverageBetween(PositiveSum(s), PositiveCount(s), lo, hi);
    }
  }

  lemma AverageBetween(sum: nat, n: nat, lo: nat, hi: nat)
    requires 0 < n && lo * n <= sum <= hi * n
    ensures lo <= sum / n <= hi
  {
    var q, r := sum / n, sum % n;
    assert sum == q * n + r;
    assert q < lo ==> (q + 1) * n <= lo * n;
    assert q > hi ==> (hi + 1) * n <= q * n;
  }

  // ----- Ticks and intervals

  /** The time since the last tick, never negative. */
  function Since(tc: int, lastTC: int): nat {
    if tc - lastTC >= 0 then tc - lastTC else 0
  }

  /** An interval below two fifths of the average comes too soon. */
  predicate TooSoon(avg: int, len: nat) {
    len as real < Quotient(avg, 2) as real - avg as real * 0.1
  }

  /** An interval within a fifth of a fraction of the average. */
  predicate NearFraction(avg: int, len: nat, d: int)
    requires d != 0
  {
    Abs(Quotient(avg, d) - len) as real < Quotient(avg, d) as real * 0.2
  }

  predicate DividesAverage(avg: int, len: nat) {
    exists d :: 2 <= d < DIVISORS && NearFraction(avg, len, d)
  }

  /** The tick would be a better newest one. */
  predicate FitsBetter(avg: int, tc: int, h: seq<Tick>)
    requires 2 <= |h|
  {
    Abs(avg - (tc - h[1].tc)) < Abs(avg - (h[0].tc - h[1].tc))
  }

  /** The second layer after some intervals: the sum kept, how many were kept, and the carry. */
  function Layer(h: seq<Tick>, avg: int, drift: real, i: nat): (int, nat, int)
    requires 2 <= |h| && i < |h|
  {
    if i == 0 then (0, 0, h[|h| - 2].tc - h[|h| - 1].tc)
    else
      var (total, n, carry) := Layer(h, avg, drift, i - 1);
      var v := carry + (h[i - 1].tc - h[i].tc);
      if Abs(avg - v) as real < drift then (total + v, n + 1, 0)
      else (total, n, if v > avg then 0 else v)
  }

  /** A sum of intervals all within the drift of the average. */
  predicate Kept(avg: int, drift: real, total: int, n: nat) {
    (n == 0 ==> total == 0) && (n > 0 ==> Abs(total - n * avg) as real < n as real * drift)
  }

  lemma KeptNone(avg: int, drift: real)
    ensures Kept(avg, drift, 0, 0)
  {}

  lemma KeptOneMore(avg: int, drift: real, total: int, n: nat, v: int)
    requires Kept(avg, drift, total, n) && Abs(avg - v) as real < drift
    ensures Kept(avg, drift, total + v, n + 1)
  {
    var m := n + 1;
    assert m * avg == n * avg + avg;
    assert m as real * drift == n as real * drift + drift;
    assert Abs(total + v - m * avg) <= Abs(total - n * avg) + Abs(avg - v);
  }

  lemma {:induction false} LayerKept(h: seq<Tick>, avg: int, drift: real, i: nat)
    requires 2 <= |h| && i < |h|
    ensures Kept(avg, drift, Layer(h, avg, drift, i).0, Layer(h, avg, drift, i).1)
  {
    if i == 0 {
      KeptNone(avg, drift);
    } else {
      LayerKept(h, avg, drift, i - 1);
      hide Kept;
      var (total, n, carry) := Layer(h, avg, drift, i - 1);
      var v := carry + (h[i - 1].tc - h[i].tc);
      if Abs(avg - v) as real < drift {
        KeptOneMore(avg, drift, total, n, v);
      }
    }
  }

  /** The recomputed average is off the first one by less than the drift and one tick. */
  lemma KeptAverageWithinDrift(avg: int, drift: real, total: int, n: nat)
    requires Kept(avg, drift, total, n) && 0 < n
    ensures Abs(Quotient(total, n) - avg) as real < drift + 1.0
  {
    hide Quotient;
    var q := Quotient(total, n);
    QuotientNear(total, n);
    ScaledDistance(q, avg, n);
    NearBoth(n * q, total, n * avg);
    Cancel(n, Abs(q - avg), drift);
  }

  lemma NearBoth(a: int, b: int, c: int)
    ensures Abs(a - c) <= Abs(a - b) + Abs(b - c)
  {}

  lemma ScaledDistance(q: int, avg: int, n: nat)
    ensures n * Abs(q - avg) == Abs(n * q - n * avg)
  {
    assert n * (q - avg) == n * q - n * avg;
    assert q >= avg ==> n * (q - avg) >= 0;
    assert q <= avg ==> n * (avg - q) >= 0 && n * (avg - q) == n * avg - n * q;
  }

  lemma Cancel(n: nat, x: nat, drift: real)
    requires 0 < n && (n * x) as real < n as real * drift + n as real
    ensures x as real < drift + 1.0
  {
    var m, y := n as real, x as real;
    assert (n * x) as real == m * y;
    assert m * (drift + 1.0) == m * drift + m;
    if y >= drift + 1.0 {
      ProductGrows(m, drift + 1.0, y);
    }
  }

  lemma ProductGrows(m: real, x: real, y: real)
    requires 0.0 < m && x <= y
    ensures m * x <= m * y
  {}

  lemma QuotientNear(a: int, n: nat)
    requires 0 < n
    ensures Abs(n * Quotient(a, n) - a) < n
  {
    var b := Abs(a);
    assert b == n * (b / n) + b % n;
  }

  function MarkCount(s: seq<int>): nat {
    if s == [] then 0 else MarkCount(s[..|s| - 1]) + if s[|s| - 1] != 0 then 1 else 0
  }

  /** The confidence a lock asks for. */
  function Threshold(tempo: int): int {
    if tempo < 90 then STICKY_THRESHOLD_LOW else STICKY_THRESHOLD
  }

  predicate Late(now: int, tempo: int, lastPrediction: int)
    requires tempo != 0
  {
    now as real > lastPrediction as real + Quotient(60000, tempo) as real * 0.7
  }

  predicate Early(now: int, tempo: int, lastPrediction: int)
    requires tempo != 0
  {
    (now as real) < lastPrediction as real + Quotient(60000, tempo) as real * 0.3
  }

  // ----- The state

  datatype Config = Config(smartBeat: bool, smartBeatSticky: bool, resetOnNewSong: bool, onlySticky: bool)

  /** The tick history, with the ring that marks which ticks were thrown away as fractions of a beat. */
  datatype Ticks = Ticks(
    hist: seq<Tick>, halfDiscriminated: seq<int>, hdPos: int, insertionCount: int,
    avg: int, lastTC: int, startTC: int, tcUsed: int)

  /** The computed tempo, with the ring that smooths it. */
  datatype Tempo = Tempo(
    bpm: int, lastBpm: int, smoother: seq<int>, smPtr: int, halfCount: int, doubleCount: int)

  /** The predicted tempo, and whether it is locked. */
  datatype Lock = Lock(
    sticked: bool, predictionBpm: int, predictionLastTC: int, stickyConfidenceCount: int,
    newSong: bool, doResyncBpm: bool)

  datatype Levels = Levels(
    confidence: int, confidence1: int, confidence2: int, bestConfidence: int, topConfidenceCount: int,
    forceNewBeat: bool)

  datatype Sliders = Sliders(inSlide: int, outSlide: int, inInc: int, outInc: int)

  datatype State = State(
    config: Config, ticks: Ticks, tempo: Tempo, lock: Lock, levels: Levels, sliders: Sliders)

  predicate SoundTicks(t: Ticks) {
    |t.hist| == |t.halfDiscriminated| == SIZE && 0 <= t.hdPos < SIZE && 0 <= t.insertionCount <= 2 * SIZE
  }

  predicate SoundTempo(t: Tempo) {
    SoundRing(t) && 0 <= t.bpm
  }

  predicate SoundRing(t: Tempo) {
    |t.smoother| == SIZE && 0 <= t.smPtr < SIZE
  }

  predicate SoundLock(l: Lock) {
    0 <= l.predictionBpm && (l.sticked ==> 0 < l.predictionBpm)
  }

  /** A slider position and its step: the position runs up and down between 0 and 8. */
  predicate OnSlide(slide: int, inc: int) {
    0 <= slide <= 8 && (inc == 1 || inc == -1) && (slide == 0 ==> inc == 1) && (slide == 8 ==> inc == -1)
  }

  predicate SoundSliders(l: Sliders) {
    OnSlide(l.inSlide, l.inInc) && OnSlide(l.outSlide, l.outInc)
  }

  /** What every step keeps: rings and sliders in range, no negative tempo, and no lock without a tempo. */
  predicate Sound(s: State) {
    && SoundTicks(s.ticks) && SoundTempo(s.tempo) && SoundLock(s.lock)
    && SoundSliders(s.sliders)
  }

  function Blank(): (h: seq<Tick>)
    ensures |h| == SIZE && forall i :: 0 <= i < SIZE ==> h[i] == Tick(0, NoKind)
  {
    seq(SIZE, i => Tick(0, NoKind))
  }

  function Zeros(): (z: seq<int>)
    ensures |z| == SIZE && forall i :: 0 <= i < SIZE ==> z[i] == 0
  {
    seq(SIZE, i => 0)
  }

  function Initial(now: int): (s: State)
    ensures Sound(s)
  {
    State(Config(false, true, true, false), Ticks(Blank(), Zeros(), 0, 0, 0, 0, now, 0), Tempo(0, 0, Zeros(), 0, 0, 0),
          Lock(false, 0, 0, 0, true, false), Levels(0, 0, 0, 0, 0, false), Sliders(0, 0, 1, 1))
  }

  lemma SoundParts(s: State)
    ensures Sound(s) <==> SoundTicks(s.ticks) && SoundTempo(s.tempo) && SoundLock(s.lock) && SoundSliders(s.sliders)
  {}

  // ----- Steps on the tick history

  /** Puts a tick in front of the history; the oldest one falls out. */
  function InsertHistStep(t: Ticks, tc: int, kind: Kind): (r: Ticks)
    requires SoundTicks(t)
    ensures SoundTicks(r)
  {
    t.(insertionCount := if t.insertionCount < 2 * SIZE then t.insertionCount + 1 else t.insertionCount,
       hist := [Tick(tc, kind)] + t.hist[..SIZE - 1])
  }

  function Discriminate(t: Ticks, mark: int): (r: Ticks)
    requires SoundTicks(t)
    ensures SoundTicks(r)
  {
    t.(halfDiscriminated := t.halfDiscriminated[t.hdPos := mark], hdPos := (t.hdPos + 1) % SIZE)
  }

  /** What becomes of a tick: thrown away, put in place of the newest one, marked as a fraction of a
      beat, or put in front of the history. */
  datatype Fate = Dropped | Replacing | Fraction | Inserted

  function FateOf(t: Ticks, tc: int): Fate
    requires SoundTicks(t)
  {
    var len, learning := Since(tc, t.lastTC), LearntFrom(t.hist);
    if TooSoon(t.avg, len) then (if learning && FitsBetter(t.avg, tc, t.hist) then Replacing else Dropped)
    else if learning && DividesAverage(t.avg, len) then Fraction
    else Inserted
  }

  predicate Accepts(t: Ticks, tc: int)
    requires SoundTicks(t)
  {
    FateOf(t, tc).Replacing? || FateOf(t, tc).Inserted?
  }

  function TcHistStep(t: Ticks, tc: int, kind: Kind): (r: Ticks)
    requires SoundTicks(t)
    ensures SoundTicks(r)
  {
    match FateOf(t, tc)
    case Dropped => t
    case Replacing => t.(hist := t.hist[0 := Tick(tc, kind)])
    case Fraction => Discriminate(t, 1)
    case Inserted => InsertHistStep(Discriminate(t, 0).(lastTC := tc + t.startTC), tc, kind)
  }

  /** The average of all intervals. */
  function FirstAverage(h: seq<Tick>): int
    requires |h| == SIZE
  {
    Quotient(h[0].tc - h[SIZE - 1].tc, SIZE - 1)
  }

  /** Averages the intervals, and once more those within the typical drift. */
  function LearnAverage(t: Ticks, drift: real): (r: Ticks)
    requires SoundTicks(t)
    ensures SoundTicks(r) && r == t.(avg := r.avg, tcUsed := r.tcUsed)
  {
    var first := FirstAverage(t.hist);
    var (total, n, _) := Layer(t.hist, first, drift, SIZE - 1);
    t.(avg := if n > 0 then Quotient(total, n) else first, tcUsed := n)
  }

  /** The second average is off the first one by less than the drift and one tick. */
  lemma SecondAverageNearFirst(t: Ticks, drift: real)
    requires SoundTicks(t) && LearnAverage(t, drift).tcUsed > 0
    ensures Abs(LearnAverage(t, drift).avg - FirstAverage(t.hist)) as real < drift + 1.0
  {
    var first := FirstAverage(t.hist);
    LayerKept(t.hist, first, drift, SIZE - 1);
    hide Quotient, Layer, Kept, FirstAverage;
    var (total, n, _) := Layer(t.hist, first, drift, SIZE - 1);
    KeptAverageWithinDrift(first, drift, total, n);
  }

  // ----- Steps on the tempo

  /** Puts a tempo into the smoothing ring. */
  function NewBpm(t: Tempo, thisBpm: int): (r: Tempo)
    requires SoundRing(t)
    ensures SoundRing(r)
  {
    t.(smoother := t.smoother[t.smPtr := thisBpm], smPtr := (t.smPtr + 1) % SIZE)
  }

  /** The tempo as the average gives it. */
  function Reading(t: Tempo, avg: int): int {
    if avg != 0 then Quotient(60000, avg) else t.bpm
  }

  /** Reads the tempo off the average, and smooths it. */
  function NoteTempo(t: Tempo, avg: int): (r: Tempo)
    requires SoundTempo(t)
    ensures SoundTempo(r)
  {
    var reading := Reading(t, avg);
    var read := t.(bpm := reading);
    var r := if reading != t.lastBpm then NewBpm(read, reading).(lastBpm := reading) else read;
    r.(bpm := Smoothed(r.smoother))
  }

  /** A confident reading counts towards the lock; eight in a row lock the tempo. */
  function NoteConfidence(l: Lock, sticky: bool, confidence: int): (r: Lock)
    requires SoundLock(l)
    ensures SoundLock(r)
  {
    if sticky && l.predictionBpm != 0 && confidence >= Threshold(l.predictionBpm) then
      var count := l.stickyConfidenceCount + 1;
      l.(stickyConfidenceCount := count, sticked := l.sticked || count >= MIN_STICKY)
    else l.(stickyConfidenceCount := 0)
  }

  // ----- Steps on the whole state

  /** Forgets everything learned; the lock is released and the predicted tempo is gone. */
  function ResetAdapt(s: State, now: int): (r: State)
    requires Sound(s)
    ensures Sound(r)
  {
    State(s.config, ResetTicks(s.ticks, now), ResetTempo(s.tempo), ResetLock(s.lock), ResetLevels(s.levels), s.sliders)
  }

  function ResetTicks(t: Ticks, now: int): (r: Ticks)
    ensures SoundTicks(r)
  {
    Ticks(Blank(), Zeros(), 0, 0, 0, now, t.startTC, 0)
  }

  function ResetTempo(t: Tempo): (r: Tempo)
    ensures SoundTempo(r)
  {
    Tempo(0, t.lastBpm, Zeros(), 0, 0, 0)
  }

  function ResetLock(l: Lock): (r: Lock)
    ensures SoundLock(r)
  {
    Lock(false, 0, 0, 0, l.newSong, l.doResyncBpm)
  }

  function ResetLevels(l: Levels): Levels {
    Levels(0, 0, 0, 0, 0, l.forceNewBeat)
  }

  function SlideIn(l: Sliders): (r: Sliders)
    requires SoundSliders(l)
    ensures SoundSliders(r)
  {
    var p := l.inSlide + l.inInc;
    l.(inSlide := p, inInc := if p == 0 || p == 8 then -l.inInc else l.inInc)
  }

  function SlideOut(l: Sliders): (r: Sliders)
    requires SoundSliders(l)
    ensures SoundSliders(r)
  {
    var p := l.outSlide + l.outInc;
    l.(outSlide := p, outInc := if p == 0 || p == 8 then -l.outInc else l.outInc)
  }

  /** Twice the tempo, learned from half the intervals; a locked tempo that is not too low is left alone. */
  function DoubleBeat(s: State): (r: State)
    requires Sound(s)
    ensures Sound(r)
  {
    if s.lock.sticked && s.tempo.bpm > MIN_BPM then s
    else
      s.(ticks := RebuildTicks(s.ticks, Halve, Quotient(s.ticks.avg, 2)),
         tempo := s.tempo.(bpm := s.tempo.bpm * 2, doubleCount := 0, smoother := Zeros()))
  }

  /** The ticks laid out anew for another tempo. */
  function RebuildTicks(t: Ticks, interval: int -> int, avg: int): (r: Ticks)
    requires SoundTicks(t)
    ensures SoundTicks(r)
  {
    t.(hist := RebuiltHistory(t.hist, interval), avg := avg, halfDiscriminated := Zeros())
  }

  function HalfBeat(s: State): (r: State)
    requires Sound(s)
    ensures Sound(r)
  {
    if s.lock.sticked && s.tempo.bpm < MIN_BPM then s
    else
      s.(ticks := RebuildTicks(s.ticks, Twice, s.ticks.avg * 2),
         tempo := s.tempo.(bpm := s.tempo.bpm / 2, halfCount := 0, smoother := Zeros()))
  }

  /** Doubles a tempo that lost at least half of its beats, unless that would leave the range. */
  function DoubleWhenDiscriminated(s: State): (r: State)
    requires Sound(s)
    ensures Sound(r)
  {
    if MarkCount(s.ticks.halfDiscriminated) >= SIZE / 2 && s.tempo.bpm * 2 < MAX_BPM then
      var d := DoubleBeat(s);
      d.(ticks := d.ticks.(halfDiscriminated := Zeros()))
    else s
  }

  /** Doubles a tempo that was too low five times in a row. */
  function SteerUp(s: State): (r: State)
    requires Sound(s)
    ensures Sound(r)
  {
    var count := if s.tempo.bpm < MIN_BPM then s.tempo.doubleCount + 1 else 0;
    var t := s.(tempo := s.tempo.(doubleCount := count));
    if s.tempo.bpm < MIN_BPM && count > 4 then DoubleBeat(t) else t
  }

  /** Halves a tempo that was too high five times in a row. */
  function SteerDown(s: State): (r: State)
    requires Sound(s)
    ensures Sound(r)
  {
    var count := if s.tempo.bpm > MAX_BPM then s.tempo.halfCount + 1 else 0;
    var t := s.(tempo := s.tempo.(halfCount := count));
    if s.tempo.bpm > MAX_BPM && count > 4 then HalfBeat(t) else t
  }

  /** A tempo above 500 resets everything learned. */
  predicate RunsAway(s: State)
    requires Sound(s)
  {
    DoubleWhenDiscriminated(s).tempo.bpm > 500
  }

  function CorrectTempo(s: State, now: int): (r: State)
    requires Sound(s)
    ensures Sound(r)
  {
    var d := DoubleWhenDiscriminated(s);
    SteerDown(SteerUp(if d.tempo.bpm > 500 || d.tempo.bpm < 0 then ResetAdapt(d, now) else d))
  }

  function Measure(s: State, m: Measured): (r: State)
    requires Sound(s)
    ensures Sound(r)
  {
    s.(ticks := LearnAverage(s.ticks, m.drift),
       levels := s.levels.(confidence := m.confidence, confidence1 := m.confidence1, confidence2 := m.confidence2))
  }

  function Note(s: State): (r: State)
    requires Sound(s)
    ensures Sound(r)
  {
    s.(tempo := NoteTempo(s.tempo, s.ticks.avg),
       lock := if Reading(s.tempo, s.ticks.avg) != s.tempo.lastBpm then
                 NoteConfidence(s.lock, s.config.smartBeatSticky, s.levels.confidence)
               else s.lock)
  }

  /** Enough ticks to work out a tempo. */
  predicate ReadyToGuess(t: Ticks) {
    LearntFrom(t.hist) && t.insertionCount == 2 * SIZE
  }

  /** Works out the tempo from the history. */
  function CalcBpm(s: State, now: int, m: Measured): (r: State)
    requires Sound(s)
    ensures Sound(r)
  {
    if !LearntFrom(s.ticks.hist) then s
    else if s.ticks.insertionCount == 2 * SIZE then CorrectTempo(Note(Measure(s, m)), now)
    else Measure(s, m)
  }

  /** Releases the lock when the song changed. */
  function StartSong(s: State, now: int): (r: State)
    requires Sound(s)
    ensures Sound(r)
  {
    if !s.lock.newSong then s
    else
      var r := Release(s);
      if s.config.resetOnNewSong then ResetAdapt(r, now) else r
  }

  function Release(s: State): (r: State)
    requires Sound(s)
    ensures Sound(r) && r.config == s.config
  {
    s.(ticks := s.ticks.(avg := 0),
       levels := s.levels.(bestConfidence := Quotient(s.levels.bestConfidence, 2)),
       lock := s.lock.(newSong := false, sticked := false, stickyConfidenceCount := 0))
  }

  /** Whether a frame should be a beat by the tempo known so far. */
  predicate Due(s: State, now: int)
    requires Sound(s)
  {
    s.tempo.bpm != 0 && now > s.lock.predictionLastTC + 60000 / s.tempo.bpm
  }

  /** A computed tempo may be taken up when there is none yet or the old one is out of range. */
  predicate Adoptable(l: Lock) {
    !l.sticked && (l.predictionBpm == 0 || l.predictionBpm > MAX_BPM || l.predictionBpm < MIN_BPM)
  }

  predicate TopConfidence(l: Levels) {
    l.confidence >= 50 && l.topConfidenceCount + 1 == TOP_CONF_ADOPT
  }

  predicate Convinced(l: Levels) {
    l.forceNewBeat || l.confidence >= l.bestConfidence || TopConfidence(l)
  }

  function Convince(l: Levels): Levels {
    var top :=
      if l.confidence < 50 then l.topConfidenceCount
      else if TopConfidence(l) then 0
      else l.topConfidenceCount + 1;
    if Convinced(l) then l.(topConfidenceCount := top, forceNewBeat := false, bestConfidence := l.confidence)
    else l.(topConfidenceCount := top)
  }

  function Adopt(s: State): (r: State)
    requires Sound(s)
    ensures Sound(r)
  {
    s.(levels := if Adoptable(s.lock) then Convince(s.levels) else s.levels,
       lock := if Adoptable(s.lock) && Convinced(s.levels) then s.lock.(predictionBpm := s.tempo.bpm) else s.lock)
  }

  /** The predicted tempo follows the computed one unless it is locked; a locked one overrides it. */
  function FollowTempo(s: State): (r: State)
    requires Sound(s)
    ensures Sound(r)
  {
    if s.lock.sticked then s.(tempo := s.tempo.(bpm := s.lock.predictionBpm))
    else s.(lock := s.lock.(predictionBpm := s.tempo.bpm))
  }

  /** Nudges an unlocked tempo when the beat came late or early in its period. */
  function Resync(s: State, late: bool, early: bool): (r: State)
    requires Sound(s)
    ensures Sound(r)
  {
    if s.lock.sticked || !s.lock.doResyncBpm || !(late || early) then s
    else
      var b := Cut(s.lock.predictionBpm as real * if early then 0.98 else 1.01);
      var t := NewBpm(s.tempo, b);
      s.(tempo := t, lock := s.lock.(predictionBpm := Smoothed(t.smoother)))
  }

  /** Whether the refiner's answer replaces the detector's. */
  predicate Steers(s: State) {
    s.config.smartBeat && (s.config.onlySticky ==> s.lock.sticked)
  }

  /** A predicted beat sets the clock and goes into the history as a guess. */
  function StrikePredicted(s: State, now: int): (r: State)
    requires Sound(s)
    ensures Sound(r)
  {
    s.(lock := s.lock.(predictionLastTC := now, doResyncBpm := false), sliders := SlideOut(s.sliders),
       ticks := if s.levels.confidence > 25 then TcHistStep(s.ticks, now, Guessed) else s.ticks)
  }

  /** What a beat that is late, predicted or early does to the clock of the prediction. */
  function Strike(s: State, now: int, late: bool, predicted: bool, early: bool): (r: State)
    requires Sound(s)
    ensures Sound(r)
  {
    var struck := s.lock.(predictionLastTC := now, doResyncBpm := true);
    if late then s.(lock := struck, sliders := SlideOut(s.sliders))
    else if predicted then StrikePredicted(s, now)
    else if early then s.(lock := struck)
    else s
  }

  function AnswerOf(s: State, isBeat: bool, late: bool, predicted: bool, early: bool): bool {
    if !Steers(s) then isBeat
    else if late || predicted then true
    else if early || s.lock.predictionBpm != 0 then false
    else isBeat
  }

  /** A frame begins: the song change is noticed. */
  function Begin(s: State, now: int, isBeat: bool): (r: State)
    requires Sound(s)
    ensures Sound(r)
  {
    StartSong(if isBeat then s.(sliders := SlideIn(s.sliders)) else s, now)
  }

  function Take(s: State, now: int, isBeat: bool): (r: State)
    requires Sound(s)
    ensures Sound(r)
  {
    if isBeat then s.(ticks := TcHistStep(s.ticks, now, Real)) else s
  }

  function Tune(s: State, adopt: bool): (r: State)
    requires Sound(s)
    ensures Sound(r)
  {
    FollowTempo(if adopt then Adopt(s) else s)
  }

  /** The beat that was accepted, seen against the prediction. */
  predicate IsLate(s: State, now: int, heard: bool) {
    heard && s.lock.predictionBpm != 0 && Late(now, s.lock.predictionBpm, s.lock.predictionLastTC)
  }

  predicate IsEarly(s: State, now: int, heard: bool) {
    heard && s.lock.predictionBpm != 0 && Early(now, s.lock.predictionBpm, s.lock.predictionLastTC)
  }

  /** The end of a frame: the tempo is settled and the answer given. */
  function Settle(s: State, now: int, isBeat: bool, accepted: bool, predicted: bool): (r: (State, bool))
    requires Sound(s)
    ensures Sound(r.0)
  {
    var t := Tune(s, accepted || predicted);
    var late, early := IsLate(t, now, accepted && !predicted), IsEarly(t, now, accepted && !predicted);
    var u := Strike(Resync(t, late, early), now, late, predicted, early);
    (u, AnswerOf(u, isBeat, late, predicted, early))
  }

  /** One frame. */
  function RefineBeat(s: State, now: int, isBeat: bool, m: Measured): (r: (State, bool))
    requires Sound(s)
    ensures Sound(r.0)
  {
    var a := Begin(s, now, isBeat);
    Settle(CalcBpm(Take(a, now, isBeat), now, m), now, isBeat, isBeat && Accepts(a.ticks, now), Due(a, now))
  }

  // ----- Runs

  datatype Input =
    | SongChange
    | Configure(config: Config)
    | Reset(now: int)
    | Frame(now: int, isBeat: bool, measured: Measured)

  function Next(s: State, input: Input): (r: (State, bool))
    requires Sound(s)
    ensures Sound(r.0)
  {
    match input
    case SongChange => (s.(lock := s.lock.(newSong := true)), false)
    case Configure(c) => (s.(config := c), false)
    case Reset(now) => (ResetAdapt(s, now), false)
    case Frame(now, isBeat, m) => RefineBeat(s, now, isBeat, m)
  }

  /** The state before input number `k` of a run. */
  function Before(s: State, inputs: seq<Input>, k: nat): (r: State)
    requires Sound(s) && k <= |inputs|
    ensures Sound(r)
  {
    if k == 0 then s else Next(Before(s, inputs, k - 1), inputs[k - 1]).0
  }

  /** The answer to input number `k`. */
  predicate Answer(s: State, inputs: seq<Input>, k: nat)
    requires Sound(s) && k < |inputs|
  {
    Next(Before(s, inputs, k), inputs[k]).1
  }

  // ----- What one frame may do

  /** An adaptive reset on the way through an input. */
  predicate Resets(s: State, input: Input)
    requires Sound(s)
  {
    match input
    case SongChange => false
    case Configure(_) => false
    case Reset(_) => true
    case Frame(now, isBeat, m) =>
      var t := Take(Begin(s, now, isBeat), now, isBeat);
      (s.lock.newSong && s.config.resetOnNewSong) || (ReadyToGuess(t.ticks) && RunsAway(Note(Measure(t, m))))
  }

  // ----- Laws of one input

  lemma SteeringKeepsLock(s: State)
    requires Sound(s)
    ensures DoubleWhenDiscriminated(s).lock == SteerUp(s).lock == SteerDown(s).lock == s.lock
    ensures s.tempo.bpm == s.tempo.doubleCount == 0 ==> SteerDown(SteerUp(s)).tempo.bpm == 0
  {
    hide RebuiltHistory, MarkCount, Quotient;
  }

  /** Working out the tempo touches the lock through a confident reading or an adaptive reset only. */
  lemma CalcLock(s: State, now: int, m: Measured)
    requires Sound(s)
    ensures
      var r, n := CalcBpm(s, now, m), Note(Measure(s, m));
      && (!ReadyToGuess(s.ticks) ==> r.lock == s.lock)
      && (ReadyToGuess(s.ticks) && !RunsAway(n) ==> r.lock == n.lock)
      && (ReadyToGuess(s.ticks) && RunsAway(n) ==>
            r.lock == Lock(false, 0, 0, 0, s.lock.newSong, s.lock.doResyncBpm) && r.tempo.bpm == 0)
    ensures CalcBpm(s, now, m).config == s.config
  {
    hide LearntFrom, LearnAverage, NoteTempo, Reading, DoubleWhenDiscriminated, SteerUp, SteerDown;
    var n := Note(Measure(s, m));
    var d := DoubleWhenDiscriminated(n);
    var w := if d.tempo.bpm > 500 || d.tempo.bpm < 0 then ResetAdapt(d, now) else d;
    SteeringKeepsLock(n);
    SteeringKeepsLock(w);
    SteeringKeepsLock(SteerUp(w));
    SteeringKeepsConfig(n);
    SteeringKeepsConfig(w);
    SteeringKeepsConfig(SteerUp(w));
  }

  lemma SteeringKeepsConfig(s: State)
    requires Sound(s)
    ensures DoubleWhenDiscriminated(s).config == SteerUp(s).config == SteerDown(s).config == s.config
  {
    hide RebuiltHistory, MarkCount, Quotient;
  }

  /** The end of a frame leaves a locked tempo alone, and makes the computed tempo follow it. */
  lemma SettleLock(s: State, now: int, isBeat: bool, accepted: bool, predicted: bool)
    requires Sound(s)
    ensures
      var (r, answer) := Settle(s, now, isBeat, accepted, predicted);
      && r.config == s.config && r.lock.sticked == s.lock.sticked && r.lock.newSong == s.lock.newSong
      && r.lock.stickyConfidenceCount == s.lock.stickyConfidenceCount
      && (s.lock.sticked ==> r.lock.predictionBpm == r.tempo.bpm == s.lock.predictionBpm)
      && (r.lock.predictionLastTC == s.lock.predictionLastTC || r.lock.predictionLastTC == now)
      && (predicted ==> r.lock.predictionLastTC == now)
      && (answer && !isBeat ==> predicted || accepted)
      && (!accepted ==> answer == if !Steers(r) then isBeat else predicted || (isBeat && r.lock.predictionBpm == 0))
  {
    hide TcHistStep, Late, Early, Cut, Smoothed, NewBpm;
  }

  /** The adoption of a computed tempo leaves no trace in the tempo: the unlocked tempo follows anyway. */
  lemma AdoptionLeavesNoTrace(s: State)
    requires Sound(s)
    ensures Tune(s, true).lock == Tune(s, false).lock && Tune(s, true).tempo == Tune(s, false).tempo
  {}

  /** The frame reads a tempo other than the last one. */
  predicate ReadsAnew(s: State, m: Measured)
    requires Sound(s)
  {
    ReadyToGuess(s.ticks) && Reading(s.tempo, LearnAverage(s.ticks, m.drift).avg) != s.tempo.lastBpm
  }

  /** The confidence is enough to count towards a lock: 70, or 85 for a tempo below 90. */
  predicate Confident(s: State, m: Measured) {
    && s.config.smartBeatSticky && s.lock.predictionBpm != 0
    && m.confidence >= (if s.lock.predictionBpm < 90 then 85 else 70)
  }

  /** The eighth confident reading in a row. */
  predicate TakesLock(s: State, m: Measured)
    requires Sound(s)
  {
    ReadsAnew(s, m) && Confident(s, m) && s.lock.stickyConfidenceCount + 1 >= 8
  }

  /** A frame ends locked exactly when it was locked or earns the lock, the song did not change and nothing
      was reset; and then its tempo is the one it began with. */
  lemma FrameLock(s: State, now: int, isBeat: bool, m: Measured)
    requires Sound(s)
    ensures
      var r, t := RefineBeat(s, now, isBeat, m).0, Take(Begin(s, now, isBeat), now, isBeat);
      && (r.lock.sticked <==>
            !Resets(s, Frame(now, isBeat, m)) && !s.lock.newSong && (s.lock.sticked || TakesLock(t, m)))
      && (r.lock.sticked ==> r.lock.predictionBpm == r.tempo.bpm == s.lock.predictionBpm)
  {
    hide Settle, CalcBpm, Begin, LearnAverage, NoteTempo, Reading, RunsAway, LearntFrom, TcHistStep, Accepts, Due;
    var a := Begin(s, now, isBeat);
    BeginLock(s, now, isBeat);
    var t := Take(a, now, isBeat);
    CalcLock(t, now, m);
    var c := CalcBpm(t, now, m);
    SettleLock(c, now, isBeat, isBeat && Accepts(a.ticks, now), Due(a, now));
  }

  lemma BeginLock(s: State, now: int, isBeat: bool)
    requires Sound(s)
    ensures
      var a := Begin(s, now, isBeat);
      && a.config == s.config && !a.lock.newSong
      && (!s.lock.newSong ==> a.lock == s.lock && a.tempo == s.tempo && a.ticks == s.ticks)
      && (s.lock.newSong ==> !a.lock.sticked && a.lock.stickyConfidenceCount == 0)
      && (s.lock.newSong && s.config.resetOnNewSong ==>
            a.lock.predictionBpm == a.tempo.bpm == 0 && !LearntFrom(a.ticks.hist))
      && (s.lock.newSong && !s.config.resetOnNewSong ==>
            a.tempo == s.tempo && a.lock.predictionBpm == s.lock.predictionBpm
            && a.lock.predictionLastTC == s.lock.predictionLastTC)
  {
    assert Blank()[0].tc == 0;
    hide Quotient;
  }

  /** Without a beat heard, the refiner answers with one of its own exactly when it steers and the tempo it
      knew makes one due. */
  lemma MadeUpBeat(s: State, now: int, m: Measured)
    requires Sound(s)
    ensures
      var (r, answer) := RefineBeat(s, now, false, m);
      && (answer <==> Steers(r) && Due(s, now) && !(s.lock.newSong && s.config.resetOnNewSong))
      && (answer ==> r.lock.predictionLastTC == now)
  {
    var a := Begin(s, now, false);
    BeginLock(s, now, false);
    hide Begin;
    SettleLock(CalcBpm(a, now, m), now, false, false, Due(a, now));
    hide Settle, CalcBpm;
  }

  /** The clock of the prediction is left alone or set to the time of the frame, unless there is a reset. */
  lemma FrameClock(s: State, now: int, isBeat: bool, m: Measured)
    requires Sound(s) && !Resets(s, Frame(now, isBeat, m))
    ensures
      var r := RefineBeat(s, now, isBeat, m).0;
      r.lock.predictionLastTC == s.lock.predictionLastTC || r.lock.predictionLastTC == now
  {
    hide Settle, CalcBpm, Begin, LearnAverage, NoteTempo, Reading, RunsAway, LearntFrom, TcHistStep, Accepts, Due;
    var a := Begin(s, now, isBeat);
    BeginLock(s, now, isBeat);
    var t := Take(a, now, isBeat);
    CalcLock(t, now, m);
    SettleLock(CalcBpm(t, now, m), now, isBeat, isBeat && Accepts(a.ticks, now), Due(a, now));
  }

  /** The count towards the lock: one more for a confident new reading, none for any other new reading, a
      reset or a song change, and otherwise as it was. */
  lemma FrameCount(s: State, now: int, isBeat: bool, m: Measured)
    requires Sound(s)
    ensures
      var r, t := RefineBeat(s, now, isBeat, m).0, Take(Begin(s, now, isBeat), now, isBeat);
      var count := if s.lock.newSong then 0 else s.lock.stickyConfidenceCount;
      && r.lock.stickyConfidenceCount ==
          (if Resets(s, Frame(now, isBeat, m)) then 0
           else if !ReadsAnew(t, m) then count
           else if Confident(t, m) then count + 1
           else 0)
      && (r.lock.sticked && !s.lock.sticked ==> r.lock.stickyConfidenceCount == count + 1 >= 8 && Confident(t, m))
  {
    hide Settle, CalcBpm, Begin, LearnAverage, NoteTempo, Reading, RunsAway, LearntFrom, TcHistStep, Accepts, Due;
    var a := Begin(s, now, isBeat);
    BeginLock(s, now, isBeat);
    var t := Take(a, now, isBeat);
    CalcLock(t, now, m);
    SettleLock(CalcBpm(t, now, m), now, isBeat, isBeat && Accepts(a.ticks, now), Due(a, now));
  }

  // ----- Laws of whole runs

  /** An input that cannot cost the lock: no reset on the way, and no frame that begins with a song change. */
  predicate KeepsLock(s: State, input: Input)
    requires Sound(s)
  {
    !Resets(s, input) && (input.Frame? ==> !s.lock.newSong)
  }

  lemma NextLock(s: State, input: Input)
    requires Sound(s) && s.lock.sticked
    ensures
      var r := Next(s, input).0;
      && (r.lock.sticked <==> KeepsLock(s, input))
      && (r.lock.sticked ==> r.lock.predictionBpm == s.lock.predictionBpm)
      && (r.lock.sticked && (input.Frame? || s.tempo.bpm == s.lock.predictionBpm) ==>
            r.tempo.bpm == r.lock.predictionBpm)
  {
    if input.Frame? {
      FrameLock(s, input.now, input.isBeat, input.measured);
    }
    hide RefineBeat, Take, Begin, Measure, Note, ReadyToGuess, RunsAway;
  }

  predicate Unbroken(s: State, inputs: seq<Input>, i: nat, j: nat)
    requires Sound(s) && i <= j <= |inputs|
  {
    forall k :: i <= k < j ==> KeepsLock(Before(s, inputs, k), inputs[k])
  }

  predicate AllLocked(s: State, inputs: seq<Input>, i: nat, j: nat)
    requires Sound(s) && i <= j <= |inputs|
  {
    forall k :: i <= k <= j ==> Before(s, inputs, k).lock.sticked
  }

  predicate OneTempo(s: State, inputs: seq<Input>, i: nat, j: nat, tempo: int)
    requires Sound(s) && i <= j <= |inputs|
  {
    forall k :: i <= k <= j ==> Before(s, inputs, k).lock.predictionBpm == tempo
  }

  lemma OneMore(s: State, inputs: seq<Input>, i: nat, j: nat, tempo: int)
    requires Sound(s) && i < j <= |inputs|
    ensures Unbroken(s, inputs, i, j)
      <==> Unbroken(s, inputs, i, j - 1) && KeepsLock(Before(s, inputs, j - 1), inputs[j - 1])
    ensures AllLocked(s, inputs, i, j) <==> AllLocked(s, inputs, i, j - 1) && Before(s, inputs, j).lock.sticked
    ensures OneTempo(s, inputs, i, j, tempo)
      <==> OneTempo(s, inputs, i, j - 1, tempo) && Before(s, inputs, j).lock.predictionBpm == tempo
  {
    hide Next, KeepsLock, Sound, Before;
  }

  /** From a locked state on, the tempo stays locked exactly as long as no frame begins with a song change
      and nothing is reset; and all that time the tempo is the same. */
  lemma {:induction false} LockedTempoHolds(s: State, inputs: seq<Input>, i: nat, j: nat)
    requires Sound(s) && i <= j <= |inputs| && Before(s, inputs, i).lock.sticked
    ensures Unbroken(s, inputs, i, j) <==> AllLocked(s, inputs, i, j)
    ensures Unbroken(s, inputs, i, j) ==> OneTempo(s, inputs, i, j, Before(s, inputs, i).lock.predictionBpm)
  {
    if i < j {
      hide Next, KeepsLock, Sound, Unbroken, AllLocked, OneTempo, Before;
      BeforeStep(s, inputs, j);
      LockedTempoHolds(s, inputs, i, j - 1);
      OneMore(s, inputs, i, j, Before(s, inputs, i).lock.predictionBpm);
      LastLocked(s, inputs, i, j - 1);
      if Before(s, inputs, j - 1).lock.sticked {
        NextLock(Before(s, inputs, j - 1), inputs[j - 1]);
      }
      LastTempo(s, inputs, i, j - 1, Before(s, inputs, i).lock.predictionBpm);
    }
  }

  lemma LastLocked(s: State, inputs: seq<Input>, i: nat, j: nat)
    requires Sound(s) && i <= j <= |inputs|
    ensures AllLocked(s, inputs, i, j) ==> Before(s, inputs, j).lock.sticked
  {}

  lemma LastTempo(s: State, inputs: seq<Input>, i: nat, j: nat, tempo: int)
    requires Sound(s) && i <= j <= |inputs|
    ensures OneTempo(s, inputs, i, j, tempo) ==> Before(s, inputs, j).lock.predictionBpm == tempo
  {}

  /** The frames so far whose confidence reaches the lower threshold. */
  function ConfidentFrames(inputs: seq<Input>, k: nat): nat
    requires k <= |inputs|
  {
    if k == 0 then 0
    else
      ConfidentFrames(inputs, k - 1)
      + if inputs[k - 1].Frame? && inputs[k - 1].measured.confidence >= 70 then 1 else 0
  }

  /** A new refiner locks no tempo before eight confident frames. */
  lemma {:induction false} LockTakesEightFrames(now: int, inputs: seq<Input>, k: nat)
    requires k <= |inputs|
    ensures
      var r := Before(Initial(now), inputs, k);
      && 0 <= r.lock.stickyConfidenceCount <= ConfidentFrames(inputs, k)
      && (r.lock.sticked ==> 8 <= ConfidentFrames(inputs, k))
  {
    if k > 0 {
      LockTakesEightFrames(now, inputs, k - 1);
      NextCount(Before(Initial(now), inputs, k - 1), inputs[k - 1]);
      hide Next, Sound, Initial;
    }
  }

  lemma NextCount(s: State, input: Input)
    requires Sound(s) && 0 <= s.lock.stickyConfidenceCount
    ensures
      var r := Next(s, input).0;
      var more := if input.Frame? && input.measured.confidence >= 70 then 1 else 0;
      && 0 <= r.lock.stickyConfidenceCount <= s.lock.stickyConfidenceCount + more
      && (r.lock.sticked && !s.lock.sticked ==> 8 <= s.lock.stickyConfidenceCount + more)
  {
    if input.Frame? {
      FrameCount(s, input.now, input.isBeat, input.measured);
    }
    hide RefineBeat, Sound;
  }

  lemma BeforeStep(s: State, inputs: seq<Input>, k: nat)
    requires Sound(s) && 0 < k <= |inputs|
    ensures Before(s, inputs, k) == Next(Before(s, inputs, k - 1), inputs[k - 1]).0
  {}

  predicate NotBefore(inputs: seq<Input>, i: nat, j: nat, now: int)
    requires i <= j <= |inputs|
  {
    forall k :: i <= k < j && inputs[k].Frame? ==> now <= inputs[k].now
  }

  lemma {:induction false} PredictionAdvances(s: State, inputs: seq<Input>, i: nat, j: nat, now: int)
    requires Sound(s) && i <= j <= |inputs| && now <= Before(s, inputs, i).lock.predictionLastTC
    requires Unbroken(s, inputs, i, j) && NotBefore(inputs, i, j, now)
    ensures now <= Before(s, inputs, j).lock.predictionLastTC
  {
    hide Next, Before, Sound, Resets;
    if i < j {
      PredictionAdvances(s, inputs, i, j - 1, now);
      var b, input := Before(s, inputs, j - 1), inputs[j - 1];
      assert KeepsLock(b, input);
      NextClock(b, input);
      BeforeStep(s, inputs, j);
    }
  }

  lemma NextClock(s: State, input: Input)
    requires Sound(s) && !Resets(s, input)
    ensures
      var r := Next(s, input).0;
      || r.lock.predictionLastTC == s.lock.predictionLastTC
      || (input.Frame? && r.lock.predictionLastTC == input.now)
  {
    if input.Frame? {
      FrameClock(s, input.now, input.isBeat, input.measured);
    }
    hide RefineBeat, Take, Begin, Measure, Note, ReadyToGuess, RunsAway, Sound;
  }

  lemma {:induction false} LockedBpm(s: State, inputs: seq<Input>, i: nat, j: nat)
    requires Sound(s) && i <= j <= |inputs| && Unbroken(s, inputs, i, j)
    requires var l := Before(s, inputs, i); l.lock.sticked && l.tempo.bpm == l.lock.predictionBpm
    ensures
      var l := Before(s, inputs, j);
      l.lock.sticked && l.tempo.bpm == l.lock.predictionBpm == Before(s, inputs, i).lock.predictionBpm
  {
    hide Next, KeepsLock, Sound, Before;
    if i < j {
      BeforeStep(s, inputs, j);
      LockedBpm(s, inputs, i, j - 1);
      NextLock(Before(s, inputs, j - 1), inputs[j - 1]);
    }
  }

  /** The refiner answers this input with a beat that was not heard. */
  predicate MadeUp(s: State, inputs: seq<Input>, k: nat)
    requires Sound(s) && k < |inputs|
  {
    inputs[k].Frame? && !inputs[k].isBeat && Answer(s, inputs, k)
  }

  lemma MadeUpAt(s: State, inputs: seq<Input>, k: nat)
    requires Sound(s) && k < |inputs| && MadeUp(s, inputs, k)
    ensures
      var b := Before(s, inputs, k);
      0 < b.tempo.bpm && inputs[k].now > b.lock.predictionLastTC + 60000 / b.tempo.bpm
    ensures Before(s, inputs, k + 1).lock.predictionLastTC == inputs[k].now
    ensures Before(s, inputs, k + 1).lock.sticked ==>
      Before(s, inputs, k + 1).tempo.bpm == Before(s, inputs, k + 1).lock.predictionBpm
  {
    MadeUpBeat(Before(s, inputs, k), inputs[k].now, inputs[k].measured);
    FrameLock(Before(s, inputs, k), inputs[k].now, false, inputs[k].measured);
    hide RefineBeat, Take, Begin, Resets, TakesLock, Steers;
  }

  /** Two beats made up under one lock lie more than a period of the locked tempo apart. */
  lemma MadeUpBeatsKeepThePeriod(s: State, inputs: seq<Input>, i: nat, j: nat)
    requires Sound(s) && i < j < |inputs| && MadeUp(s, inputs, i) && MadeUp(s, inputs, j)
    requires Before(s, inputs, i + 1).lock.sticked && Unbroken(s, inputs, i + 1, j)
    requires NotBefore(inputs, i + 1, j, inputs[i].now)
    ensures
      var tempo := Before(s, inputs, i + 1).lock.predictionBpm;
      0 < tempo && inputs[j].now > inputs[i].now + 60000 / tempo
  {
    hide Next, Before, Unbroken, NotBefore, Sound, Answer;
    MadeUpAt(s, inputs, i);
    MadeUpAt(s, inputs, j);
    LockedBpm(s, inputs, i + 1, j);
    PredictionAdvances(s, inputs, i + 1, j, inputs[i].now);
  }
}
