/** A run of the beat refiner that locks: steady beats until a tempo can be guessed, and then frames without
    a beat in which the typical drift, and with it the reading, alternates. */
module BeatWitness {
  import opened BeatMachine

  const PERIOD := 700
  const LAST := 11200

  /** How far apart the first reading and the second one are: 60000 / 700, and 60000 / 800. */
  const FAST := 85
  const SLOW := 75

  function Beat(k: nat): Input {
    Frame(PERIOD * k, true, Measured(100, 0, 0, 0.0))
  }

  function Quiet(n: nat): Input {
    Frame(LAST, false, Measured(100, 0, 0, if n % 2 == 0 then 10000.0 else 0.0))
  }

  /** A frame that notices the song, sixteen beats, and eight frames without one. */
  function Inputs(): (inputs: seq<Input>)
    ensures |inputs| == 25
  {
    seq(25, i requires 0 <= i < 25 =>
      if i == 0 then Frame(0, false, Measured(0, 0, 0, 0.0)) else if i <= 16 then Beat(i) else Quiet(i - 17))
  }

  // ----- The ticks

  /** The history after `k` beats. */
  predicate Regular(h: seq<Tick>, k: nat) {
    |h| == SIZE && forall i :: 0 <= i < SIZE ==> h[i].tc == if i < k then PERIOD * (k - i) else 0
  }

  predicate NoMarks(s: seq<int>) {
    |s| == SIZE && forall i :: 0 <= i < SIZE ==> s[i] == 0
  }

  predicate RegularTicks(t: Ticks, k: nat) {
    && SoundTicks(t) && Regular(t.hist, k) && NoMarks(t.halfDiscriminated) && t.insertionCount == k <= 2 * SIZE
    && t.avg == (if k < SIZE then 0 else PERIOD) && t.lastTC == PERIOD * k && t.startTC == 0
  }

  lemma LearntIff(h: seq<Tick>, k: nat)
    requires Regular(h, k)
    ensures LearntFrom(h) <==> SIZE <= k
  {
    assert k < SIZE ==> h[SIZE - 1].tc == 0;
  }

  lemma NotAFraction(avg: int)
    requires avg == 0 || avg == PERIOD
    ensures !TooSoon(avg, PERIOD)
    ensures avg == PERIOD ==> !DividesAverage(avg, PERIOD)
  {
    if avg == PERIOD {
      forall d | 2 <= d < DIVISORS ensures !NearFraction(avg, PERIOD, d) {
        assert d == 2 || d == 3 || d == 4 || d == 5 || d == 6 || d == 7;
      }
    }
  }

  /** The next beat is inserted. */
  lemma BeatTaken(t: Ticks, k: nat)
    requires RegularTicks(t, k) && k < 2 * SIZE
    ensures Accepts(t, PERIOD * (k + 1))
    ensures
      var r := TcHistStep(t, PERIOD * (k + 1), Real);
      && SoundTicks(r) && Regular(r.hist, k + 1) && NoMarks(r.halfDiscriminated) && r.insertionCount == k + 1
      && r.avg == t.avg && r.lastTC == PERIOD * (k + 1) && r.startTC == 0
  {
    LearntIff(t.hist, k);
    NotAFraction(t.avg);
    assert Since(PERIOD * (k + 1), t.lastTC) == PERIOD;
    hide TooSoon, DividesAverage, LearntFrom, FitsBetter;
  }

  lemma {:induction false} NothingKept(h: seq<Tick>, avg: int, i: nat)
    requires 2 <= |h| && i < |h|
    ensures Layer(h, avg, 0.0, i).0 == 0 && Layer(h, avg, 0.0, i).1 == 0
  {
    if i > 0 {
      NothingKept(h, avg, i - 1);
    }
  }

  /** With a wide drift every interval is kept, and the last one counts twice. */
  lemma {:induction false} AllKept(h: seq<Tick>, k: nat, i: nat)
    requires Regular(h, k) && SIZE <= k && i < SIZE
    ensures Layer(h, PERIOD, 10000.0, i) == if i == 0 then (0, 0, PERIOD) else (PERIOD * (i + 1), i, 0)
  {
    if i > 0 {
      AllKept(h, k, i - 1);
    }
  }

  lemma AveragesOf(t: Ticks, k: nat)
    requires SoundTicks(t) && Regular(t.hist, k) && SIZE <= k
    ensures LearnAverage(t, 0.0).avg == PERIOD && LearnAverage(t, 10000.0).avg == 800
  {
    hide Layer;
    assert FirstAverage(t.hist) == PERIOD;
    NothingKept(t.hist, PERIOD, SIZE - 1);
    AllKept(t.hist, k, SIZE - 1);
  }

  // ----- Before a tempo can be guessed

  predicate Unlocked(s: State) {
    Sound(s) && !s.lock.sticked && !s.lock.newSong && s.config.smartBeatSticky
  }

  predicate Warming(s: State, k: nat) {
    && Unlocked(s) && RegularTicks(s.ticks, k)
    && s.lock.predictionBpm == s.lock.predictionLastTC == s.lock.stickyConfidenceCount == 0 && !s.lock.doResyncBpm
    && s.tempo.bpm == s.tempo.lastBpm == 0 && s.tempo.smoother == Zeros()
  }

  lemma WarmStart()
    ensures Warming(Next(Initial(0), Inputs()[0]).0, 0)
  {
    LearntIff(Blank(), 0);
    hide LearntFrom;
  }

  lemma Taken(s: State, k: nat)
    requires Warming(s, k) && k < 2 * SIZE
    ensures
      var now := PERIOD * (k + 1);
      var a := Begin(s, now, true);
      && a == s.(sliders := SlideIn(s.sliders)) && Accepts(a.ticks, now) && !Due(a, now)
      && Take(a, now, true) == a.(ticks := TcHistStep(s.ticks, now, Real))
  {
    BeatTaken(s.ticks, k);
    hide FateOf, TcHistStep, Accepts;
  }

  lemma WarmStep(s: State, k: nat)
    requires Warming(s, k) && k < 2 * SIZE - 1
    ensures Warming(Next(s, Beat(k + 1)).0, k + 1)
  {
    var now := PERIOD * (k + 1);
    Taken(s, k);
    BeatTaken(s.ticks, k);
    var t := Take(Begin(s, now, true), now, true);
    LearntIff(t.ticks.hist, k + 1);
    if SIZE <= k + 1 {
      AveragesOf(t.ticks, k + 1);
    }
    hide Begin, Take, LearntFrom, LearnAverage, TcHistStep, Accepts, Due, Layer;
    WarmSettle(CalcBpm(t, now, Measured(100, 0, 0, 0.0)), now);
  }

  lemma WarmSettle(s: State, now: int)
    requires Sound(s) && !s.lock.sticked && s.tempo.bpm == 0
    ensures
      var r := Settle(s, now, true, true, false).0;
      r.lock == s.lock.(predictionBpm := 0) && r.tempo == s.tempo && r.ticks == s.ticks && r.config == s.config
  {}

  // ----- From the first reading on

  predicate Between(s: seq<int>) {
    |s| == SIZE && forall i :: 0 <= i < SIZE ==> s[i] == 0 || SLOW <= s[i] <= FAST
  }

  predicate Steady(s: State, n: nat) {
    && Sound(s) && !s.lock.newSong && s.config.smartBeatSticky
    && SoundTicks(s.ticks) && Regular(s.ticks.hist, 2 * SIZE) && NoMarks(s.ticks.halfDiscriminated)
    && s.ticks.insertionCount == 2 * SIZE && Between(s.tempo.smoother)
    && s.lock.predictionLastTC == LAST && SLOW <= s.lock.predictionBpm == s.tempo.bpm <= FAST
    && s.lock.stickyConfidenceCount == n && s.tempo.lastBpm == (if n % 2 == 0 then FAST else SLOW)
    && s.lock.sticked == (MIN_STICKY <= n)
  }

  lemma {:induction false} SomePositive(s: seq<int>, i: nat)
    requires i < |s| && s[i] > 0
    ensures PositiveCount(s) > 0
  {
    if i < |s| - 1 {
      SomePositive(s[..|s| - 1], i);
    }
  }

  lemma SmoothedIsBetween(t: Tempo, reading: int)
    requires SoundRing(t) && Between(t.smoother) && SLOW <= reading <= FAST
    ensures Between(NewBpm(t, reading).smoother) && SLOW <= Smoothed(NewBpm(t, reading).smoother) <= FAST
  {
    var s := NewBpm(t, reading).smoother;
    SomePositive(s, t.smPtr);
    SmoothedBetween(s, SLOW, FAST);
    hide Smoothed;
  }

  lemma {:induction false} NoneMarked(s: seq<int>)
    requires forall i :: 0 <= i < |s| ==> s[i] == 0
    ensures MarkCount(s) == 0
  {
    if s != [] {
      NoneMarked(s[..|s| - 1]);
    }
  }

  /** A tempo in range, with nothing thrown away, is left as it is. */
  lemma InRangeStays(s: State, now: int)
    requires Sound(s) && SLOW <= s.tempo.bpm <= FAST && NoMarks(s.ticks.halfDiscriminated)
    ensures CorrectTempo(s, now) == s.(tempo := s.tempo.(doubleCount := 0, halfCount := 0))
  {
    NoneMarked(s.ticks.halfDiscriminated);
    hide MarkCount, DoubleBeat, HalfBeat, ResetAdapt;
  }

  /** A frame's reading, and what it does to tempo and lock. */
  lemma ReadingNoted(s: State, now: int, m: Measured, reading: int)
    requires Sound(s) && SoundTicks(s.ticks) && LearntFrom(s.ticks.hist) && s.ticks.insertionCount == 2 * SIZE
    requires NoMarks(s.ticks.halfDiscriminated) && Between(s.tempo.smoother)
    requires SLOW <= reading <= FAST && reading != s.tempo.lastBpm
    requires LearnAverage(s.ticks, m.drift).avg != 0 && Quotient(60000, LearnAverage(s.ticks, m.drift).avg) == reading
    ensures
      var r := CalcBpm(s, now, m);
      && r.config == s.config && r.ticks == LearnAverage(s.ticks, m.drift)
      && r.lock == NoteConfidence(s.lock, s.config.smartBeatSticky, m.confidence)
      && SLOW <= r.tempo.bpm <= FAST && r.tempo.lastBpm == reading && Between(r.tempo.smoother)
  {
    SmoothedIsBetween(s.tempo.(bpm := reading), reading);
    hide LearntFrom, LearnAverage, Smoothed, Quotient, CorrectTempo, NoteConfidence, NewBpm;
    var n := Note(Measure(s, m));
    InRangeStays(n, now);
  }

  lemma FirstReading(s: State)
    requires Warming(s, 2 * SIZE - 1)
    ensures Steady(Next(s, Beat(2 * SIZE)).0, 0)
  {
    var k, m := 2 * SIZE - 1, Measured(100, 0, 0, 0.0);
    Taken(s, k);
    BeatTaken(s.ticks, k);
    var t := Take(Begin(s, LAST, true), LAST, true);
    LearntIff(t.ticks.hist, k + 1);
    AveragesOf(t.ticks, k + 1);
    hide Begin, Take, LearntFrom, LearnAverage, TcHistStep, Accepts, Due, Layer, CalcBpm;
    ReadingNoted(t, LAST, m, FAST);
    FirstSettle(CalcBpm(t, LAST, m));
  }

  /** The first tempo is taken over, and the beat that led to it sets the clock. */
  lemma FirstSettle(s: State)
    requires Sound(s) && !s.lock.sticked && SLOW <= s.tempo.bpm <= FAST
    requires s.lock.predictionLastTC == 0 && !s.lock.doResyncBpm
    ensures
      var r := Settle(s, LAST, true, true, false).0;
      && r.lock == s.lock.(predictionBpm := s.tempo.bpm, predictionLastTC := LAST, doResyncBpm := true)
      && r.tempo == s.tempo && r.ticks == s.ticks && r.config == s.config
  {
    hide Late, Early, SlideOut;
    FirstBeatIsLate(s.tempo.bpm);
  }

  lemma FirstBeatIsLate(bpm: int)
    requires SLOW <= bpm <= FAST
    ensures Late(LAST, bpm, 0) && !Early(LAST, bpm, 0)
  {
    assert 0 < Quotient(60000, bpm) <= 800;
    hide Quotient;
  }

  lemma QuietBegin(s: State, n: nat)
    requires Steady(s, n)
    ensures Begin(s, LAST, false) == s == Take(s, LAST, false) && !Due(s, LAST)
  {}

  lemma QuietAverage(s: State, n: nat)
    requires Steady(s, n)
    ensures
      var avg := LearnAverage(s.ticks, Quiet(n).measured.drift).avg;
      avg != 0 && Quotient(60000, avg) == (if n % 2 == 0 then SLOW else FAST) != s.tempo.lastBpm
    ensures LearntFrom(s.ticks.hist)
  {
    AveragesOf(s.ticks, 2 * SIZE);
    LearntIff(s.ticks.hist, 2 * SIZE);
    hide LearnAverage, LearntFrom;
  }

  lemma QuietStep(s: State, n: nat)
    requires Steady(s, n) && n < MIN_STICKY
    ensures Steady(Next(s, Quiet(n)).0, n + 1)
  {
    hide Begin, Take, LearntFrom, LearnAverage, Quotient, CalcBpm, Due, Settle;
    var m := Quiet(n).measured;
    QuietBegin(s, n);
    QuietAverage(s, n);
    ReadingNoted(s, LAST, m, if n % 2 == 0 then SLOW else FAST);
    QuietSettle(CalcBpm(s, LAST, m), LAST);
  }

  lemma QuietSettle(s: State, now: int)
    requires Sound(s)
    ensures
      var r := Settle(s, now, false, false, false).0;
      && r.ticks == s.ticks && r.config == s.config
      && (s.lock.sticked ==> r.lock == s.lock && r.tempo == s.tempo.(bpm := s.lock.predictionBpm))
      && (!s.lock.sticked ==> r.tempo == s.tempo && r.lock == s.lock.(predictionBpm := s.tempo.bpm))
  {}

  // ----- The run

  lemma {:induction false} Warms(k: nat)
    requires k < 2 * SIZE
    ensures Warming(Before(Initial(0), Inputs(), k + 1), k)
  {
    hide Next, Warming, Initial;
    BeforeStep(Initial(0), Inputs(), k + 1);
    if k == 0 {
      NothingBefore(Initial(0), Inputs());
      WarmStart();
    } else {
      Warms(k - 1);
      WarmStep(Before(Initial(0), Inputs(), k), k - 1);
    }
  }

  lemma NothingBefore(s: State, inputs: seq<Input>)
    requires Sound(s)
    ensures Before(s, inputs, 0) == s
  {}

  lemma {:induction false} Settles(n: nat)
    requires n <= MIN_STICKY
    ensures Steady(Before(Initial(0), Inputs(), n + 17), n)
  {
    hide Next, Warming, Steady, Initial;
    BeforeStep(Initial(0), Inputs(), n + 17);
    if n == 0 {
      Warms(2 * SIZE - 1);
      FirstReading(Before(Initial(0), Inputs(), 16));
    } else {
      Settles(n - 1);
      QuietStep(Before(Initial(0), Inputs(), n + 16), n - 1);
    }
  }

  /** A new refiner does lock: twenty-five frames are enough. */
  lemma RefinerLocks()
    ensures Before(Initial(0), Inputs(), 25).lock.sticked
  {
    Settles(MIN_STICKY);
  }
}
