/** What the steps of the beat refiner do to the tick history and to the tempo, in terms of times, intervals
    and numbers. */
module TempoLaws {
  import opened Arithmetic
  import opened BeatMachine

  // ----- The fate of a tick

  /** A tick is inserted when nothing was learned yet, unless it comes too soon; sooner than two fifths of
      the average is too soon. */
  lemma TickTooSoonIff(avg: int, len: nat)
    requires 0 <= avg
    ensures TooSoon(avg, len) <==> 10 * len + avg < 10 * (avg / 2)
  {}

  /** A tick a whole period after the last one goes to the front of the history, which loses its oldest. */
  lemma SteadyTickInserted(t: Ticks, tc: int, kind: Kind)
    requires SoundTicks(t) && 0 < t.avg && tc == t.lastTC + t.avg
    ensures Accepts(t, tc)
    ensures
      var r := TcHistStep(t, tc, kind);
      && r.hist[0] == Tick(tc, kind) && (forall i :: 1 <= i < SIZE ==> r.hist[i] == t.hist[i - 1])
      && r.lastTC == tc + t.startTC
      && r.halfDiscriminated == t.halfDiscriminated[t.hdPos := 0] && r.hdPos == (t.hdPos + 1) % 8
      && r.insertionCount == (if t.insertionCount < 16 then t.insertionCount + 1 else 16)
  {
    forall d | 2 <= d < DIVISORS ensures !NearFraction(t.avg, t.avg, d) {
      FarFromFraction(t.avg, d);
    }
    hide NearFraction, LearntFrom, FitsBetter;
  }

  lemma FarFromFraction(avg: int, d: int)
    requires 0 < avg && 2 <= d < DIVISORS
    ensures !NearFraction(avg, avg, d)
  {
    var q := avg / d;
    assert Quotient(avg, d) == q;
    assert d * q <= avg && 0 <= q;
    assert 2 * q <= d * q;
  }

  /** Once learned from, the history marks a tick half a period after the last one, and does not take it. */
  lemma HalfTickMarked(t: Ticks, tc: int, kind: Kind)
    requires SoundTicks(t) && LearntFrom(t.hist) && 2 <= t.avg && tc == t.lastTC + t.avg / 2
    ensures !Accepts(t, tc)
    ensures TcHistStep(t, tc, kind) ==
      t.(halfDiscriminated := t.halfDiscriminated[t.hdPos := 1], hdPos := (t.hdPos + 1) % SIZE)
  {
    assert NearFraction(t.avg, t.avg / 2, 2);
    hide LearntFrom, FitsBetter;
  }

  /** A tick that comes too soon changes nothing, or takes the place of the newest one, and then the newest
      interval is nearer the average than it was. */
  lemma EarlyTick(t: Ticks, tc: int, kind: Kind)
    requires SoundTicks(t) && TooSoon(t.avg, Since(tc, t.lastTC))
    ensures
      var r := TcHistStep(t, tc, kind);
      && (!Accepts(t, tc) ==> r == t)
      && (Accepts(t, tc) ==> r == t.(hist := t.hist[0 := Tick(tc, kind)]))
      && (Accepts(t, tc) <==>
            (LearntFrom(t.hist)
             && Abs(t.avg - (tc - t.hist[1].tc)) < Abs(t.avg - (t.hist[0].tc - t.hist[1].tc))))
  {
    hide TooSoon, LearntFrom;
  }

  /** Before anything was learned every tick that does not come too soon is taken. */
  lemma FirstTicksTaken(t: Ticks, tc: int, kind: Kind)
    requires SoundTicks(t) && !LearntFrom(t.hist) && !TooSoon(t.avg, Since(tc, t.lastTC))
    ensures Accepts(t, tc) && TcHistStep(t, tc, kind).hist == [Tick(tc, kind)] + t.hist[..SIZE - 1]
  {
    hide TooSoon, LearntFrom;
  }

  // ----- Tempos

  /** Doubling makes the tempo twice as high and every interval half as long, cut off toward zero. */
  lemma DoublingDoubles(s: State, i: nat)
    requires Sound(s) && i + 1 < SIZE && !(s.lock.sticked && 60 < s.tempo.bpm)
    ensures
      var r := DoubleBeat(s);
      var was, after := s.ticks.hist[i].tc - s.ticks.hist[i + 1].tc, r.ticks.hist[i].tc - r.ticks.hist[i + 1].tc;
      && r.tempo.bpm == 2 * s.tempo.bpm && r.ticks.hist[0] == s.ticks.hist[0] && Abs(2 * after - was) <= 1
      && Abs(2 * r.ticks.avg - s.ticks.avg) <= 1
      && (forall k :: 0 <= k < SIZE ==> r.tempo.smoother[k] == r.ticks.halfDiscriminated[k] == 0)
  {
    RebuiltIntervals(s.ticks.hist, Halve, i);
    hide RebuiltHistory;
  }

  /** Halving makes the tempo half as high and every interval twice as long. */
  lemma HalvingHalves(s: State, i: nat)
    requires Sound(s) && i + 1 < SIZE && !(s.lock.sticked && s.tempo.bpm < 60)
    ensures
      var r := HalfBeat(s);
      var was, after := s.ticks.hist[i].tc - s.ticks.hist[i + 1].tc, r.ticks.hist[i].tc - r.ticks.hist[i + 1].tc;
      && 0 <= s.tempo.bpm - 2 * r.tempo.bpm <= 1 && r.ticks.hist[0] == s.ticks.hist[0] && after == 2 * was
      && r.ticks.avg == 2 * s.ticks.avg
      && (forall k :: 0 <= k < SIZE ==> r.tempo.smoother[k] == r.ticks.halfDiscriminated[k] == 0)
  {
    RebuiltIntervals(s.ticks.hist, Twice, i);
    hide RebuiltHistory;
  }

  /** A computed tempo is doubled when half of the last eight ticks were fractions and it stays below 170;
      above 500 everything is reset; out of range five times in a row it is doubled or halved; and otherwise
      it is left as it is. */
  lemma TempoCorrected(s: State, now: int)
    requires Sound(s) && !s.lock.sticked
    ensures
      var bpm := s.tempo.bpm;
      var r := CorrectTempo(s, now);
      var d := if MarkCount(s.ticks.halfDiscriminated) >= 4 && 2 * bpm < 170 then 2 * bpm else bpm;
      && (RunsAway(s) <==> bpm > 500)
      && (bpm > 500 ==> r.tempo.bpm == 0)
      && (60 <= d <= 170 ==> r.tempo.bpm == d && r.tempo.doubleCount == r.tempo.halfCount == 0)
      && (d == bpm < 60 ==> r.tempo.bpm == (if s.tempo.doubleCount >= 4 then 2 * bpm else bpm))
      && (170 < bpm <= 500 ==> r.tempo.bpm == (if s.tempo.halfCount >= 4 then bpm / 2 else bpm))
  {
    hide RebuiltHistory, MarkCount, Quotient;
  }

  /** The first average is the mean interval, cut off toward zero. */
  lemma FirstAverageIsTheMean(h: seq<Tick>)
    requires |h| == SIZE
    ensures Abs(7 * FirstAverage(h) - (h[0].tc - h[7].tc)) < 7
  {
    QuotientNear(h[0].tc - h[7].tc, 7);
  }

  /** The reading is the number of average intervals in a minute. */
  lemma ReadingCountsIntervals(t: Tempo, avg: int)
    requires 0 < avg
    ensures Reading(t, avg) * avg <= 60000 < (Reading(t, avg) + 1) * avg
  {
    var q := 60000 / avg;
    assert 60000 == q * avg + 60000 % avg;
    assert (q + 1) * avg == q * avg + avg;
  }

  /** The entries that count, in order. */
  function Positive(s: seq<int>): (r: seq<int>) {
    if s == [] then [] else Positive(s[..|s| - 1]) + if s[|s| - 1] > 0 then [s[|s| - 1]] else []
  }

  function Total(s: seq<int>): int {
    if s == [] then 0 else Total(s[..|s| - 1]) + s[|s| - 1]
  }

  lemma {:induction false} PositiveTotals(s: seq<int>)
    ensures Total(Positive(s)) == PositiveSum(s) && |Positive(s)| == PositiveCount(s)
  {
    if s != [] {
      PositiveTotals(s[..|s| - 1]);
      var p, last := Positive(s[..|s| - 1]), s[|s| - 1];
      assert (p + [last])[..|p|] == p && p + [] == p;
    }
  }

  /** The smoothed tempo is the mean of the positive entries, and zero without any. */
  lemma SmoothedIsTheMean(s: seq<int>)
    ensures Positive(s) == [] ==> Smoothed(s) == 0
    ensures Positive(s) != [] ==>
      Smoothed(s) * |Positive(s)| <= Total(Positive(s)) < (Smoothed(s) + 1) * |Positive(s)|
  {
    PositiveTotals(s);
    if Positive(s) != [] {
      MeanBounds(PositiveSum(s), PositiveCount(s));
    }
  }

  lemma MeanBounds(sum: nat, n: nat)
    requires 0 < n
    ensures (sum / n) * n <= sum < (sum / n + 1) * n
  {
    var q := sum / n;
    assert sum == n * q + sum % n;
    assert (q + 1) * n == q * n + n;
  }

  /** A beat accepted near the end of the period puts no lower tempo into the ring than the predicted one, a
      beat near its start no higher one; a locked tempo is not nudged at all. */
  lemma NudgeDirection(s: State, late: bool, early: bool)
    requires Sound(s)
    ensures
      var r := Resync(s, late, early);
      var entry := r.tempo.smoother[s.tempo.smPtr];
      && (s.lock.sticked || !s.lock.doResyncBpm || !(late || early) ==> r == s)
      && (!s.lock.sticked && s.lock.doResyncBpm && early ==>
            entry <= s.lock.predictionBpm && entry as real > s.lock.predictionBpm as real * 0.98 - 1.0)
      && (!s.lock.sticked && s.lock.doResyncBpm && late && !early ==>
            entry >= s.lock.predictionBpm && entry as real <= s.lock.predictionBpm as real * 1.01)
      && (!s.lock.sticked && s.lock.doResyncBpm && (late || early) ==>
            r.lock.predictionBpm == Smoothed(r.tempo.smoother)
            && forall k :: 0 <= k < SIZE && k != s.tempo.smPtr ==> r.tempo.smoother[k] == s.tempo.smoother[k])
  {
    hide Smoothed;
    CutIsBelow(s.lock.predictionBpm as real * 0.98);
    CutIsBelow(s.lock.predictionBpm as real * 1.01);
  }

  lemma CutIsBelow(x: real)
    requires 0.0 <= x
    ensures 0 <= Cut(x) && Cut(x) as real <= x && x < Cut(x) as real + 1.0
  {}

  // ----- Division

  /** The quotient is cut off toward zero. */
  lemma QuotientTowardZero(a: int, b: int)
    requires b != 0
    ensures Abs(b * Quotient(a, b)) <= Abs(a) < Abs(b * Quotient(a, b)) + Abs(b)
    ensures Quotient(a, b) != 0 ==> (0 < Quotient(a, b) <==> (0 < a <==> 0 < b))
  {
    var m, n := Abs(a), Abs(b);
    var q: int := m / n;
    DivisionSplits(m, n);
    assert Quotient(a, b) == if (0 <= a) == (0 < b) then q else -q;
    assert b * q == (if 0 < b then n * q else -1 * (n * q)) && b * -q == -(b * q);
  }

  lemma DivisionSplits(m: nat, n: nat)
    requires 0 < n
    ensures 0 <= n * (m / n) <= m < n * (m / n) + n && 0 <= m / n
    ensures m / n != 0 ==> m != 0
  {
    assert m == n * (m / n) + m % n;
  }

  /** A tick divides the average when it is within a fifth of a half, a third, up to a seventh of it. */
  lemma DividesIff(avg: int, len: nat)
    requires 0 <= avg
    ensures DividesAverage(avg, len) <==> exists d :: 2 <= d < 8 && FifthOff(avg / d, len)
  {
    forall d | 2 <= d < 8 ensures NearFraction(avg, len, d) == FifthOff(avg / d, len) {}
    hide NearFraction, FifthOff;
  }

  predicate FifthOff(part: int, len: nat) {
    5 * Abs(part - len) < part
  }

  // ----- The rings

  /** A place of a ring of eight, counted from a position on. */
  function Place(from: nat, i: nat): (p: nat)
    ensures p < SIZE
  {
    (from + i) % 8
  }

  lemma OtherPlace(from: nat, i: nat, j: nat)
    requires i < 8 && j < 8 && i != j
    ensures Place(from, i) != Place(from, j)
  {
    var p, q := from / 8, from % 8;
    assert from == 8 * p + q;
    assert (from + i) % 8 == (q + i) % 8 && (from + j) % 8 == (q + j) % 8;
  }

  /** A run of tempos put into the ring. */
  function Pushed(t: Tempo, tempos: seq<int>): (r: Tempo)
    requires SoundRing(t)
    ensures SoundRing(r)
  {
    if tempos == [] then t else NewBpm(Pushed(t, tempos[..|tempos| - 1]), tempos[|tempos| - 1])
  }

  /** After up to eight tempos the ring holds each of them, once and in order, and keeps the other places. */
  lemma {:induction false} RingHoldsLast(t: Tempo, tempos: seq<int>)
    requires SoundRing(t) && |tempos| <= 8
    ensures
      var r := Pushed(t, tempos);
      && r.smPtr == (t.smPtr + |tempos|) % 8
      && (forall i: nat :: i < |tempos| ==> r.smoother[Place(t.smPtr, i)] == tempos[i])
      && (forall i: nat :: |tempos| <= i < 8 ==>
            r.smoother[Place(t.smPtr, i)] == t.smoother[Place(t.smPtr, i)])
  {
    if tempos != [] {
      var last := |tempos| - 1;
      RingHoldsLast(t, tempos[..last]);
      assert Pushed(t, tempos[..last]).smPtr == Place(t.smPtr, last);
      forall i: nat | i < 8 && i != last ensures Place(t.smPtr, i) != Place(t.smPtr, last) {
        OtherPlace(t.smPtr, i, last);
      }
      NextPlace(t.smPtr, last);
      hide Place;
    }
  }

  lemma NextPlace(from: nat, i: nat)
    ensures (Place(from, i) + 1) % 8 == (from + (i + 1)) % 8
  {}

  /** A run of marks put into the ring of discriminated ticks. */
  function Marked(t: Ticks, marks: seq<int>): (r: Ticks)
    requires SoundTicks(t)
    ensures SoundTicks(r)
  {
    if marks == [] then t else Discriminate(Marked(t, marks[..|marks| - 1]), marks[|marks| - 1])
  }

  lemma {:induction false} MarksHoldLast(t: Ticks, marks: seq<int>)
    requires SoundTicks(t) && |marks| <= 8
    ensures
      var r := Marked(t, marks);
      && r == t.(halfDiscriminated := r.halfDiscriminated, hdPos := (t.hdPos + |marks|) % 8)
      && (forall i: nat :: i < |marks| ==> r.halfDiscriminated[Place(t.hdPos, i)] == marks[i])
      && (forall i: nat :: |marks| <= i < 8 ==>
            r.halfDiscriminated[Place(t.hdPos, i)] == t.halfDiscriminated[Place(t.hdPos, i)])
  {
    if marks != [] {
      var last := |marks| - 1;
      MarksHoldLast(t, marks[..last]);
      assert Marked(t, marks[..last]).hdPos == Place(t.hdPos, last);
      forall i: nat | i < 8 && i != last ensures Place(t.hdPos, i) != Place(t.hdPos, last) {
        OtherPlace(t.hdPos, i, last);
      }
      NextPlace(t.hdPos, last);
      hide Place;
    }
  }

  /** The places marked in a ring. */
  ghost function MarkedPlaces(s: seq<int>): set<nat> {
    set i: nat | i < |s| && s[i] != 0
  }

  lemma {:induction false} MarksCounted(s: seq<int>)
    ensures MarkCount(s) == |MarkedPlaces(s)|
  {
    if s != [] {
      var last := |s| - 1;
      MarksCounted(s[..last]);
      assert MarkedPlaces(s) == MarkedPlaces(s[..last]) + if s[last] != 0 then {last} else {};
    }
  }

  // ----- The second average

  /** The next interval, with what is carried into it, counts when it is within the drift of the average; when
      it is not, it is carried on if it falls short and dropped if it is too long. */
  lemma IntervalCounts(h: seq<Tick>, avg: int, drift: real, i: nat)
    requires 2 <= |h| && i + 1 < |h|
    ensures
      var ((was, n, carry), (total, m, next)) := (Layer(h, avg, drift, i), Layer(h, avg, drift, i + 1));
      var v := carry + (h[i].tc - h[i + 1].tc);
      && ((avg - v) as real < drift && (v - avg) as real < drift ==> total == was + v && m == n + 1 && next == 0)
      && ((avg - v) as real >= drift && v <= avg ==> total == was && m == n && next == v)
      && ((v - avg) as real >= drift && v > avg ==> total == was && m == n && next == 0)
  {}

  /** So a beat with a tick too many in it counts as one interval, whole. */
  lemma SplitBeatMerges(h: seq<Tick>, avg: int, drift: real, i: nat)
    requires 2 <= |h| && i + 2 < |h| && Layer(h, avg, drift, i).2 == 0
    requires h[i].tc - h[i + 2].tc == avg && 0.0 < drift
    requires h[i + 2].tc < h[i + 1].tc < h[i].tc && (avg - (h[i].tc - h[i + 1].tc)) as real >= drift
    ensures
      var (was, n, _) := Layer(h, avg, drift, i);
      Layer(h, avg, drift, i + 2) == (was + avg, n + 1, 0)
  {
    IntervalCounts(h, avg, drift, i);
    IntervalCounts(h, avg, drift, i + 1);
    hide Layer;
  }

  /** Every interval of the history is the same. */
  ghost predicate Steady(h: seq<Tick>, interval: int) {
    forall i :: 0 <= i < |h| - 1 ==> h[i].tc - h[i + 1].tc == interval
  }

  lemma {:induction false} SteadyLayer(h: seq<Tick>, interval: int, drift: real, i: nat)
    requires |h| == SIZE && Steady(h, interval) && 0 < interval && 0.0 < drift <= interval as real && 1 <= i < SIZE
    ensures Layer(h, interval, drift, i) == ((i - 1) * interval, i - 1, 0)
  {
    if i > 1 {
      SteadyLayer(h, interval, drift, i - 1);
      assert (i - 1) * interval == (i - 2) * interval + interval;
      IntervalCounts(h, interval, drift, i - 1);
      hide Layer;
    } else {
      FirstLayer(h, interval, drift);
      IntervalCounts(h, interval, drift, 0);
      hide Layer;
    }
  }

  lemma FirstLayer(h: seq<Tick>, avg: int, drift: real)
    requires |h| == SIZE && Steady(h, avg)
    ensures Layer(h, avg, drift, 0) == (0, 0, avg)
  {}

  lemma {:induction false} NothingWithin(h: seq<Tick>, avg: int, drift: real, i: nat)
    requires 2 <= |h| && i < |h| && drift <= 0.0
    ensures Layer(h, avg, drift, i).0 == Layer(h, avg, drift, i).1 == 0
  {
    if i > 0 {
      NothingWithin(h, avg, drift, i - 1);
      IntervalCounts(h, avg, drift, i - 1);
      hide Layer;
    }
  }

  /** The average is the mean of what the second layer keeps, if it keeps anything, and else of all
      intervals. */
  lemma AverageOfKept(t: Ticks, drift: real)
    requires SoundTicks(t)
    ensures
      var (r, kept) := (LearnAverage(t, drift), Layer(t.hist, FirstAverage(t.hist), drift, 7));
      && r.tcUsed == kept.1
      && (kept.1 > 0 ==> Abs(kept.1 * r.avg - kept.0) < kept.1)
      && (kept.1 == 0 ==> Abs(7 * r.avg - (t.hist[0].tc - t.hist[7].tc)) < 7)
  {
    var kept := Layer(t.hist, FirstAverage(t.hist), drift, 7);
    FirstAverageIsTheMean(t.hist);
    if kept.1 > 0 {
      QuotientNear(kept.0, kept.1);
    }
    hide Layer, Quotient, FirstAverage;
  }

  /** Ticks at equal intervals: that interval is the average. Of the second layer the first interval does not
      count, since the last one is still in hand when it is looked at. */
  lemma SteadyAverage(t: Ticks, drift: real, interval: int)
    requires SoundTicks(t) && Steady(t.hist, interval) && 0 < interval && drift <= interval as real
    ensures LearnAverage(t, drift) == t.(avg := interval, tcUsed := if 0.0 < drift then 6 else 0)
  {
    SteadySpan(t.hist, interval);
    if 0.0 < drift {
      SteadyLayer(t.hist, interval, drift, SIZE - 1);
    } else {
      NothingWithin(t.hist, interval, drift, SIZE - 1);
    }
    hide Layer, Steady;
  }

  lemma SteadySpan(h: seq<Tick>, interval: int)
    requires |h| == SIZE && Steady(h, interval) && 0 < interval
    ensures FirstAverage(h) == interval
  {
    assert h[0].tc - h[1].tc == h[1].tc - h[2].tc == h[2].tc - h[3].tc == h[3].tc - h[4].tc == interval;
    assert h[4].tc - h[5].tc == h[5].tc - h[6].tc == h[6].tc - h[7].tc == interval;
  }

  // ----- When the tempo is computed

  /** Nothing is computed while a place of the history is empty, and no tempo before sixteen ticks were
      inserted. */
  lemma CalcWaits(s: State, now: int, m: Measured, i: nat)
    requires Sound(s) && i < SIZE
    ensures s.ticks.hist[i].tc == 0 ==> CalcBpm(s, now, m) == s
    ensures s.ticks.insertionCount < 16 ==>
      var r := CalcBpm(s, now, m);
      r.tempo == s.tempo && r.lock == s.lock && r.sliders == s.sliders
  {
    hide LearnAverage;
  }

  /** In between the average is learned and the confidence noted. */
  lemma CalcLearns(s: State, now: int, m: Measured)
    requires Sound(s) && (forall i :: 0 <= i < SIZE ==> s.ticks.hist[i].tc != 0) && s.ticks.insertionCount < 16
    ensures
      var r := CalcBpm(s, now, m);
      && r.ticks == LearnAverage(s.ticks, m.drift) && r.levels.bestConfidence == s.levels.bestConfidence
      && r.levels.confidence == m.confidence
      && r.levels.confidence1 == m.confidence1 && r.levels.confidence2 == m.confidence2
  {
    hide LearnAverage;
  }

  /** From then on every frame reads the tempo off the average. */
  lemma CalcReads(s: State, now: int, m: Measured)
    requires Sound(s) && (forall i :: 0 <= i < SIZE ==> s.ticks.hist[i].tc != 0) && s.ticks.insertionCount == 16
    ensures
      var avg := LearnAverage(s.ticks, m.drift).avg;
      CalcBpm(s, now, m).tempo.lastBpm == if avg != 0 then Quotient(60000, avg) else s.tempo.bpm
  {
    hide LearnAverage, Quotient, RebuiltHistory, MarkCount, Smoothed, NoteConfidence;
  }

  /** Only a reading that changed goes into the ring, and the tempo is the mean of what counts there. */
  lemma ReadingSmoothed(t: Tempo, avg: int)
    requires SoundTempo(t) && avg != 0
    ensures
      var r, reading, entries := NoteTempo(t, avg), Quotient(60000, avg), Positive(NoteTempo(t, avg).smoother);
      && r.smoother == (if reading == t.lastBpm then t.smoother else t.smoother[t.smPtr := reading])
      && r.lastBpm == reading
      && (entries == [] ==> r.bpm == 0)
      && (entries != [] ==> r.bpm * |entries| <= Total(entries) < (r.bpm + 1) * |entries|)
  {
    hide Smoothed, Positive, Total, Quotient;
    SmoothedIsTheMean(NoteTempo(t, avg).smoother);
  }
}
