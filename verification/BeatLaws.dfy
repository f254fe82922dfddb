/** What a frame of the beat refiner answers and leaves behind, in the frame's own terms: times, tempos and
    numbers. */
module BeatLaws {
  import opened Arithmetic
  import opened BeatMachine

  // ----- The answer

  /** The tempo known before the frame makes a beat due. */
  predicate PeriodPassed(s: State, now: int)
    requires Sound(s)
  {
    && !(s.lock.newSong && s.config.resetOnNewSong)
    && 0 < s.tempo.bpm && now > s.lock.predictionLastTC + 60000 / s.tempo.bpm
  }

  /** More than seven tenths of a period since the last prediction. */
  predicate NearTheEnd(now: int, last: int, tempo: int) {
    0 < tempo && (now - last) as real > (60000 / tempo) as real * 0.7
  }

  /** Less than three tenths. */
  predicate NearTheStart(now: int, last: int, tempo: int) {
    0 < tempo && (now - last) as real < (60000 / tempo) as real * 0.3
  }

  lemma LateAndEarly(now: int, tempo: int, last: int)
    requires 0 < tempo
    ensures Late(now, tempo, last) <==> NearTheEnd(now, last, tempo)
    ensures Early(now, tempo, last) <==> NearTheStart(now, last, tempo)
  {}

  lemma SettleAnswers(s: State, now: int, isBeat: bool, accepted: bool, predicted: bool)
    requires Sound(s) && (accepted ==> isBeat)
    ensures
      var (r, answer) := Settle(s, now, isBeat, accepted, predicted);
      var p, last := r.tempo.bpm, s.lock.predictionLastTC;
      var steers := s.config.smartBeat && (!s.config.onlySticky || s.lock.sticked);
      && p == (if s.lock.sticked then s.lock.predictionBpm else s.tempo.bpm)
      && (isBeat ==>
            (answer <==> (!steers || predicted || p == 0 || (accepted && NearTheEnd(now, last, p)))))
      && (!isBeat ==> answer == (steers && predicted))
      && r.lock.predictionLastTC ==
          (if predicted || (accepted && (NearTheEnd(now, last, p) || NearTheStart(now, last, p))) then now else last)
  {
    hide TcHistStep, Late, Early, Cut, Smoothed, NearTheEnd, NearTheStart, SlideOut, Convince, Convinced;
    var t := Tune(s, accepted || predicted);
    if t.lock.predictionBpm > 0 {
      LateAndEarly(now, t.lock.predictionBpm, s.lock.predictionLastTC);
    } else {
      NoTempo(now, s.lock.predictionLastTC);
    }
  }

  lemma NoTempo(now: int, last: int)
    ensures !NearTheEnd(now, last, 0) && !NearTheStart(now, last, 0)
  {}

  /** What is known of the prediction when the frame settles: the clock is as before unless something was
      reset, and after a reset there is no tempo. */
  lemma BeforeSettling(s: State, now: int, isBeat: bool, m: Measured)
    requires Sound(s)
    ensures
      var a := Begin(s, now, isBeat);
      var c := CalcBpm(Take(a, now, isBeat), now, m);
      && c.config == s.config
      && (Due(a, now) <==> PeriodPassed(s, now))
      && (Resets(s, Frame(now, isBeat, m)) ==>
            !c.lock.sticked && c.tempo.bpm == c.lock.predictionLastTC == 0)
      && (!Resets(s, Frame(now, isBeat, m)) ==> c.lock.predictionLastTC == s.lock.predictionLastTC)
  {
    hide CalcBpm, Begin, LearnAverage, NoteTempo, Reading, RunsAway, LearntFrom, TcHistStep, Accepts;
    var a := Begin(s, now, isBeat);
    BeginLock(s, now, isBeat);
    CalcLock(Take(a, now, isBeat), now, m);
    if s.lock.newSong && s.config.resetOnNewSong {
      BlankIsNotReady(s, now, isBeat, m);
    }
  }

  /** Right after a reset there are too few ticks to compute anything. */
  lemma BlankIsNotReady(s: State, now: int, isBeat: bool, m: Measured)
    requires Sound(s) && s.lock.newSong && s.config.resetOnNewSong
    ensures
      var a := Begin(s, now, isBeat);
      var t := Take(a, now, isBeat);
      && CalcBpm(t, now, m) == t && !ReadyToGuess(t.ticks)
      && t.tempo.bpm == t.lock.predictionLastTC == 0 && !t.lock.sticked
  {
    var a := Begin(s, now, isBeat);
    assert a.ticks.hist == Blank();
    OldestStays(a.ticks, now);
    hide TcHistStep, Quotient;
  }

  lemma OldestStays(t: Ticks, now: int)
    requires SoundTicks(t) && t.hist == Blank()
    ensures TcHistStep(t, now, Real).hist[SIZE - 1].tc == 0
    ensures !LearntFrom(TcHistStep(t, now, Real).hist)
  {
    hide TooSoon, DividesAverage, FitsBetter;
    assert t.hist[SIZE - 2].tc == 0;
  }

  /** The answer to a beat that is heard: it is passed on unless the refiner steers; then exactly when the
      period has passed, when there is no tempo, or when it is accepted near the end of the period. */
  lemma HeardBeat(s: State, now: int, m: Measured)
    requires Sound(s)
    ensures
      var (r, answer) := RefineBeat(s, now, true, m);
      var steers := r.config.smartBeat && (!r.config.onlySticky || r.lock.sticked);
      answer <==>
        (!steers || PeriodPassed(s, now) || r.tempo.bpm == 0
         || (Accepts(Begin(s, now, true).ticks, now)
             && NearTheEnd(now, s.lock.predictionLastTC, r.tempo.bpm)))
  {
    hide CalcBpm, Begin, Settle, Accepts, Take, Resets, Due, PeriodPassed, NearTheEnd, NearTheStart;
    var a := Begin(s, now, true);
    var c := CalcBpm(Take(a, now, true), now, m);
    BeforeSettling(s, now, true, m);
    SettleAnswers(c, now, true, Accepts(a.ticks, now), Due(a, now));
    SettleLock(c, now, true, Accepts(a.ticks, now), Due(a, now));
  }

  /** Under a lock the tempo and the clock are those before the frame. */
  lemma HeardBeatLocked(s: State, now: int, m: Measured)
    requires Sound(s) && s.lock.sticked && KeepsLock(s, Frame(now, true, m)) && s.config.smartBeat
    ensures RefineBeat(s, now, true, m).1 <==>
      (0 < s.tempo.bpm && now > s.lock.predictionLastTC + 60000 / s.tempo.bpm)
      || (Accepts(s.ticks, now)
          && (now - s.lock.predictionLastTC) as real > (60000 / s.lock.predictionBpm) as real * 0.7)
  {
    HeardBeat(s, now, m);
    FrameLock(s, now, true, m);
    BeginLock(s, now, true);
    hide RefineBeat, Begin, Resets, Accepts, TakesLock, Take;
    FrameConfig(s, now, true, m);
  }

  lemma FrameConfig(s: State, now: int, isBeat: bool, m: Measured)
    requires Sound(s)
    ensures RefineBeat(s, now, isBeat, m).0.config == s.config
  {
    hide CalcBpm, Begin, Settle, Accepts, Take, Resets, Due;
    var a := Begin(s, now, isBeat);
    var c := CalcBpm(Take(a, now, isBeat), now, m);
    BeforeSettling(s, now, isBeat, m);
    SettleLock(c, now, isBeat, isBeat && Accepts(a.ticks, now), Due(a, now));
  }

  /** Without a beat heard the refiner answers with one exactly when it steers and the period has passed. */
  lemma SilentFrame(s: State, now: int, m: Measured)
    requires Sound(s)
    ensures
      var (r, answer) := RefineBeat(s, now, false, m);
      answer <==> r.config.smartBeat && (!r.config.onlySticky || r.lock.sticked) && PeriodPassed(s, now)
  {
    hide CalcBpm, Begin, Settle, Accepts, Take, Resets, Due, PeriodPassed;
    var a := Begin(s, now, false);
    var c := CalcBpm(Take(a, now, false), now, m);
    BeforeSettling(s, now, false, m);
    SettleAnswers(c, now, false, false, Due(a, now));
    SettleLock(c, now, false, false, Due(a, now));
  }

  /** The clock of the prediction is set exactly by the period passing, and by a beat accepted near one of
      its ends. */
  lemma ClockSet(s: State, now: int, isBeat: bool, m: Measured)
    requires Sound(s) && !Resets(s, Frame(now, isBeat, m))
    ensures
      var r := RefineBeat(s, now, isBeat, m).0;
      var p, last := r.tempo.bpm, s.lock.predictionLastTC;
      r.lock.predictionLastTC ==
        if PeriodPassed(s, now)
           || (isBeat && Accepts(Begin(s, now, isBeat).ticks, now)
               && (NearTheEnd(now, last, p) || NearTheStart(now, last, p)))
        then now else last
  {
    hide CalcBpm, Begin, Settle, Accepts, Take, Resets, Due, PeriodPassed, NearTheEnd, NearTheStart;
    var a := Begin(s, now, isBeat);
    var c := CalcBpm(Take(a, now, isBeat), now, m);
    BeforeSettling(s, now, isBeat, m);
    SettleAnswers(c, now, isBeat, isBeat && Accepts(a.ticks, now), Due(a, now));
  }

  // ----- The sliders

  lemma SettleSlides(s: State, now: int, isBeat: bool, accepted: bool, predicted: bool)
    requires Sound(s) && (accepted ==> isBeat)
    ensures
      var r := Settle(s, now, isBeat, accepted, predicted).0;
      var p, last := r.tempo.bpm, s.lock.predictionLastTC;
      && r.sliders.inSlide == s.sliders.inSlide
      && r.sliders.outSlide == s.sliders.outSlide
          + (if predicted || (accepted && NearTheEnd(now, last, p)) then s.sliders.outInc else 0)
  {
    hide TcHistStep, Late, Early, Cut, Smoothed, NearTheEnd, NearTheStart, Convince, Convinced;
    var t := Tune(s, accepted || predicted);
    if t.lock.predictionBpm > 0 {
      LateAndEarly(now, t.lock.predictionBpm, s.lock.predictionLastTC);
    } else {
      NoTempo(now, s.lock.predictionLastTC);
    }
  }

  lemma CalcKeepsSliders(s: State, now: int, m: Measured)
    requires Sound(s)
    ensures CalcBpm(s, now, m).sliders == s.sliders
  {
    hide LearnAverage, NoteTempo, Reading, LearntFrom, NoteConfidence, MarkCount, RebuiltHistory, Quotient;
  }

  /** The slider of beats heard moves one step on every beat heard, the slider of beats given out on every
      beat predicted, or accepted near the end of the period. */
  lemma FrameSlides(s: State, now: int, isBeat: bool, m: Measured)
    requires Sound(s) && !Resets(s, Frame(now, isBeat, m))
    ensures
      var r := RefineBeat(s, now, isBeat, m).0;
      var p, last := r.tempo.bpm, s.lock.predictionLastTC;
      && r.sliders.inSlide == s.sliders.inSlide + (if isBeat then s.sliders.inInc else 0)
      && r.sliders.outSlide == s.sliders.outSlide
          + (if PeriodPassed(s, now)
                || (isBeat && Accepts(Begin(s, now, isBeat).ticks, now) && NearTheEnd(now, last, p))
             then s.sliders.outInc else 0)
  {
    BeginSlides(s, now, isBeat);
    hide CalcBpm, Begin, Settle, Accepts, Resets, Due, PeriodPassed, NearTheEnd, TcHistStep;
    var a := Begin(s, now, isBeat);
    var t := Take(a, now, isBeat);
    BeforeSettling(s, now, isBeat, m);
    CalcKeepsSliders(t, now, m);
    SettleSlides(CalcBpm(t, now, m), now, isBeat, isBeat && Accepts(a.ticks, now), Due(a, now));
  }

  lemma BeginSlides(s: State, now: int, isBeat: bool)
    requires Sound(s)
    ensures
      var a := Begin(s, now, isBeat).sliders;
      && a.inSlide == s.sliders.inSlide + (if isBeat then s.sliders.inInc else 0)
      && a.outSlide == s.sliders.outSlide && a.outInc == s.sliders.outInc
  {
    hide Quotient;
  }

  // ----- A song change

  /** A frame that begins with a song change releases the lock; with the setting for it, it forgets tempo and
      ticks as well. */
  lemma SongChangeReleases(s: State, now: int, isBeat: bool)
    requires Sound(s) && s.lock.newSong
    ensures
      var a := Begin(s, now, isBeat);
      && !a.lock.newSong && !a.lock.sticked && a.lock.stickyConfidenceCount == a.ticks.avg == 0
      && (s.config.resetOnNewSong ==>
            a.tempo.bpm == a.lock.predictionBpm == a.lock.predictionLastTC == 0 && a.ticks.lastTC == now
            && a.ticks.insertionCount == 0 && a.ticks.startTC == s.ticks.startTC
            && a.levels == Levels(0, 0, 0, 0, 0, s.levels.forceNewBeat)
            && (forall i :: 0 <= i < SIZE ==> a.ticks.hist[i] == Tick(0, NoKind)))
      && (!s.config.resetOnNewSong ==>
            a.tempo == s.tempo && a.ticks == s.ticks.(avg := 0)
            && Abs(2 * a.levels.bestConfidence - s.levels.bestConfidence) <= 1)
  {}

  /** A reset forgets ticks, tempo, lock and levels; configuration, sliders, the last reading, a pending song
      change and the two flags of the tempo stay. */
  lemma ResetForgets(s: State, now: int)
    requires Sound(s)
    ensures
      var r := ResetAdapt(s, now);
      && r.config == s.config && r.sliders == s.sliders && r.tempo.lastBpm == s.tempo.lastBpm
      && r.lock == Lock(false, 0, 0, 0, s.lock.newSong, s.lock.doResyncBpm)
      && r.levels == Levels(0, 0, 0, 0, 0, s.levels.forceNewBeat)
      && r.ticks.lastTC == now && r.ticks.startTC == s.ticks.startTC
      && r.ticks.avg == r.ticks.insertionCount == r.ticks.hdPos == r.ticks.tcUsed == 0
      && r.tempo.bpm == r.tempo.smPtr == r.tempo.halfCount == r.tempo.doubleCount == 0
      && (forall i :: 0 <= i < SIZE ==> r.ticks.hist[i] == Tick(0, NoKind))
      && (forall i :: 0 <= i < SIZE ==> r.ticks.halfDiscriminated[i] == r.tempo.smoother[i] == 0)
  {}

  // ----- Adoption

  /** A free tempo is taken up at a confidence that is no lower than the best one, on demand, or on the eighth
      confidence of 50 or more; that confidence is then the best one, be it lower. */
  lemma AdoptionByConfidence(s: State)
    requires Sound(s)
    ensures
      var (r, l, p) := (Adopt(s), s.levels, s.lock.predictionBpm);
      var free := !s.lock.sticked && (p == 0 || 170 < p || p < 60);
      var eighth := l.confidence >= 50 && l.topConfidenceCount == 7;
      var taken := free && (l.forceNewBeat || l.confidence >= l.bestConfidence || eighth);
      && r.lock == s.lock.(predictionBpm := if taken then s.tempo.bpm else p)
      && r.levels.bestConfidence == (if taken then l.confidence else l.bestConfidence)
      && r.levels.topConfidenceCount ==
          (if !free || l.confidence < 50 then l.topConfidenceCount
           else if eighth then 0
           else l.topConfidenceCount + 1)
      && r.levels.forceNewBeat == (l.forceNewBeat && !taken)
  {}

  // ----- Guesses

  /** A predicted beat goes into the history as a guess, from a confidence of 26 on; the end of a frame does
      nothing else to the ticks. A beat accepted near an end of the period switches the nudging on, a
      predicted one off. */
  lemma SettleGuesses(s: State, now: int, isBeat: bool, accepted: bool, predicted: bool)
    requires Sound(s)
    ensures
      var r := Settle(s, now, isBeat, accepted, predicted).0;
      var p, last := r.tempo.bpm, s.lock.predictionLastTC;
      && r.ticks == (if predicted && s.levels.confidence > 25 then TcHistStep(s.ticks, now, Guessed) else s.ticks)
      && r.lock.doResyncBpm ==
          (if predicted then false
           else s.lock.doResyncBpm || (accepted && (NearTheEnd(now, last, p) || NearTheStart(now, last, p))))
  {
    hide TcHistStep, Late, Early, Cut, Smoothed, NearTheEnd, NearTheStart, SlideOut, Convinced;
    var t := Tune(s, accepted || predicted);
    if t.lock.predictionBpm > 0 {
      LateAndEarly(now, t.lock.predictionBpm, s.lock.predictionLastTC);
    } else {
      NoTempo(now, s.lock.predictionLastTC);
    }
  }

  lemma CalcKeepsNewest(s: State, now: int, m: Measured)
    requires Sound(s) && !(ReadyToGuess(s.ticks) && RunsAway(Note(Measure(s, m))))
    ensures CalcBpm(s, now, m).ticks.hist[0] == s.ticks.hist[0]
    ensures CalcBpm(s, now, m).ticks.lastTC == s.ticks.lastTC
    ensures ReadyToGuess(s.ticks) ==> CalcBpm(s, now, m).levels.confidence == m.confidence
  {
    hide LearnAverage, NoteTempo, Reading, NoteConfidence, MarkCount, Quotient, LearntFrom;
  }

  /** A beat that is accepted while none is due is the newest tick after the frame, as a real one. Nothing
      else changes the newest tick in a frame without a beat due. */
  lemma NewestTick(s: State, now: int, isBeat: bool, m: Measured)
    requires Sound(s) && !Resets(s, Frame(now, isBeat, m)) && !PeriodPassed(s, now)
    ensures
      RefineBeat(s, now, isBeat, m).0.ticks.hist[0] ==
        if isBeat && Accepts(Begin(s, now, isBeat).ticks, now) then Tick(now, Real) else s.ticks.hist[0]
  {
    hide CalcBpm, Settle, Resets, Due, PeriodPassed, Abs, Quotient;
    var a := Begin(s, now, isBeat);
    var t := Take(a, now, isBeat);
    BeforeSettling(s, now, isBeat, m);
    NoReset(s, now, isBeat, m);
    CalcKeepsNewest(t, now, m);
    SettleGuesses(CalcBpm(t, now, m), now, isBeat, isBeat && Accepts(a.ticks, now), Due(a, now));
    hide TooSoon, LearntFrom, DividesAverage, FitsBetter;
  }

  lemma NoReset(s: State, now: int, isBeat: bool, m: Measured)
    requires Sound(s) && !Resets(s, Frame(now, isBeat, m))
    ensures
      var t := Take(Begin(s, now, isBeat), now, isBeat);
      !(ReadyToGuess(t.ticks) && RunsAway(Note(Measure(t, m)))) && !(s.lock.newSong && s.config.resetOnNewSong)
  {
    hide Begin, Take, RunsAway, Note, Measure, ReadyToGuess;
  }
}
