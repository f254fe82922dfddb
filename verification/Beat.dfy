/** The beat refiner itself: one object whose fields and rings every call updates in place. */
module Beat {
  import opened Arithmetic
  import opened M = BeatMachine

  class VisBeat {
    const hist: array<Tick>
    const smoother: array<int>
    const halfDiscriminated: array<int>
    var smartBeat: bool
    var smartBeatSticky: bool
    var resetOnNewSong: bool
    var onlySticky: bool
    var sticked: bool
    var newSong: bool
    var bpm: int
    var lastBpm: int
    var predictionBpm: int
    var predictionLastTC: int
    var avg: int
    var lastTC: int
    var startTC: int
    var hdPos: int
    var smPtr: int
    var insertionCount: int
    var confidence: int
    var confidence1: int
    var confidence2: int
    var bestConfidence: int
    var topConfidenceCount: int
    var stickyConfidenceCount: int
    var forceNewBeat: bool
    var doResyncBpm: bool
    var halfCount: int
    var doubleCount: int
    var tcUsed: int
    var inSlide: int
    var outSlide: int
    var inInc: int
    var outInc: int

    /** The abstract state: every field, grouped. */
    ghost function Seen(): State
      reads this, hist, smoother, halfDiscriminated
    {
      State(SeenConfig(), SeenTicks(), SeenTempo(), SeenLock(), SeenLevels(), SeenSliders())
    }

    ghost function SeenConfig(): M.Config
      reads `smartBeat, `smartBeatSticky, `resetOnNewSong, `onlySticky
    {
      Config(smartBeat, smartBeatSticky, resetOnNewSong, onlySticky)
    }

    ghost function SeenTicks(): Ticks
      reads `hdPos, `insertionCount, `avg, `lastTC, `startTC, `tcUsed, hist, halfDiscriminated
    {
      Ticks(hist[..], halfDiscriminated[..], hdPos, insertionCount, avg, lastTC, startTC, tcUsed)
    }

    ghost function SeenTempo(): Tempo
      reads `bpm, `lastBpm, `smPtr, `halfCount, `doubleCount, smoother
    {
      Tempo(bpm, lastBpm, smoother[..], smPtr, halfCount, doubleCount)
    }

    ghost function SeenLock(): Lock
      reads `sticked, `predictionBpm, `predictionLastTC, `stickyConfidenceCount, `newSong, `doResyncBpm
    {
      Lock(sticked, predictionBpm, predictionLastTC, stickyConfidenceCount, newSong, doResyncBpm)
    }

    ghost function SeenLevels(): M.Levels
      reads `confidence, `confidence1, `confidence2, `bestConfidence, `topConfidenceCount, `forceNewBeat
    {
      Levels(confidence, confidence1, confidence2, bestConfidence, topConfidenceCount, forceNewBeat)
    }

    ghost function SeenSliders(): M.Sliders
      reads `inSlide, `outSlide, `inInc, `outInc
    {
      Sliders(inSlide, outSlide, inInc, outInc)
    }

    ghost predicate Valid()
      reads this, hist, smoother, halfDiscriminated
    {
      smoother != halfDiscriminated && Sound(Seen())
    }

    constructor (now: int)
      ensures Valid() && fresh(hist) && fresh(smoother) && fresh(halfDiscriminated)
      ensures Seen() == Initial(now)
    {
      hist := new Tick[SIZE](_ => Tick(0, NoKind));
      smoother := new int[SIZE](_ => 0);
      halfDiscriminated := new int[SIZE](_ => 0);
      smartBeat, smartBeatSticky, resetOnNewSong, onlySticky := false, true, true, false;
      sticked, newSong := false, true;
      bpm, lastBpm, predictionBpm, predictionLastTC := 0, 0, 0, 0;
      avg, lastTC, startTC := 0, 0, now;
      hdPos, smPtr, insertionCount := 0, 0, 0;
      confidence, confidence1, confidence2, bestConfidence := 0, 0, 0, 0;
      topConfidenceCount, stickyConfidenceCount := 0, 0;
      forceNewBeat, doResyncBpm := false, false;
      halfCount, doubleCount, tcUsed := 0, 0, 0;
      inSlide, outSlide, inInc, outInc := 0, 0, 1, 1;
      new;
      assert hist[..] == Blank() && smoother[..] == Zeros() && halfDiscriminated[..] == Zeros();
    }

    method SetConfig(smartBeat: bool, smartBeatSticky: bool, resetOnNewSong: bool, onlySticky: bool)
      modifies `smartBeat, `smartBeatSticky, `resetOnNewSong, `onlySticky
      ensures SeenConfig() == Config(smartBeat, smartBeatSticky, resetOnNewSong, onlySticky)
    {
      this.smartBeat, this.smartBeatSticky := smartBeat, smartBeatSticky;
      this.resetOnNewSong, this.onlySticky := resetOnNewSong, onlySticky;
    }

    method ChangeSong()
      modifies `newSong
      ensures SeenLock() == old(SeenLock()).(newSong := true)
    {
      newSong := true;
    }

    /** Forgets everything learned; the lock is released and the predicted tempo is gone. */
    method ResetAdapt(now: int)
      requires Valid()
      modifies this, hist, smoother, halfDiscriminated
      ensures Seen() == M.ResetAdapt(old(Seen()), now) && Valid()
    {
      hide Sound, SeenConfig, SeenTicks, SeenTempo, SeenLock, SeenLevels, SeenSliders;
      SoundParts(Seen());
      ResetTicks(now);
      ResetTempo();
      ResetLock();
      ResetLevels();
    }

    method ResetTicks(now: int)
      requires SoundTicks(SeenTicks())
      modifies `tcUsed, `hdPos, `avg, `insertionCount, `lastTC, hist, halfDiscriminated
      ensures SeenTicks() == M.ResetTicks(old(SeenTicks()), now)
    {
      tcUsed, hdPos, avg, insertionCount, lastTC := 0, 0, 0, 0, now;
      ClearHistory();
      ClearDiscrimination();
    }

    method ResetTempo()
      requires SoundTempo(SeenTempo())
      modifies `bpm, `smPtr, `halfCount, `doubleCount, smoother
      ensures SeenTempo() == M.ResetTempo(old(SeenTempo()))
    {
      bpm, smPtr, halfCount, doubleCount := 0, 0, 0, 0;
      ClearSmoother();
    }

    method ResetLock()
      modifies `predictionLastTC, `predictionBpm, `sticked, `stickyConfidenceCount
      ensures SeenLock() == M.ResetLock(old(SeenLock()))
    {
      predictionLastTC, predictionBpm, sticked, stickyConfidenceCount := 0, 0, false, 0;
    }

    method ResetLevels()
      modifies `confidence, `confidence1, `confidence2, `topConfidenceCount, `bestConfidence
      ensures SeenLevels() == M.ResetLevels(old(SeenLevels()))
    {
      confidence, confidence1, confidence2, topConfidenceCount, bestConfidence := 0, 0, 0, 0, 0;
    }

    method ClearHistory()
      requires hist.Length == SIZE
      modifies hist
      ensures hist[..] == Blank()
    {
      forall i | 0 <= i < SIZE {
        hist[i] := Tick(0, NoKind);
      }
    }

    method ClearSmoother()
      requires smoother.Length == SIZE
      modifies smoother
      ensures smoother[..] == Zeros()
    {
      forall i | 0 <= i < SIZE {
        smoother[i] := 0;
      }
    }

    method ClearDiscrimination()
      requires halfDiscriminated.Length == SIZE
      modifies halfDiscriminated
      ensures halfDiscriminated[..] == Zeros()
    {
      forall i | 0 <= i < SIZE {
        halfDiscriminated[i] := 0;
      }
    }

    method SlideIn()
      requires SoundSliders(SeenSliders())
      modifies `inSlide, `inInc
      ensures SeenSliders() == M.SlideIn(old(SeenSliders()))
    {
      inSlide := inSlide + inInc;
      if inSlide == 0 || inSlide == 8 {
        inInc := -inInc;
      }
    }

    method SlideOut()
      requires SoundSliders(SeenSliders())
      modifies `outSlide, `outInc
      ensures SeenSliders() == M.SlideOut(old(SeenSliders()))
    {
      outSlide := outSlide + outInc;
      if outSlide == 0 || outSlide == 8 {
        outInc := -outInc;
      }
    }

    // ----- The rings and the history

    method NewBpm(thisBpm: int)
      requires SoundRing(SeenTempo())
      modifies `smPtr, smoother
      ensures SeenTempo() == M.NewBpm(old(SeenTempo()), thisBpm)
    {
      smoother[smPtr] := thisBpm;
      smPtr := smPtr + 1;
      smPtr := smPtr % SIZE;
    }

    method GetBpm() returns (r: int)
      requires smoother.Length == SIZE
      ensures r == Smoothed(smoother[..])
    {
      var smN, smSum := 0, 0;
      var i := 0;
      while i < SIZE
        invariant 0 <= i <= SIZE
        invariant smSum == PositiveSum(smoother[..i]) && smN == PositiveCount(smoother[..i])
      {
        assert smoother[..i + 1][..i] == smoother[..i];
        if smoother[i] > 0 {
          smSum := smSum + smoother[i];
          smN := smN + 1;
        }
        i := i + 1;
      }
      assert smoother[..SIZE] == smoother[..];
      r := if smN != 0 then smSum / smN else 0;
    }

    /** Notes all intervals, then lays the older ticks out anew behind the newest. */
    method RebuildHistory(interval: int -> int)
      requires hist.Length == SIZE
      modifies hist
      ensures hist[..] == RebuiltHistory(old(hist[..]), interval)
    {
      hide Rebuilt;
      ghost var was := hist[..];
      var iv := Intervals();
      RebuiltStart(was, interval);
      var i := 1;
      while i < SIZE
        invariant 1 <= i <= SIZE
        invariant iv[..] == Differences(was)
        invariant forall p :: 0 <= p < i ==> hist[p] == RebuiltHistory(was, interval)[p]
        invariant forall p :: i <= p < SIZE ==> hist[p] == was[p]
      {
        RebuiltNext(was, interval, i);
        assert iv[..][i - 1] == was[i - 1].tc - was[i].tc;
        hist[i] := Tick(hist[i - 1].tc - interval(iv[i - 1]), hist[i].kind);
        i := i + 1;
      }
    }

    method Intervals() returns (iv: array<int>)
      requires hist.Length == SIZE
      ensures fresh(iv) && iv[..] == Differences(hist[..])
    {
      iv := new int[SIZE - 1];
      var i := 0;
      while i < SIZE - 1
        invariant 0 <= i <= SIZE - 1
        invariant forall p :: 0 <= p < i ==> iv[p] == hist[p].tc - hist[p + 1].tc
      {
        iv[i] := hist[i].tc - hist[i + 1].tc;
        i := i + 1;
      }
    }

    method DoubleBeat()
      requires Valid()
      modifies this, hist, smoother, halfDiscriminated
      ensures Seen() == M.DoubleBeat(old(Seen())) && Valid()
    {
      hide Sound, M.RebuildTicks, Quotient, Zeros, SeenConfig, SeenLevels, SeenSliders;
      SoundParts(Seen());
      if sticked && bpm > MIN_BPM {
        return;
      }
      RebuildTicks(Halve, Quotient(avg, 2));
      bpm := bpm * 2;
      doubleCount := 0;
      ClearSmoother();
    }

    method HalfBeat()
      requires Valid()
      modifies this, hist, smoother, halfDiscriminated
      ensures Seen() == M.HalfBeat(old(Seen())) && Valid()
    {
      hide Sound, M.RebuildTicks, Zeros, SeenConfig, SeenLevels, SeenSliders;
      SoundParts(Seen());
      if sticked && bpm < MIN_BPM {
        return;
      }
      RebuildTicks(Twice, avg * 2);
      bpm := Quotient(bpm, 2);
      halfCount := 0;
      ClearSmoother();
    }

    method RebuildTicks(interval: int -> int, average: int)
      requires SoundTicks(SeenTicks())
      modifies `avg, hist, halfDiscriminated
      ensures SeenTicks() == M.RebuildTicks(old(SeenTicks()), interval, average)
    {
      RebuildHistory(interval);
      avg := average;
      ClearDiscrimination();
    }

    method ReadyToLearn() returns (ready: bool)
      requires hist.Length == SIZE
      ensures ready <==> LearntFrom(hist[..])
    {
      var i := 0;
      while i < SIZE
        invariant 0 <= i <= SIZE && LearntFrom(hist[..i])
      {
        if hist[i].tc == 0 {
          assert hist[..][i].tc == 0;
          return false;
        }
        i := i + 1;
      }
      assert hist[..SIZE] == hist[..];
      return true;
    }

    method InsertHistStep(tc: int, kind: Kind)
      requires SoundTicks(SeenTicks())
      modifies `insertionCount, hist
      ensures SeenTicks() == M.InsertHistStep(old(SeenTicks()), tc, kind)
    {
      if insertionCount < SIZE * 2 {
        insertionCount := insertionCount + 1;
      }
      ShiftIn(Tick(tc, kind));
    }

    method ShiftIn(tick: Tick)
      requires hist.Length == SIZE
      modifies hist
      ensures hist[..] == [tick] + old(hist[..])[..SIZE - 1]
    {
      forall p | 1 <= p < SIZE {
        hist[p] := hist[p - 1];
      }
      hist[0] := tick;
    }

    method Discriminate(mark: int)
      requires SoundTicks(SeenTicks())
      modifies `hdPos, halfDiscriminated
      ensures SeenTicks() == M.Discriminate(old(SeenTicks()), mark)
    {
      halfDiscriminated[hdPos] := mark;
      hdPos := hdPos + 1;
      hdPos := hdPos % SIZE;
    }

    /** Whether an interval is a fraction of the average, from a half to a seventh. */
    method FindFraction(len: nat) returns (divides: bool)
      ensures divides <==> DividesAverage(avg, len)
    {
      var offI := 2;
      while offI < DIVISORS
        invariant 2 <= offI <= DIVISORS
        invariant forall d :: 2 <= d < offI ==> !NearFraction(avg, len, d)
      {
        if NearFraction(avg, len, offI) {
          return true;
        }
        offI := offI + 1;
      }
      return false;
    }

    method TcHistStep(tc: int, kind: Kind) returns (accepted: bool)
      requires SoundTicks(SeenTicks())
      modifies `hdPos, `lastTC, `insertionCount, hist, halfDiscriminated
      ensures SeenTicks() == M.TcHistStep(old(SeenTicks()), tc, kind)
      ensures accepted <==> Accepts(old(SeenTicks()), tc)
    {
      hide TooSoon, DividesAverage, FitsBetter, LearntFrom;
      var learning := ReadyToLearn();
      var thisLen := tc - lastTC;
      thisLen := if thisLen >= 0 then thisLen else 0;
      if TooSoon(avg, thisLen) {
        if learning && FitsBetter(avg, tc, hist[..]) {
          hist[0] := Tick(tc, kind);
          return true;
        }
        return false;
      }
      if learning {
        var divides := FindFraction(thisLen);
        if divides {
          Discriminate(1);
          return false;
        }
      }
      Discriminate(0);
      lastTC := tc + startTC;
      InsertHistStep(tc, kind);
      return true;
    }

    // ----- The tempo

    method AverageInterval() returns (a: int)
      requires hist.Length == SIZE
      ensures a == FirstAverage(hist[..])
    {
      var totalTC := 0;
      var i := 0;
      while i < SIZE - 1
        invariant 0 <= i <= SIZE - 1 && totalTC == hist[0].tc - hist[i].tc
      {
        totalTC := totalTC + (hist[i].tc - hist[i + 1].tc);
        i := i + 1;
      }
      a := Quotient(totalTC, SIZE - 1);
    }

    /** Adds up the intervals within the typical drift of the average; an interval that falls short is
        carried into the next one, and the first one starts with the last interval still in hand. */
    method SecondLayer(drift: real) returns (total: int, n: nat)
      requires hist.Length == SIZE
      ensures var l := Layer(hist[..], avg, drift, SIZE - 1); total == l.0 && n == l.1
    {
      total, n := 0, 0;
      var v := hist[SIZE - 2].tc - hist[SIZE - 1].tc;
      var i := 0;
      while i < SIZE - 1
        invariant 0 <= i <= SIZE - 1
        invariant Layer(hist[..], avg, drift, i) == (total, n, v)
      {
        v := v + (hist[i].tc - hist[i + 1].tc);
        if Abs(avg - v) as real < drift {
          total := total + v;
          n := n + 1;
          v := 0;
        } else if v > avg {
          v := 0;
        }
        i := i + 1;
      }
    }

    method LearnAverage(drift: real)
      requires SoundTicks(SeenTicks())
      modifies `avg, `tcUsed
      ensures SeenTicks() == M.LearnAverage(old(SeenTicks()), drift)
    {
      hide Layer, Quotient, FirstAverage;
      avg := AverageInterval();
      var totalTC, totalN := SecondLayer(drift);
      tcUsed := totalN;
      if totalN != 0 {
        avg := Quotient(totalTC, totalN);
      }
    }

    method Measure(m: Measured)
      requires Valid()
      modifies `avg, `tcUsed, `confidence, `confidence1, `confidence2
      ensures Seen() == M.Measure(old(Seen()), m) && Valid()
    {
      hide Sound, M.LearnAverage, SeenConfig, SeenTicks, SeenTempo, SeenLock, SeenSliders;
      SoundParts(Seen());
      LearnAverage(m.drift);
      confidence, confidence1, confidence2 := m.confidence, m.confidence1, m.confidence2;
    }

    method NoteConfidence()
      requires SoundLock(SeenLock())
      modifies `stickyConfidenceCount, `sticked
      ensures
        SeenLock() == M.NoteConfidence(old(SeenLock()), SeenConfig().smartBeatSticky, SeenLevels().confidence)
    {
      if smartBeatSticky && predictionBpm != 0 && confidence >= Threshold(predictionBpm) {
        stickyConfidenceCount := stickyConfidenceCount + 1;
        if stickyConfidenceCount >= MIN_STICKY {
          sticked := true;
        }
      } else {
        stickyConfidenceCount := 0;
      }
    }

    method ReadTempo()
      modifies `bpm
      ensures SeenTempo() == old(SeenTempo()).(bpm := Reading(old(SeenTempo()), SeenTicks().avg))
    {
      if avg != 0 {
        bpm := Quotient(60000, avg);
      }
    }

    /** A changed reading goes into the smoothing ring, and counts for or against the lock. */
    method NoteReading()
      requires SoundRing(SeenTempo()) && SoundLock(SeenLock()) && smoother != halfDiscriminated
      modifies `lastBpm, `smPtr, smoother, `stickyConfidenceCount, `sticked
      ensures
        var t, l := old(SeenTempo()), old(SeenLock());
        && SeenTempo() == (if t.bpm == t.lastBpm then t else M.NewBpm(t, t.bpm).(lastBpm := t.bpm))
        && SeenLock() == (if t.bpm == t.lastBpm then l else
             M.NoteConfidence(l, SeenConfig().smartBeatSticky, SeenLevels().confidence))
    {
      hide SeenConfig, SeenLock, SeenLevels, M.NoteConfidence;
      if bpm != lastBpm {
        NewBpm(bpm);
        lastBpm := bpm;
        NoteConfidence();
      }
    }

    method SmoothTempo()
      requires smoother.Length == SIZE
      modifies `bpm
      ensures SeenTempo() == old(SeenTempo()).(bpm := Smoothed(old(SeenTempo()).smoother))
    {
      bpm := GetBpm();
    }

    method Note()
      requires Valid()
      modifies `bpm, `lastBpm, `smPtr, smoother, `stickyConfidenceCount, `sticked
      ensures Seen() == M.Note(old(Seen())) && Valid()
    {
      hide Sound, Smoothed, SeenConfig, SeenTicks, SeenLock, SeenLevels, SeenSliders;
      hide M.NoteConfidence, M.NewBpm, Reading;
      SoundParts(Seen());
      ReadTempo();
      NoteReading();
      SmoothTempo();
    }

    method CountDiscriminated() returns (hdCount: nat)
      requires halfDiscriminated.Length == SIZE
      ensures hdCount == MarkCount(halfDiscriminated[..])
    {
      hdCount := 0;
      var i := 0;
      while i < SIZE
        invariant 0 <= i <= SIZE && hdCount == MarkCount(halfDiscriminated[..i])
      {
        assert halfDiscriminated[..i + 1][..i] == halfDiscriminated[..i];
        if halfDiscriminated[i] != 0 {
          hdCount := hdCount + 1;
        }
        i := i + 1;
      }
      assert halfDiscriminated[..SIZE] == halfDiscriminated[..];
    }

    method DoubleWhenDiscriminated()
      requires Valid()
      modifies this, hist, smoother, halfDiscriminated
      ensures Seen() == M.DoubleWhenDiscriminated(old(Seen())) && Valid()
    {
      hide MarkCount, M.DoubleBeat;
      var hdCount := CountDiscriminated();
      if hdCount >= SIZE / 2 && bpm * 2 < MAX_BPM {
        DoubleBeat();
        ClearDiscrimination();
      }
    }

    method SteerUp()
      requires Valid()
      modifies this, hist, smoother, halfDiscriminated
      ensures Seen() == M.SteerUp(old(Seen())) && Valid()
    {
      hide M.DoubleBeat;
      if bpm < MIN_BPM {
        doubleCount := doubleCount + 1;
        if doubleCount > 4 {
          DoubleBeat();
        }
      } else {
        doubleCount := 0;
      }
    }

    method SteerDown()
      requires Valid()
      modifies this, hist, smoother, halfDiscriminated
      ensures Seen() == M.SteerDown(old(Seen())) && Valid()
    {
      hide M.HalfBeat;
      if bpm > MAX_BPM {
        halfCount := halfCount + 1;
        if halfCount > 4 {
          HalfBeat();
        }
      } else {
        halfCount := 0;
      }
    }

    method CorrectTempo(now: int)
      requires Valid()
      modifies this, hist, smoother, halfDiscriminated
      ensures Seen() == M.CorrectTempo(old(Seen()), now) && Valid()
    {
      hide M.DoubleWhenDiscriminated, M.ResetAdapt, M.SteerUp, M.SteerDown;
      DoubleWhenDiscriminated();
      if bpm > 500 || bpm < 0 {
        ResetAdapt(now);
      }
      SteerUp();
      SteerDown();
    }

    method CalcBpm(now: int, m: Measured)
      requires Valid()
      modifies this, hist, smoother, halfDiscriminated
      ensures Seen() == M.CalcBpm(old(Seen()), now, m) && Valid()
    {
      hide LearntFrom, M.LearnAverage, M.Note, M.CorrectTempo;
      var learning := ReadyToLearn();
      if !learning {
        return;
      }
      Measure(m);
      if insertionCount == 2 * SIZE {
        Note();
        CorrectTempo(now);
      }
    }

    // ----- One frame

    method StartSong(now: int)
      requires Valid()
      modifies this, hist, smoother, halfDiscriminated
      ensures Seen() == M.StartSong(old(Seen()), now) && Valid()
    {
      hide Sound, M.ResetAdapt, M.Release, SeenTicks, SeenTempo, SeenLevels, SeenSliders;
      if newSong {
        Release();
        if resetOnNewSong {
          ResetAdapt(now);
        }
      }
    }

    method Release()
      requires Valid()
      modifies `avg, `newSong, `bestConfidence, `sticked, `stickyConfidenceCount
      ensures Seen() == M.Release(old(Seen())) && Valid()
    {
      hide Sound, Quotient, SeenConfig, SeenTempo, SeenLock, SeenSliders;
      avg := 0;
      bestConfidence := Quotient(bestConfidence, 2);
      ReleaseLock();
    }

    method ReleaseLock()
      modifies `newSong, `sticked, `stickyConfidenceCount
      ensures SeenLock() == old(SeenLock()).(newSong := false, sticked := false, stickyConfidenceCount := 0)
    {
      newSong, sticked, stickyConfidenceCount := false, false, 0;
    }

    method Adopt()
      modifies `forceNewBeat, `topConfidenceCount, `bestConfidence, `predictionBpm
      ensures
        var l, k := old(SeenLock()), old(SeenLevels());
        && SeenLevels() == (if Adoptable(l) then Convince(k) else k)
        && SeenLock() == (if Adoptable(l) && Convinced(k) then l.(predictionBpm := bpm) else l)
    {
      if !sticked && (predictionBpm == 0 || predictionBpm > MAX_BPM || predictionBpm < MIN_BPM) {
        if confidence >= bestConfidence {
          forceNewBeat := true;
        }
        if confidence >= 50 {
          topConfidenceCount := topConfidenceCount + 1;
          if topConfidenceCount == TOP_CONF_ADOPT {
            forceNewBeat := true;
            topConfidenceCount := 0;
          }
        }
        if forceNewBeat {
          forceNewBeat := false;
          bestConfidence := confidence;
          predictionBpm := bpm;
        }
      }
    }

    method Tune(adopt: bool)
      requires Valid()
      modifies `forceNewBeat, `topConfidenceCount, `bestConfidence, `predictionBpm, `bpm
      ensures Seen() == M.Tune(old(Seen()), adopt) && Valid()
    {
      hide Sound, Adoptable, Convince, Convinced, SeenConfig, SeenTicks, SeenLevels, SeenSliders;
      if adopt {
        Adopt();
      }
      if !sticked {
        predictionBpm := bpm;
      }
      bpm := predictionBpm;
    }

    method Resync(now: int, heard: bool) returns (late: bool, early: bool)
      requires Valid()
      modifies this, smoother
      ensures Valid()
      ensures late == IsLate(old(Seen()), now, heard) && early == IsEarly(old(Seen()), now, heard)
      ensures Seen() == M.Resync(old(Seen()), late, early)
    {
      hide Smoothed, Late, Early;
      late, early := false, false;
      if predictionBpm != 0 && heard {
        var b := 0;
        if Late(now, predictionBpm, predictionLastTC) {
          late := true;
          b := Cut(predictionBpm as real * 1.01);
        }
        if Early(now, predictionBpm, predictionLastTC) {
          early := true;
          b := Cut(predictionBpm as real * 0.98);
        }
        if !sticked && doResyncBpm && (late || early) {
          NewBpm(b);
          predictionBpm := GetBpm();
        }
      }
    }

    method MarkBeat(now: int, resync: bool)
      modifies `predictionLastTC, `doResyncBpm
      ensures SeenLock() == old(SeenLock()).(predictionLastTC := now, doResyncBpm := resync)
    {
      predictionLastTC := now;
      doResyncBpm := resync;
    }

    method Guess(now: int)
      requires SoundTicks(SeenTicks())
      modifies `hdPos, `lastTC, `insertionCount, hist, halfDiscriminated
      ensures SeenTicks() == if confidence > 25 then M.TcHistStep(old(SeenTicks()), now, Guessed) else old(SeenTicks())
    {
      if confidence > 25 {
        var accepted := TcHistStep(now, Guessed);
      }
    }

    method StrikePredicted(now: int)
      requires Valid()
      modifies `predictionLastTC, `doResyncBpm, `outSlide, `outInc, `hdPos, `lastTC, `insertionCount, hist,
        halfDiscriminated
      ensures Seen() == M.StrikePredicted(old(Seen()), now) && Valid()
    {
      hide Sound, M.TcHistStep, M.SlideOut, SeenConfig, SeenTicks, SeenTempo, SeenLock, SeenSliders;
      SoundParts(Seen());
      Guess(now);
      SlideOut();
      MarkBeat(now, false);
    }

    method Strike(now: int, isBeat: bool, late: bool, predicted: bool, early: bool) returns (answer: bool)
      requires Valid()
      modifies `predictionLastTC, `doResyncBpm, `outSlide, `outInc, `hdPos, `lastTC, `insertionCount, hist,
        halfDiscriminated
      ensures Seen() == M.Strike(old(Seen()), now, late, predicted, early) && Valid()
      ensures answer == AnswerOf(Seen(), isBeat, late, predicted, early)
    {
      hide Sound, M.StrikePredicted, M.SlideOut, SeenTicks, SeenTempo, SeenSliders;
      SoundParts(Seen());
      if late {
        SlideOut();
        MarkBeat(now, true);
        return if Steering() then true else isBeat;
      }
      if predicted {
        StrikePredicted(now);
        return if Steering() then true else isBeat;
      }
      if early {
        MarkBeat(now, true);
        return if Steering() then false else isBeat;
      }
      return if Steering() && predictionBpm != 0 then false else isBeat;
    }

    predicate Steering()
      reads this
    {
      (smartBeat && !onlySticky) || (smartBeat && onlySticky && sticked)
    }

    method Settle(now: int, isBeat: bool, accepted: bool, predicted: bool) returns (answer: bool)
      requires Valid()
      modifies this, hist, smoother, halfDiscriminated
      ensures (Seen(), answer) == M.Settle(old(Seen()), now, isBeat, accepted, predicted) && Valid()
    {
      hide Sound, M.Tune, M.Resync, M.Strike, IsLate, IsEarly, AnswerOf;
      hide SeenConfig, SeenTicks, SeenTempo, SeenLock, SeenLevels, SeenSliders;
      Tune(accepted || predicted);
      var late, early := Resync(now, accepted && !predicted);
      answer := Strike(now, isBeat, late, predicted, early);
    }

    method Begin(now: int, isBeat: bool)
      requires Valid()
      modifies this, hist, smoother, halfDiscriminated
      ensures Seen() == M.Begin(old(Seen()), now, isBeat) && Valid()
    {
      hide M.SlideIn, M.StartSong;
      if isBeat {
        SlideIn();
      }
      StartSong(now);
    }

    /** One frame of the refiner. */
    method RefineBeat(now: int, isBeat: bool, m: Measured) returns (answer: bool)
      requires Valid()
      modifies this, hist, smoother, halfDiscriminated
      ensures (Seen(), answer) == M.RefineBeat(old(Seen()), now, isBeat, m) && Valid()
    {
      hide Sound, M.Begin, M.TcHistStep, M.CalcBpm, M.Settle, Accepts, SeenConfig, SeenTicks, SeenLevels, SeenSliders;
      Begin(now, isBeat);
      ghost var begun := Seen();
      SoundParts(begun);
      var predicted := bpm != 0 && now > predictionLastTC + 60000 / bpm;
      var accepted := false;
      if isBeat {
        accepted := TcHistStep(now, Real);
      }
      assert Seen() == Take(begun, now, isBeat);
      CalcBpm(now, m);
      answer := Settle(now, isBeat, accepted, predicted);
    }

    /** Any run of inputs on the object is the run of the machine. */
    method Run(inputs: seq<Input>) returns (answers: seq<bool>)
      requires Valid()
      modifies this, hist, smoother, halfDiscriminated
      ensures Seen() == Before(old(Seen()), inputs, |inputs|) && Valid()
      ensures |answers| == |inputs|
      ensures forall k :: 0 <= k < |inputs| ==> answers[k] == Answer(old(Seen()), inputs, k)
    {
      hide Next;
      ghost var s := Seen();
      answers := [];
      for k := 0 to |inputs|
        invariant Valid() && Seen() == Before(s, inputs, k) && |answers| == k
        invariant forall i :: 0 <= i < k ==> answers[i] == Answer(s, inputs, i)
      {
        var answer := Perform(inputs[k]);
        answers := answers + [answer];
      }
    }

    method Perform(input: Input) returns (answer: bool)
      requires Valid()
      modifies this, hist, smoother, halfDiscriminated
      ensures (Seen(), answer) == Next(old(Seen()), input) && Valid()
    {
      hide M.ResetAdapt, M.RefineBeat;
      answer := false;
      match input {
        case SongChange => ChangeSong();
        case Configure(c) => SetConfig(c.smartBeat, c.smartBeatSticky, c.resetOnNewSong, c.onlySticky);
        case Reset(now) => ResetAdapt(now);
        case Frame(now, isBeat, m) => answer := RefineBeat(now, isBeat, m);
      }
    }
  }
}
