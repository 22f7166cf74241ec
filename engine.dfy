/**
 * The session screen as a whole: the clock, the selected mode and the phase
 * detector. Each user action or tick is one transition of the clock, followed
 * by one run of the phase-index effect on the new state.
 */
module Engine {
  import opened Modes
  import opened SessionClock
  import opened CycleMapper
  import opened TransitionDetector

  /** `cycleProgress` on a clock state, for the ratios of the selected mode. */
  function SessionCycleProgress(s: ClockState, mode: string): (p: real)
    ensures CycleUnitTotal(ActiveRatios(mode)) <= 0.0 ==> p == 0.0
    ensures CycleUnitTotal(ActiveRatios(mode)) > 0.0 ==> 0.0 <= p < 1.0
    ensures CycleUnitTotal(ActiveRatios(mode)) > 0.0 ==>
      var q := ElapsedTotal(s.minutes, s.timeLeft) as real / CycleUnitTotal(ActiveRatios(mode));
      (q - p).Floor as real == q - p
  {
    CycleProgress(CycleUnitTotal(ActiveRatios(mode)), ElapsedTotal(s.minutes, s.timeLeft))
  }

  /** Every catalogued mode has a cycle of positive length, so its phase is always found. */
  lemma CatalogueCyclesPositive(mode: string)
    requires IsModeValue(mode)
    ensures CycleUnitTotal(ActiveRatios(mode)) > 0.0
  {
    CatalogueWellFormed();
    var ratios := ActiveRatios(mode);
    var i :| 0 <= i < |ModeOptions| && ModeOptions[i].value == mode && ModeOptions[i].ratios == ratios;
    assert ratios[0] > 0.0;
    CycleUnitTotalPositive(ratios);
  }

  /** After `k` ticks of a freshly started session, `k` seconds have elapsed. */
  lemma ElapsedAfterTicks(k: nat)
    requires k <= 600
    ensures var s := Ticks(AfterStartPause(Initial()), k);
      ElapsedTotal(s.minutes, s.timeLeft) == k
  {
    TicksCountDown(AfterStartPause(Initial()), k);
  }

  /** Positions reached through the ticks of the balanced pattern: phases 0, 1, 2, then 0 at the next cycle. */
  lemma BalancedSessionPhases()
    ensures ActiveRatios("balanced-448") == [4.0, 4.0, 8.0]
    ensures ActivePhase([4.0, 4.0, 8.0], SessionCycleProgress(Ticks(AfterStartPause(Initial()), 0), "balanced-448")) == 0
    ensures ActivePhase([4.0, 4.0, 8.0], SessionCycleProgress(Ticks(AfterStartPause(Initial()), 4), "balanced-448")) == 1
    ensures ActivePhase([4.0, 4.0, 8.0], SessionCycleProgress(Ticks(AfterStartPause(Initial()), 8), "balanced-448")) == 2
    ensures ActivePhase([4.0, 4.0, 8.0], SessionCycleProgress(Ticks(AfterStartPause(Initial()), 16), "balanced-448")) == 0
  {
    assert ActiveRatios("balanced-448") == [4.0, 4.0, 8.0];
    ElapsedAfterTicks(0);
    ElapsedAfterTicks(4);
    ElapsedAfterTicks(8);
    ElapsedAfterTicks(16);
    BalancedPatternScenario();
  }

  /** The screen: the clock, the detector and the selected mode. */
  class Session {
    const clock: Clock
    const detector: Detector
    var mode: string

    /** The state between transitions: a valid clock and a catalogued mode. */
    predicate Valid()
      reads this, clock
    {
      SessionClock.Valid(clock.State()) && IsModeValue(mode)
    }

    constructor ()
      ensures Valid()
      ensures clock.State() == Initial() && mode == DefaultMode && detector.last == None && detector.tones == []
      ensures fresh(clock) && fresh(detector)
    {
      clock := new Clock();
      detector := new Detector();
      mode := DefaultMode;
    }

    /** The effect after every transition, on the current clock state and mode. */
    method RunPhaseEffect() returns (cue: Cue)
      modifies detector
      ensures Outcome(detector.last, cue)
              == PhaseEffect(old(detector.last), clock.isRunning, ActiveRatios(mode), SessionCycleProgress(clock.State(), mode))
      ensures detector.tones == old(detector.tones) + ToneOf(cue)
    {
      var ratios := ActiveRatios(mode);
      cue := detector.Update(clock.isRunning, ratios, SessionCycleProgress(clock.State(), mode));
    }

    /**
     * Choosing a mode from the select: a different mode brings other ratios,
     * whose effect forgets the remembered phase before the phase effect runs.
     */
    method SelectMode(value: string) returns (cue: Cue)
      requires Valid() && IsModeValue(value)
      modifies this, detector
      ensures Valid() && mode == value && clock.State() == old(clock.State())
      ensures Outcome(detector.last, cue)
              == PhaseEffect(if old(mode) != value then None else old(detector.last), clock.isRunning,
                             ActiveRatios(value), SessionCycleProgress(clock.State(), value))
      ensures detector.tones == old(detector.tones) + ToneOf(cue)
      ensures old(mode) != value && clock.isRunning ==> cue == PlayTone(ActivePhase(ActiveRatios(value), SessionCycleProgress(clock.State(), value)))
      ensures !clock.isRunning ==> cue == ResetAudio && detector.last == None
    {
      if mode != value {
        mode := value;
        detector.PatternChanged();
      }
      CatalogueCyclesPositive(mode);
      cue := RunPhaseEffect();
    }

    /** One second of a running session. */
    method Tick() returns (cue: Cue)
      requires Valid() && clock.isRunning
      modifies clock, detector
      ensures Valid() && clock.State() == AfterTick(old(clock.State()))
      ensures Outcome(detector.last, cue)
              == PhaseEffect(old(detector.last), clock.isRunning, ActiveRatios(mode), SessionCycleProgress(clock.State(), mode))
      ensures detector.tones == old(detector.tones) + ToneOf(cue)
    {
      clock.Tick();
      cue := RunPhaseEffect();
    }

    method StartPause() returns (cue: Cue)
      requires Valid()
      modifies clock, detector
      ensures Valid() && clock.State() == AfterStartPause(old(clock.State()))
      ensures Outcome(detector.last, cue)
              == PhaseEffect(old(detector.last), clock.isRunning, ActiveRatios(mode), SessionCycleProgress(clock.State(), mode))
      ensures !clock.isRunning ==> cue == ResetAudio
      ensures detector.tones == old(detector.tones) + ToneOf(cue)
    {
      clock.StartPause();
      cue := RunPhaseEffect();
    }

    method Reset() returns (cue: Cue)
      requires Valid()
      modifies clock, detector
      ensures Valid() && clock.State() == AfterReset(old(clock.State()))
      ensures cue == ResetAudio && detector.last == None && detector.tones == old(detector.tones)
    {
      clock.Reset();
      cue := RunPhaseEffect();
    }

    method SetMinutes(m: int) returns (cue: Cue)
      requires Valid() && 5 <= m <= MaxMinutes
      modifies clock, detector
      ensures Valid() && clock.State() == AfterSetMinutes(old(clock.State()), m)
      ensures Outcome(detector.last, cue)
              == PhaseEffect(old(detector.last), clock.isRunning, ActiveRatios(mode), SessionCycleProgress(clock.State(), mode))
      ensures detector.tones == old(detector.tones) + ToneOf(cue)
    {
      clock.SetMinutes(m);
      cue := RunPhaseEffect();
    }

    method Increment() returns (cue: Cue)
      requires Valid()
      modifies clock, detector
      ensures Valid() && clock.State() == AfterIncrement(old(clock.State()))
      ensures Outcome(detector.last, cue)
              == PhaseEffect(old(detector.last), clock.isRunning, ActiveRatios(mode), SessionCycleProgress(clock.State(), mode))
      ensures detector.tones == old(detector.tones) + ToneOf(cue)
    {
      clock.Increment();
      cue := RunPhaseEffect();
    }
  }
}
