/**
 * The session clock: a countdown `timeLeft` (seconds), the chosen duration
 * `minutes` and the `isRunning` flag. Each handler or updater of the screen is
 * one atomic transition, first as a function on `ClockState` (the
 * specification, about which the lemmas speak), then as a method of the
 * class `Clock` that updates its fields in place.
 */
module SessionClock {
  import opened TimeFormat
  import opened Modes
  import opened RealArith

  datatype ClockState = ClockState(minutes: int, timeLeft: int, running: bool)

  /** The state on first render: the first preset, full countdown, stopped. */
  function Initial(): (s: ClockState)
    ensures s.minutes == PresetTimes[0] && s.timeLeft == s.minutes * 60 && !s.running
  {
    ClockState(PresetTimes[0], PresetTimes[0] * 60, false)
  }

  /**
   * What every reachable state satisfies: the duration lies between 5 and 90
   * minutes, the countdown is never negative, and a running clock always has
   * time left. The countdown may exceed `minutes * 60`: a shorter preset picked
   * while running leaves it untouched.
   */
  predicate Valid(s: ClockState) {
    && 5 <= s.minutes <= MaxMinutes
    && s.timeLeft >= 0
    && (s.running ==> s.timeLeft > 0)
  }

  /** The interval callback: at one second or less, show 0 and stop in the same step; else count down by one. */
  function AfterTick(s: ClockState): (t: ClockState)
    requires s.running
    ensures t.minutes == s.minutes
    ensures t.timeLeft >= 0
    ensures s.timeLeft >= 1 ==> t.timeLeft == s.timeLeft - 1
    ensures s.timeLeft <= 0 ==> t.timeLeft == 0
    ensures t.running <==> t.timeLeft > 0
  {
    if s.timeLeft <= 1 then ClockState(s.minutes, 0, false)
    else ClockState(s.minutes, s.timeLeft - 1, s.running)
  }

  /** The start/pause toggle: flips `running`; starting an expired session first restores the full countdown. */
  function AfterStartPause(s: ClockState): (t: ClockState)
    ensures t.running == !s.running && t.minutes == s.minutes
    ensures s.running ==> t.timeLeft == s.timeLeft
    ensures !s.running && s.timeLeft > 0 ==> t.timeLeft == s.timeLeft
    ensures !s.running && s.timeLeft <= 0 ==> t.timeLeft == s.minutes * 60
  {
    if !s.running && s.timeLeft <= 0 then ClockState(s.minutes, s.minutes * 60, true)
    else ClockState(s.minutes, s.timeLeft, !s.running)
  }

  /** Reset: stopped, full countdown for the current duration, whatever the state was. */
  function AfterReset(s: ClockState): (t: ClockState)
    ensures !t.running && t.minutes == s.minutes && t.timeLeft == s.minutes * 60
  {
    ClockState(s.minutes, s.minutes * 60, false)
  }

  /**
   * A new duration together with the duration effect that follows it: the
   * countdown snaps to the new duration only when the clock is stopped and the
   * duration really changed; while running it is left as it is.
   */
  function AfterSetMinutes(s: ClockState, m: int): (t: ClockState)
    ensures t.minutes == m && t.running == s.running
    ensures !s.running && m != s.minutes ==> t.timeLeft == m * 60
    ensures s.running || m == s.minutes ==> t.timeLeft == s.timeLeft
  {
    if !s.running && s.minutes != m then ClockState(m, m * 60, s.running)
    else ClockState(m, s.timeLeft, s.running)
  }

  /** `clamp(current + 5, 5, MAX_MINUTES)`. */
  function IncrementedMinutes(current: int): (m: int)
    ensures 5 <= m <= MaxMinutes
    ensures 5 <= current + 5 <= MaxMinutes ==> m == current + 5
    ensures current + 5 > MaxMinutes ==> m == MaxMinutes
    ensures current + 5 < 5 ==> m == 5
  {
    ClampOfIntegers(current + 5, 5, MaxMinutes);
    Clamp((current + 5) as real, 5.0, MaxMinutes as real).Floor
  }

  /** The +5 button: the incremented duration, followed by the duration effect. */
  function AfterIncrement(s: ClockState): (t: ClockState)
    ensures t == AfterSetMinutes(s, IncrementedMinutes(s.minutes))
    ensures 5 <= t.minutes <= MaxMinutes
  {
    AfterSetMinutes(s, IncrementedMinutes(s.minutes))
  }

  /** `Math.max(1, minutes * 60)`: the divisor of the overall progress, never zero. */
  function TotalSeconds(minutes: int): (n: int)
    ensures n >= 1
    ensures minutes >= 1 ==> n == minutes * 60
    ensures minutes * 60 < 1 ==> n == 1
  {
    if minutes * 60 < 1 then 1 else minutes * 60
  }

  /** `clamp(1 - timeLeft / totalSeconds)`: the share of the session already gone. */
  function Progress(s: ClockState): (p: real)
    ensures 0.0 <= p <= 1.0
    ensures s.timeLeft <= 0 ==> p == 1.0
    ensures s.timeLeft >= TotalSeconds(s.minutes) ==> p == 0.0
    ensures 0 <= s.timeLeft <= TotalSeconds(s.minutes) ==>
              p == 1.0 - s.timeLeft as real / TotalSeconds(s.minutes) as real
  {
    var total := TotalSeconds(s.minutes) as real;
    var frac := s.timeLeft as real / total;
    FractionBounds(s.timeLeft as real, total);
    Clamp(1.0 - frac, 0.0, 1.0)
  }

  /** The status line: running, untouched since the last reset or duration change, or paused part way. */
  function StatusText(s: ClockState): (t: string)
    ensures t in {"In Session", "Ready", "Paused"}
    ensures t == "In Session" <==> s.running
    ensures t == "Ready" <==> !s.running && s.timeLeft == s.minutes * 60
  {
    if s.running then "In Session" else if s.timeLeft == s.minutes * 60 then "Ready" else "Paused"
  }

  /** After a reset the screen reads Ready, once started In Session, and paused after a tick Paused. */
  lemma StatusAfterTransitions(s: ClockState)
    requires Valid(s)
    ensures StatusText(AfterReset(s)) == "Ready"
    ensures StatusText(AfterStartPause(AfterReset(s))) == "In Session"
    ensures StatusText(AfterStartPause(AfterTick(AfterStartPause(AfterReset(s))))) == "Paused"
  {
  }

  lemma TransitionsPreserveValid(s: ClockState, m: int)
    requires Valid(s)
    requires 5 <= m <= MaxMinutes
    ensures s.running ==> Valid(AfterTick(s))
    ensures Valid(AfterStartPause(s))
    ensures Valid(AfterReset(s))
    ensures Valid(AfterSetMinutes(s, m))
    ensures Valid(AfterIncrement(s))
  {
  }

  /** Reset is idempotent: twice is the same as once. */
  lemma ResetIdempotent(s: ClockState)
    ensures AfterReset(AfterReset(s)) == AfterReset(s)
  {
  }

  /** Pausing and resuming a session with time left gives back the same state. */
  lemma PauseThenResume(s: ClockState)
    requires s.running && s.timeLeft > 0
    ensures AfterStartPause(AfterStartPause(s)) == s
  {
  }

  /** `n` interval callbacks; once the clock has stopped the interval is cleared and nothing more happens. */
  function Ticks(s: ClockState, n: nat): (t: ClockState)
    ensures t.minutes == s.minutes
    ensures s.timeLeft >= 0 ==> 0 <= t.timeLeft <= s.timeLeft
    ensures Valid(s) ==> Valid(t)
    ensures t.running ==> s.running && t.timeLeft == s.timeLeft - n
    decreases n
  {
    if n == 0 || !s.running then s else Ticks(AfterTick(s), n - 1)
  }

  /**
   * From a running clock with `timeLeft` seconds, `k <= timeLeft` ticks count
   * down by exactly `k`, and the clock stops exactly when it reaches zero.
   */
  lemma {:induction false} TicksCountDown(s: ClockState, k: nat)
    requires s.running && 0 < s.timeLeft && k <= s.timeLeft
    ensures Ticks(s, k).minutes == s.minutes
    ensures Ticks(s, k).timeLeft == s.timeLeft - k
    ensures Ticks(s, k).running <==> k < s.timeLeft
    decreases k
  {
    if k > 0 {
      var t := AfterTick(s);
      if t.running {
        TicksCountDown(t, k - 1);
      } else {
        assert s.timeLeft == 1 && k == 1;
        assert Ticks(s, k) == Ticks(t, 0) == t;
      }
    }
  }

  /** Once expired, further ticks change nothing: the countdown never goes below zero. */
  lemma {:induction false} TicksPastExpiry(s: ClockState, extra: nat)
    requires s.running && s.timeLeft >= 1
    ensures Ticks(s, s.timeLeft + extra) == Ticks(s, s.timeLeft)
    ensures Ticks(s, s.timeLeft + extra).timeLeft == 0
    decreases s.timeLeft
  {
    var t := AfterTick(s);
    if t.running {
      TicksPastExpiry(t, extra);
      assert Ticks(s, s.timeLeft + extra) == Ticks(t, t.timeLeft + extra);
    } else {
      assert Ticks(t, extra) == t;
    }
  }

  /** Ten minutes: 600 ticks from a freshly started session end at zero, stopped, with the progress full. */
  lemma TenMinuteSession()
    ensures Ticks(AfterStartPause(Initial()), 600) == ClockState(10, 0, false)
    ensures Progress(Ticks(AfterStartPause(Initial()), 600)) == 1.0
  {
    TicksCountDown(AfterStartPause(Initial()), 600);
  }

  /**
   * Choosing a shorter preset while running leaves the countdown longer than
   * the new duration; the overall progress then reads 0.
   */
  lemma ShorterPresetWhileRunning()
    ensures var s := AfterSetMinutes(ClockState(30, 1700, true), 10);
            s.timeLeft > s.minutes * 60 && Progress(s) == 0.0
  {
  }

  /** The clock object: the three pieces of screen state that the handlers update. */
  class Clock {
    var minutes: int
    var timeLeft: int
    var isRunning: bool

    function State(): ClockState
      reads this
    {
      ClockState(minutes, timeLeft, isRunning)
    }

    constructor ()
      ensures State() == Initial()
    {
      minutes := PresetTimes[0];
      timeLeft := PresetTimes[0] * 60;
      isRunning := false;
    }

    /** One interval callback; the interval only exists while the clock runs. */
    method Tick()
      requires isRunning
      modifies this
      ensures State() == AfterTick(old(State()))
      ensures timeLeft >= 0 && (isRunning <==> timeLeft > 0)
    {
      if timeLeft <= 1 {
        isRunning := false;
        timeLeft := 0;
      } else {
        timeLeft := timeLeft - 1;
      }
    }

    method StartPause()
      modifies this
      ensures State() == AfterStartPause(old(State()))
      ensures isRunning == !old(isRunning)
    {
      if !isRunning && timeLeft <= 0 {
        timeLeft := minutes * 60;
        isRunning := true;
      } else {
        isRunning := !isRunning;
      }
    }

    method Reset()
      modifies this
      ensures State() == AfterReset(old(State()))
      ensures !isRunning && timeLeft == minutes * 60 && minutes == old(minutes)
    {
      isRunning := false;
      timeLeft := minutes * 60;
    }

    /** A preset chip (`setMinutes(value)`) and the duration effect it sets off. */
    method SetMinutes(m: int)
      modifies this
      ensures State() == AfterSetMinutes(old(State()), m)
      ensures isRunning == old(isRunning) && minutes == m
    {
      var previous := minutes;
      minutes := m;
      if !isRunning && previous != minutes {
        timeLeft := minutes * 60;
      }
    }

    /** The +5 chip and the duration effect it sets off. */
    method Increment()
      modifies this
      ensures State() == AfterIncrement(old(State()))
      ensures 5 <= minutes <= MaxMinutes
    {
      SetMinutes(IncrementedMinutes(minutes));
    }
  }
}
