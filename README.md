# BreatheMind breathing-session engine, modelled in Dafny

BreatheMind is a guided-breathing screen. The user picks a breathing mode (a
pattern of phase ratios such as 4-4-8) and a session length in minutes, then
starts a countdown. While the countdown runs, the screen shows:

- the remaining time as `MM:SS`;
- the overall progress of the session;
- the position inside the current breathing cycle, on a ring split into one
  coloured arc per phase.

Each time the active phase changes, the screen asks the audio layer for one
tone.

This project models the engine behind that screen, and proves what it
promises:

- `TimeFormat`: `clamp` and `formatTime`. The `MM:SS` text reads back as the
  floored and clamped number of seconds.
- `Modes`: the catalogue of breathing modes, the preset durations and the
  lookup of the selected mode.
- `SessionClock`: the countdown state (`minutes`, `timeLeft`, `isRunning`).
  Each handler is first a pure transition on `ClockState`; the lemmas speak
  about these. The same transitions then appear as the methods of the class
  `Clock`, which updates its fields in place. This module also has the
  overall progress and the status line.
- `CycleMapper`: the cycle length (the sum of the positive ratios), the
  elapsed time, the position in the cycle and the active phase index. The
  index is computed by the cumulative-boundary loop and the `findIndex`
  search, written as methods.
- `TransitionDetector`: the edge-triggered phase effect. `phaseIndexRef` is
  the field `last`. A tone request is a returned `Cue`, and a ghost log
  records every tone asked for.
- `PhaseSegments`: the segment layout of the phase ring (the filter, the
  total and the cursor loop), plus the per-segment fill.
- `Engine`: the screen as a whole. It owns a `Clock` and a `Detector` and
  holds the selected mode. Every action is followed by one run of the phase
  effect.
- `RealArith`: division facts that the other modules share.

All numbers are exact: ratios, shares and boundaries are Dafny `real`, and
seconds are integers. For `elapsedTotal`, which is never negative,
JavaScript's `elapsedTotal % cycleLength` is the dividend less the largest
whole number of cycles it holds. `CycleProgress` computes that share of the
cycle directly. `CycleMapper.CycleProgressIsRemainder` proves that it equals
the remainder divided by the cycle length.

A reader might expect the remaining time to lie always between 0 and the
session length. The code does not keep that invariant. It snaps the countdown
to a new duration only while the clock is stopped. So choosing a shorter
preset while running leaves `timeLeft` above `minutes * 60`. The overall
progress then reads 0, and so does the elapsed time that drives the breathing
cycle, until the countdown falls below the new length. The model follows the
code. `SessionClock.Valid` therefore states only that the duration lies in
[5, 90], that the countdown is never negative, and that a running clock has
time left. `SessionClock.ShorterPresetWhileRunning` exhibits the case.

## Model

| member | source | states |
|---|---|---|
| `TimeFormat.Clamp` | mindfulness_app/src/App.tsx:93 | the result lies in [lo, hi] when lo <= hi; a value inside is kept; lo when the value is at or below lo, hi when at or above hi; lo when hi < lo |
| `TimeFormat.ClampOfIntegers` | mindfulness_app/src/App.tsx:164 | clamping whole numbers between whole bounds gives a whole number |
| `TimeFormat.SafeSeconds` | mindfulness_app/src/App.tsx:85 | 0 for a negative input, otherwise the largest whole number of seconds not above it |
| `TimeFormat.NatToString` | mindfulness_app/src/App.tsx:86-89 | at least one character, all decimal digits, no leading zero; one digit exactly below 10, two from 10 to 99 |
| `TimeFormat.NatToStringValue` | mindfulness_app/src/App.tsx:86-89 | the digits read back as the number printed |
| `TimeFormat.PadStart` | mindfulness_app/src/App.tsx:86-89 | the padded length is max of the length and the width; the original string is the suffix; everything before it is the fill |
| `TimeFormat.LeadingZerosValue` | mindfulness_app/src/App.tsx:86-89 | leading zeros keep a digit string's value |
| `TimeFormat.PaddedValue` | mindfulness_app/src/App.tsx:86-89 | zero padding keeps a digit string's value |
| `TimeFormat.Render` | mindfulness_app/src/App.tsx:90 | the padded minutes, a colon and the padded seconds, never shorter than five characters; `RenderReadsBack` and `RenderFiveCharacters` pin its fields |
| `TimeFormat.RenderReadsBack` | mindfulness_app/src/App.tsx:86-90 | the `MM:SS` text of m and s < 60 has the clock shape, its fields read back as m and s, and the minutes field is two digits or starts with a non-zero digit |
| `TimeFormat.FormatTime` | mindfulness_app/src/App.tsx:84-91 | the result has at least two minute digits, a colon and two second digits; the seconds field is below 60; minutes * 60 + seconds is the floored, clamped input; the minutes field is exactly two digits or has no leading zero, so the text is fixed exactly |
| `TimeFormat.PadTwoDigits` | mindfulness_app/src/App.tsx:87-88 | a number below 100, padded to two digits, is its tens digit followed by its units digit |
| `TimeFormat.RenderFiveCharacters` | mindfulness_app/src/App.tsx:90 | with fewer than 100 minutes and seconds below 60 the text is exactly the two minute digits, a colon and the two second digits |
| `TimeFormat.FormatTimeTenMinutes` | mindfulness_app/src/App.tsx:84-91 | 600 seconds render as "10:00" |
| `TimeFormat.FormatTimeNegative` | mindfulness_app/src/App.tsx:84-91 | a negative input renders as "00:00" |
| `TimeFormat.FormatTimeFloors` | mindfulness_app/src/App.tsx:84-91 | 59.9 seconds render as "00:59", never rounded up |
| `Modes.FindMode` | mindfulness_app/src/App.tsx:138 | a found mode is in the catalogue and has the value asked for; nothing is found exactly when no catalogued mode has that value |
| `Modes.FindModeFrom` | mindfulness_app/src/App.tsx:138 | the same search from a given position of the catalogue |
| `Modes.ActiveRatios` | mindfulness_app/src/App.tsx:140 | no ratios for an unknown mode; otherwise the ratios of the catalogued mode with that value |
| `Modes.ActivePattern` | mindfulness_app/src/App.tsx:139 | the empty label for an unknown mode; otherwise the pattern label of the catalogued mode with that value |
| `Modes.CatalogueWellFormed` | mindfulness_app/src/App.tsx:35-79 | mode values are distinct; each mode has at least one phase, positive ratios, and one guide phase per ratio with the same count |
| `Modes.PresetsInRange` | mindfulness_app/src/App.tsx:81-82 | every preset is a multiple of 5 within [5, 90] |
| `SessionClock.Initial` | mindfulness_app/src/App.tsx:97-99 | the first preset, the full countdown for it, stopped |
| `SessionClock.AfterTick` | mindfulness_app/src/App.tsx:122-129 | the duration is unchanged; at one second or less the countdown shows 0 and the clock stops in the same step; otherwise it drops by exactly 1; the countdown is never negative and the clock runs exactly while time is left |
| `SessionClock.AfterStartPause` | mindfulness_app/src/App.tsx:172-180 | `running` flips; pausing and resuming keep the countdown; starting an expired session restores `minutes * 60` |
| `SessionClock.AfterReset` | mindfulness_app/src/App.tsx:167-170 | stopped with the full countdown, whatever the state was |
| `SessionClock.AfterSetMinutes` | mindfulness_app/src/App.tsx:109-114 | the new duration is taken; the countdown snaps to it only when stopped and the duration really changed, and is left as it is otherwise |
| `SessionClock.IncrementedMinutes` | mindfulness_app/src/App.tsx:163-165 | `clamp(current + 5, 5, 90)`: always within [5, 90], current + 5 when that fits, 90 above, 5 below |
| `SessionClock.AfterIncrement` | mindfulness_app/src/App.tsx:163-165 | the +5 button is a duration change to the incremented value, which stays within [5, 90] |
| `SessionClock.TotalSeconds` | mindfulness_app/src/App.tsx:135 | never below 1; `minutes * 60` for a positive duration; 1 when `minutes * 60` is below 1 |
| `SessionClock.Progress` | mindfulness_app/src/App.tsx:136 | always in [0, 1]; 1 when no time is left; 0 when the countdown is at or above the total; `1 - timeLeft / total` in between |
| `SessionClock.StatusText` | mindfulness_app/src/App.tsx:141 | one of three labels: "In Session" exactly while running, "Ready" exactly when stopped with the full countdown, "Paused" otherwise |
| `SessionClock.StatusAfterTransitions` | mindfulness_app/src/App.tsx:141 | after a reset the label is "Ready"; after starting, "In Session"; after one tick and a pause, "Paused" |
| `SessionClock.TransitionsPreserveValid` | mindfulness_app/src/App.tsx:109-180 | every handler keeps the duration within [5, 90], the countdown non-negative and a running clock with time left |
| `SessionClock.ResetIdempotent` | mindfulness_app/src/App.tsx:167-170 | resetting twice is the same as resetting once |
| `SessionClock.PauseThenResume` | mindfulness_app/src/App.tsx:172-180 | pausing and resuming a running session gives back the same state |
| `SessionClock.Ticks` | mindfulness_app/src/App.tsx:121-130 | successive interval callbacks until the clock stops: the duration is unchanged; a non-negative countdown never grows or goes below 0; validity is kept; a clock still running after n ticks has counted down by exactly n |
| `SessionClock.TicksCountDown` | mindfulness_app/src/App.tsx:122-129 | k ticks of a running clock with at least k seconds left count down by exactly k and stop exactly when reaching 0 |
| `SessionClock.TicksPastExpiry` | mindfulness_app/src/App.tsx:122-129 | once the countdown has reached 0, further ticks change nothing |
| `SessionClock.TenMinuteSession` | mindfulness_app/src/App.tsx:122-136 | 600 ticks from a freshly started ten-minute session end at 0, stopped, with the progress at 1 |
| `SessionClock.ShorterPresetWhileRunning` | mindfulness_app/src/App.tsx:109-114 | choosing 10 minutes while running with 1700 seconds left keeps the countdown above `minutes * 60`, and the progress reads 0 |
| `SessionClock.Clock.constructor` | mindfulness_app/src/App.tsx:97-99 | the clock starts in the initial state |
| `SessionClock.Clock.Tick` | mindfulness_app/src/App.tsx:122-129 | the fields become the tick transition of the old state; the countdown is non-negative and the clock runs exactly while time is left |
| `SessionClock.Clock.StartPause` | mindfulness_app/src/App.tsx:172-180 | the fields become the start/pause transition of the old state |
| `SessionClock.Clock.Reset` | mindfulness_app/src/App.tsx:167-170 | the fields become the reset of the old state: stopped, full countdown, same duration |
| `SessionClock.Clock.SetMinutes` | mindfulness_app/src/App.tsx:109-114 | the fields become the duration change of the old state |
| `SessionClock.Clock.Increment` | mindfulness_app/src/App.tsx:163-165 | the fields become the +5 transition of the old state; the duration stays within [5, 90] |
| `CycleMapper.Positive` | mindfulness_app/src/App.tsx:208 | a ratio's share is never negative, is positive exactly for a positive ratio, and then equals it |
| `CycleMapper.CycleUnitTotal` | mindfulness_app/src/App.tsx:143-146 | the cycle length is never negative |
| `CycleMapper.CycleUnitTotalPositive` | mindfulness_app/src/App.tsx:143-146 | the cycle length is positive exactly when some ratio is positive |
| `CycleMapper.PrefixTotalStep` | mindfulness_app/src/App.tsx:211-213 | the running sum grows by the next ratio's share |
| `CycleMapper.PrefixTotalMonotone` | mindfulness_app/src/App.tsx:211-213 | the running sums never decrease |
| `CycleMapper.ElapsedTotal` | mindfulness_app/src/App.tsx:148 | never negative; with the countdown at or below the total, elapsed plus remaining is the total; 0 when the countdown is at or above it |
| `CycleMapper.Fraction` | mindfulness_app/src/App.tsx:155-156 | the fractional part lies in [0, 1) and leaves a whole number |
| `CycleMapper.CycleProgress` | mindfulness_app/src/App.tsx:150-157 | 0 when the cycle length is not positive; otherwise in [0, 1), and the elapsed time is a whole number of cycles plus that share of one |
| `CycleMapper.CycleProgressIsRemainder` | mindfulness_app/src/App.tsx:155-156 | the share times the cycle length is `elapsedTotal % cycleLength` for a non-negative dividend |
| `CycleMapper.FractionShift` | mindfulness_app/src/App.tsx:155 | adding a whole number does not change the fractional part |
| `CycleMapper.CycleProgressPeriodic` | mindfulness_app/src/App.tsx:155-156 | adding whole cycles to the elapsed time leaves the cycle position unchanged |
| `CycleMapper.Boundary` | mindfulness_app/src/App.tsx:211-213 | the running sum after k phases over the cycle length (`acc / total`), always in [0, 1] |
| `CycleMapper.PhaseEnd` | mindfulness_app/src/App.tsx:211-213 | the entry pushed for phase k: at least phase k's start boundary and at most 1 |
| `CycleMapper.BoundaryEnds` | mindfulness_app/src/App.tsx:209-214 | the cumulative boundaries start at 0 and the last is exactly 1 |
| `CycleMapper.BoundaryStep` | mindfulness_app/src/App.tsx:211-213 | phase k's end boundary is its start boundary plus its share of the cycle |
| `CycleMapper.BoundaryMonotone` | mindfulness_app/src/App.tsx:209-214 | the boundaries never decrease |
| `CycleMapper.ActivePhaseFrom` | mindfulness_app/src/App.tsx:216-217 | the index is in range; every earlier phase ends at or before the position; the chosen phase, unless it is the last, ends beyond it |
| `CycleMapper.ActivePhase` | mindfulness_app/src/App.tsx:216-217 | the first phase whose end boundary lies beyond the position, or the last phase |
| `CycleMapper.ActivePhaseBetween` | mindfulness_app/src/App.tsx:216-217 | for a position in [0, 1) the chosen phase's boundaries enclose it |
| `CycleMapper.ContainingPhasePositive` | mindfulness_app/src/App.tsx:208-213 | a phase that contains a position has a positive ratio |
| `CycleMapper.ActivePhaseContains` | mindfulness_app/src/App.tsx:207-217 | for a position in [0, 1) the chosen phase contains it and has a positive ratio, so the `-1` fallback is never needed |
| `CycleMapper.ActivePhaseFromUnique` | mindfulness_app/src/App.tsx:216-217 | any index past every earlier boundary and stopping at the first beyond the position, or at the last phase, is the active phase |
| `CycleMapper.BuildCumulative` | mindfulness_app/src/App.tsx:208-214 | one boundary per ratio: boundary k is the share of the cycle taken by the first k + 1 ratios |
| `CycleMapper.FindFirstBeyond` | mindfulness_app/src/App.tsx:216 | the first index whose boundary lies beyond the position, or -1 when none does |
| `CycleMapper.PhaseIndex` | mindfulness_app/src/App.tsx:207-217 | the result is the active phase and in range; for a position in [0, 1) its ratio is positive and its boundaries enclose the position |
| `CycleMapper.BalancedPatternScenario` | mindfulness_app/src/App.tsx:150-217 | for 4-4-8 the cycle is 16; elapsed 0, 4, 8 and 16 select phases 0, 1, 2 and 0 |
| `TransitionDetector.Enters` | mindfulness_app/src/App.tsx:219 | a phase is entered exactly when the memory is empty or holds another index |
| `TransitionDetector.PhaseEffect` | mindfulness_app/src/App.tsx:198-223 | stopped: forget the phase and reset the audio; no cycle: nothing; otherwise remember the phase the boundary search finds (`ActivePhase` of the ratios and the cycle position, in range), and ask for that phase's tone exactly when it differs from the remembered one |
| `TransitionDetector.ToneOf` | mindfulness_app/src/App.tsx:220 | a request carries at most one tone, one exactly when it is a tone request, and that tone is the requested phase |
| `TransitionDetector.PhaseEffectTone` | mindfulness_app/src/App.tsx:216-222 | while running, the memory becomes the active phase and a tone is asked for exactly when that phase was not the remembered one |
| `TransitionDetector.StopThenRunEmits` | mindfulness_app/src/App.tsx:199-203 | stopping forgets the phase and resets the audio, so the next running step always announces its phase |
| `TransitionDetector.HoldingEmitsNothing` | mindfulness_app/src/App.tsx:219-222 | a second run in the same phase asks for nothing and keeps the memory |
| `TransitionDetector.TonesAppend` | mindfulness_app/src/App.tsx:219-222 | one more observed index adds a tone exactly when it differs from the memory |
| `TransitionDetector.ToneCount` | mindfulness_app/src/App.tsx:219-222 | from a cleared memory, the tones are one for the first phase plus one per phase change |
| `TransitionDetector.TonesDistinctNeighbours` | mindfulness_app/src/App.tsx:219-222 | no two consecutive tones are for the same phase, and the first differs from the memory |
| `TransitionDetector.TonesWithin` | mindfulness_app/src/App.tsx:219-222 | never more tones than observations, and every tone is for an observed phase |
| `TransitionDetector.TonesHold` | mindfulness_app/src/App.tsx:219-222 | staying in the remembered phase, however long, announces nothing |
| `TransitionDetector.Phases` | mindfulness_app/src/App.tsx:216-217 | the active phase at each position, each in range |
| `TransitionDetector.RunningTones` | mindfulness_app/src/App.tsx:198-223 | the tones asked for by successive runs of the effect while the session runs through a sequence of cycle positions: at most one per run, each a phase of the pattern |
| `TransitionDetector.RunningTonesAreChanges` | mindfulness_app/src/App.tsx:198-223 | running the effect step by step asks for exactly the tones of the phase changes |
| `TransitionDetector.Detector.constructor` | mindfulness_app/src/App.tsx:105 | the memory starts empty and no tone has been asked for |
| `TransitionDetector.Detector.PatternChanged` | mindfulness_app/src/App.tsx:194-196 | a pattern change forgets the remembered phase |
| `TransitionDetector.Detector.Update` | mindfulness_app/src/App.tsx:198-223 | the new memory and the request are those of the phase effect on the old memory; the log grows by the tone asked for, if any |
| `PhaseSegments.Kept` | mindfulness_app/src/components/PhaseSegmentsRing.tsx:14 | the kept ratios are all positive and no more than the input |
| `PhaseSegments.Sum` | mindfulness_app/src/components/PhaseSegmentsRing.tsx:15 | the reduce that adds the kept ratios; it has no contract of its own, and `SumOfKept`, `SumOfPositive` and `PrefixSums` relate it to the cycle length |
| `PhaseSegments.KeptAppend` | mindfulness_app/src/components/PhaseSegmentsRing.tsx:14 | filtering keeps the order: a concatenation filters part by part |
| `PhaseSegments.KeptExactly` | mindfulness_app/src/components/PhaseSegmentsRing.tsx:14 | every kept ratio is a positive input ratio; every positive input ratio is kept; a list of positive ratios is kept whole |
| `PhaseSegments.PrefixSums` | mindfulness_app/src/components/PhaseSegmentsRing.tsx:15 | on positive ratios the sums of prefixes equal the cycle mapper's totals, and each grows by the next ratio |
| `PhaseSegments.SumOfKept` | mindfulness_app/src/components/PhaseSegmentsRing.tsx:15 | the total of the kept ratios is the cycle length of the phase index |
| `PhaseSegments.SumOfPositive` | mindfulness_app/src/components/PhaseSegmentsRing.tsx:15 | on positive ratios the plain sum is the cycle length |
| `PhaseSegments.KeptTotal` | mindfulness_app/src/components/PhaseSegmentsRing.tsx:14-18 | the total is positive exactly when some ratio is kept |
| `PhaseSegments.Layout` | mindfulness_app/src/components/PhaseSegmentsRing.tsx:13-26 | the `segments` memo: at most one segment per kept ratio, segment i coloured `COLORS[i % 5]`; the lemmas below pin each segment's start and fraction |
| `PhaseSegments.LayoutLength` | mindfulness_app/src/components/PhaseSegmentsRing.tsx:16-25 | one segment per kept ratio |
| `PhaseSegments.LayoutEmpty` | mindfulness_app/src/components/PhaseSegmentsRing.tsx:14-18 | no segments exactly when no ratio is positive |
| `PhaseSegments.LayoutAt` | mindfulness_app/src/components/PhaseSegmentsRing.tsx:19-25 | segment i starts at the kept ratios before it over the total, spans its ratio over the total, and takes color i mod 5 |
| `PhaseSegments.LayoutSegment` | mindfulness_app/src/components/PhaseSegmentsRing.tsx:20-24 | each fraction is positive and is its ratio over the total; segment i is coloured `COLORS[i % 5]` |
| `PhaseSegments.LayoutBoundaries` | mindfulness_app/src/components/PhaseSegmentsRing.tsx:19-23 | segment i starts and ends at the cycle mapper's boundaries of phase i of the kept ratios |
| `PhaseSegments.LayoutNext` | mindfulness_app/src/components/PhaseSegmentsRing.tsx:22-23 | each segment starts where the previous one ends |
| `PhaseSegments.LayoutEnds` | mindfulness_app/src/components/PhaseSegmentsRing.tsx:19-23 | the first segment starts at 0 and the last ends at exactly 1 |
| `PhaseSegments.LayoutContiguous` | mindfulness_app/src/components/PhaseSegmentsRing.tsx:19-25 | starts at 0, contiguous throughout, ends at 1 |
| `PhaseSegments.LayoutPartition` | mindfulness_app/src/components/PhaseSegmentsRing.tsx:19-25 | every position in [0, 1) lies in exactly one segment, the one the phase index picks for the kept ratios |
| `PhaseSegments.SegmentOfActivePhase` | mindfulness_app/src/components/PhaseSegmentsRing.tsx:13-26 | for a pattern of positive ratios the segment that contains the cycle position is the announced phase |
| `PhaseSegments.BuildSegments` | mindfulness_app/src/components/PhaseSegmentsRing.tsx:13-26 | the cursor loop produces exactly the specified layout |
| `PhaseSegments.ClampedProgress` | mindfulness_app/src/components/PhaseSegmentsRing.tsx:30 | in [0, 1]; the progress itself when inside; 0 below, 1 above |
| `PhaseSegments.SegmentProgress` | mindfulness_app/src/components/PhaseSegmentsRing.tsx:47-48 | in [0, 1]; 0 for an empty segment or one at or beyond the progress; 1 for one wholly behind it; in between, times the fraction, the part passed |
| `PhaseSegments.SegmentLength` | mindfulness_app/src/components/PhaseSegmentsRing.tsx:39 | never negative; the fraction times the circumference when both are non-negative; 0 when that product is negative |
| `PhaseSegments.ActiveLength` | mindfulness_app/src/components/PhaseSegmentsRing.tsx:49 | between 0 and the segment length, and exactly the length times the segment progress |
| `PhaseSegments.FilledShareStep` | mindfulness_app/src/components/PhaseSegmentsRing.tsx:47-49 | the filled share of k segments is that of k - 1 plus the filled part of segment k |
| `PhaseSegments.FillStep` | mindfulness_app/src/components/PhaseSegmentsRing.tsx:47-48 | one more segment from b to b + f extends the filled share from min(c, b) to min(c, b + f) |
| `PhaseSegments.FilledPrefix` | mindfulness_app/src/components/PhaseSegmentsRing.tsx:47-48 | the first k segments together show min(progress, boundary k) filled |
| `PhaseSegments.FilledShareIsProgress` | mindfulness_app/src/components/PhaseSegmentsRing.tsx:30-49 | the filled parts of all segments add up to the clamped progress |
| `PhaseSegments.BalancedSums` | mindfulness_app/src/components/PhaseSegmentsRing.tsx:14-15 | 4-4-8 is kept whole, and its prefix sums are 0, 4, 8 and 16 |
| `PhaseSegments.BalancedLayout` | mindfulness_app/src/components/PhaseSegmentsRing.tsx:13-26 | 4-4-8 lays out as a quarter, a quarter and a half, in the first three colors |
| `Engine.SessionCycleProgress` | mindfulness_app/src/App.tsx:148-157 | 0 for a mode with no cycle; otherwise the share of the current cycle the elapsed time has covered: in [0, 1), and elapsed over cycle length exceeds it by a whole number of cycles |
| `Engine.CatalogueCyclesPositive` | mindfulness_app/src/App.tsx:143-146 | every catalogued mode has a cycle of positive length |
| `Engine.ElapsedAfterTicks` | mindfulness_app/src/App.tsx:148 | after k <= 600 ticks of a freshly started session, k seconds have elapsed |
| `Engine.BalancedSessionPhases` | mindfulness_app/src/App.tsx:148-217 | in the balanced mode, ticks 0, 4, 8 and 16 of a fresh session select phases 0, 1, 2 and 0 |
| `Engine.Session.constructor` | mindfulness_app/src/App.tsx:96-99 | the first mode, the initial clock, an empty phase memory and an empty tone log |
| `Engine.Session.RunPhaseEffect` | mindfulness_app/src/App.tsx:198-223 | the detector takes the phase effect of the current clock state and mode |
| `Engine.Session.SelectMode` | mindfulness_app/src/App.tsx:194-196 | the new mode is taken and the clock is unchanged; memory and request are the phase effect's, run from a cleared memory when the mode really changed and from the old memory otherwise; the tone log grows by the tone asked for; after a real change a running session always announces the active phase; a stopped one resets the audio |
| `Engine.Session.Tick` | mindfulness_app/src/App.tsx:122-129 | the clock ticks, then the phase effect runs on the new state; the tone log grows by the tone asked for |
| `Engine.Session.StartPause` | mindfulness_app/src/App.tsx:172-180 | the clock toggles, then the phase effect runs; a pause resets the audio; the tone log grows by the tone asked for |
| `Engine.Session.Reset` | mindfulness_app/src/App.tsx:167-170 | the clock resets, the phase memory is cleared and the audio reset; no tone is logged |
| `Engine.Session.SetMinutes` | mindfulness_app/src/App.tsx:159-161 | a preset chip changes the duration, then the phase effect runs; the tone log grows by the tone asked for |
| `Engine.Session.Increment` | mindfulness_app/src/App.tsx:163-165 | the +5 chip changes the duration, then the phase effect runs; the tone log grows by the tone asked for |

## Left out

- The JSX and Ionic UI: the menu, the theme toggle, the mode select, the preset chips, the guide modal and its first-mount effect (mindfulness_app/src/App.tsx:181-192, 225-378). They are presentation only. A mode can only be chosen from the catalogue, which is why `Engine.Session.SelectMode` requires a catalogued value.
- `window.setInterval` and `clearInterval`: the host timer. A tick is a method call, allowed only while the clock runs, since the interval exists only then.
- The audio hook `usePhaseAudio`: it is not part of this model, and nor is its Web Audio code. `playPhaseTone(i)` and `resetAudio()` become `Cue` values. The hook's choice of tone, index `max(0, i) mod 6`, is not modelled.
- `ProgressRing.tsx`: it is not part of this model. It is SVG geometry over the overall progress, which is modelled.
- The SVG part of the phase ring is not modelled: the radius, the circumference with `Math.PI`, the dash strings, the early return for an empty ring or a non-positive radius, and the skipping of zero-length arcs. The circumference is a parameter of `PhaseSegments.SegmentLength`.
- `Number.isFinite`: exact reals are always finite, so NaN and infinite ratios are not modelled.
- IEEE floating point: all arithmetic is exact. The `-1` fallback of `findIndex` is modelled, and proved unnecessary for positions in [0, 1). Rounding that could make it necessary is not modelled. Number-to-text conversion is modelled for plain decimal digits; JavaScript's exponent notation from 10^21 upwards is not, since the countdown never exceeds 5400 seconds.
- React rendering and effect scheduling: every handler or updater is one atomic transition, followed by one run of the phase effect. The app re-runs that effect only when `cycleProgress`, `cycleUnitTotal`, `isRunning` or `phaseRatios` change (mindfulness_app/src/App.tsx:223). So after an action that changes none of the effect's inputs, the model runs the effect where the app would not. For a stopped session that means one more `ResetAudio`, for example after `Reset` of a stopped session whose elapsed time is a whole number of cycles. Conversely, a duration change while stopped can run the app's effect twice: once with the old `timeLeft`, then with the snapped one. The model runs it once, on the final state.
- `previousMinutesRef` is not a separate field. Between atomic transitions it always equals `minutes`, so the duration effect reduces to "snap when stopped and the duration changed".
- The pattern-change effect runs when the identity of the ratios array changes. Catalogued modes have distinct arrays, so `Engine.Session.SelectMode` clears the memory on every real change of mode.
