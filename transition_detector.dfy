/**
 * The phase-transition detector: the phase-index effect remembers the last
 * phase it announced (`phaseIndexRef`, null or an index) and asks for a tone
 * only when the session runs and the active phase differs from that memory.
 * Stopping the session, or switching to another pattern, clears the memory.
 * Audio requests are events (`Cue`), not sound.
 */
module TransitionDetector {
  import opened Modes
  import opened CycleMapper

  /** What one run of the effect asks of the audio layer. */
  datatype Cue = Silence | PlayTone(phase: nat) | ResetAudio

  /** The memory after one run of the effect, and the request it made. */
  datatype Outcome = Outcome(last: Option<nat>, cue: Cue)

  /** `phaseIndexRef.current === null || phaseIndexRef.current !== index`. */
  predicate Enters(last: Option<nat>, index: nat)
    ensures Enters(last, index) <==> last.None? || last.value != index
  {
    last != Some(index)
  }

  /**
   * One run of the phase-index effect. Stopped: forget the phase and reset the
   * audio. Running with no usable pattern: do nothing. Otherwise find the
   * active phase; announce it if it was not the remembered one, and remember it.
   */
  function PhaseEffect(last: Option<nat>, running: bool, ratios: seq<real>, position: real): (o: Outcome)
    ensures !running ==> o == Outcome(None, ResetAudio)
    ensures running && CycleUnitTotal(ratios) <= 0.0 ==> o == Outcome(last, Silence)
    ensures running && CycleUnitTotal(ratios) > 0.0 ==>
      && o.last == Some(ActivePhase(ratios, position)) && o.last.value < |ratios|
      && (o.cue.PlayTone? <==> Enters(last, o.last.value))
      && (!o.cue.PlayTone? ==> o.cue == Silence && o.last == last)
      && (o.cue.PlayTone? ==> o.cue.phase == o.last.value)
  {
    if !running then Outcome(None, ResetAudio)
    else if ratios == [] || CycleUnitTotal(ratios) <= 0.0 then Outcome(last, Silence)
    else
      var index := ActivePhase(ratios, position);
      if Enters(last, index) then Outcome(Some(index), PlayTone(index))
      else Outcome(last, Silence)
  }

  /** The tone a request carries, as a list of zero or one phase indices. */
  function ToneOf(cue: Cue): (t: seq<nat>)
    ensures |t| <= 1
    ensures t != [] <==> cue.PlayTone?
    ensures cue.PlayTone? ==> t == [cue.phase]
  {
    match cue
    case PlayTone(i) => [i]
    case _ => []
  }

  /** When the session is running and the pattern is usable, the effect emits a tone exactly for the active phase. */
  lemma PhaseEffectTone(last: Option<nat>, ratios: seq<real>, position: real)
    requires CycleUnitTotal(ratios) > 0.0
    ensures var o := PhaseEffect(last, true, ratios, position);
      && o.last == Some(ActivePhase(ratios, position))
      && ToneOf(o.cue) == (if Enters(last, ActivePhase(ratios, position)) then [ActivePhase(ratios, position)] else [])
  {
  }

  /** Stopping forgets the phase, so the first running step afterwards always announces its phase. */
  lemma StopThenRunEmits(last: Option<nat>, ratios: seq<real>, before: real, position: real)
    requires CycleUnitTotal(ratios) > 0.0
    ensures var stopped := PhaseEffect(last, false, ratios, before);
      && stopped.last == None && stopped.cue == ResetAudio
      && PhaseEffect(stopped.last, true, ratios, position).cue == PlayTone(ActivePhase(ratios, position))
  {
  }

  /** A second run in the same phase asks for nothing and keeps the memory. */
  lemma HoldingEmitsNothing(last: Option<nat>, ratios: seq<real>, p: real, q: real)
    requires CycleUnitTotal(ratios) > 0.0
    requires ActivePhase(ratios, p) == ActivePhase(ratios, q)
    ensures var first := PhaseEffect(last, true, ratios, p);
      PhaseEffect(first.last, true, ratios, q) == Outcome(first.last, Silence)
  {
  }

  /**
   * The tones announced for a sequence of observed phase indices, starting
   * from memory `last`: each index that differs from the one before it (or
   * from `last`, for the first).
   */
  function Tones(last: Option<nat>, s: seq<nat>): seq<nat>
    decreases |s|
  {
    if s == [] then []
    else (if Enters(last, s[0]) then [s[0]] else []) + Tones(Some(s[0]), s[1..])
  }

  /** The memory after observing `s` from `last`. */
  function LastOf(last: Option<nat>, s: seq<nat>): Option<nat> {
    if s == [] then last else Some(s[|s| - 1])
  }

  /** The number of phase changes inside `s`, counted from its end: the reference for the number of tones. */
  function Changes(s: seq<nat>): nat
    decreases |s|
  {
    if |s| <= 1 then 0
    else Changes(s[..|s| - 1]) + (if s[|s| - 2] != s[|s| - 1] then 1 else 0)
  }

  /** Observing one more index adds a tone exactly when it differs from the memory. */
  lemma {:induction false} TonesAppend(last: Option<nat>, s: seq<nat>, x: nat)
    ensures Tones(last, s + [x]) == Tones(last, s) + (if Enters(LastOf(last, s), x) then [x] else [])
    decreases |s|
  {
    if s == [] {
      assert s + [x] == [x];
      assert [x][1..] == [];
    } else {
      var t := s + [x];
      assert t[0] == s[0];
      assert t[1..] == s[1..] + [x];
      TonesAppend(Some(s[0]), s[1..], x);
      assert LastOf(Some(s[0]), s[1..]) == LastOf(last, s);
    }
  }

  /** From a cleared memory, a non-empty run of observations yields one tone for the start and one per change. */
  lemma {:induction false} ToneCount(s: seq<nat>)
    requires s != []
    ensures |Tones(None, s)| == 1 + Changes(s)
    decreases |s|
  {
    if |s| == 1 {
      assert s[1..] == [];
    } else {
      var p := s[..|s| - 1];
      var x := s[|s| - 1];
      assert s == p + [x];
      TonesAppend(None, p, x);
      ToneCount(p);
      assert LastOf(None, p) == Some(s[|s| - 2]);
    }
  }

  /** No two consecutive tones are for the same phase, and the first differs from the memory. */
  lemma {:induction false} TonesDistinctNeighbours(last: Option<nat>, s: seq<nat>)
    ensures var t := Tones(last, s);
      && (forall i, j :: 0 <= i < j < |t| && j == i + 1 ==> t[i] != t[j])
      && (last.Some? && t != [] ==> t[0] != last.value)
    decreases |s|
  {
    if s != [] {
      var rest := Tones(Some(s[0]), s[1..]);
      TonesDistinctNeighbours(Some(s[0]), s[1..]);
      var t := Tones(last, s);
      if Enters(last, s[0]) {
        assert t == [s[0]] + rest;
        forall i, j | 0 <= i < j < |t| && j == i + 1
          ensures t[i] != t[j]
        {
          if i > 0 {
            assert t[i] == rest[i - 1] && t[j] == rest[j - 1];
          }
        }
      } else {
        assert t == rest;
      }
    }
  }

  /** Every tone is for a phase that was observed, and there are never more tones than observations. */
  lemma {:induction false} TonesWithin(last: Option<nat>, s: seq<nat>)
    ensures |Tones(last, s)| <= |s|
    ensures forall v :: v in Tones(last, s) ==> v in s
    decreases |s|
  {
    if s != [] {
      TonesWithin(Some(s[0]), s[1..]);
      assert forall v :: v in s[1..] ==> v in s;
    }
  }

  /** Staying in the remembered phase, however long, announces nothing. */
  lemma {:induction false} TonesHold(x: nat, n: nat)
    ensures Tones(Some(x), seq(n, _ => x)) == []
    decreases n
  {
    if n > 0 {
      var s := seq(n, _ => x);
      assert s[1..] == seq(n - 1, _ => x);
      TonesHold(x, n - 1);
    }
  }

  /** The active phase at each observed position. */
  function Phases(ratios: seq<real>, positions: seq<real>): (s: seq<nat>)
    requires CycleUnitTotal(ratios) > 0.0
    ensures |s| == |positions|
    ensures forall i :: 0 <= i < |positions| ==> s[i] == ActivePhase(ratios, positions[i]) && s[i] < |ratios|
  {
    seq(|positions|, i requires 0 <= i < |positions| => ActivePhase(ratios, positions[i]))
  }

  /** The tones of successive runs of the effect while the session runs through `positions`. */
  function RunningTones(last: Option<nat>, ratios: seq<real>, positions: seq<real>): (tones: seq<nat>)
    requires CycleUnitTotal(ratios) > 0.0
    ensures |tones| <= |positions|
    ensures forall i :: 0 <= i < |tones| ==> tones[i] < |ratios|
    decreases |positions|
  {
    if positions == [] then []
    else
      var o := PhaseEffect(last, true, ratios, positions[0]);
      ToneOf(o.cue) + RunningTones(o.last, ratios, positions[1..])
  }

  /** Running the effect step by step announces exactly the phase changes of the observed phases. */
  lemma {:induction false} RunningTonesAreChanges(last: Option<nat>, ratios: seq<real>, positions: seq<real>)
    requires CycleUnitTotal(ratios) > 0.0
    ensures RunningTones(last, ratios, positions) == Tones(last, Phases(ratios, positions))
    decreases |positions|
  {
    if positions != [] {
      var s := Phases(ratios, positions);
      var o := PhaseEffect(last, true, ratios, positions[0]);
      PhaseEffectTone(last, ratios, positions[0]);
      assert s[1..] == Phases(ratios, positions[1..]);
      RunningTonesAreChanges(o.last, ratios, positions[1..]);
    }
  }

  /** The detector object: `phaseIndexRef`, and a log of the tones it has asked for. */
  class Detector {
    var last: Option<nat>
    ghost var tones: seq<nat>

    constructor ()
      ensures last == None && tones == []
    {
      last := None;
      tones := [];
    }

    /** The effect on a pattern change: forget the remembered phase. */
    method PatternChanged()
      modifies this
      ensures last == None && tones == old(tones)
    {
      last := None;
    }

    /**
     * One run of the phase-index effect, with the pattern's ratios and the
     * current cycle position. Returns the audio request it makes.
     */
    method Update(running: bool, ratios: seq<real>, position: real) returns (cue: Cue)
      modifies this
      ensures Outcome(last, cue) == PhaseEffect(old(last), running, ratios, position)
      ensures tones == old(tones) + ToneOf(cue)
    {
      if !running {
        last := None;
        return ResetAudio;
      }
      if |ratios| == 0 || CycleUnitTotal(ratios) <= 0.0 {
        return Silence;
      }
      var index := PhaseIndex(ratios, position);
      cue := Silence;
      if last.None? || last.value != index {
        cue := PlayTone(index);
        tones := tones + [index];
        last := Some(index);
      }
    }
  }
}
