/**
 * The static catalogue of breathing modes, the preset durations and the lookup
 * of the active mode by its select value.
 */
module Modes {

  datatype Option<T> = None | Some(value: T)

  datatype Phase = Phase(phaseLabel: string, count: real)

  datatype ModeOption = ModeOption(
    value: string,
    name: string,
    pattern: string,
    ratios: seq<real>,
    phases: seq<Phase>)

  const ModeOptions: seq<ModeOption> := [
    ModeOption("balanced-448", "Balanced Calm", "4-4-8", [4.0, 4.0, 8.0],
      [Phase("Inhale", 4.0), Phase("Hold", 4.0), Phase("Exhale", 8.0)]),
    ModeOption("box-4444", "Box Breath", "4-4-4-4", [4.0, 4.0, 4.0, 4.0],
      [Phase("Inhale", 4.0), Phase("Hold", 4.0), Phase("Exhale", 4.0), Phase("Hold", 4.0)]),
    ModeOption("resonant-55", "Resonant Flow", "5.5-5.5", [5.5, 5.5],
      [Phase("Inhale", 5.5), Phase("Exhale", 5.5)]),
    ModeOption("ratio-12", "Long Exhale", "1-2", [1.0, 2.0],
      [Phase("Inhale", 1.0), Phase("Exhale", 2.0)])
  ]

  const PresetTimes: seq<int> := [10, 15, 20, 25, 30]

  const MaxMinutes: int := 90

  /** The mode the session opens with. */
  const DefaultMode: string := ModeOptions[0].value

  /** `MODE_OPTIONS.find(option => option.value === value)`: the first mode with that value, if any. */
  function FindMode(value: string): (r: Option<ModeOption>)
    ensures r.Some? ==> r.value in ModeOptions && r.value.value == value
    ensures r.None? <==> forall i :: 0 <= i < |ModeOptions| ==> ModeOptions[i].value != value
  {
    FindModeFrom(value, 0)
  }

  function FindModeFrom(value: string, from: nat): (r: Option<ModeOption>)
    requires from <= |ModeOptions|
    ensures r.Some? ==> exists i :: from <= i < |ModeOptions| && ModeOptions[i] == r.value
    ensures r.Some? ==> r.value.value == value
    ensures r.None? <==> forall i :: from <= i < |ModeOptions| ==> ModeOptions[i].value != value
    decreases |ModeOptions| - from
  {
    if from == |ModeOptions| then None
    else if ModeOptions[from].value == value then Some(ModeOptions[from])
    else FindModeFrom(value, from + 1)
  }

  predicate IsModeValue(value: string) {
    exists i :: 0 <= i < |ModeOptions| && ModeOptions[i].value == value
  }

  /** `activeMode?.ratios ?? []`: the phase ratios of the selected mode, or none. */
  function ActiveRatios(mode: string): (ratios: seq<real>)
    ensures !IsModeValue(mode) ==> ratios == []
    ensures IsModeValue(mode) ==> exists i :: 0 <= i < |ModeOptions| && ModeOptions[i].value == mode && ModeOptions[i].ratios == ratios
  {
    match FindMode(mode)
    case Some(m) => m.ratios
    case None => []
  }

  /** `activeMode?.pattern ?? ""`: the label shown over the rings. */
  function ActivePattern(mode: string): (pattern: string)
    ensures !IsModeValue(mode) ==> pattern == ""
    ensures IsModeValue(mode) ==> exists i :: 0 <= i < |ModeOptions| && ModeOptions[i].value == mode && ModeOptions[i].pattern == pattern
  {
    match FindMode(mode)
    case Some(m) => m.pattern
    case None => ""
  }

  /**
   * Every catalogued mode has a distinct value and at least one phase; its ratios
   * are all positive and agree, phase by phase, with the counts shown in the guide.
   */
  lemma CatalogueWellFormed()
    ensures forall i, j :: 0 <= i < j < |ModeOptions| ==> ModeOptions[i].value != ModeOptions[j].value
    ensures forall i :: 0 <= i < |ModeOptions| ==>
      && |ModeOptions[i].ratios| >= 1
      && |ModeOptions[i].ratios| == |ModeOptions[i].phases|
      && (forall k :: 0 <= k < |ModeOptions[i].ratios| ==>
            ModeOptions[i].ratios[k] > 0.0 && ModeOptions[i].phases[k].count == ModeOptions[i].ratios[k])
  {
  }

  /** Each preset is in the range the +5 button keeps the duration in. */
  lemma PresetsInRange()
    ensures forall i :: 0 <= i < |PresetTimes| ==> 5 <= PresetTimes[i] <= MaxMinutes && PresetTimes[i] % 5 == 0
  {
  }
}
