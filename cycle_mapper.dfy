/**
 * The cycle mapper: from the elapsed session time and the ratios of the active
 * breathing pattern to the position inside the current cycle and the index of
 * the active phase. Numbers are exact reals, so the boundaries computed here do
 * not suffer the rounding of the app's floating-point arithmetic.
 */
module CycleMapper {
  import opened RealArith

  /** `value > 0 ? value : 0`: the share a ratio takes in the cycle. */
  function Positive(x: real): (r: real)
    ensures r >= 0.0
    ensures r > 0.0 <==> x > 0.0
    ensures x > 0.0 ==> r == x
  {
    if x > 0.0 then x else 0.0
  }

  /** `ratios.reduce((sum, value) => value > 0 ? sum + value : sum, 0)`: the length of one cycle. */
  function CycleUnitTotal(ratios: seq<real>): (t: real)
    ensures t >= 0.0
    decreases |ratios|
  {
    if ratios == [] then 0.0
    else CycleUnitTotal(ratios[..|ratios| - 1]) + Positive(ratios[|ratios| - 1])
  }

  /** The cycle has positive length exactly when some ratio is positive. */
  lemma {:induction false} CycleUnitTotalPositive(ratios: seq<real>)
    ensures CycleUnitTotal(ratios) > 0.0 <==> exists i :: 0 <= i < |ratios| && ratios[i] > 0.0
    decreases |ratios|
  {
    if ratios != [] {
      var init := ratios[..|ratios| - 1];
      CycleUnitTotalPositive(init);
      assert forall i :: 0 <= i < |init| ==> init[i] == ratios[i];
      if ratios[|ratios| - 1] <= 0.0 && exists i :: 0 <= i < |ratios| && ratios[i] > 0.0 {
        var i :| 0 <= i < |ratios| && ratios[i] > 0.0;
        assert init[i] > 0.0;
      }
    }
  }

  /** The total of a prefix grows by the share of the next ratio. */
  lemma PrefixTotalStep(ratios: seq<real>, k: nat)
    requires k < |ratios|
    ensures CycleUnitTotal(ratios[..k + 1]) == CycleUnitTotal(ratios[..k]) + Positive(ratios[k])
  {
    assert ratios[..k + 1][..k] == ratios[..k];
  }

  /** Longer prefixes have larger totals, up to the whole cycle. */
  lemma {:induction false} PrefixTotalMonotone(ratios: seq<real>, j: nat, k: nat)
    requires j <= k <= |ratios|
    ensures CycleUnitTotal(ratios[..j]) <= CycleUnitTotal(ratios[..k])
    decreases k - j
  {
    if j < k {
      PrefixTotalStep(ratios, k - 1);
      PrefixTotalMonotone(ratios, j, k - 1);
    }
  }

  /** `Math.max(0, minutes * 60 - timeLeft)`: the seconds already gone, never negative. */
  function ElapsedTotal(minutes: int, timeLeft: int): (e: nat)
    ensures timeLeft <= minutes * 60 ==> e + timeLeft == minutes * 60
    ensures timeLeft >= minutes * 60 ==> e == 0
  {
    if minutes * 60 - timeLeft < 0 then 0 else minutes * 60 - timeLeft
  }

  /** The fractional part of `x`: what is left above the whole number below it. */
  function Fraction(x: real): (f: real)
    ensures 0.0 <= f < 1.0
    ensures (x - f).Floor as real == x - f
  {
    x - x.Floor as real
  }

  /**
   * `cycleProgress`: 0 for a degenerate pattern; otherwise the position inside
   * the current cycle as a share of the cycle. It lies in [0, 1), and the
   * elapsed time is a whole number of cycles plus that share of one.
   */
  function CycleProgress(total: real, elapsed: nat): (p: real)
    ensures total <= 0.0 ==> p == 0.0
    ensures total > 0.0 ==> 0.0 <= p < 1.0
    ensures total > 0.0 ==> (elapsed as real / total - p).Floor as real == elapsed as real / total - p
  {
    if total <= 0.0 then 0.0 else Fraction(elapsed as real / total)
  }

  /**
   * The share, scaled back by the cycle length, is JavaScript's
   * `elapsedTotal % cycleLength`: for a non-negative dividend that is the
   * dividend less the largest whole number of cycles it contains.
   */
  lemma CycleProgressIsRemainder(total: real, elapsed: nat)
    requires total > 0.0
    ensures CycleProgress(total, elapsed) * total
            == elapsed as real - total * (elapsed as real / total).Floor as real
  {
    var q := elapsed as real / total;
    MultiplyQuotient(elapsed as real, total);
    ShareOfRemainder(elapsed as real, total, q, q.Floor as real);
  }

  lemma FractionShift(x: real, k: int)
    ensures Fraction(x + k as real) == Fraction(x)
  {
    assert (x + k as real).Floor == x.Floor + k;
  }

  /** The position inside the cycle does not depend on how many whole cycles have gone by. */
  lemma CycleProgressPeriodic(total: real, elapsed: nat, cycles: nat, later: nat)
    requires total > 0.0
    requires later as real == elapsed as real + cycles as real * total
    ensures CycleProgress(total, later) == CycleProgress(total, elapsed)
  {
    QuotientShift(elapsed as real, cycles as real, total);
    FractionShift(elapsed as real / total, cycles);
  }

  /**
   * The cumulative boundary after `k` phases: the share of the cycle taken by
   * the first `k` ratios (`acc / total` in the phase effect).
   */
  function Boundary(ratios: seq<real>, k: nat): (b: real)
    requires k <= |ratios|
    requires CycleUnitTotal(ratios) > 0.0
    ensures 0.0 <= b <= 1.0
  {
    PrefixTotalMonotone(ratios, k, |ratios|);
    assert ratios[..|ratios|] == ratios;
    FractionBounds(CycleUnitTotal(ratios[..k]), CycleUnitTotal(ratios));
    CycleUnitTotal(ratios[..k]) / CycleUnitTotal(ratios)
  }

  /** The end boundary of phase `k`, the start of the next one. */
  function PhaseEnd(ratios: seq<real>, k: nat): (e: real)
    requires k < |ratios|
    requires CycleUnitTotal(ratios) > 0.0
    ensures Boundary(ratios, k) <= e <= 1.0
  {
    PrefixTotalStep(ratios, k);
    DivideMonotone(CycleUnitTotal(ratios[..k]), CycleUnitTotal(ratios[..k + 1]), CycleUnitTotal(ratios));
    Boundary(ratios, k + 1)
  }

  /** The first boundary is 0 and the last is exactly 1. */
  lemma BoundaryEnds(ratios: seq<real>)
    requires CycleUnitTotal(ratios) > 0.0
    ensures Boundary(ratios, 0) == 0.0
    ensures Boundary(ratios, |ratios|) == 1.0
  {
    assert ratios[..|ratios|] == ratios;
    assert ratios[..0] == [];
    DivideSelf(CycleUnitTotal(ratios));
  }

  /** Phase `k` spans exactly its share of the cycle. */
  lemma BoundaryStep(ratios: seq<real>, k: nat)
    requires k < |ratios|
    requires CycleUnitTotal(ratios) > 0.0
    ensures PhaseEnd(ratios, k) == Boundary(ratios, k) + Positive(ratios[k]) / CycleUnitTotal(ratios)
  {
    PrefixTotalStep(ratios, k);
    DivideSum(CycleUnitTotal(ratios[..k]), Positive(ratios[k]), CycleUnitTotal(ratios));
  }

  /** The boundaries never decrease. */
  lemma BoundaryMonotone(ratios: seq<real>, j: nat, k: nat)
    requires j <= k <= |ratios|
    requires CycleUnitTotal(ratios) > 0.0
    ensures Boundary(ratios, j) <= Boundary(ratios, k)
  {
    PrefixTotalMonotone(ratios, j, k);
    DivideMonotone(CycleUnitTotal(ratios[..j]), CycleUnitTotal(ratios[..k]), CycleUnitTotal(ratios));
  }

  /**
   * The phase the cycle is in, searching from phase `from`: the first phase
   * whose end boundary lies beyond the position, or the last phase when none
   * does (the `-1` fallback of `findIndex`).
   */
  function ActivePhaseFrom(ratios: seq<real>, position: real, from: nat): (k: nat)
    requires CycleUnitTotal(ratios) > 0.0 && from < |ratios|
    ensures from <= k < |ratios|
    ensures forall j :: from <= j < k ==> PhaseEnd(ratios, j) <= position
    ensures k < |ratios| - 1 ==> position < PhaseEnd(ratios, k)
    decreases |ratios| - from
  {
    if from == |ratios| - 1 || position < PhaseEnd(ratios, from) then from
    else ActivePhaseFrom(ratios, position, from + 1)
  }

  /** The active phase index for a position in the cycle. */
  function ActivePhase(ratios: seq<real>, position: real): (k: nat)
    requires CycleUnitTotal(ratios) > 0.0
    ensures k < |ratios|
    ensures forall j :: 0 <= j < k ==> PhaseEnd(ratios, j) <= position
    ensures k < |ratios| - 1 ==> position < PhaseEnd(ratios, k)
  {
    ActivePhaseFrom(ratios, position, 0)
  }

  /** For a position inside the cycle the chosen phase really contains it. */
  lemma ActivePhaseBetween(ratios: seq<real>, position: real)
    requires CycleUnitTotal(ratios) > 0.0
    requires 0.0 <= position < 1.0
    ensures var k := ActivePhase(ratios, position);
      Boundary(ratios, k) <= position < PhaseEnd(ratios, k)
  {
    var k := ActivePhase(ratios, position);
    BoundaryEnds(ratios);
    if k > 0 {
      assert PhaseEnd(ratios, k - 1) <= position;
    }
  }

  /** A phase that contains some position has a positive ratio. */
  lemma ContainingPhasePositive(ratios: seq<real>, k: nat, position: real)
    requires CycleUnitTotal(ratios) > 0.0 && k < |ratios|
    requires Boundary(ratios, k) <= position < PhaseEnd(ratios, k)
    ensures ratios[k] > 0.0
  {
    BoundaryStep(ratios, k);
    assert 0.0 / CycleUnitTotal(ratios) == 0.0;
  }

  /**
   * For a position inside the cycle the chosen phase really contains it, and it
   * has a positive ratio: a zero or negative ratio is never selected, and the
   * fallback is never needed with exact arithmetic.
   */
  lemma ActivePhaseContains(ratios: seq<real>, position: real)
    requires CycleUnitTotal(ratios) > 0.0
    requires 0.0 <= position < 1.0
    ensures var k := ActivePhase(ratios, position);
      && Boundary(ratios, k) <= position < Boundary(ratios, k + 1)
      && ratios[k] > 0.0
  {
    ActivePhaseBetween(ratios, position);
    ContainingPhasePositive(ratios, ActivePhase(ratios, position), position);
  }

  /** Any index that passes every earlier boundary and stops at the first one beyond the position is the active phase. */
  lemma {:induction false} ActivePhaseFromUnique(ratios: seq<real>, position: real, from: nat, idx: nat)
    requires CycleUnitTotal(ratios) > 0.0
    requires from <= idx < |ratios|
    requires forall j :: from <= j < idx ==> PhaseEnd(ratios, j) <= position
    requires idx == |ratios| - 1 || position < PhaseEnd(ratios, idx)
    ensures ActivePhaseFrom(ratios, position, from) == idx
    decreases idx - from
  {
    if from < idx {
      assert PhaseEnd(ratios, from) <= position;
      ActivePhaseFromUnique(ratios, position, from + 1, idx);
    }
  }

  /**
   * The `forEach` over the clamped ratios: a running sum `acc` and, after each
   * ratio, the boundary `acc / total` pushed onto `cumulative`.
   */
  method BuildCumulative(ratios: seq<real>) returns (cumulative: seq<real>)
    requires CycleUnitTotal(ratios) > 0.0
    ensures |cumulative| == |ratios|
    ensures forall k :: 0 <= k < |ratios| ==> cumulative[k] == PhaseEnd(ratios, k)
  {
    var total := CycleUnitTotal(ratios);
    var safeRatios := seq(|ratios|, i requires 0 <= i < |ratios| => Positive(ratios[i]));
    cumulative := [];
    var acc := 0.0;
    var i := 0;
    assert ratios[..0] == [];
    while i < |safeRatios|
      invariant 0 <= i <= |ratios|
      invariant acc == CycleUnitTotal(ratios[..i])
      invariant |cumulative| == i
      invariant forall k :: 0 <= k < i ==> cumulative[k] == PhaseEnd(ratios, k)
    {
      PrefixTotalStep(ratios, i);
      acc := acc + safeRatios[i];
      cumulative := cumulative + [acc / total];
      i := i + 1;
    }
  }

  /** `cumulative.findIndex(end => position < end)`: the first such index, or -1. */
  method FindFirstBeyond(cumulative: seq<real>, position: real) returns (idx: int)
    ensures -1 <= idx < |cumulative|
    ensures idx >= 0 ==> position < cumulative[idx]
    ensures forall j :: 0 <= j < |cumulative| && (idx == -1 || j < idx) ==> cumulative[j] <= position
  {
    var i := 0;
    while i < |cumulative|
      invariant 0 <= i <= |cumulative|
      invariant forall j :: 0 <= j < i ==> cumulative[j] <= position
    {
      if position < cumulative[i] {
        return i;
      }
      i := i + 1;
    }
    return -1;
  }

  /**
   * The phase-index computation of the transition effect; it is only reached
   * with a non-empty pattern of positive total. The result is the specified
   * active phase, and for a position inside the cycle it lies in a phase of
   * positive ratio that contains the position.
   */
  method PhaseIndex(ratios: seq<real>, position: real) returns (index: nat)
    requires CycleUnitTotal(ratios) > 0.0
    ensures index == ActivePhase(ratios, position)
    ensures index < |ratios|
    ensures 0.0 <= position < 1.0 ==>
      ratios[index] > 0.0 && Boundary(ratios, index) <= position < Boundary(ratios, index + 1)
  {
    var cumulative := BuildCumulative(ratios);
    var currentIdx := FindFirstBeyond(cumulative, position);
    index := if currentIdx == -1 then |ratios| - 1 else currentIdx;
    ActivePhaseFromUnique(ratios, position, 0, index);
    if 0.0 <= position < 1.0 {
      ActivePhaseContains(ratios, position);
    }
  }

  /** The balanced pattern 4-4-8 (16 units) at 0, 4, 8 and 16 seconds: phases 0, 1, 2 and 0 again. */
  lemma BalancedPatternScenario()
    ensures CycleUnitTotal([4.0, 4.0, 8.0]) == 16.0
    ensures CycleProgress(16.0, 0) == 0.0
    ensures CycleProgress(16.0, 16) == 0.0
    ensures ActivePhase([4.0, 4.0, 8.0], CycleProgress(16.0, 0)) == 0
    ensures ActivePhase([4.0, 4.0, 8.0], CycleProgress(16.0, 4)) == 1
    ensures ActivePhase([4.0, 4.0, 8.0], CycleProgress(16.0, 8)) == 2
    ensures ActivePhase([4.0, 4.0, 8.0], CycleProgress(16.0, 16)) == 0
  {
    var r := [4.0, 4.0, 8.0];
    assert r[..1] == [4.0] && r[..2] == [4.0, 4.0] && r[..3] == r;
    assert [4.0, 4.0][..1] == [4.0] && [4.0][..0] == [];
    assert CycleUnitTotal([4.0]) == 4.0;
    assert CycleUnitTotal([4.0, 4.0]) == 8.0;
    assert CycleUnitTotal(r) == 16.0;
    assert Boundary(r, 1) == 0.25 && Boundary(r, 2) == 0.5 && Boundary(r, 3) == 1.0;
    assert CycleProgress(16.0, 0) == 0.0;
    assert CycleProgress(16.0, 4) == 0.25;
    assert CycleProgress(16.0, 8) == 0.5;
    CycleProgressPeriodic(16.0, 0, 1, 16);
    assert CycleProgress(16.0, 16) == 0.0;
  }
}
