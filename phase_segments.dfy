/**
 * The layout of the segmented phase ring: the positive ratios of the pattern,
 * in order, become contiguous arcs `{start, fraction, color}` that tile the
 * cycle [0, 1); each arc is filled by the share of it the cycle position has
 * passed.
 */
module PhaseSegments {
  import opened TimeFormat
  import opened RealArith
  import opened CycleMapper

  datatype Segment = Segment(start: real, fraction: real, color: string)

  const Colors: seq<string> := ["#60a5fa", "#f59e0b", "#f472b6", "#a855f7", "#22d3ee"]

  predicate AllPositive(s: seq<real>) {
    forall i :: 0 <= i < |s| ==> s[i] > 0.0
  }

  /** `ratios.filter(value => Number.isFinite(value) && value > 0)`; every real is finite. */
  function Kept(ratios: seq<real>): (kept: seq<real>)
    ensures |kept| <= |ratios|
    ensures AllPositive(kept)
    decreases |ratios|
  {
    if ratios == [] then []
    else
      var x := ratios[|ratios| - 1];
      Kept(ratios[..|ratios| - 1]) + (if x > 0.0 then [x] else [])
  }

  /** `valid.reduce((sum, value) => sum + value, 0)`. */
  function Sum(s: seq<real>): real
    decreases |s|
  {
    if s == [] then 0.0 else Sum(s[..|s| - 1]) + s[|s| - 1]
  }

  /** The filter keeps the order: filtering a concatenation filters each part. */
  lemma {:induction false} KeptAppend(a: seq<real>, b: seq<real>)
    ensures Kept(a + b) == Kept(a) + Kept(b)
    decreases |b|
  {
    if b == [] {
      assert a + b == a;
    } else {
      var init := b[..|b| - 1];
      assert (a + b)[..|a + b| - 1] == a + init;
      KeptAppend(a, init);
    }
  }

  /** The filter keeps exactly the positive ratios: a single ratio survives iff it is positive, and positive lists are untouched. */
  lemma {:induction false} KeptExactly(ratios: seq<real>)
    ensures forall x :: x in Kept(ratios) ==> x in ratios && x > 0.0
    ensures forall i :: 0 <= i < |ratios| && ratios[i] > 0.0 ==> ratios[i] in Kept(ratios)
    ensures AllPositive(ratios) ==> Kept(ratios) == ratios
    decreases |ratios|
  {
    if ratios != [] {
      var init := ratios[..|ratios| - 1];
      KeptExactly(init);
      assert ratios == init + [ratios[|ratios| - 1]];
      assert forall i :: 0 <= i < |init| ==> init[i] == ratios[i];
    }
  }

  lemma SumStep(s: seq<real>, k: nat)
    requires k < |s|
    ensures Sum(s[..k + 1]) == Sum(s[..k]) + s[k]
  {
    assert s[..k + 1][..k] == s[..k];
  }

  /** The prefix sums of positive ratios are the cycle mapper's prefix totals. */
  lemma PrefixSums(s: seq<real>, k: nat)
    requires AllPositive(s) && k < |s|
    ensures Sum(s) == CycleUnitTotal(s)
    ensures Sum(s[..k]) == CycleUnitTotal(s[..k])
    ensures Sum(s[..k + 1]) == CycleUnitTotal(s[..k + 1])
    ensures Sum(s[..k + 1]) == Sum(s[..k]) + s[k]
  {
    SumOfPositive(s);
    assert AllPositive(s[..k]);
    SumOfPositive(s[..k]);
    assert AllPositive(s[..k + 1]);
    SumOfPositive(s[..k + 1]);
    SumStep(s, k);
  }

  /** Summing the kept ratios is the cycle length of the pattern: the ring and the phase index see the same cycle. */
  lemma {:induction false} SumOfKept(ratios: seq<real>)
    ensures Sum(Kept(ratios)) == CycleUnitTotal(ratios)
    decreases |ratios|
  {
    if ratios != [] {
      var init := ratios[..|ratios| - 1];
      var x := ratios[|ratios| - 1];
      SumOfKept(init);
      if x > 0.0 {
        var k := Kept(init) + [x];
        assert k[..|k| - 1] == Kept(init);
      } else {
        assert Kept(ratios) == Kept(init);
      }
    }
  }

  /** On positive ratios the plain sum and the cycle length agree. */
  lemma {:induction false} SumOfPositive(s: seq<real>)
    requires AllPositive(s)
    ensures Sum(s) == CycleUnitTotal(s)
    decreases |s|
  {
    if s != [] {
      var init := s[..|s| - 1];
      assert forall i :: 0 <= i < |init| ==> init[i] == s[i];
      SumOfPositive(init);
    }
  }

  /** The total of the kept ratios is positive exactly when something is kept. */
  lemma KeptTotal(ratios: seq<real>)
    ensures Sum(Kept(ratios)) > 0.0 <==> Kept(ratios) != []
    ensures CycleUnitTotal(ratios) > 0.0 <==> Kept(ratios) != []
  {
    var kept := Kept(ratios);
    SumOfKept(ratios);
    SumOfPositive(kept);
    CycleUnitTotalPositive(kept);
    if kept != [] {
      assert kept[0] > 0.0;
    }
  }

  /**
   * The segments, as the `valid.map` with its running `cursor` produces them:
   * none when nothing is kept; otherwise segment `i` starts at the share of the
   * kept ratios before it and spans its own share, with color `COLORS[i % 5]`.
   */
  function Layout(ratios: seq<real>): (segs: seq<Segment>)
    ensures |segs| <= |Kept(ratios)|
    ensures forall i :: 0 <= i < |segs| ==> segs[i].color == Colors[i % |Colors|]
  {
    var kept := Kept(ratios);
    var total := Sum(kept);
    if total == 0.0 || kept == [] then
      []
    else
      seq(|kept|, i requires 0 <= i < |kept| =>
        Segment(Sum(kept[..i]) / total, kept[i] / total, Colors[i % |Colors|]))
  }

  /** One segment per kept ratio. */
  lemma LayoutLength(ratios: seq<real>)
    ensures |Layout(ratios)| == |Kept(ratios)|
  {
    KeptTotal(ratios);
  }

  /** No segments exactly when no ratio is positive. */
  lemma LayoutEmpty(ratios: seq<real>)
    ensures Layout(ratios) == [] <==> forall i :: 0 <= i < |ratios| ==> ratios[i] <= 0.0
  {
    LayoutLength(ratios);
    KeptTotal(ratios);
    CycleUnitTotalPositive(ratios);
  }

  /** Segment `i` as the builder writes it. */
  lemma LayoutAt(ratios: seq<real>, i: nat)
    requires i < |Layout(ratios)|
    ensures |Layout(ratios)| == |Kept(ratios)| && Sum(Kept(ratios)) > 0.0
    ensures Layout(ratios)[i] == Segment(Sum(Kept(ratios)[..i]) / Sum(Kept(ratios)),
                                         Kept(ratios)[i] / Sum(Kept(ratios)), Colors[i % 5])
  {
    LayoutLength(ratios);
    KeptTotal(ratios);
  }

  /** Each segment spans a positive share, the share of its ratio in the total, and takes the colors in turn. */
  lemma LayoutSegment(ratios: seq<real>, i: nat)
    requires i < |Layout(ratios)|
    ensures Layout(ratios)[i].fraction > 0.0
    ensures Layout(ratios)[i].fraction == Kept(ratios)[i] / Sum(Kept(ratios))
    ensures Layout(ratios)[i].color == Colors[i % 5]
  {
    LayoutAt(ratios, i);
    var kept := Kept(ratios);
    SharePositive(kept[i], Sum(kept));
  }

  /** Segment `i` starts at the cycle mapper's boundary before phase `i` of the kept ratios, and ends at the next one. */
  lemma LayoutBoundaries(ratios: seq<real>, i: nat)
    requires i < |Layout(ratios)|
    ensures CycleUnitTotal(Kept(ratios)) > 0.0
    ensures Layout(ratios)[i].start == Boundary(Kept(ratios), i)
    ensures Layout(ratios)[i].start + Layout(ratios)[i].fraction == PhaseEnd(Kept(ratios), i)
  {
    var kept := Kept(ratios);
    var total := Sum(kept);
    LayoutAt(ratios, i);
    PrefixSums(kept, i);
    DivideSum(Sum(kept[..i]), kept[i], total);
  }

  /** Each segment starts where the one before it ends. */
  lemma LayoutNext(ratios: seq<real>, i: nat)
    requires i + 1 < |Layout(ratios)|
    ensures Layout(ratios)[i + 1].start == Layout(ratios)[i].start + Layout(ratios)[i].fraction
  {
    LayoutBoundaries(ratios, i);
    LayoutBoundaries(ratios, i + 1);
  }

  /** The first segment starts at 0 and the last ends at 1. */
  lemma LayoutEnds(ratios: seq<real>)
    requires Layout(ratios) != []
    ensures Layout(ratios)[0].start == 0.0
    ensures var last := Layout(ratios)[|Layout(ratios)| - 1]; last.start + last.fraction == 1.0
  {
    LayoutLength(ratios);
    LayoutBoundaries(ratios, 0);
    LayoutBoundaries(ratios, |Layout(ratios)| - 1);
    BoundaryEnds(Kept(ratios));
  }

  /**
   * The segments are contiguous and tile [0, 1): the first starts at 0, each
   * next one starts where the previous one ends, and the last ends at 1.
   */
  lemma LayoutContiguous(ratios: seq<real>)
    requires Layout(ratios) != []
    ensures Layout(ratios)[0].start == 0.0
    ensures forall i, j :: 0 <= i < j < |Layout(ratios)| && j == i + 1 ==>
      Layout(ratios)[j].start == Layout(ratios)[i].start + Layout(ratios)[i].fraction
    ensures var last := Layout(ratios)[|Layout(ratios)| - 1]; last.start + last.fraction == 1.0
  {
    var segs := Layout(ratios);
    LayoutEnds(ratios);
    forall i, j | 0 <= i < j < |segs| && j == i + 1
      ensures segs[j].start == segs[i].start + segs[i].fraction
    {
      LayoutNext(ratios, i);
    }
  }

  predicate Contains(seg: Segment, position: real) {
    seg.start <= position < seg.start + seg.fraction
  }

  /**
   * Every position in [0, 1) lies in exactly one segment: the one the phase
   * index picks for the kept ratios.
   */
  lemma LayoutPartition(ratios: seq<real>, position: real, i: nat)
    requires Layout(ratios) != [] && 0.0 <= position < 1.0
    ensures CycleUnitTotal(Kept(ratios)) > 0.0
    ensures ActivePhase(Kept(ratios), position) < |Layout(ratios)|
    ensures Contains(Layout(ratios)[ActivePhase(Kept(ratios), position)], position)
    ensures i < |Layout(ratios)| && Contains(Layout(ratios)[i], position) ==> i == ActivePhase(Kept(ratios), position)
  {
    var kept := Kept(ratios);
    LayoutLength(ratios);
    LayoutBoundaries(ratios, 0);
    var k := ActivePhase(kept, position);
    ActivePhaseContains(kept, position);
    LayoutBoundaries(ratios, k);
    if i < |Layout(ratios)| {
      LayoutBoundaries(ratios, i);
      if k < i {
        BoundaryMonotone(kept, k + 1, i);
      }
    }
  }

  /** For a pattern whose ratios are all positive, the lit segment is the announced phase. */
  lemma SegmentOfActivePhase(ratios: seq<real>, position: real)
    requires AllPositive(ratios) && ratios != [] && 0.0 <= position < 1.0
    ensures CycleUnitTotal(ratios) > 0.0
    ensures ActivePhase(ratios, position) < |Layout(ratios)|
    ensures Contains(Layout(ratios)[ActivePhase(ratios, position)], position)
  {
    KeptExactly(ratios);
    KeptTotal(ratios);
    LayoutLength(ratios);
    LayoutPartition(ratios, position, 0);
  }

  /**
   * The segment builder with its running cursor: for each kept ratio, its share
   * of the total, starting where the previous segment ended.
   */
  method BuildSegments(ratios: seq<real>) returns (segments: seq<Segment>)
    ensures segments == Layout(ratios)
  {
    var valid := Kept(ratios);
    var total := Sum(valid);
    if total == 0.0 || |valid| == 0 {
      return [];
    }
    ghost var target := Layout(ratios);
    LayoutLength(ratios);
    segments := [];
    var cursor := 0.0;
    var i := 0;
    assert valid[..0] == [];
    while i < |valid|
      invariant 0 <= i <= |valid| == |target|
      invariant cursor == Sum(valid[..i]) / total
      invariant segments == target[..i]
    {
      var fraction := valid[i] / total;
      var start := cursor;
      LayoutAt(ratios, i);
      assert target[..i + 1] == target[..i] + [target[i]];
      SumStep(valid, i);
      DivideSum(Sum(valid[..i]), valid[i], total);
      cursor := cursor + fraction;
      segments := segments + [Segment(start, fraction, Colors[i % |Colors|])];
      i := i + 1;
    }
    assert target[..|valid|] == target;
  }

  /** `Math.max(0, Math.min(1, progress))`. */
  function ClampedProgress(progress: real): (c: real)
    ensures 0.0 <= c <= 1.0
    ensures 0.0 <= progress <= 1.0 ==> c == progress
    ensures progress < 0.0 ==> c == 0.0
    ensures progress > 1.0 ==> c == 1.0
  {
    Clamp(progress, 0.0, 1.0)
  }

  /**
   * `segmentProgress`: how much of a segment the clamped progress has passed,
   * in [0, 1]; 0 for a segment at or beyond the progress, 1 for one behind it,
   * and the passed share in between.
   */
  function SegmentProgress(seg: Segment, clamped: real): (sp: real)
    ensures 0.0 <= sp <= 1.0
    ensures seg.fraction <= 0.0 ==> sp == 0.0
    ensures seg.fraction > 0.0 && clamped <= seg.start ==> sp == 0.0
    ensures seg.fraction > 0.0 && seg.start + seg.fraction <= clamped ==> sp == 1.0
    ensures seg.fraction > 0.0 && seg.start <= clamped <= seg.start + seg.fraction ==>
              sp * seg.fraction == clamped - seg.start
  {
    if seg.fraction > 0.0 then
      FractionBounds(clamped - seg.start, seg.fraction);
      MultiplyQuotient(clamped - seg.start, seg.fraction);
      Clamp((clamped - seg.start) / seg.fraction, 0.0, 1.0)
    else 0.0
  }

  /** `Math.max(0, fraction * circumference)`: the length of a segment's arc. */
  function SegmentLength(fraction: real, circumference: real): (len: real)
    ensures len >= 0.0
    ensures fraction >= 0.0 && circumference >= 0.0 ==> len == fraction * circumference
    ensures fraction * circumference < 0.0 ==> len == 0.0
  {
    if fraction * circumference < 0.0 then 0.0 else fraction * circumference
  }

  /** `Math.max(0, Math.min(segmentLength, segmentLength * segmentProgress))`: the filled part of the arc. */
  function ActiveLength(segmentLength: real, segmentProgress: real): (len: real)
    requires segmentLength >= 0.0 && 0.0 <= segmentProgress <= 1.0
    ensures 0.0 <= len <= segmentLength
    ensures len == segmentLength * segmentProgress
  {
    ProductBounds(segmentLength, segmentProgress);
    Clamp(segmentLength * segmentProgress, 0.0, segmentLength)
  }

  lemma ProductBounds(l: real, p: real)
    requires l >= 0.0 && 0.0 <= p <= 1.0
    ensures 0.0 <= l * p <= l
  {
  }

  /** The part of the ring a segment shows filled: its fraction times how much of it is passed. */
  function FilledPart(seg: Segment, clamped: real): real {
    seg.fraction * SegmentProgress(seg, clamped)
  }

  /** The filled share of the ring: the filled parts of all segments together. */
  function FilledShare(segs: seq<Segment>, clamped: real): real
    decreases |segs|
  {
    if segs == [] then 0.0
    else FilledShare(segs[..|segs| - 1], clamped) + FilledPart(segs[|segs| - 1], clamped)
  }

  function Min(a: real, b: real): real {
    if a <= b then a else b
  }

  lemma FilledShareStep(segs: seq<Segment>, k: nat, clamped: real)
    requires 0 < k <= |segs|
    ensures FilledShare(segs[..k], clamped) == FilledShare(segs[..k - 1], clamped) + FilledPart(segs[k - 1], clamped)
  {
    assert segs[..k][..k - 1] == segs[..k - 1];
  }

  /** One more segment, from `b` to `b + f`, extends the filled share from `min(c, b)` to `min(c, b + f)`. */
  lemma FillStep(b: real, f: real, c: real, color: string)
    requires f > 0.0
    ensures Min(c, b) + FilledPart(Segment(b, f, color), c) == Min(c, b + f)
  {
    var sp := SegmentProgress(Segment(b, f, color), c);
    assert f * sp == sp * f;
  }

  lemma {:induction false} FilledPrefix(ratios: seq<real>, clamped: real, k: nat)
    requires Layout(ratios) != [] && 0.0 <= clamped
    requires k <= |Layout(ratios)|
    ensures CycleUnitTotal(Kept(ratios)) > 0.0
    ensures FilledShare(Layout(ratios)[..k], clamped) == Min(clamped, Boundary(Kept(ratios), k))
    decreases k
  {
    var segs := Layout(ratios);
    LayoutLength(ratios);
    LayoutBoundaries(ratios, 0);
    if k == 0 {
      BoundaryEnds(Kept(ratios));
      assert segs[..0] == [];
    } else {
      FilledPrefix(ratios, clamped, k - 1);
      FilledShareStep(segs, k, clamped);
      LayoutBoundaries(ratios, k - 1);
      LayoutSegment(ratios, k - 1);
      var seg := segs[k - 1];
      assert seg == Segment(seg.start, seg.fraction, seg.color);
      FillStep(seg.start, seg.fraction, clamped, seg.color);
    }
  }

  /** The filled parts of the segments add up to the clamped progress: the ring shows exactly the share of the cycle gone by. */
  lemma FilledShareIsProgress(ratios: seq<real>, progress: real)
    requires Layout(ratios) != []
    ensures FilledShare(Layout(ratios), ClampedProgress(progress)) == ClampedProgress(progress)
  {
    var segs := Layout(ratios);
    FilledPrefix(ratios, ClampedProgress(progress), |segs|);
    assert segs[..|segs|] == segs;
    LayoutLength(ratios);
    BoundaryEnds(Kept(ratios));
  }

  lemma BalancedSums()
    ensures Kept([4.0, 4.0, 8.0]) == [4.0, 4.0, 8.0]
    ensures Sum([4.0, 4.0, 8.0][..0]) == 0.0
    ensures Sum([4.0, 4.0, 8.0][..1]) == 4.0
    ensures Sum([4.0, 4.0, 8.0][..2]) == 8.0
    ensures Sum([4.0, 4.0, 8.0]) == 16.0
  {
    var r := [4.0, 4.0, 8.0];
    assert r[..0] == [] && r[..1] == [4.0] && r[..2] == [4.0, 4.0];
    assert [4.0, 4.0][..1] == [4.0] && [4.0][..0] == [];
    assert Kept([4.0]) == [4.0];
    assert Kept([4.0, 4.0]) == [4.0, 4.0];
    assert Sum([4.0]) == 4.0;
    assert Sum([4.0, 4.0]) == 8.0;
  }

  /** The 4-4-8 pattern: arcs of a quarter, a quarter and a half, in the first three colors. */
  lemma BalancedLayout()
    ensures Layout([4.0, 4.0, 8.0]) == [
      Segment(0.0, 0.25, "#60a5fa"), Segment(0.25, 0.25, "#f59e0b"), Segment(0.5, 0.5, "#f472b6")]
  {
    var r := [4.0, 4.0, 8.0];
    BalancedSums();
    LayoutLength(r);
    LayoutAt(r, 0);
    LayoutAt(r, 1);
    LayoutAt(r, 2);
  }
}
