/** The timing table of one motion and the mapping between segment phase and whole-clip time. */
module MotionClock {
  import opened Common
  import opened Arithmetic

  /** Normalized segment boundaries, from 0 to 1. */
  datatype Timing = Timing(boundaries: seq<real>) {
    predicate Valid() {
      && |boundaries| >= 2
      && boundaries[0] == 0.0 && boundaries[|boundaries| - 1] == 1.0
      && forall i :: 0 <= i < |boundaries| - 1 ==> boundaries[i] < boundaries[i + 1]
    }

    function SegmentCount(): (n: nat)
      requires Valid()
      ensures n >= 1
    {
      |boundaries| - 1
    }

    function Start(segment: nat): real
      requires Valid() && segment < SegmentCount()
    {
      boundaries[segment]
    }

    function End(segment: nat): (end: real)
      requires Valid() && segment < SegmentCount()
      ensures Start(segment) < end
    {
      boundaries[segment + 1]
    }

    /** Maps a phase within a segment onto the motion's normalized clock. */
    function NormalizedTime(segment: nat, phase: real): (r: Option<real>)
      requires Valid()
      ensures r.Some? <==> segment < SegmentCount()
    {
      if segment < SegmentCount() then
        Some(Start(segment) + Scale(Clamp01(phase), End(segment) - Start(segment)))
      else None
    }
  }

  function Scale(p: real, width: real): real {
    p * width
  }

  function Clamp01(x: real): (r: real)
    ensures 0.0 <= r <= 1.0
  {
    if x < 0.0 then 0.0 else if x > 1.0 then 1.0 else x
  }

  /** The segment a clip plays when the shared segment counter stands at `index`. */
  function ResolvedSampleSegment(index: nat, looping: bool, timing: Timing): (r: nat)
    requires timing.Valid()
    ensures r < timing.SegmentCount()
  {
    var count := timing.SegmentCount();
    if looping then Rem(index, count) else if index < count - 1 then index else count - 1
  }

  /** Whole-clip time of a segment and phase; a segment past the end counts as the last one. */
  function EntireNormalizedTime(timing: Timing, segment: nat, phase: real): Option<real>
    requires timing.Valid()
  {
    timing.NormalizedTime(if segment < timing.SegmentCount() - 1 then segment else timing.SegmentCount() - 1, phase)
  }

  /** Whole-clip time is linear between the boundaries of the segment, of the last one past the end. */
  lemma EntireTimeMeans(timing: Timing, segment: nat, phase: real, k: nat)
    requires timing.Valid() && 0.0 <= phase <= 1.0
    requires k < |timing.boundaries| - 1 && (k == segment || (k < segment && k == |timing.boundaries| - 2))
    ensures var start, end := timing.boundaries[k], timing.boundaries[k + 1];
            var t := EntireNormalizedTime(timing, segment, phase);
            t.Some? && t.value == start + phase * (end - start)
  {
    assert EntireNormalizedTime(timing, segment, phase) == timing.NormalizedTime(k, phase);
    assert Clamp01(phase) == phase;
  }

  lemma {:induction false} EndsIncrease(timing: Timing, i: nat, j: nat)
    requires timing.Valid() && i <= j < timing.SegmentCount()
    ensures timing.End(i) <= timing.End(j)
    ensures i < j ==> timing.End(i) <= timing.Start(j)
    decreases j - i
  {
    if i < j {
      EndsIncrease(timing, i, j - 1);
      assert timing.Start(j) == timing.End(j - 1);
    }
  }

  lemma EndsInUnit(timing: Timing, i: nat)
    requires timing.Valid() && i < timing.SegmentCount()
    ensures 0.0 <= timing.Start(i) && timing.End(i) <= 1.0
  {
    EndsIncrease(timing, i, timing.SegmentCount() - 1);
    EndsIncrease(timing, 0, i);
  }

  lemma ScaleBounds(p: real, width: real)
    requires 0.0 <= p <= 1.0 && width > 0.0
    ensures 0.0 <= Scale(p, width) <= width
    ensures Scale(p, width) == 0.0 <==> p == 0.0
    ensures Scale(p, width) == width <==> p == 1.0
  {
    var q := 1.0 - p;
    assert p * width + q * width == width;
    assert q > 0.0 ==> q * width > 0.0;
    assert p > 0.0 ==> p * width > 0.0;
  }

  lemma NormalizedTimeInSegment(timing: Timing, segment: nat, phase: real)
    requires timing.Valid() && segment < timing.SegmentCount()
    ensures var t := timing.NormalizedTime(segment, phase).value;
            && timing.Start(segment) <= t <= timing.End(segment)
            && (t == timing.Start(segment) <==> Clamp01(phase) == 0.0)
            && (t == timing.End(segment) <==> Clamp01(phase) == 1.0)
  {
    hide Scale, Timing.Start, Timing.End;
    ScaleBounds(Clamp01(phase), timing.End(segment) - timing.Start(segment));
  }

  lemma QuotientInUnit(x: real, width: real)
    requires 0.0 <= x <= width && width > 0.0
    ensures 0.0 <= x / width <= 1.0 && Scale(x / width, width) == x
  {
  }

  /** The least segment reaching `time`, with the phase that maps back to it. */
  predicate IsSegmentTime(timing: Timing, time: real, segment: nat, phase: real)
    requires timing.Valid()
  {
    && segment < timing.SegmentCount() && 0.0 <= phase <= 1.0
    && time <= timing.End(segment)
    && (forall k :: 0 <= k < segment ==> timing.End(k) < time)
    && EntireNormalizedTime(timing, segment, phase) == Some(time)
  }

  lemma SegmentPhase(timing: Timing, segment: nat, t: real)
    requires timing.Valid() && segment < timing.SegmentCount() && timing.Start(segment) <= t <= timing.End(segment)
    ensures var phase := (t - timing.Start(segment)) / (timing.End(segment) - timing.Start(segment));
            0.0 <= phase <= 1.0 && timing.NormalizedTime(segment, phase) == Some(t)
  {
    hide Scale, Timing.Start, Timing.End;
    QuotientInUnit(t - timing.Start(segment), timing.End(segment) - timing.Start(segment));
  }

  /** The timing an entry is measured by: of its active clips the last one with the most segments. */
  function ReferenceTiming(active: seq<Timing>): (r: Option<Timing>)
    requires forall timing <- active :: timing.Valid()
    ensures r.None? <==> active == []
    ensures r.Some? ==> r.value in active
  {
    if active == [] then None
    else
      var best, last := ReferenceTiming(active[..|active| - 1]), active[|active| - 1];
      if best.Some? && best.value.SegmentCount() > last.SegmentCount() then best else Some(last)
  }

  predicate IsReference(active: seq<Timing>, k: nat)
    requires k < |active| && forall timing <- active :: timing.Valid()
  {
    && (forall i :: 0 <= i < k ==> active[i].SegmentCount() <= active[k].SegmentCount())
    && (forall i :: k < i < |active| ==> active[i].SegmentCount() < active[k].SegmentCount())
  }

  lemma {:induction false} ReferenceExactly(active: seq<Timing>, k: nat)
    requires k < |active| && (forall timing <- active :: timing.Valid()) && IsReference(active, k)
    ensures ReferenceTiming(active) == Some(active[k])
  {
    var rest := active[..|active| - 1];
    if k < |rest| {
      assert IsReference(rest, k);
      ReferenceExactly(rest, k);
    } else if rest != [] {
      assert ReferenceTiming(rest).value in rest;
    }
  }

  /** Searches the segments in order; the search succeeds whenever some clip is active. */
  method SegmentTimeFromEntire(active: seq<Timing>, time: real) returns (r: Option<(nat, real)>)
    requires forall timing <- active :: timing.Valid()
    ensures r.Some? <==> active != []
    ensures r.Some? ==> IsSegmentTime(ReferenceTiming(active).value, Clamp01(time), r.value.0, r.value.1)
  {
    var reference := ReferenceTiming(active);
    if reference.None? {
      return None;
    }
    var timing := reference.value;
    var t := Clamp01(time);
    assert timing.End(timing.SegmentCount() - 1) == 1.0;
    for segment := 0 to timing.SegmentCount()
      invariant forall k :: 0 <= k < segment ==> timing.End(k) < t
    {
      var start, end := timing.Start(segment), timing.End(segment);
      if t <= end {
        assert start <= t by {
          if segment > 0 {
            assert timing.End(segment - 1) < t;
          }
        }
        SegmentPhase(timing, segment, t);
        r := Some((segment, Clamp01((t - start) / (end - start))));
        return;
      }
    }
    r := None;
  }

  lemma PhaseIsUnique(timing: Timing, segment: nat, p: real, q: real)
    requires timing.Valid() && segment < timing.SegmentCount() && 0.0 <= p <= 1.0 && 0.0 <= q <= 1.0
    requires timing.NormalizedTime(segment, p) == timing.NormalizedTime(segment, q)
    ensures p == q
  {
    var width := timing.End(segment) - timing.Start(segment);
    assert Scale(p, width) - Scale(q, width) == Scale(p - q, width) == -Scale(q - p, width);
    ScaleBounds(if p < q then q - p else p - q, width);
  }

  /** In reverse: mapping a segment and phase to whole-clip time and searching for it again gives
      the same pair, except that the start of a later segment comes back as the end of the one before. */
  lemma SegmentTimeRoundTrip(timing: Timing, segment: nat, phase: real, s: nat, p: real)
    requires timing.Valid() && segment < timing.SegmentCount() && 0.0 <= phase <= 1.0
    requires IsSegmentTime(timing, EntireNormalizedTime(timing, segment, phase).value, s, p)
    ensures (s, p) == if segment > 0 && phase == 0.0 then (segment - 1, 1.0) else (segment, phase)
  {
    var t := EntireNormalizedTime(timing, segment, phase).value;
    NormalizedTimeInSegment(timing, segment, phase);
    NormalizedTimeInSegment(timing, s, p);
    assert segment > 0 ==> timing.Start(segment) == timing.End(segment - 1);
    if s < segment {
      EndsIncrease(timing, s, segment);
      EndsIncrease(timing, s, segment - 1);
      assert timing.Start(segment - 1) < timing.End(segment - 1);
    } else {
      assert s == segment;
      PhaseIsUnique(timing, segment, phase, p);
    }
  }
}
