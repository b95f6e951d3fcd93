/** The playback clock of one queue entry, root-motion extraction across loop wraps, and the proof
    that per-frame deltas telescope over any run. */
module RootMotion {
  import opened Common
  import opened Arithmetic
  import opened MotionClock
  import opened RootPose

  // ----- the clock -----

  datatype Clock = Clock(segment: nat, phase: real)

  /** What one update of the clock did. */
  datatype Tick = Tick(clock: Clock, advances: nat, loops: nat)

  /** Whole units crossed when the phase reaches `x`. */
  function UnitsCrossed(x: real): (n: nat)
    ensures x >= 1.0 ==> n as real <= x < n as real + 1.0
    ensures x < 1.0 ==> n == 0
  {
    if x < 1.0 then 0 else x.Floor
  }

  /** What the motion asks of one update: a normalized delta and the entry's segment count, the largest
      among the clips active at that moment; or nothing, which leaves the clock alone. */
  datatype TimeStep = NoStep | TimeStep(delta: real, segments: nat) {
    function Delta(): real {
      if NoStep? then 0.0 else delta
    }

    function Count(): (n: nat)
      ensures n >= 1
    {
      if NoStep? || segments == 0 then 1 else segments
    }
  }

  /** Closed form of one clock update: a looping entry wraps its segment index, another one stops at
      the end of its last segment. An index at or past the count steps like the last one. */
  function Advance(c: Clock, step: TimeStep, looping: bool): Tick {
    if step.NoStep? then Tick(c, 0, 0)
    else
      var x, count := c.phase + step.delta, step.Count();
      var units, from := UnitsCrossed(x), if c.segment < count then c.segment else count - 1;
      if units == 0 then Tick(Clock(c.segment, x), 0, 0)
      else if looping || from + units < count then
        Tick(Clock(Rem(from + units, count), x - units as real), units,
             if looping then Quot(from + units, count) else 0)
      else Tick(Clock(count - 1, 1.0), count - from, 0)
  }

  /** One update by cases: without a step, or short of a whole unit, only the phase moves; otherwise the
      whole part of the phase is the number of segments advanced, from the last one when the index is past
      the count, and an entry that plays once stops at the end of its last segment. */
  lemma AdvanceMeans(c: Clock, delta: real, segments: nat, looping: bool)
    ensures Advance(c, NoStep, looping) == Tick(c, 0, 0)
    ensures var x, n := c.phase + delta, if segments < 1 then 1 else segments;
            var from := if c.segment < n then c.segment else n - 1;
            var tick := Advance(c, TimeStep(delta, segments), looping);
            && (x < 1.0 ==> tick == Tick(Clock(c.segment, x), 0, 0))
            && (x >= 1.0 && (looping || from + x.Floor < n) ==>
                 && tick.clock == Clock((from + x.Floor) % n, x - x.Floor as real) && tick.advances == x.Floor
                 && tick.loops == if looping then (from + x.Floor) / n else 0)
            && (x >= 1.0 && !looping && from + x.Floor >= n ==> tick == Tick(Clock(n - 1, 1.0), n - from, 0))
  {
    hide Rem, Quot;
    var x, n := c.phase + delta, if segments < 1 then 1 else segments;
    if x >= 1.0 {
      QuotRemDivide((if c.segment < n then c.segment else n - 1) + x.Floor, n);
    }
  }

  /** The unwinding loop of one update. */
  method UpdateAnimationTime(c: Clock, step: TimeStep, looping: bool) returns (t: Tick)
    ensures t == Advance(c, step, looping)
  {
    hide Rem, Quot;
    if step.NoStep? {
      return Tick(c, 0, 0);
    }
    var segment, phase, advances, loops := c.segment, c.phase + step.delta, 0, 0;
    var segmentCount := if step.segments < 1 then 1 else step.segments;
    ghost var x := phase;
    ghost var from := if c.segment < segmentCount then c.segment else segmentCount - 1;
    RemSmall(from, segmentCount);
    while phase >= 1.0
      invariant phase == x - advances as real && 0 <= advances <= UnitsCrossed(x)
      invariant if advances == 0 then segment == c.segment else segment == Rem(from + advances, segmentCount)
      invariant if looping then loops == Quot(from + advances, segmentCount)
                else from + advances < segmentCount && loops == 0
      decreases UnitsCrossed(x) - advances
    {
      assert advances < UnitsCrossed(x);
      RemNext(from + advances, segmentCount);
      if !looping {
        RemSmall(from + advances, segmentCount);
      }
      advances := advances + 1;
      if segment + 1 < segmentCount {
        phase := phase - 1.0;
        segment := segment + 1;
        continue;
      }
      if looping {
        phase := phase - 1.0;
        segment := 0;
        loops := loops + 1;
        continue;
      }
      phase := 1.0;
      segment := segmentCount - 1;
      break;
    }
    t := Tick(Clock(segment, phase), advances, loops);
  }

  // ----- one clip driven by the clock -----

  /** The root curves of a clip; a rotation curve is sampled as its normalized yaw. */
  datatype RootClip = RootClip(
    timing: Timing, duration: real, translation: Option<real -> Vec3>, rotation: Option<real -> Yaw>)
  {
    predicate Valid() {
      timing.Valid()
    }

    predicate HasRoot() {
      translation.Some? || rotation.Some?
    }

    /** The root pose at a time, `None` when the clip animates neither part of the root. */
    function SamplePose(time: real): (r: Option<Pose>)
      ensures r.Some? <==> HasRoot()
    {
      if !HasRoot() then None
      else Some(Pose(if rotation.Some? then rotation.value(time) else IDENTITY_YAW,
                     if translation.Some? then translation.value(time) else Vec3(0.0, 0.0, 0.0)))
    }

    function PoseAt(time: real): Pose
      requires HasRoot()
    {
      SamplePose(time).value
    }
  }

  /** Normalized clip time shown when the shared clock stands at `c`. */
  function SampleTime(m: RootClip, c: Clock, looping: bool): real
    requires m.Valid()
  {
    m.timing.NormalizedTime(ResolvedSampleSegment(c.segment, looping, m.timing), c.phase).value
  }

  function SampleSeconds(m: RootClip, c: Clock, looping: bool): real
    requires m.Valid()
  {
    SampleTime(m, c, looping) * m.duration
  }

  /** Times this clip's own segments wrapped in an update that advanced the shared index. */
  function SampleLoops(m: RootClip, previous: Clock, advances: nat, looping: bool): nat
    requires m.Valid()
  {
    var n := m.timing.SegmentCount();
    if looping then Quot(Rem(previous.segment, n) + advances, n) else 0
  }

  function Cycle(m: RootClip): Pose
    requires m.HasRoot()
  {
    Compose(Inverse(m.PoseAt(0.0)), m.PoseAt(m.duration))
  }

  /** Movement from one pose to another with `loops` wraps between: straight across, or through the
      end of the clip, any whole cycles, and on from its start. */
  function LoopedDelta(m: RootClip, from: Pose, to: Pose, loops: nat): Pose
    requires m.HasRoot()
  {
    if loops == 0 then Compose(Inverse(from), to)
    else Compose(Compose(Compose(Inverse(from), m.PoseAt(m.duration)), Power(Cycle(m), loops - 1)),
                 Compose(Inverse(m.PoseAt(0.0)), to))
  }

  /** Root movement of one update. */
  function RootDelta(m: RootClip, previous: Clock, tick: Tick, looping: bool): Pose
    requires m.Valid() && m.HasRoot()
  {
    LoopedDelta(m, m.PoseAt(SampleSeconds(m, previous, looping)), m.PoseAt(SampleSeconds(m, tick.clock, looping)),
                SampleLoops(m, previous, tick.advances, looping))
  }

  method AnimationRootDelta(m: RootClip, previous: Clock, tick: Tick, looping: bool) returns (r: Option<Pose>)
    requires m.Valid()
    ensures r.Some? <==> m.HasRoot()
    ensures r.Some? ==> r.value == RootDelta(m, previous, tick, looping)
  {
    hide Compose, Inverse, SampleSeconds, SampleLoops;
    var from := m.SamplePose(SampleSeconds(m, previous, looping));
    var to := m.SamplePose(SampleSeconds(m, tick.clock, looping));
    if from.None? || to.None? {
      return None;
    }
    var loops := SampleLoops(m, previous, tick.advances, looping);
    if loops == 0 {
      return Some(Compose(Inverse(from.value), to.value));
    }
    var start, end := m.SamplePose(0.0), m.SamplePose(m.duration);
    var first := Compose(Inverse(from.value), end.value);
    var delta := first;
    var cycle := Compose(Inverse(start.value), end.value);
    ComposeIdentity(first);
    for i := 1 to loops
      invariant delta == Compose(first, Power(cycle, i - 1))
    {
      ComposeAssoc(first, Power(cycle, i - 1), cycle);
      delta := Compose(delta, cycle);
    }
    return Some(Compose(delta, Compose(Inverse(start.value), to.value)));
  }

  /** The clip laid end to end `k` times, then continued to `pose`. */
  function Unwrapped(m: RootClip, k: nat, pose: Pose): Pose
    requires m.HasRoot()
  {
    Compose(Power(Cycle(m), k), Compose(Inverse(m.PoseAt(0.0)), pose))
  }

  /** A root delta is the step between two unwrapped poses, whatever loop it is counted from. */
  lemma DeltaIsUnwrappedStep(m: RootClip, previous: Clock, tick: Tick, looping: bool, k: nat)
    requires m.Valid() && m.HasRoot()
    ensures var from := m.PoseAt(SampleSeconds(m, previous, looping));
            var to := m.PoseAt(SampleSeconds(m, tick.clock, looping));
            var loops := SampleLoops(m, previous, tick.advances, looping);
            RootDelta(m, previous, tick, looping)
            == Compose(Inverse(Unwrapped(m, k, from)), Unwrapped(m, k + loops, to))
  {
    hide Compose, Inverse, SampleSeconds, SampleLoops, Power;
    var from := m.PoseAt(SampleSeconds(m, previous, looping));
    var to := m.PoseAt(SampleSeconds(m, tick.clock, looping));
    var loops := SampleLoops(m, previous, tick.advances, looping);
    UnwrappedStep(m.PoseAt(0.0), m.PoseAt(m.duration), from, to, k, loops);
  }

  lemma UnwrappedStep(start: Pose, end: Pose, from: Pose, to: Pose, k: nat, loops: nat)
    ensures var c := Compose(Inverse(start), end);
            var a, b := Compose(Inverse(start), from), Compose(Inverse(start), to);
            Compose(Inverse(Compose(Power(c, k), a)), Compose(Power(c, k + loops), b))
            == if loops == 0 then Compose(Inverse(from), to)
               else Compose(Compose(Compose(Inverse(from), end), Power(c, loops - 1)), b)
  {
    hide Compose, Inverse;
    var c := Compose(Inverse(start), end);
    var a, b := Compose(Inverse(start), from), Compose(Inverse(start), to);
    var middle := Compose(Power(c, loops), b);
    // Strip the common power, then write the inverse of `a` out.
    InverseCompose(Power(c, k), a);
    PowerAdd(c, k, loops);
    ComposeAssoc(Power(c, k), Power(c, loops), b);
    CancelMiddle(Inverse(a), Power(c, k), middle);
    InverseOfRelative(start, from);
    if loops == 0 {
      ComposeIdentity(b);
      ComposeCancel(Inverse(from), start, to);
    } else {
      PowerAdd(c, 1, loops - 1);
      ComposeIdentity(c);
      assert Power(c, 1) == c by {
        assert Power(c, 0) == IDENTITY;
      }
      var rest := Compose(Power(c, loops - 1), b);
      ComposeAssoc(c, Power(c, loops - 1), b);
      ComposeAssoc(Inverse(start), end, rest);
      ComposeCancel(Inverse(from), start, Compose(end, rest));
      ComposeAssoc(Inverse(from), end, rest);
      ComposeAssoc(Compose(Inverse(from), end), Power(c, loops - 1), b);
    }
  }

  lemma CancelMiddle(p: Pose, m: Pose, q: Pose)
    ensures Compose(Compose(p, Inverse(m)), Compose(m, q)) == Compose(p, q)
  {
    hide Compose, Inverse;
    ComposeAssoc(p, Inverse(m), Compose(m, q));
    ComposeAssoc(Inverse(m), m, q);
    ComposeInverse(m);
    ComposeIdentity(q);
  }

  lemma InverseOfRelative(start: Pose, from: Pose)
    ensures Inverse(Compose(Inverse(start), from)) == Compose(Inverse(from), start)
  {
    hide Compose, Inverse;
    InverseCompose(Inverse(start), from);
    ComposeInverse(start);
    InverseUnique(Inverse(start), start);
  }

  // ----- runs -----

  /** The clock, with the segments advanced and the loops made, after a sequence of updates. */
  function RunClock(c: Clock, steps: seq<TimeStep>, looping: bool): Tick {
    if steps == [] then Tick(c, 0, 0)
    else
      var before := RunClock(c, steps[..|steps| - 1], looping);
      var tick := Advance(before.clock, steps[|steps| - 1], looping);
      Tick(tick.clock, before.advances + tick.advances, before.loops + tick.loops)
  }

  lemma RunExtends(c: Clock, steps: seq<TimeStep>, step: TimeStep, looping: bool)
    ensures var before := RunClock(c, steps, looping);
            var tick := Advance(before.clock, step, looping);
            RunClock(c, steps + [step], looping)
            == Tick(tick.clock, before.advances + tick.advances, before.loops + tick.loops)
  {
    hide Advance;
    assert (steps + [step])[..|steps|] == steps;
  }

  /** All root deltas of a run, composed in order. */
  function RunDelta(m: RootClip, c: Clock, steps: seq<TimeStep>, looping: bool): Pose
    requires m.Valid() && m.HasRoot()
  {
    if steps == [] then IDENTITY
    else
      var init := steps[..|steps| - 1];
      var before := RunClock(c, init, looping).clock;
      Compose(RunDelta(m, c, init, looping),
              RootDelta(m, before, Advance(before, steps[|steps| - 1], looping), looping))
  }

  /** How often the clip has wrapped when the unbounded segment counter stands at `g`. */
  function LoopsAt(m: RootClip, g: nat, looping: bool): nat
    requires m.Valid()
  {
    if looping then Quot(g, m.timing.SegmentCount()) else 0
  }

  // ----- when the shared index keeps step with the unbounded counter -----

  /** How far the wraps of one update wind a looping entry's index back: the first wrap by the segment
      count, or by more from an index already past it, and every further one by the count. */
  function Rewound(c: Clock, step: TimeStep): nat {
    var loops := Advance(c, step, true).loops;
    if loops == 0 then 0
    else (if c.segment < step.Count() then step.Count() else c.segment + 1) + Multiple(step.Count(), loops - 1)
  }

  lemma AdvanceRewinds(c: Clock, step: TimeStep)
    ensures var tick := Advance(c, step, true);
            tick.clock.segment + Rewound(c, step) == c.segment + tick.advances
  {
    hide Rem, Quot, Multiple, UnitsCrossed;
    if step.TimeStep? && UnitsCrossed(c.phase + step.delta) > 0 {
      var from := if c.segment < step.Count() then c.segment else step.Count() - 1;
      QuotLast(from + UnitsCrossed(c.phase + step.delta), step.Count());
    }
  }

  /** The shared index after a run names the same segment of an `n`-segment clip as the counter. */
  predicate InStep(n: nat, c: Clock, steps: seq<TimeStep>)
    requires n > 0
  {
    var t := RunClock(c, steps, true);
    Rem(t.clock.segment, n) == Rem(c.segment + t.advances, n)
  }

  /** Every update of the run winds the index back by whole cycles of an `n`-segment clip. */
  predicate RewindsWhole(n: nat, c: Clock, steps: seq<TimeStep>)
    requires n > 0
  {
    steps == []
    || (var init := steps[..|steps| - 1];
        RewindsWhole(n, c, init) && Rem(Rewound(RunClock(c, init, true).clock, steps[|steps| - 1]), n) == 0)
  }

  predicate CountsAgree(m: RootClip, c: Clock, steps: seq<TimeStep>, looping: bool)
    requires m.Valid()
  {
    looping ==> RewindsWhole(m.timing.SegmentCount(), c, steps)
  }

  lemma CountsAgreePrefix(m: RootClip, c: Clock, steps: seq<TimeStep>, step: TimeStep, looping: bool)
    requires m.Valid() && CountsAgree(m, c, steps + [step], looping)
    ensures CountsAgree(m, c, steps, looping)
  {
    hide Rem, Rewound, RunClock;
    assert (steps + [step])[..|steps|] == steps;
  }

  /** The exact condition for one update: an index in step stays so if and only if the update winds it
      back by a multiple of the clip's segment count. */
  lemma StepKeptExactly(n: nat, c: Clock, steps: seq<TimeStep>, step: TimeStep)
    requires n > 0 && InStep(n, c, steps)
    ensures InStep(n, c, steps + [step]) <==> Rem(Rewound(RunClock(c, steps, true).clock, step), n) == 0
  {
    hide Rem, Quot, Advance, Rewound;
    var before := RunClock(c, steps, true);
    var tick := Advance(before.clock, step, true);
    var back := Rewound(before.clock, step);
    assert (steps + [step])[..|steps|] == steps;
    AdvanceRewinds(before.clock, step);
    RemAdd(before.clock.segment, tick.advances, n);
    RemAdd(c.segment + before.advances, tick.advances, n);
    RemShift(tick.clock.segment, back, n);
  }

  /** One wrap of an index already past the count keeps step exactly when the index is the last of a
      cycle of the clip. */
  lemma PastCountWrap(n: nat, c: Clock, steps: seq<TimeStep>, step: TimeStep)
    requires n > 0 && InStep(n, c, steps)
    requires var before := RunClock(c, steps, true).clock;
             before.segment >= step.Count() && Advance(before, step, true).loops == 1
    ensures InStep(n, c, steps + [step]) <==> Rem(RunClock(c, steps, true).clock.segment + 1, n) == 0
  {
    hide Rem, Quot, Advance, InStep;
    StepKeptExactly(n, c, steps, step);
  }

  /** Over a whole run: the index is in step after every prefix if and only if every update winds it
      back by whole cycles of the clip. */
  lemma {:induction false} InStepExactly(n: nat, c: Clock, steps: seq<TimeStep>)
    requires n > 0
    ensures RewindsWhole(n, c, steps) <==> forall i :: 0 <= i <= |steps| ==> InStep(n, c, steps[..i])
  {
    if steps == [] {
      assert InStep(n, c, steps);
    } else {
      hide Rem, Rewound, InStep;
      var init, last := steps[..|steps| - 1], steps[|steps| - 1];
      InStepExactly(n, c, init);
      assert forall i :: 0 <= i <= |init| ==> init[..i] == steps[..i];
      assert init + [last] == steps == steps[..|steps|];
      if InStep(n, c, init) {
        StepKeptExactly(n, c, init, last);
      } else {
        assert init == steps[..|init|];
      }
    }
  }

  lemma RewindsInStep(n: nat, c: Clock, steps: seq<TimeStep>)
    requires n > 0 && RewindsWhole(n, c, steps)
    ensures InStep(n, c, steps)
  {
    InStepExactly(n, c, steps);
    assert steps == steps[..|steps|];
  }

  /** Whole cycles are wound back when the clip's count divides the count of every update and the index
      is always below it. */
  lemma {:induction false} InRangeRewindsWhole(n: nat, c: Clock, steps: seq<TimeStep>)
    requires n > 0
    requires forall i :: 0 <= i < |steps| && steps[i].TimeStep? ==>
               Rem(steps[i].Count(), n) == 0 && RunClock(c, steps[..i], true).clock.segment < steps[i].Count()
    ensures RewindsWhole(n, c, steps)
  {
    if steps != [] {
      var init, last := steps[..|steps| - 1], steps[|steps| - 1];
      assert forall i :: 0 <= i < |init| ==> init[..i] == steps[..i];
      assert steps[..|init|] == init;
      hide Rem, Advance, Multiple, RunClock;
      InRangeRewindsWhole(n, c, init);
      var before := RunClock(c, init, true).clock;
      var loops := Advance(before, last, true).loops;
      RemSmall(0, n);
      if loops > 0 {
        RemMultiple(last.Count(), loops - 1, n);
      }
    }
  }

  /** When the counts agree, one update counts exactly the wraps of the unbounded counter. */
  lemma LoopsCounted(m: RootClip, c: Clock, steps: seq<TimeStep>, step: TimeStep, looping: bool)
    requires m.Valid() && CountsAgree(m, c, steps, looping)
    ensures LoopsRight(m, c, steps, step, looping)
  {
    hide Rem, Quot, Advance, RunClock;
    if looping {
      var before := RunClock(c, steps, looping);
      var n := m.timing.SegmentCount();
      RewindsInStep(n, c, steps);
      RemAdd(c.segment + before.advances, Advance(before.clock, step, looping).advances, n);
    }
  }

  /** The update after a run counts as many loops of the clip as the unbounded counter makes. */
  predicate LoopsRight(m: RootClip, c: Clock, steps: seq<TimeStep>, step: TimeStep, looping: bool)
    requires m.Valid()
  {
    var before := RunClock(c, steps, looping);
    var tick := Advance(before.clock, step, looping);
    var g := c.segment + before.advances;
    SampleLoops(m, before.clock, tick.advances, looping)
    == LoopsAt(m, g + tick.advances, looping) - LoopsAt(m, g, looping)
  }

  // ----- root motion of a run -----

  /** The unwrapped pose reached by a run. */
  function UnwrappedAfter(m: RootClip, c: Clock, steps: seq<TimeStep>, looping: bool): Pose
    requires m.Valid() && m.HasRoot()
  {
    var t := RunClock(c, steps, looping);
    Unwrapped(m, LoopsAt(m, c.segment + t.advances, looping), m.PoseAt(SampleSeconds(m, t.clock, looping)))
  }

  /** Main result: when the counts agree, the root deltas of a run compose to the step between its two
      unwrapped ends. */
  lemma {:induction false} RunTelescopes(m: RootClip, c: Clock, steps: seq<TimeStep>, looping: bool)
    requires m.Valid() && m.HasRoot() && CountsAgree(m, c, steps, looping)
    ensures RunDelta(m, c, steps, looping)
         == Compose(Inverse(UnwrappedAfter(m, c, [], looping)), UnwrappedAfter(m, c, steps, looping))
  {
    hide Compose, Inverse, Unwrapped, RootDelta, Advance, SampleSeconds, SampleLoops, LoopsAt, Rem, Rewound;
    if steps == [] {
      ComposeInverse(UnwrappedAfter(m, c, [], looping));
    } else {
      var init, last := steps[..|steps| - 1], steps[|steps| - 1];
      var before := RunClock(c, init, looping);
      var tick := Advance(before.clock, last, looping);
      RunTelescopes(m, c, init, looping);
      LoopsCounted(m, c, init, last, looping);
      DeltaIsUnwrappedStep(m, before.clock, tick, looping, LoopsAt(m, c.segment + before.advances, looping));
      CancelThrough(UnwrappedAfter(m, c, [], looping), UnwrappedAfter(m, c, init, looping),
                    UnwrappedAfter(m, c, steps, looping));
    }
  }

  lemma CancelThrough(p: Pose, q: Pose, r: Pose)
    ensures Compose(Compose(Inverse(p), q), Compose(Inverse(q), r)) == Compose(Inverse(p), r)
  {
    ComposeCancel(Inverse(p), q, r);
  }

  // ----- the end of a run depends only on the elapsed time -----

  function Elapsed(steps: seq<TimeStep>): real {
    if steps == [] then 0.0 else Elapsed(steps[..|steps| - 1]) + steps[|steps| - 1].Delta()
  }

  /** `g` is the whole part of `x`. */
  predicate WholePart(g: nat, x: real) {
    g as real <= x < g as real + 1.0
  }

  lemma WholePartUnique(g: nat, h: nat, x: real)
    requires WholePart(g, x) && WholePart(h, x)
    ensures g == h
  {
    assert (g - h) as real < 1.0 && (h - g) as real < 1.0;
  }

  lemma WholePartAdvances(g: nat, x: real, delta: real)
    requires WholePart(g, x) && delta >= 0.0
    ensures var y := x - g as real + delta;
            var units := UnitsCrossed(y);
            WholePart(g + units, x + delta) && y - units as real == x + delta - (g + units) as real
  {
    assert (g + UnitsCrossed(x - g as real + delta)) as real == g as real + UnitsCrossed(x - g as real + delta) as real;
  }

  predicate Forward(steps: seq<TimeStep>) {
    forall i :: 0 <= i < |steps| ==> steps[i].Delta() >= 0.0
  }

  /** A looping entry's counter and phase are the whole and the fractional part of the units covered,
      whatever the segment counts along the way. */
  lemma {:induction false} LoopingStands(c: Clock, steps: seq<TimeStep>)
    requires 0.0 <= c.phase < 1.0 && Forward(steps)
    ensures var t, x := RunClock(c, steps, true), c.segment as real + c.phase + Elapsed(steps);
            WholePart(c.segment + t.advances, x) && t.clock.phase == x - (c.segment + t.advances) as real
  {
    hide Rem, Quot;
    if steps != [] {
      var init, last := steps[..|steps| - 1], steps[|steps| - 1];
      LoopingStands(c, init);
      var g := c.segment + RunClock(c, init, true).advances;
      WholePartAdvances(g, c.segment as real + c.phase + Elapsed(init), last.Delta());
    }
  }

  lemma SameSample(m: RootClip, s: Clock, t: Clock)
    requires m.Valid() && s.phase == t.phase
    requires Rem(s.segment, m.timing.SegmentCount()) == Rem(t.segment, m.timing.SegmentCount())
    ensures SampleTime(m, s, true) == SampleTime(m, t, true)
  {
  }

  /** Main result: two looping runs whose counts agree and that cover the same time compose to the same
      root motion, however that time is split into frames and whatever the counts in each. */
  lemma SplitIndependent(m: RootClip, c: Clock, a: seq<TimeStep>, b: seq<TimeStep>)
    requires m.Valid() && m.HasRoot() && CountsAgree(m, c, a, true) && CountsAgree(m, c, b, true)
    requires 0.0 <= c.phase < 1.0 && Forward(a) && Forward(b) && Elapsed(a) == Elapsed(b)
    ensures RunDelta(m, c, a, true) == RunDelta(m, c, b, true)
  {
    hide RunDelta, RunClock, Elapsed, Compose, Inverse, Unwrapped, SampleTime, RewindsWhole, Rem, LoopsAt;
    var s, t := RunClock(c, a, true), RunClock(c, b, true);
    RunTelescopes(m, c, a, true);
    RunTelescopes(m, c, b, true);
    LoopingStands(c, a);
    LoopingStands(c, b);
    WholePartUnique(c.segment + s.advances, c.segment + t.advances, c.segment as real + c.phase + Elapsed(a));
    RewindsInStep(m.timing.SegmentCount(), c, a);
    RewindsInStep(m.timing.SegmentCount(), c, b);
    assert s.advances == t.advances && s.clock.phase == t.clock.phase;
    SameSample(m, s.clock, t.clock);
    assert SampleSeconds(m, s.clock, true) == SampleSeconds(m, t.clock, true);
    assert UnwrappedAfter(m, c, a, true) == UnwrappedAfter(m, c, b, true);
  }

  /** Where an entry that plays once stands after covering `x` units of `count` segments. */
  predicate StandsAt(t: Clock, x: real, count: nat)
    requires count > 0
  {
    if x < count as real then WholePart(t.segment, x) && t.phase == x - t.segment as real
    else t == Clock(count - 1, 1.0)
  }

  /** The segment count stays at `count`, or differs only in a run that ends short of both. */
  predicate EndsAt(step: TimeStep, count: nat, x: real) {
    step.NoStep? || step.Count() == count || (x < count as real && x < step.Count() as real)
  }

  lemma OnceAdvances(t: Clock, x: real, step: TimeStep, count: nat)
    requires count > 0 && step.Delta() >= 0.0 && StandsAt(t, x, count) && EndsAt(step, count, x + step.Delta())
    ensures StandsAt(Advance(t, step, false).clock, x + step.Delta(), count)
  {
    hide Rem, Quot;
    if step.TimeStep? && x < count as real {
      var units, end := UnitsCrossed(t.phase + step.delta), step.Count();
      WholePartAdvances(t.segment, x, step.delta);
      assert t.segment as real < end as real;
      if t.segment + units < end {
        RemSmall(t.segment + units, end);
        assert (t.segment + units + 1) as real <= end as real;
      } else {
        assert (t.segment + units) as real >= end as real;
      }
    }
  }

  lemma {:induction false} OnceStands(c: Clock, steps: seq<TimeStep>, count: nat, x: real)
    requires c.segment < count && 0.0 <= c.phase < 1.0 && Forward(steps)
    requires c.segment as real + c.phase + Elapsed(steps) <= x
    requires forall step <- steps :: EndsAt(step, count, x)
    ensures StandsAt(RunClock(c, steps, false).clock, c.segment as real + c.phase + Elapsed(steps), count)
  {
    hide Advance, Rem, Quot;
    if steps == [] {
      assert (c.segment + 1) as real <= count as real;
    } else {
      var init, last := steps[..|steps| - 1], steps[|steps| - 1];
      assert last.Delta() >= 0.0 && EndsAt(last, count, x);
      OnceStands(c, init, count, x);
      OnceAdvances(RunClock(c, init, false).clock, c.segment as real + c.phase + Elapsed(init), last, count);
    }
  }

  /** The same for an entry that plays once, unless its segment count changes in a run that reaches the
      end. */
  lemma SplitIndependentOnce(m: RootClip, c: Clock, a: seq<TimeStep>, b: seq<TimeStep>, count: nat)
    requires m.Valid() && m.HasRoot() && c.segment < count
    requires 0.0 <= c.phase < 1.0 && Forward(a) && Forward(b) && Elapsed(a) == Elapsed(b)
    requires forall step <- a + b :: EndsAt(step, count, c.segment as real + c.phase + Elapsed(a))
    ensures RunDelta(m, c, a, false) == RunDelta(m, c, b, false)
  {
    hide RunDelta, RunClock, Elapsed, Compose, Inverse, Unwrapped, SampleTime, WholePart;
    var x := c.segment as real + c.phase + Elapsed(a);
    var s, t := RunClock(c, a, false).clock, RunClock(c, b, false).clock;
    RunTelescopes(m, c, a, false);
    RunTelescopes(m, c, b, false);
    assert forall step <- a :: step in a + b;
    assert forall step <- b :: step in a + b;
    OnceStands(c, a, count, x);
    OnceStands(c, b, count, x);
    if x < count as real {
      WholePartUnique(s.segment, t.segment, x);
    }
  }

  // ----- elapsed clip time -----

  /** Clip seconds played by one update. */
  function DeltaSeconds(m: RootClip, previous: Clock, tick: Tick, looping: bool): real
    requires m.Valid()
  {
    var loops := SampleLoops(m, previous, tick.advances, looping);
    Scale(if loops == 0 then SampleTime(m, tick.clock, looping) - SampleTime(m, previous, looping)
          else loops as real + SampleTime(m, tick.clock, looping) - SampleTime(m, previous, looping), m.duration)
  }

  function RunSeconds(m: RootClip, c: Clock, steps: seq<TimeStep>, looping: bool): real
    requires m.Valid()
  {
    if steps == [] then 0.0
    else
      var init := steps[..|steps| - 1];
      var before := RunClock(c, init, looping).clock;
      RunSeconds(m, c, init, looping)
      + DeltaSeconds(m, before, Advance(before, steps[|steps| - 1], looping), looping)
  }

  /** Wraps counted over a run, one update at a time. */
  function RunLoops(m: RootClip, c: Clock, steps: seq<TimeStep>, looping: bool): nat
    requires m.Valid()
  {
    if steps == [] then 0
    else
      var init := steps[..|steps| - 1];
      var before := RunClock(c, init, looping).clock;
      RunLoops(m, c, init, looping)
      + SampleLoops(m, before, Advance(before, steps[|steps| - 1], looping).advances, looping)
  }

  /** Normalized clip time with completed loops added. */
  function UnwrappedTime(m: RootClip, c: Clock, steps: seq<TimeStep>, looping: bool): real
    requires m.Valid()
  {
    var t := RunClock(c, steps, looping);
    LoopsAt(m, c.segment + t.advances, looping) as real + SampleTime(m, t.clock, looping)
  }

  lemma Factor(a: real, b: real, k: real)
    ensures Scale(a, k) + Scale(b, k) == Scale(a + b, k)
  {
  }

  /** Main result: when the counts agree, the loops counted over a run are the wraps of the unbounded
      counter. */
  lemma {:induction false} LoopsTelescope(m: RootClip, c: Clock, steps: seq<TimeStep>, looping: bool)
    requires m.Valid() && CountsAgree(m, c, steps, looping)
    ensures RunLoops(m, c, steps, looping)
         == LoopsAt(m, c.segment + RunClock(c, steps, looping).advances, looping) - LoopsAt(m, c.segment, looping)
  {
    if steps != [] {
      var init, last := steps[..|steps| - 1], steps[|steps| - 1];
      CountsAgreePrefix(m, c, init, last, looping);
      assert init + [last] == steps;
      hide Advance, SampleLoops, LoopsAt, CountsAgree;
      LoopsTelescope(m, c, init, looping);
      LoopsCounted(m, c, init, last, looping);
    }
  }

  /** Whatever the counts, the clip seconds of a run are the loops counted plus the change in clip time. */
  lemma {:induction false} SecondsAreLoops(m: RootClip, c: Clock, steps: seq<TimeStep>, looping: bool)
    requires m.Valid()
    ensures RunSeconds(m, c, steps, looping)
         == Scale(RunLoops(m, c, steps, looping) as real + SampleTime(m, RunClock(c, steps, looping).clock, looping)
                  - SampleTime(m, c, looping), m.duration)
  {
    if steps == [] {
      hide SampleTime;
      Factor(0.0, 0.0, m.duration);
    } else {
      hide SampleTime, SampleLoops, Advance, Scale;
      var init, last := steps[..|steps| - 1], steps[|steps| - 1];
      var before := RunClock(c, init, looping).clock;
      var tick := Advance(before, last, looping);
      SecondsAreLoops(m, c, init, looping);
      Factor(RunLoops(m, c, init, looping) as real + SampleTime(m, before, looping) - SampleTime(m, c, looping),
             SampleLoops(m, before, tick.advances, looping) as real + SampleTime(m, tick.clock, looping)
             - SampleTime(m, before, looping), m.duration);
    }
  }

  /** Main result: when the counts agree, the clip seconds of a run telescope to the difference between its
      two ends. */
  lemma SecondsTelescope(m: RootClip, c: Clock, steps: seq<TimeStep>, looping: bool)
    requires m.Valid() && CountsAgree(m, c, steps, looping)
    ensures RunSeconds(m, c, steps, looping)
         == Scale(UnwrappedTime(m, c, steps, looping) - UnwrappedTime(m, c, [], looping), m.duration)
  {
    hide CountsAgree, RunLoops, RunSeconds, SampleTime, LoopsAt, Scale;
    LoopsTelescope(m, c, steps, looping);
    SecondsAreLoops(m, c, steps, looping);
  }

  lemma SampleTimeMonotone(timing: Timing, segment: nat, p: real, q: real)
    requires timing.Valid() && segment < timing.SegmentCount() && Clamp01(p) <= Clamp01(q)
    ensures timing.NormalizedTime(segment, p).value <= timing.NormalizedTime(segment, q).value
    ensures Clamp01(p) < Clamp01(q) ==>
              timing.NormalizedTime(segment, p).value < timing.NormalizedTime(segment, q).value
  {
    var width := timing.End(segment) - timing.Start(segment);
    assert Scale(Clamp01(q), width) - Scale(Clamp01(p), width) == Scale(Clamp01(q) - Clamp01(p), width);
    ScaleBounds(Clamp01(q) - Clamp01(p), width);
  }

  /** Loops plus clip time for the counter value `g`. */
  function CounterTime(m: RootClip, g: nat, phase: real): real
    requires m.Valid()
  {
    Quot(g, m.timing.SegmentCount()) as real + m.timing.NormalizedTime(Rem(g, m.timing.SegmentCount()), phase).value
  }

  lemma {:induction false} CounterTimeMonotone(m: RootClip, g: nat, p: real, h: nat, q: real)
    requires m.Valid() && g < h
    ensures CounterTime(m, g, p) <= CounterTime(m, h, q)
    decreases h - g
  {
    hide Quot, Rem, Timing.NormalizedTime;
    var n := m.timing.SegmentCount();
    RemNext(g, n);
    NormalizedTimeInSegment(m.timing, Rem(g, n), p);
    NormalizedTimeInSegment(m.timing, Rem(g + 1, n), 0.0);
    NormalizedTimeInSegment(m.timing, Rem(g + 1, n), q);
    EndsInUnit(m.timing, Rem(g, n));
    if g + 1 < h {
      CounterTimeMonotone(m, g + 1, 0.0, h, q);
    }
  }

  /** The update after a run plays no clip time backwards. */
  predicate PlaysForward(m: RootClip, c: Clock, steps: seq<TimeStep>, step: TimeStep, looping: bool)
    requires m.Valid()
  {
    var before := RunClock(c, steps, looping).clock;
    DeltaSeconds(m, before, Advance(before, step, looping), looping) >= 0.0
  }

  /** A forward update of a looping entry never plays a clip backwards. */
  lemma ForwardSeconds(m: RootClip, c: Clock, steps: seq<TimeStep>, step: TimeStep)
    requires m.Valid() && m.duration >= 0.0 && step.Delta() >= 0.0 && CountsAgree(m, c, steps + [step], true)
    ensures PlaysForward(m, c, steps, step, true)
  {
    hide Quot, Rem, RunClock, Advance, Timing.NormalizedTime, Rewound;
    var before := RunClock(c, steps, true);
    var tick := Advance(before.clock, step, true);
    var g := c.segment + before.advances;
    var n := m.timing.SegmentCount();
    RunExtends(c, steps, step, true);
    assert (steps + [step])[..|steps|] == steps;
    LoopsCounted(m, c, steps, step, true);
    RewindsInStep(n, c, steps);
    RewindsInStep(n, c, steps + [step]);
    if tick.advances == 0 {
      PhaseGrows(before.clock, step, true);
      SampleTimeMonotone(m.timing, Rem(g, n), before.clock.phase, tick.clock.phase);
    } else {
      CounterTimeMonotone(m, g, before.clock.phase, g + tick.advances, tick.clock.phase);
    }
    Times(CounterTime(m, g + tick.advances, tick.clock.phase) - CounterTime(m, g, before.clock.phase), m.duration);
  }

  lemma PhaseGrows(t: Clock, step: TimeStep, looping: bool)
    ensures var tick := Advance(t, step, looping);
            tick.advances == 0 ==> tick.clock == Clock(t.segment, t.phase + step.Delta())
  {
    hide Rem, Quot;
  }

  lemma Times(a: real, b: real)
    requires a >= 0.0 && b >= 0.0
    ensures a * b >= 0.0
    ensures a > 0.0 && b > 0.0 ==> a * b > 0.0
  {
  }
}
