/** Exactly which segment counts make loop counts, clip seconds and root motion add up over every run, so
    that they do not depend on how time is split into frames. */
module UnwrappedMotion {
  import opened Common
  import opened Arithmetic
  import opened MotionClock
  import opened RootPose
  import opened RootMotion
  import opened RootMotionLimits

  // ----- what every run may be asked for -----

  /** The loops counted over every run are the wraps of the unbounded counter. */
  ghost predicate LoopsAdd(m: RootClip, counts: set<nat>)
    requires m.Valid()
  {
    forall c, steps | Reached(c, counts) && Within(counts, steps) :: LoopsAddUp(m, c, steps)
  }

  predicate LoopsAddUp(m: RootClip, c: Clock, steps: seq<TimeStep>)
    requires m.Valid()
  {
    RunLoops(m, c, steps, true)
    == LoopsAt(m, c.segment + RunClock(c, steps, true).advances, true) - LoopsAt(m, c.segment, true)
  }

  /** The clip seconds of every run are the change in unwrapped clip time. */
  ghost predicate SecondsAdd(m: RootClip, counts: set<nat>)
    requires m.Valid()
  {
    forall c, steps | Reached(c, counts) && Within(counts, steps) :: SecondsAddUp(m, c, steps)
  }

  predicate SecondsAddUp(m: RootClip, c: Clock, steps: seq<TimeStep>)
    requires m.Valid()
  {
    RunSeconds(m, c, steps, true)
    == Scale(UnwrappedTime(m, c, steps, true) - UnwrappedTime(m, c, [], true), m.duration)
  }

  /** The root deltas of a run compose to the step between its two unwrapped ends. */
  predicate Telescopes(m: RootClip, c: Clock, steps: seq<TimeStep>)
    requires m.Valid() && m.HasRoot()
  {
    RunDelta(m, c, steps, true)
    == Compose(Inverse(UnwrappedAfter(m, c, [], true)), UnwrappedAfter(m, c, steps, true))
  }

  ghost predicate AlwaysTelescopes(timing: Timing, counts: set<nat>)
    requires timing.Valid()
  {
    forall m: RootClip, c, steps | m.timing == timing && m.HasRoot() && Reached(c, counts) && Within(counts, steps)
      :: Telescopes(m, c, steps)
  }

  /** Two forward runs of one clip from one clock cover the same time. */
  predicate SameSpan(counts: set<nat>, c: Clock, a: seq<TimeStep>, b: seq<TimeStep>) {
    && Reached(c, counts) && 0.0 <= c.phase < 1.0
    && Within(counts, a) && Within(counts, b) && Forward(a) && Forward(b) && Elapsed(a) == Elapsed(b)
  }

  /** For every clip on the timing, runs that cover the same time compose to the same movement. */
  ghost predicate SplitsAlike(timing: Timing, counts: set<nat>, looping: bool)
    requires timing.Valid()
  {
    forall m: RootClip, c, a, b | m.timing == timing && m.HasRoot() && SameSpan(counts, c, a, b)
      :: RunDelta(m, c, a, looping) == RunDelta(m, c, b, looping)
  }

  lemma ScaleInjective(a: real, b: real, k: real)
    requires k > 0.0 && Scale(a, k) == Scale(b, k)
    ensures a == b
  {
    assert (a - b) * k == 0.0;
  }

  // ----- a clip that slides at unit speed moves by loops counted plus the change in clip time -----

  function Slide(timing: Timing): RootClip {
    RootClip(timing, 1.0, Some((t: real) => Vec3(t, 0.0, 0.0)), None)
  }

  function Shift(x: real): Pose {
    Pose(IDENTITY_YAW, Vec3(x, 0.0, 0.0))
  }

  lemma ShiftsAdd(x: real, y: real)
    ensures Compose(Shift(x), Shift(y)) == Shift(x + y)
    ensures Inverse(Shift(x)) == Shift(-x)
  {
    hide Rotate, Mul, Conjugate;
    ConjugateNothing();
    TurnByNothing(Vec3(y, 0.0, 0.0));
    TurnByNothing(Neg(Vec3(x, 0.0, 0.0)));
    MulIdentity(IDENTITY_YAW);
  }

  lemma ConjugateNothing()
    ensures Conjugate(IDENTITY_YAW) == IDENTITY_YAW
  {
  }

  lemma TurnByNothing(v: Vec3)
    ensures Rotate(IDENTITY_YAW, v) == v
  {
    assert Cos(IDENTITY_YAW) == 1.0 && Sin(IDENTITY_YAW) == 0.0;
    hide Cos, Sin;
    TurnByUnit(v);
  }

  lemma TurnByUnit(v: Vec3)
    ensures Turn(1.0, 0.0, v) == v
  {
  }

  lemma {:induction false} ShiftPower(k: nat)
    ensures Power(Shift(1.0), k) == Shift(k as real)
  {
    hide Compose, Inverse;
    if k > 0 {
      ShiftPower(k - 1);
      ShiftsAdd((k - 1) as real, 1.0);
      ShiftsAdd(1.0, (k - 1) as real);
    }
  }

  lemma SlideDelta(timing: Timing, previous: Clock, tick: Tick, looping: bool)
    requires timing.Valid()
    ensures var m := Slide(timing);
            RootDelta(m, previous, tick, looping)
            == Shift(SampleLoops(m, previous, tick.advances, looping) as real + SampleTime(m, tick.clock, looping)
                     - SampleTime(m, previous, looping))
  {
    hide Compose, Inverse, SampleTime, SampleLoops;
    var m := Slide(timing);
    var p, q := SampleTime(m, previous, looping), SampleTime(m, tick.clock, looping);
    var loops := SampleLoops(m, previous, tick.advances, looping);
    assert forall t: real :: m.PoseAt(t) == Shift(t);
    ShiftsAdd(p, 0.0);
    if loops == 0 {
      ShiftsAdd(-p, q);
    } else {
      ShiftsAdd(0.0, 0.0);
      ShiftsAdd(-0.0, 1.0);
      ShiftsAdd(-0.0, q);
      ShiftsAdd(-p, 1.0);
      ShiftPower(loops - 1);
      ShiftsAdd(1.0 - p, (loops - 1) as real);
      ShiftsAdd(1.0 - p + (loops - 1) as real, q);
    }
  }

  lemma {:induction false} SlideRun(timing: Timing, c: Clock, steps: seq<TimeStep>, looping: bool)
    requires timing.Valid()
    ensures var m := Slide(timing);
            RunDelta(m, c, steps, looping)
            == Shift(RunLoops(m, c, steps, looping) as real
                     + SampleTime(m, RunClock(c, steps, looping).clock, looping) - SampleTime(m, c, looping))
  {
    hide Compose, SampleTime, SampleLoops, Advance, RootDelta;
    if steps != [] {
      var m := Slide(timing);
      var init, last := steps[..|steps| - 1], steps[|steps| - 1];
      var before := RunClock(c, init, looping).clock;
      var tick := Advance(before, last, looping);
      SlideRun(timing, c, init, looping);
      SlideDelta(timing, before, tick, looping);
      ShiftsAdd(RunLoops(m, c, init, looping) as real + SampleTime(m, before, looping) - SampleTime(m, c, looping),
                SampleLoops(m, before, tick.advances, looping) as real + SampleTime(m, tick.clock, looping)
                - SampleTime(m, before, looping));
    }
  }

  lemma SlideUnwrapped(timing: Timing, c: Clock, steps: seq<TimeStep>)
    requires timing.Valid()
    ensures UnwrappedAfter(Slide(timing), c, steps, true) == Shift(UnwrappedTime(Slide(timing), c, steps, true))
  {
    hide Compose, Inverse, SampleTime, LoopsAt, RunClock;
    var m := Slide(timing);
    var t := RunClock(c, steps, true);
    var k, p := LoopsAt(m, c.segment + t.advances, true), SampleTime(m, t.clock, true);
    assert forall t: real :: m.PoseAt(t) == Shift(t);
    ShiftsAdd(0.0, 0.0);
    ShiftsAdd(-0.0, 1.0);
    ShiftsAdd(-0.0, p);
    ShiftPower(k);
    ShiftsAdd(k as real, p);
  }

  /** For this clip movement telescopes exactly when the loops counted add up. */
  lemma SlideTelescopes(timing: Timing, c: Clock, steps: seq<TimeStep>)
    requires timing.Valid()
    ensures Telescopes(Slide(timing), c, steps) ==> LoopsAddUp(Slide(timing), c, steps)
  {
    hide Compose, Inverse, SampleTime, LoopsAt, RunLoops, RunDelta, UnwrappedAfter;
    var m := Slide(timing);
    SlideRun(timing, c, steps, true);
    SlideUnwrapped(timing, c, steps);
    SlideUnwrapped(timing, c, []);
    var s, t := UnwrappedTime(m, c, [], true), UnwrappedTime(m, c, steps, true);
    ShiftsAdd(s, 0.0);
    ShiftsAdd(-s, t);
  }

  // ----- a bad wrap makes two runs of the same length differ by a whole loop -----

  lemma LoopsPushed(m: RootClip, c: Clock, steps: seq<TimeStep>, step: TimeStep, looping: bool)
    requires m.Valid()
    ensures var before := RunClock(c, steps, looping).clock;
            RunLoops(m, c, steps + [step], looping)
            == RunLoops(m, c, steps, looping)
               + SampleLoops(m, before, Advance(before, step, looping).advances, looping)
    ensures Elapsed(steps + [step]) == Elapsed(steps) + step.Delta()
  {
    hide Advance, SampleLoops, RunClock;
    assert (steps + [step])[..|steps|] == steps;
  }

  /** `units` whole units from the start of a segment. */
  lemma WholeUnits(segment: nat, units: nat, count: nat)
    requires segment < count
    ensures var tick := Advance(Clock(segment, 0.0), TimeStep(units as real, count), true);
            tick.advances == units && tick.clock.phase == 0.0
  {
    hide Rem, Quot;
    WholePartUnique(UnitsCrossed(0.0 + units as real), units, units as real);
  }

  /** At the start of a segment a clip is short of its end. */
  lemma StartIsShort(m: RootClip, c: Clock)
    requires m.Valid() && c.phase == 0.0
    ensures 0.0 <= SampleTime(m, c, true) < 1.0
  {
    hide Rem, Timing.NormalizedTime;
    var segment := ResolvedSampleSegment(c.segment, true, m.timing);
    NormalizedTimeInSegment(m.timing, segment, 0.0);
    EndsInUnit(m.timing, segment);
  }

  /** The run over the wrap in three updates, and the same time in one. */
  lemma BadWrapSplits(m: RootClip, counts: set<nat>, index: nat, count: nat, most: nat)
      returns (a: seq<TimeStep>, b: seq<TimeStep>)
    requires m.Valid() && 0 !in counts && BadWrap(m.timing.SegmentCount(), counts, index, count, most)
    ensures SameSpan(counts, FRESH, a, b)
    ensures RunLoops(m, FRESH, a, true) + 1 == RunLoops(m, FRESH, b, true)
    ensures RunClock(FRESH, a, true).clock.phase == RunClock(FRESH, b, true).clock.phase == 0.0
    ensures !LoopsAddUp(m, FRESH, a)
  {
    hide Rem, Quot, Advance, RunClock, RunLoops, Elapsed;
    var n := m.timing.SegmentCount();
    var r := Rem(index + 1, n);
    var total := index + 1 + (n - r);
    var first, second := TimeStep(index as real + 0.0, most), TimeStep(1.0, count);
    var third := TimeStep((n - r) as real, count);
    var whole := TimeStep(total as real, most);
    a, b := [first] + [second] + [third], [whole];
    NothingRun(m);
    assert [first] == [] + [first] && b == [] + [whole];
    // The clock of both runs.
    WholeUnits(0, index, most);
    DriveTo(index, 0.0, most);
    WrapAt(index, 0.0, 1.0, count);
    WholeUnits(0, n - r, count);
    WholeUnits(0, total, most);
    RunExtends(FRESH, [], first, true);
    RunExtends(FRESH, [first], second, true);
    RunExtends(FRESH, [first] + [second], third, true);
    RunExtends(FRESH, [], whole, true);
    // The loops each counts.
    LoopsPushed(m, FRESH, [], first, true);
    LoopsPushed(m, FRESH, [first], second, true);
    LoopsPushed(m, FRESH, [first] + [second], third, true);
    LoopsPushed(m, FRESH, [], whole, true);
    RemSmall(0, n);
    RemSmall(n - r, n);
    RemAdd(index, 1, n);
    RemAdd(index + 1, n - r, n);
    QuotRemUnique(n, n, 1, 0);
  }

  lemma NothingRun(m: RootClip)
    requires m.Valid()
    ensures RunClock(FRESH, [], true) == Tick(FRESH, 0, 0)
    ensures RunLoops(m, FRESH, [], true) == 0 && Elapsed([]) == 0.0
  {
  }

  // ----- main results -----

  /** Main result: the loops counted, and the clip seconds, add up over every run of a looping entry if
      and only if the clip has one segment, or the entry's segment count never changes and the clip's
      divides it. */
  lemma TotalsExactly(m: RootClip, counts: set<nat>)
    requires m.Valid() && counts != {} && 0 !in counts
    ensures LoopsAdd(m, counts) <==> Divides(m.timing.SegmentCount(), counts)
    ensures m.duration > 0.0 ==> (SecondsAdd(m, counts) <==> Divides(m.timing.SegmentCount(), counts))
  {
    hide LoopsAddUp, SecondsAddUp, Divides, Within, Reached, RewindsWhole, Rem;
    var n := m.timing.SegmentCount();
    if Divides(n, counts) {
      forall c, steps | Reached(c, counts) && Within(counts, steps)
        ensures LoopsAddUp(m, c, steps) && SecondsAddUp(m, c, steps)
      {
        DividesAgrees(n, counts, c, steps);
        Agreeing(m, c, steps);
      }
    } else {
      var index, count, most := FindBadWrap(n, counts);
      var a, b := BadWrapSplits(m, counts, index, count, most);
      if m.duration > 0.0 {
        SecondsNeedLoops(m, FRESH, a);
      }
    }
  }

  lemma Agreeing(m: RootClip, c: Clock, steps: seq<TimeStep>)
    requires m.Valid() && CountsAgree(m, c, steps, true)
    ensures LoopsAddUp(m, c, steps) && SecondsAddUp(m, c, steps)
  {
    hide CountsAgree, RunLoops, RunSeconds, UnwrappedTime, RunClock, LoopsAt;
    LoopsTelescope(m, c, steps, true);
    SecondsTelescope(m, c, steps, true);
  }

  lemma SecondsNeedLoops(m: RootClip, c: Clock, steps: seq<TimeStep>)
    requires m.Valid() && m.duration > 0.0
    ensures SecondsAddUp(m, c, steps) ==> LoopsAddUp(m, c, steps)
  {
    hide RunLoops, RunSeconds, SampleTime, LoopsAt, Scale;
    SecondsAreLoops(m, c, steps, true);
    if SecondsAddUp(m, c, steps) {
      ScaleInjective(RunLoops(m, c, steps, true) as real + SampleTime(m, RunClock(c, steps, true).clock, true)
                     - SampleTime(m, c, true),
                     UnwrappedTime(m, c, steps, true) - UnwrappedTime(m, c, [], true), m.duration);
    }
  }

  /** Main result: for every clip on a timing the root deltas of every looping run telescope, and runs
      that cover the same time compose to the same movement, if and only if the clip has one segment, or
      the entry's segment count never changes and the clip's divides it. */
  lemma MovementExactly(timing: Timing, counts: set<nat>)
    requires timing.Valid() && counts != {} && 0 !in counts
    ensures AlwaysTelescopes(timing, counts) <==> Divides(timing.SegmentCount(), counts)
    ensures SplitsAlike(timing, counts, true) <==> Divides(timing.SegmentCount(), counts)
  {
    hide Telescopes, LoopsAddUp, Divides, Within, Reached, RewindsWhole, Rem, RunDelta, Elapsed, RunClock, SampleTime;
    var n := timing.SegmentCount();
    if Divides(n, counts) {
      forall m: RootClip, c, steps | m.timing == timing && m.HasRoot() && Reached(c, counts) && Within(counts, steps)
        ensures Telescopes(m, c, steps)
      {
        DividesAgrees(n, counts, c, steps);
        AgreeingTelescopes(m, c, steps);
      }
      forall m: RootClip, c, a, b | m.timing == timing && m.HasRoot() && SameSpan(counts, c, a, b)
        ensures RunDelta(m, c, a, true) == RunDelta(m, c, b, true)
      {
        DividesAgrees(n, counts, c, a);
        DividesAgrees(n, counts, c, b);
        SplitIndependent(m, c, a, b);
      }
    } else {
      var m := Slide(timing);
      var index, count, most := FindBadWrap(n, counts);
      var a, b := BadWrapSplits(m, counts, index, count, most);
      SlideTelescopes(timing, FRESH, a);
      SlideRun(timing, FRESH, a, true);
      SlideRun(timing, FRESH, b, true);
      StartIsShort(m, RunClock(FRESH, a, true).clock);
      StartIsShort(m, RunClock(FRESH, b, true).clock);
      assert RunDelta(m, FRESH, a, true) != RunDelta(m, FRESH, b, true);
    }
  }

  lemma AgreeingTelescopes(m: RootClip, c: Clock, steps: seq<TimeStep>)
    requires m.Valid() && m.HasRoot() && CountsAgree(m, c, steps, true)
    ensures Telescopes(m, c, steps)
  {
    hide CountsAgree, RunDelta, UnwrappedAfter, Compose, Inverse;
    RunTelescopes(m, c, steps, true);
  }

  /** Two counts end an entry that plays once at two different places after the same time. */
  lemma TwoCountsSplit(timing: Timing, a: nat, b: nat)
    requires timing.Valid() && 0 < a < b
    ensures var x := a as real + 0.25;
            RunDelta(Slide(timing), FRESH, [TimeStep(x, a)], false)
            != RunDelta(Slide(timing), FRESH, [TimeStep(x, b)], false)
  {
    hide Rem, Quot, Timing.NormalizedTime, RunDelta, RunClock;
    var m, n, x := Slide(timing), timing.SegmentCount(), a as real + 0.25;
    var short, long := TimeStep(x, a), TimeStep(x, b);
    DriveTo(a, 0.25, b);
    WholePartUnique(UnitsCrossed(0.0 + x), a, x);
    OneStep(m, short);
    OneStep(m, long);
    SlideRun(timing, FRESH, [short], false);
    SlideRun(timing, FRESH, [long], false);
    assert RunClock(FRESH, [short], false).clock == Clock(a - 1, 1.0);
    if a < n {
      EarlierSegment(timing, a, 0.25, a - 1, 1.0);
    } else {
      NormalizedTimeInSegment(timing, n - 1, 1.0);
      NormalizedTimeInSegment(timing, n - 1, 0.25);
    }
  }

  lemma OneStep(m: RootClip, step: TimeStep)
    requires m.Valid()
    ensures RunClock(FRESH, [step], false).clock == Advance(FRESH, step, false).clock
    ensures RunLoops(m, FRESH, [step], false) == 0
    ensures Elapsed([step]) == step.Delta()
  {
    hide Advance;
    assert [step][..0] == [];
  }

  /** The same for an entry that plays once: if and only if its segment count never changes. */
  lemma SplitOnceExactly(timing: Timing, counts: set<nat>)
    requires timing.Valid() && counts != {} && 0 !in counts
    ensures SplitsAlike(timing, counts, false) <==> OneCount(counts)
  {
    hide RunDelta;
    if OneCount(counts) {
      forall m: RootClip, c, a, b | m.timing == timing && m.HasRoot() && SameSpan(counts, c, a, b)
        ensures RunDelta(m, c, a, false) == RunDelta(m, c, b, false)
      {
        var count :| count in counts && c.segment < count;
        SplitIndependentOnce(m, c, a, b, count);
      }
    } else {
      var a, b :| a in counts && b in counts && a < b;
      var x := a as real + 0.25;
      var short, long := TimeStep(x, a), TimeStep(x, b);
      TwoCountsSplit(timing, a, b);
      OneStep(Slide(timing), short);
      OneStep(Slide(timing), long);
      assert SameSpan(counts, FRESH, [short], [long]);
    }
  }
}
