/** Exactly which segment counts let a clip share its entry's segment index: when every loop of every
    run is counted, and when no forward run ever plays the clip backwards. */
module RootMotionLimits {
  import opened Arithmetic
  import opened MotionClock
  import opened RootMotion

  // ----- runs whose segment counts come from a given set -----

  /** Every update of the run takes its segment count from `counts`. */
  predicate Within(counts: set<nat>, steps: seq<TimeStep>) {
    forall step <- steps :: step.NoStep? || step.Count() in counts
  }

  /** The run starts at a segment that some count reaches. */
  predicate Reached(c: Clock, counts: set<nat>) {
    exists count <- counts :: c.segment < count
  }

  ghost predicate AlwaysCountsRight(m: RootClip, counts: set<nat>)
    requires m.Valid()
  {
    forall c, steps, step | Reached(c, counts) && Within(counts, steps + [step]) :: LoopsRight(m, c, steps, step, true)
  }

  ghost predicate NeverPlaysBack(m: RootClip, counts: set<nat>, looping: bool)
    requires m.Valid()
  {
    forall c, steps, step | Reached(c, counts) && Within(counts, steps + [step]) && step.Delta() >= 0.0
      :: PlaysForward(m, c, steps, step, looping)
  }

  predicate OneCount(counts: set<nat>) {
    forall a, b | a in counts && b in counts :: a == b
  }

  /** The clip has one segment, or the entry has one segment count and the clip's divides it. */
  predicate Divides(n: nat, counts: set<nat>)
    requires n > 0
  {
    n == 1 || (OneCount(counts) && forall count <- counts :: Rem(count, n) == 0)
  }

  // ----- the condition suffices -----

  lemma RemOne(a: nat)
    ensures Rem(a, 1) == 0
  {
  }

  lemma {:induction false} OneSegmentAgrees(c: Clock, steps: seq<TimeStep>)
    ensures RewindsWhole(1, c, steps)
  {
    hide Rem, Rewound, RunClock;
    if steps != [] {
      var init := steps[..|steps| - 1];
      OneSegmentAgrees(c, init);
      RemOne(Rewound(RunClock(c, init, true).clock, steps[|steps| - 1]));
    }
  }

  lemma AdvanceInRange(c: Clock, step: TimeStep, count: nat, looping: bool)
    requires c.segment < count && (step.NoStep? || step.Count() == count)
    ensures Advance(c, step, looping).clock.segment < count
  {
    hide Rem, Quot;
  }

  lemma {:induction false} RunInRange(c: Clock, steps: seq<TimeStep>, count: nat, looping: bool)
    requires c.segment < count && Within({count}, steps)
    ensures RunClock(c, steps, looping).clock.segment < count
  {
    hide Advance;
    if steps != [] {
      var init := steps[..|steps| - 1];
      RunInRange(c, init, count, looping);
      AdvanceInRange(RunClock(c, init, looping).clock, steps[|steps| - 1], count, looping);
    }
  }

  lemma DividesAgrees(n: nat, counts: set<nat>, c: Clock, steps: seq<TimeStep>)
    requires n > 0 && Divides(n, counts) && Reached(c, counts) && Within(counts, steps)
    ensures RewindsWhole(n, c, steps)
  {
    hide Rem, RewindsWhole;
    if n == 1 {
      OneSegmentAgrees(c, steps);
    } else {
      var count :| count in counts && c.segment < count;
      forall i | 0 <= i < |steps| && steps[i].TimeStep?
        ensures Rem(steps[i].Count(), n) == 0 && RunClock(c, steps[..i], true).clock.segment < steps[i].Count()
      {
        assert steps[i].Count() in counts && steps[i].Count() == count;
        assert Within({count}, steps[..i]);
        RunInRange(c, steps[..i], count, true);
      }
      InRangeRewindsWhole(n, c, steps);
    }
  }

  // ----- and nothing less does -----

  /** An index that wraps under `count`, under `most` or an equal count reached, and that is not the
      last of a cycle of the clip. */
  predicate BadWrap(n: nat, counts: set<nat>, index: nat, count: nat, most: nat)
    requires n > 0
  {
    count in counts && most in counts && index < most && count <= index + 1 && Rem(index + 1, n) != 0
  }

  lemma FindBadWrap(n: nat, counts: set<nat>) returns (index: nat, count: nat, most: nat)
    requires n > 0 && counts != {} && 0 !in counts && !Divides(n, counts)
    ensures BadWrap(n, counts, index, count, most)
  {
    hide Rem;
    if count' :| count' in counts && Rem(count', n) != 0 {
      index, count, most := count' - 1, count', count';
    } else {
      var a, b :| a in counts && b in counts && a < b;
      index, count, most := a, a, b;
      RemAdd(a, 1, n);
      RemSmall(1, n);
    }
  }

  const FRESH := Clock(0, 0.0)

  /** A fresh entry driven up to `index` and `phase` in one update. */
  lemma DriveTo(index: nat, phase: real, most: nat)
    requires index < most && 0.0 <= phase < 1.0
    ensures RunClock(FRESH, [TimeStep(index as real + phase, most)], true) == Tick(Clock(index, phase), index, 0)
    ensures RunClock(FRESH, [TimeStep(index as real + phase, most)], false) == Tick(Clock(index, phase), index, 0)
  {
    hide Rem, Quot;
    var step := TimeStep(index as real + phase, most);
    assert [step][..0] == [];
    assert UnitsCrossed(index as real + phase) == index by {
      WholePartUnique(UnitsCrossed(index as real + phase), index, index as real + phase);
    }
    RemSmall(index, most);
  }

  /** One unit past `index`, the wrap takes the index to 0. */
  lemma WrapAt(index: nat, phase: real, delta: real, count: nat)
    requires 0 < count <= index + 1 && 1.0 <= phase + delta < 2.0
    ensures Advance(Clock(index, phase), TimeStep(delta, count), true) == Tick(Clock(0, phase + delta - 1.0), 1, 1)
  {
    hide Rem, Quot;
    WholePartUnique(UnitsCrossed(phase + delta), 1, phase + delta);
    QuotRemUnique(count, count, 1, 0);
  }

  /** Up to a bad wrap, over it, and on to the end of the clip's cycle: the last update counts no loop
      where one is due. */
  lemma BadWrapMiscounts(m: RootClip, counts: set<nat>, index: nat, count: nat, most: nat)
      returns (steps: seq<TimeStep>, step: TimeStep)
    requires m.Valid() && 0 !in counts && BadWrap(m.timing.SegmentCount(), counts, index, count, most)
    ensures Within(counts, steps + [step]) && Forward(steps + [step])
    ensures !LoopsRight(m, FRESH, steps, step, true)
  {
    hide Rem, Quot;
    var n := m.timing.SegmentCount();
    var r := Rem(index + 1, n);
    var first, second := TimeStep(index as real + 0.0, most), TimeStep(1.0, count);
    steps, step := [first, second], TimeStep((n - r) as real, count);
    DriveTo(index, 0.0, most);
    WrapAt(index, 0.0, 1.0, count);
    assert steps == [first] + [second];
    RunExtends(FRESH, [first], second, true);
    WholePartUnique(UnitsCrossed((n - r) as real), n - r, (n - r) as real);
    var tick := Advance(Clock(0, 0.0), step, true);
    assert tick.advances == n - r;
    RemSmall(0, n);
    RemSmall(n - r, n);
    RemAdd(index + 1, n - r, n);
    QuotRemUnique(n, n, 1, 0);
  }

  /** A concrete case: the count shrinks from 4 to 2 under a clip of two segments. It divides the count of
      every update, yet the fourth unit counts no loop where one is due. */
  lemma ShrunkCountMiscounts(m: RootClip)
    requires m.Valid() && m.timing.SegmentCount() == 2
    ensures var wide, narrow := TimeStep(1.0, 4), TimeStep(1.0, 2);
            !LoopsRight(m, FRESH, [wide, wide, narrow], narrow, true)
  {
    var wide, narrow := TimeStep(1.0, 4), TimeStep(1.0, 2);
    hide Rem, Quot, Advance, RunClock;
    UnitStep(0, 4);
    UnitStep(1, 4);
    WrapAt(2, 0.0, 1.0, 2);
    UnitStep(0, 2);
    RunStart();
    assert [wide, wide, narrow] == ([wide] + [wide]) + [narrow] && [wide] == [] + [wide];
    RunExtends(FRESH, [], wide, true);
    RunExtends(FRESH, [wide], wide, true);
    RunExtends(FRESH, [wide] + [wide], narrow, true);
    RemSmall(0, 2);
    RemSmall(1, 2);
    QuotRemUnique(3, 2, 1, 1);
    QuotRemUnique(4, 2, 2, 0);
  }

  lemma RunStart()
    ensures RunClock(FRESH, [], true) == Tick(FRESH, 0, 0)
  {
  }

  lemma UnitStep(index: nat, count: nat)
    requires index + 1 < count
    ensures Advance(Clock(index, 0.0), TimeStep(1.0, count), true) == Tick(Clock(index + 1, 0.0), 1, 0)
  {
    hide Rem, Quot;
    WholePartUnique(UnitsCrossed(1.0), 1, 1.0);
    RemSmall(index + 1, count);
  }

  /** Main result: every loop of every run of a looping entry is counted if and only if the clip has one
      segment, or the entry's segment count never changes and the clip's divides it. Otherwise a fresh
      entry already miscounts. */
  lemma CountsRightExactly(m: RootClip, counts: set<nat>)
    requires m.Valid() && counts != {} && 0 !in counts
    ensures AlwaysCountsRight(m, counts) <==> Divides(m.timing.SegmentCount(), counts)
    ensures !Divides(m.timing.SegmentCount(), counts) ==>
              exists steps, step :: Within(counts, steps + [step]) && Forward(steps + [step])
                                    && !LoopsRight(m, FRESH, steps, step, true)
  {
    hide LoopsRight, Rem, RewindsWhole;
    var n := m.timing.SegmentCount();
    if Divides(n, counts) {
      forall c, steps, step | Reached(c, counts) && Within(counts, steps + [step])
        ensures LoopsRight(m, c, steps, step, true)
      {
        assert forall s <- steps :: s in steps + [step];
        DividesAgrees(n, counts, c, steps);
        LoopsCounted(m, c, steps, step, true);
      }
    } else {
      var index, count, most := FindBadWrap(n, counts);
      var steps, step := BadWrapMiscounts(m, counts, index, count, most);
      assert Reached(FRESH, counts);
    }
  }

  // ----- playing backwards -----

  /** Half a unit over a bad wrap the clip plays backwards. */
  lemma BadWrapPlaysBack(m: RootClip, counts: set<nat>, index: nat, count: nat, most: nat)
    requires m.Valid() && m.duration > 0.0
    requires 0 !in counts && BadWrap(m.timing.SegmentCount(), counts, index, count, most)
    ensures !PlaysForward(m, FRESH, [TimeStep(index as real + 0.75, most)], TimeStep(0.5, count), true)
  {
    hide Rem, Quot, Timing.NormalizedTime, Scale;
    var n := m.timing.SegmentCount();
    var last := Rem(index, n);
    DriveTo(index, 0.75, most);
    WrapAt(index, 0.75, 0.5, count);
    RemNext(index, n);
    RemSmall(last + 1, n);
    RemSmall(0, n);
    EarlierSegment(m.timing, last, 0.75, 0, 0.25);
    Negative(m.timing.NormalizedTime(0, 0.25).value - m.timing.NormalizedTime(last, 0.75).value, m.duration);
  }

  lemma EarlierSegment(timing: Timing, later: nat, p: real, earlier: nat, q: real)
    requires timing.Valid() && earlier <= later < timing.SegmentCount()
    requires 0.0 < p < 1.0 && 0.0 <= q <= 1.0 && (earlier == later ==> q < p)
    ensures timing.NormalizedTime(earlier, q).value < timing.NormalizedTime(later, p).value
  {
    hide Timing.NormalizedTime;
    NormalizedTimeInSegment(timing, earlier, q);
    NormalizedTimeInSegment(timing, later, p);
    if earlier == later {
      SampleTimeMonotone(timing, later, q, p);
    } else {
      EndsIncrease(timing, earlier, later);
    }
  }

  lemma Negative(a: real, b: real)
    requires a < 0.0 && b > 0.0
    ensures Scale(a, b) < 0.0
  {
  }

  /** An entry that plays once stays within a clip of at least as many segments. */
  lemma OncePlaysForward(m: RootClip, count: nat, c: Clock, steps: seq<TimeStep>, step: TimeStep)
    requires m.Valid() && m.duration >= 0.0 && c.segment < count <= m.timing.SegmentCount()
    requires Within({count}, steps + [step]) && step.Delta() >= 0.0
    ensures PlaysForward(m, c, steps, step, false)
  {
    hide Rem, Quot, RunClock, Timing.NormalizedTime, Scale;
    assert forall s <- steps :: s in steps + [step];
    assert step in steps + [step];
    RunInRange(c, steps, count, false);
    var before := RunClock(c, steps, false).clock;
    OnceMovesOn(before, step, count);
    var after := Advance(before, step, false).clock;
    if after.segment == before.segment {
      SampleTimeMonotone(m.timing, before.segment, before.phase, after.phase);
    } else {
      NormalizedTimeInSegment(m.timing, before.segment, before.phase);
      NormalizedTimeInSegment(m.timing, after.segment, after.phase);
      EndsIncrease(m.timing, before.segment, after.segment);
    }
    NonNegative(m.timing.NormalizedTime(after.segment, after.phase).value
                - m.timing.NormalizedTime(before.segment, before.phase).value, m.duration);
  }

  lemma NonNegative(a: real, b: real)
    requires a >= 0.0 && b >= 0.0
    ensures Scale(a, b) >= 0.0
  {
  }

  lemma OnceMovesOn(c: Clock, step: TimeStep, count: nat)
    requires c.segment < count && (step.NoStep? || step.Count() == count) && step.Delta() >= 0.0
    ensures var after := Advance(c, step, false).clock;
            && c.segment <= after.segment < count
            && (after.segment == c.segment ==> Clamp01(c.phase) <= Clamp01(after.phase))
  {
    hide Rem, Quot;
    if step.TimeStep? {
      var units := UnitsCrossed(c.phase + step.delta);
      if c.segment + units < count {
        RemSmall(c.segment + units, count);
      }
    }
  }

  /** A fresh entry that plays once goes back over a clip with fewer segments than it has, and when its
      count shrinks under the index. */
  lemma OncePlaysBack(m: RootClip, counts: set<nat>)
    requires m.Valid() && m.duration > 0.0 && counts != {} && 0 !in counts
    requires !(OneCount(counts) && forall count <- counts :: count <= m.timing.SegmentCount())
    ensures !NeverPlaysBack(m, counts, false)
  {
    hide Rem, Quot, Timing.NormalizedTime, Scale, RunClock;
    var n := m.timing.SegmentCount();
    if count :| count in counts && count > n {
      var first, step := TimeStep((n - 1) as real + 0.75, count), TimeStep(0.5, count);
      DriveTo(n - 1, 0.75, count);
      RemSmall(n, count);
      WholePartUnique(UnitsCrossed(1.25), 1, 1.25);
      assert Advance(Clock(n - 1, 0.75), step, false) == Tick(Clock(n, 0.25), 1, 0);
      EarlierSegment(m.timing, n - 1, 0.75, n - 1, 0.25);
      Negative(m.timing.NormalizedTime(n - 1, 0.25).value - m.timing.NormalizedTime(n - 1, 0.75).value, m.duration);
      assert !PlaysForward(m, FRESH, [first], step, false);
      assert Reached(FRESH, counts) && Within(counts, [first] + [step]);
    } else {
      var a, b :| a in counts && b in counts && a < b;
      var first, step := TimeStep(a as real + 0.75, b), TimeStep(0.5, a);
      DriveTo(a, 0.75, b);
      WholePartUnique(UnitsCrossed(1.25), 1, 1.25);
      assert Advance(Clock(a, 0.75), step, false) == Tick(Clock(a - 1, 1.0), 1, 0);
      EarlierSegment(m.timing, a, 0.75, a - 1, 1.0);
      Negative(m.timing.NormalizedTime(a - 1, 1.0).value - m.timing.NormalizedTime(a, 0.75).value, m.duration);
      assert !PlaysForward(m, FRESH, [first], step, false);
      assert Reached(FRESH, counts) && Within(counts, [first] + [step]);
    }
  }

  /** Main result: no forward update of any run plays the clip backwards if and only if, for a looping
      entry, loops are always counted right, and otherwise the entry's segment count never changes and
      is no larger than the clip's. */
  lemma ForwardExactly(m: RootClip, counts: set<nat>, looping: bool)
    requires m.Valid() && m.duration > 0.0 && counts != {} && 0 !in counts
    ensures NeverPlaysBack(m, counts, looping)
       <==> if looping then Divides(m.timing.SegmentCount(), counts)
            else OneCount(counts) && forall count <- counts :: count <= m.timing.SegmentCount()
  {
    hide PlaysForward, Rem, RewindsWhole;
    var n := m.timing.SegmentCount();
    if looping {
      if Divides(n, counts) {
        forall c, steps, step | Reached(c, counts) && Within(counts, steps + [step]) && step.Delta() >= 0.0
          ensures PlaysForward(m, c, steps, step, true)
        {
          DividesAgrees(n, counts, c, steps + [step]);
          ForwardSeconds(m, c, steps, step);
        }
      } else {
        var index, count, most := FindBadWrap(n, counts);
        var first, step := TimeStep(index as real + 0.75, most), TimeStep(0.5, count);
        BadWrapPlaysBack(m, counts, index, count, most);
        assert Reached(FRESH, counts) && Within(counts, [first] + [step]);
      }
    } else if OneCount(counts) && forall count <- counts :: count <= n {
      forall c, steps, step | Reached(c, counts) && Within(counts, steps + [step]) && step.Delta() >= 0.0
        ensures PlaysForward(m, c, steps, step, false)
      {
        var count :| count in counts && c.segment < count;
        OncePlaysForward(m, count, c, steps, step);
      }
    } else {
      OncePlaysBack(m, counts);
    }
  }
}
