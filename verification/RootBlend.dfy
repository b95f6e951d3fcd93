/** Blending of root movement over the active animations of the base layer. */
module RootBlend {
  import opened RootPose
  import opened Common

  /** One active sample: its blend weight, and its root translation unless the clip is missing. */
  datatype Sample = Sample(weight: real, delta: Option<Vec3>)

  datatype Animation = Animation(fullRootPriority: bool, transitionWeight: real, samples: seq<Sample>)

  /** One weighted movement that takes part in the blend. */
  datatype Contribution = Contribution(weight: real, delta: Option<Vec3>)

  predicate HasPriority(a: Animation) {
    a.fullRootPriority && a.transitionWeight != 0.0
  }

  /** Contributors start at the last animation with full root priority and a weight, or at the first
      animation when there is none. */
  predicate IsPriorityStart(active: seq<Animation>, start: nat) {
    if exists a <- active :: HasPriority(a) then
      start < |active| && HasPriority(active[start]) && forall k :: start < k < |active| ==> !HasPriority(active[k])
    else start == 0
  }

  method PriorityStart(active: seq<Animation>) returns (start: nat)
    ensures IsPriorityStart(active, start) && (active != [] ==> start < |active|)
  {
    start := 0;
    for i := 0 to |active|
      invariant IsPriorityStart(active[..i], start)
      invariant i > 0 ==> start < i
    {
      assert active[..i + 1] == active[..i] + [active[i]];
      if HasPriority(active[i]) {
        start := i;
      }
    }
    assert active[..|active|] == active;
  }

  /** The start in plain terms: from it on, no later animation has full root priority and a weight, and
      it has both itself unless none does, when it is the first. */
  lemma PriorityMeans(active: seq<Animation>, start: nat)
    requires IsPriorityStart(active, start)
    ensures forall k :: start < k < |active| ==> !(active[k].fullRootPriority && active[k].transitionWeight != 0.0)
    ensures start > 0 ==> start < |active| && active[start].fullRootPriority && active[start].transitionWeight != 0.0
  {
    if a :| a in active && HasPriority(a) {
    } else {
      assert forall k :: 0 <= k < |active| ==> active[k] in active && !HasPriority(active[k]);
    }
  }

  predicate Counts(weight: real) {
    weight >= 0.001 || weight <= -0.001
  }

  function SampleWeight(a: Animation, k: nat): real
    requires k < |a.samples|
  {
    a.transitionWeight * a.samples[k].weight
  }

  function SampleContributions(a: Animation, n: nat): seq<Contribution>
    requires n <= |a.samples|
  {
    if n == 0 then []
    else
      var w := SampleWeight(a, n - 1);
      SampleContributions(a, n - 1) + (if Counts(w) then [Contribution(w, a.samples[n - 1].delta)] else [])
  }

  /** What the first `n` contributors bring. */
  function Contributions(contributors: seq<Animation>, n: nat): seq<Contribution>
    requires n <= |contributors|
  {
    if n == 0 then []
    else Contributions(contributors, n - 1) + SampleContributions(contributors[n - 1], |contributors[n - 1].samples|)
  }

  function Total(cs: seq<Contribution>): real {
    if cs == [] then 0.0 else Total(cs[..|cs| - 1]) + cs[|cs| - 1].weight
  }

  /** Weight of the contributions whose clip is missing. */
  function Missing(cs: seq<Contribution>): real {
    if cs == [] then 0.0
    else Missing(cs[..|cs| - 1]) + (if cs[|cs| - 1].delta.None? then cs[|cs| - 1].weight else 0.0)
  }

  function Plus(v: Vec3, w: real, d: Vec3): Vec3 {
    Vec3(v.x + Weighted(w, d.x), v.y + Weighted(w, d.y), v.z + Weighted(w, d.z))
  }

  function Weighted(w: real, x: real): real {
    w * x
  }

  const ZERO := Vec3(0.0, 0.0, 0.0)

  /** The accumulated translation and the weight applied so far, weights divided by `sum`. */
  function Blend(cs: seq<Contribution>, sum: real): (Vec3, real)
    requires sum > 0.0
  {
    if cs == [] then (ZERO, 0.0)
    else
      var (v, applied) := Blend(cs[..|cs| - 1], sum);
      var c := cs[|cs| - 1];
      if c.delta.None? then (v, applied)
      else (Plus(v, c.weight / sum, c.delta.value), applied + c.weight / sum)
  }

  lemma TotalPushed(cs: seq<Contribution>, c: Contribution)
    ensures Total(cs + [c]) == Total(cs) + c.weight
    ensures Missing(cs + [c]) == Missing(cs) + if c.delta.None? then c.weight else 0.0
  {
    assert (cs + [c])[..|cs|] == cs;
  }

  lemma BlendPushed(cs: seq<Contribution>, c: Contribution, sum: real)
    requires sum > 0.0
    ensures Blend(cs + [c], sum)
         == var (v, applied) := Blend(cs, sum);
            if c.delta.None? then (v, applied)
            else (Plus(v, c.weight / sum, c.delta.value), applied + c.weight / sum)
  {
    assert (cs + [c])[..|cs|] == cs;
  }

  method WeightSum(contributors: seq<Animation>) returns (sum: real)
    ensures sum == Total(Contributions(contributors, |contributors|))
  {
    sum := 0.0;
    for i := 0 to |contributors|
      invariant sum == Total(Contributions(contributors, i))
    {
      var a := contributors[i];
      ghost var before := Contributions(contributors, i);
      assert before + [] == before;
      for k := 0 to |a.samples|
        invariant sum == Total(before + SampleContributions(a, k))
      {
        var w := SampleWeight(a, k);
        ghost var done := before + SampleContributions(a, k);
        if Counts(w) {
          var c := Contribution(w, a.samples[k].delta);
          assert before + SampleContributions(a, k + 1) == done + [c];
          TotalPushed(done, c);
          sum := sum + w;
        } else {
          assert SampleContributions(a, k) + [] == SampleContributions(a, k);
          assert SampleContributions(a, k + 1) == SampleContributions(a, k) + [];
        }
      }
    }
  }

  /** The movement blended from the animations at and after `start`; nothing moves when their weights
      add up to less than 0.01. */
  ghost predicate IsMovement(active: seq<Animation>, start: nat, translation: Vec3, applied: real)
    requires start <= |active|
  {
    var cs := Contributions(active[start..], |active| - start);
    (translation, applied) == if Total(cs) < 0.01 then (ZERO, 0.0) else Blend(cs, Total(cs))
  }

  /** The blended translation and the weight applied in all. */
  method CalculateRelativeMovement(active: seq<Animation>) returns (translation: Vec3, applied: real)
    ensures exists start: nat ::
              start <= |active| && IsPriorityStart(active, start) && IsMovement(active, start, translation, applied)
  {
    translation, applied := ZERO, 0.0;
    var start := PriorityStart(active);
    if active == [] {
      return;
    }
    var contributors := active[start..];
    var sum := WeightSum(contributors);
    if sum < 0.01 {
      return;
    }
    for i := 0 to |contributors|
      invariant (translation, applied) == Blend(Contributions(contributors, i), sum)
    {
      translation, applied := Accumulate(contributors[i], sum, translation, applied, Contributions(contributors, i));
    }
  }

  /** Adds one animation's samples to the blend of `before`. */
  method Accumulate(a: Animation, sum: real, translation: Vec3, applied: real, ghost before: seq<Contribution>)
    returns (v: Vec3, w: real)
    requires sum > 0.0 && (translation, applied) == Blend(before, sum)
    ensures (v, w) == Blend(before + SampleContributions(a, |a.samples|), sum)
  {
    hide Blend, SampleWeight, Counts, Plus;
    v, w := translation, applied;
    assert before + [] == before;
    for k := 0 to |a.samples|
      invariant (v, w) == Blend(before + SampleContributions(a, k), sum)
    {
      var weight := SampleWeight(a, k);
      ghost var done := before + SampleContributions(a, k);
      if !Counts(weight) {
        assert SampleContributions(a, k) + [] == SampleContributions(a, k);
        assert SampleContributions(a, k + 1) == SampleContributions(a, k) + [];
        continue;
      }
      ghost var c := Contribution(weight, a.samples[k].delta);
      assert before + SampleContributions(a, k + 1) == done + [c];
      BlendPushed(done, c, sum);
      if a.samples[k].delta.None? {
        continue;
      }
      v := Plus(v, weight / sum, a.samples[k].delta.value);
      w := w + weight / sum;
    }
  }

  // ----- what the blend guarantees -----

  lemma DivideSum(a: real, b: real, s: real)
    requires s > 0.0
    ensures a / s + b / s == (a + b) / s
  {
  }

  lemma {:induction false} AppliedIs(cs: seq<Contribution>, sum: real)
    requires sum > 0.0
    ensures Blend(cs, sum).1 == (Total(cs) - Missing(cs)) / sum
  {
    if cs != [] {
      var init, c := cs[..|cs| - 1], cs[|cs| - 1];
      AppliedIs(init, sum);
      DivideSum(Total(init) - Missing(init), c.weight, sum);
    }
  }

  /** Applied weights sum to 1 if and only if the missing clips' weights cancel; in particular when
      every clip is present. */
  lemma AppliedSumsToOne(cs: seq<Contribution>)
    requires Total(cs) >= 0.01
    ensures Blend(cs, Total(cs)).1 == 1.0 <==> Missing(cs) == 0.0
    ensures (forall c <- cs :: c.delta.Some?) ==> Blend(cs, Total(cs)).1 == 1.0
  {
    AppliedIs(cs, Total(cs));
    var t, m := Total(cs), Missing(cs);
    DivideSum(t - m, m, t);
    NothingMissing(cs);
  }

  lemma {:induction false} NothingMissing(cs: seq<Contribution>)
    ensures (forall c <- cs :: c.delta.Some?) ==> Missing(cs) == 0.0
  {
    if cs != [] {
      NothingMissing(cs[..|cs| - 1]);
    }
  }

  ghost predicate InBox(lo: Vec3, hi: Vec3, d: Vec3) {
    lo.x <= d.x <= hi.x && lo.y <= d.y <= hi.y && lo.z <= d.z <= hi.z
  }

  datatype Axis = X | Y | Z

  function Along(v: Vec3, axis: Axis): real {
    match axis case X => v.x case Y => v.y case Z => v.z
  }

  lemma WeightedBound(lo: real, hi: real, w: real, d: real, applied: real, v: real)
    requires lo <= d <= hi && w >= 0.0 && Weighted(lo, applied) <= v <= Weighted(hi, applied)
    ensures Weighted(lo, applied + w) <= v + Weighted(w, d) <= Weighted(hi, applied + w)
  {
    assert w * (d - lo) >= 0.0 && w * (hi - d) >= 0.0;
  }

  /** With non-negative weights the accumulated translation stays, on each axis, inside any bounds
      holding the contributors' movements, scaled by the weight applied. */
  lemma {:induction false} BlendInBounds(cs: seq<Contribution>, sum: real, axis: Axis, lo: real, hi: real)
    requires sum > 0.0
    requires forall c <- cs :: c.weight >= 0.0 && (c.delta.Some? ==> lo <= Along(c.delta.value, axis) <= hi)
    ensures var (v, applied) := Blend(cs, sum);
            Weighted(lo, applied) <= Along(v, axis) <= Weighted(hi, applied)
  {
    if cs == [] {
      assert Weighted(lo, 0.0) == 0.0 == Weighted(hi, 0.0);
    } else {
      hide Weighted;
      var init, c := cs[..|cs| - 1], cs[|cs| - 1];
      BlendInBounds(init, sum, axis, lo, hi);
      if c.delta.Some? {
        assert c in cs;
        QuotientNonNegative(c.weight, sum);
        WeightedBound(lo, hi, c.weight / sum, Along(c.delta.value, axis), Blend(init, sum).1,
                      Along(Blend(init, sum).0, axis));
      }
    }
  }

  lemma QuotientNonNegative(a: real, b: real)
    requires a >= 0.0 && b > 0.0
    ensures a / b >= 0.0
  {
  }

  /** With every clip present the bound is the box itself. */
  lemma NormalizedBlendInBox(cs: seq<Contribution>, lo: Vec3, hi: Vec3)
    requires Total(cs) >= 0.01
    requires forall c <- cs :: c.weight >= 0.0 && c.delta.Some? && InBox(lo, hi, c.delta.value)
    ensures InBox(lo, hi, Blend(cs, Total(cs)).0)
  {
    AppliedSumsToOne(cs);
    BlendInBounds(cs, Total(cs), X, lo.x, hi.x);
    BlendInBounds(cs, Total(cs), Y, lo.y, hi.y);
    BlendInBounds(cs, Total(cs), Z, lo.z, hi.z);
  }

  // ----- the blend as a weighted sum over animations and samples -----

  /** The weight of sample `k`: the animation's transition weight times the sample's own, unless that is
      below the threshold in size. */
  function Share(a: Animation, k: nat): real
    requires k < |a.samples|
  {
    var w := Weighted(a.transitionWeight, a.samples[k].weight);
    if w >= 0.001 || w <= -0.001 then w else 0.0
  }

  function SampleShares(a: Animation, n: nat): real
    requires n <= |a.samples|
  {
    if n == 0 then 0.0 else SampleShares(a, n - 1) + Share(a, n - 1)
  }

  function Shares(anims: seq<Animation>, n: nat): real
    requires n <= |anims|
  {
    if n == 0 then 0.0 else Shares(anims, n - 1) + SampleShares(anims[n - 1], |anims[n - 1].samples|)
  }

  /** What sample `k` adds on one axis: its share of `sum` of its movement, nothing when the clip is
      missing. */
  function Pull(a: Animation, k: nat, sum: real, axis: Axis): real
    requires k < |a.samples| && sum > 0.0
  {
    if a.samples[k].delta.None? then 0.0 else Weighted(Share(a, k) / sum, Along(a.samples[k].delta.value, axis))
  }

  function SamplePulls(a: Animation, n: nat, sum: real, axis: Axis): real
    requires n <= |a.samples| && sum > 0.0
  {
    if n == 0 then 0.0 else SamplePulls(a, n - 1, sum, axis) + Pull(a, n - 1, sum, axis)
  }

  function Pulls(anims: seq<Animation>, n: nat, sum: real, axis: Axis): real
    requires n <= |anims| && sum > 0.0
  {
    if n == 0 then 0.0
    else Pulls(anims, n - 1, sum, axis) + SamplePulls(anims[n - 1], |anims[n - 1].samples|, sum, axis)
  }

  lemma NoShare(sum: real, x: real)
    requires sum > 0.0
    ensures Weighted(0.0 / sum, x) == 0.0
  {
  }

  /** The last sample contributes unless its weight is too small. */
  lemma SamplePushed(before: seq<Contribution>, a: Animation, n: nat)
    requires 0 < n <= |a.samples|
    ensures var done := before + SampleContributions(a, n - 1);
            var w := Weighted(a.transitionWeight, a.samples[n - 1].weight);
            before + SampleContributions(a, n)
            == if w >= 0.001 || w <= -0.001 then done + [Contribution(w, a.samples[n - 1].delta)] else done
  {
    var done, w := before + SampleContributions(a, n - 1), Weighted(a.transitionWeight, a.samples[n - 1].weight);
    assert SampleWeight(a, n - 1) == w;
    hide SampleWeight;
    if Counts(w) {
      var c := Contribution(w, a.samples[n - 1].delta);
      assert SampleContributions(a, n) == SampleContributions(a, n - 1) + [c];
      assert before + (SampleContributions(a, n - 1) + [c]) == done + [c];
    } else {
      assert SampleContributions(a, n) == SampleContributions(a, n - 1) + [];
      assert SampleContributions(a, n) == SampleContributions(a, n - 1);
    }
  }

  lemma ShareAdds(before: seq<Contribution>, a: Animation, n: nat)
    requires 0 < n <= |a.samples|
    ensures Total(before + SampleContributions(a, n))
         == Total(before + SampleContributions(a, n - 1)) + Share(a, n - 1)
  {
    hide Weighted, SampleContributions, Total;
    var done, w := before + SampleContributions(a, n - 1), Weighted(a.transitionWeight, a.samples[n - 1].weight);
    SamplePushed(before, a, n);
    TotalPushed(done, Contribution(w, a.samples[n - 1].delta));
  }

  lemma {:induction false} SamplesAdd(before: seq<Contribution>, a: Animation, n: nat)
    requires n <= |a.samples|
    ensures Total(before + SampleContributions(a, n)) == Total(before) + SampleShares(a, n)
  {
    if n == 0 {
      assert before + [] == before;
    } else {
      hide SampleContributions, Total, Share;
      SamplesAdd(before, a, n - 1);
      ShareAdds(before, a, n);
    }
  }

  lemma {:induction false} TotalIsShares(anims: seq<Animation>, n: nat)
    requires n <= |anims|
    ensures Total(Contributions(anims, n)) == Shares(anims, n)
  {
    if n > 0 {
      var a := anims[n - 1];
      TotalIsShares(anims, n - 1);
      SamplesAdd(Contributions(anims, n - 1), a, |a.samples|);
      assert Contributions(anims, n) == Contributions(anims, n - 1) + SampleContributions(a, |a.samples|);
    }
  }

  lemma {:induction false} SamplesPull(before: seq<Contribution>, a: Animation, n: nat, sum: real, axis: Axis)
    requires n <= |a.samples| && sum > 0.0
    ensures Along(Blend(before + SampleContributions(a, n), sum).0, axis)
         == Along(Blend(before, sum).0, axis) + SamplePulls(a, n, sum, axis)
  {
    hide Blend, Weighted;
    if n == 0 {
      assert before + [] == before;
    } else {
      SamplesPull(before, a, n - 1, sum, axis);
      var done, w := before + SampleContributions(a, n - 1), Weighted(a.transitionWeight, a.samples[n - 1].weight);
      var c := Contribution(w, a.samples[n - 1].delta);
      BlendPushed(done, c, sum);
      SamplePushed(before, a, n);
      if c.delta.Some? {
        var v := Blend(done, sum).0;
        AlongPlus(v, w / sum, c.delta.value, axis);
        NoShare(sum, Along(c.delta.value, axis));
        hide Along, Plus;
        if w >= 0.001 || w <= -0.001 {
          assert Share(a, n - 1) == w;
          assert Blend(before + SampleContributions(a, n), sum).0 == Plus(v, w / sum, c.delta.value);
          assert Pull(a, n - 1, sum, axis) == Weighted(w / sum, Along(c.delta.value, axis));
        } else {
          assert Share(a, n - 1) == 0.0;
          assert Blend(before + SampleContributions(a, n), sum).0 == v;
          assert Pull(a, n - 1, sum, axis) == 0.0;
        }
      }
    }
  }

  lemma AlongPlus(v: Vec3, w: real, d: Vec3, axis: Axis)
    ensures Along(Plus(v, w, d), axis) == Along(v, axis) + Weighted(w, Along(d, axis))
  {
  }

  lemma {:induction false} BlendIsPulls(anims: seq<Animation>, n: nat, sum: real, axis: Axis)
    requires n <= |anims| && sum > 0.0
    ensures Along(Blend(Contributions(anims, n), sum).0, axis) == Pulls(anims, n, sum, axis)
  {
    if n == 0 {
      assert Along(ZERO, axis) == 0.0;
    } else {
      var a := anims[n - 1];
      BlendIsPulls(anims, n - 1, sum, axis);
      SamplesPull(Contributions(anims, n - 1), a, |a.samples|, sum, axis);
      assert Contributions(anims, n) == Contributions(anims, n - 1) + SampleContributions(a, |a.samples|);
    }
  }

  /** Main result: the blended translation is, on each axis, the sum over the contributing animations and
      their samples of each sample's share of the whole weight times its movement; below the weight
      threshold it is zero. */
  lemma MovementIsWeightedSum(active: seq<Animation>, start: nat, translation: Vec3, applied: real, axis: Axis)
    requires start <= |active| && IsMovement(active, start, translation, applied)
    ensures var contributors := active[start..];
            var sum := Shares(contributors, |contributors|);
            Along(translation, axis) == if sum < 0.01 then 0.0 else Pulls(contributors, |contributors|, sum, axis)
  {
    hide Blend, Contributions, Total, Shares, Pulls;
    var contributors := active[start..];
    var n := |contributors|;
    TotalIsShares(contributors, n);
    if Shares(contributors, n) >= 0.01 {
      BlendIsPulls(contributors, n, Shares(contributors, n), axis);
    }
  }
}
