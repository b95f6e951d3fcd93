/** Hot-swapping the logic instance of a streamed component: which instances are mounted and
    unmounted, over every order of constructor, render, commit, update and unmount. */
module TemplateLifecycle {
  import opened Common

  type Class = nat
  type Props = nat

  /** The no-op base class every component starts from when it has no logic class. */
  const BASE: Class := 0

  /** What a step sees from outside: the registry entry, the props, the error boundary and the
      ancestor chain, and whether constructing the registered class throws. */
  datatype Env = Env(
    logic: Option<Class>, ver: nat, hasTemplate: bool, props: Props, crashed: bool, circular: bool, throws: bool)

  datatype Logic = Logic(id: nat, cls: Class)

  /** The class, registry version and props of the last failed construction. */
  datatype Failure = Failure(cls: Option<Class>, ver: nat, props: Props)

  datatype Phase = Constructed | Committed | Unmounted

  datatype Hook = DidMount(id: nat) | WillUnmount(id: nat)

  datatype Component = Component(
    logic: Logic, needsDidMount: bool, failed: Option<Failure>, nextId: nat, phase: Phase, log: seq<Hook>)

  function ClassOf(logic: Option<Class>): Class {
    if logic.Some? then logic.value else BASE
  }

  /** `__makeLogic`: a fresh instance of the class, or of the base class when its constructor throws. */
  function WithNewLogic(c: Component, env: Env): Component {
    if env.throws && env.logic.Some? then
      c.(logic := Logic(c.nextId, BASE), failed := Some(Failure(env.logic, env.ver, env.props)), nextId := c.nextId + 1)
    else
      c.(logic := Logic(c.nextId, ClassOf(env.logic)), failed := None, nextId := c.nextId + 1)
  }

  function Construct(env: Env): Component {
    WithNewLogic(Component(Logic(0, BASE), false, None, 0, Constructed, []), env)
  }

  /** The registered class differs from the instance's, and is not a construction already known to fail. */
  predicate SwapNeeded(c: Component, env: Env) {
    && env.logic != Some(c.logic.cls)
    && !(env.logic.None? && c.logic.cls == BASE)
    && c.failed != Some(Failure(env.logic, env.ver, env.props))
  }

  function Swap(c: Component, env: Env): Component {
    var unmounted := if c.needsDidMount then c else c.(log := c.log + [WillUnmount(c.logic.id)]);
    WithNewLogic(unmounted, env).(needsDidMount := true)
  }

  datatype Action = Render(env: Env) | Commit | Update(env: Env) | Unmount

  /** React's order: renders first, one commit, then renders and updates, then at most one unmount. */
  predicate Enabled(c: Component, a: Action) {
    match a
    case Render(_) => !c.phase.Unmounted?
    case Commit => c.phase.Constructed?
    case Update(_) => c.phase.Committed?
    case Unmount => c.phase.Committed?
  }

  predicate Swaps(c: Component, a: Action) {
    a.Render? && !a.env.circular && !a.env.crashed && SwapNeeded(c, a.env)
  }

  function Step(c: Component, a: Action): Component
    requires Enabled(c, a)
  {
    match a
    case Render(env) => if Swaps(c, a) then Swap(c, env) else c
    case Commit => c.(phase := Committed, log := c.log + [DidMount(c.logic.id)])
    case Update(env) =>
      if c.needsDidMount && !env.crashed && env.hasTemplate then
        c.(needsDidMount := false, log := c.log + [DidMount(c.logic.id)])
      else c
    case Unmount =>
      c.(phase := Unmounted, log := if c.needsDidMount then c.log else c.log + [WillUnmount(c.logic.id)])
  }

  /** The component's fields, updated in place by its lifecycle methods. */
  class StreamableComponent {
    var logic: Logic
    var needsDidMount: bool
    var failed: Option<Failure>
    ghost var nextId: nat
    ghost var phase: Phase
    ghost var log: seq<Hook>
    var instances: nat

    ghost predicate Valid()
      reads this
    {
      instances == nextId
    }

    ghost function View(): Component
      reads this
    {
      Component(logic, needsDidMount, failed, nextId, phase, log)
    }

    constructor (env: Env)
      ensures Valid() && View() == Construct(env)
    {
      needsDidMount, phase, log := false, Constructed, [];
      nextId, instances := 1, 1;
      if env.throws && env.logic.Some? {
        logic, failed := Logic(0, BASE), Some(Failure(env.logic, env.ver, env.props));
      } else {
        logic, failed := Logic(0, ClassOf(env.logic)), None;
      }
    }

    method MakeLogic(env: Env)
      requires Valid()
      modifies this
      ensures Valid() && View() == WithNewLogic(old(View()), env)
    {
      if env.throws && env.logic.Some? {
        logic := Logic(instances, BASE);
        failed := Some(Failure(env.logic, env.ver, env.props));
      } else {
        logic := Logic(instances, ClassOf(env.logic));
        failed := None;
      }
      instances, nextId := instances + 1, nextId + 1;
    }

    method ReconcileLogic(env: Env)
      requires Valid()
      modifies this
      ensures Valid() && View() == if SwapNeeded(old(View()), env) then Swap(old(View()), env) else old(View())
    {
      if env.logic == Some(logic.cls) || (env.logic.None? && logic.cls == BASE)
         || failed == Some(Failure(env.logic, env.ver, env.props)) {
        return;
      }
      if !needsDidMount {
        log := log + [WillUnmount(logic.id)];
      }
      MakeLogic(env);
      needsDidMount := true;
    }

    method OnRender(env: Env)
      requires Valid() && Enabled(View(), Render(env))
      modifies this
      ensures Valid() && View() == Step(old(View()), Render(env))
    {
      if env.circular || env.crashed {
        return;
      }
      ReconcileLogic(env);
    }

    method ComponentDidMount()
      requires Valid() && Enabled(View(), Commit)
      modifies this
      ensures Valid() && View() == Step(old(View()), Commit)
    {
      phase := Committed;
      log := log + [DidMount(logic.id)];
    }

    method ComponentDidUpdate(env: Env)
      requires Valid() && Enabled(View(), Update(env))
      modifies this
      ensures Valid() && View() == Step(old(View()), Update(env))
    {
      if needsDidMount {
        if env.crashed || !env.hasTemplate {
          return;
        }
        needsDidMount := false;
        log := log + [DidMount(logic.id)];
      }
    }

    method ComponentWillUnmount()
      requires Valid() && Enabled(View(), Unmount)
      modifies this
      ensures Valid() && View() == Step(old(View()), Unmount)
    {
      phase := Unmounted;
      if !needsDidMount {
        log := log + [WillUnmount(logic.id)];
      }
    }
  }

  // ----- balance of the hooks -----

  /** One instance's hooks: at most one mount, then at most one unmount. */
  datatype Life = Fresh | Live | Done | Broken

  function After(l: Life, h: Hook): Life {
    if l.Fresh? && h.DidMount? then Live else if l.Live? && h.WillUnmount? then Done else Broken
  }

  function LifeOf(log: seq<Hook>, id: nat): Life {
    if log == [] then Fresh
    else
      var before, last := LifeOf(log[..|log| - 1], id), log[|log| - 1];
      if last.id == id then After(before, last) else before
  }

  lemma LifePushed(log: seq<Hook>, h: Hook, id: nat)
    ensures LifeOf(log + [h], id) == if h.id == id then After(LifeOf(log, id), h) else LifeOf(log, id)
  {
    assert (log + [h])[..|log|] == log;
  }

  ghost predicate Balanced(log: seq<Hook>) {
    forall id :: LifeOf(log, id) != Broken
  }

  /** Every run of a component: the environment of its constructor, then any enabled actions. */
  ghost predicate IsRun(env: Env, states: seq<Component>, actions: seq<Action>) {
    && |states| == |actions| + 1
    && states[0] == Construct(env)
    && forall i :: 0 <= i < |actions| ==> Enabled(states[i], actions[i]) && states[i + 1] == Step(states[i], actions[i])
  }

  /** A render before the first commit found a different logic class. */
  ghost predicate SwapsEarly(states: seq<Component>, actions: seq<Action>, n: nat)
    requires n <= |actions| < |states|
  {
    exists i :: 0 <= i < n && states[i].phase.Constructed? && Swaps(states[i], actions[i])
  }

  /** The life every instance has reached when no swap came early. */
  function ExpectedLife(c: Component, id: nat): set<Life> {
    if id >= c.nextId then {Fresh}
    else if c.phase.Constructed? then {Fresh}
    else if id == c.logic.id && c.phase.Committed? then (if c.needsDidMount then {Fresh} else {Live})
    else {Fresh, Done}
  }

  ghost predicate OnTrack(c: Component) {
    && c.logic.id < c.nextId
    && (c.phase.Constructed? ==> !c.needsDidMount)
    && forall id :: LifeOf(c.log, id) in ExpectedLife(c, id)
  }

  lemma StepOnTrack(c: Component, a: Action)
    requires OnTrack(c) && Enabled(c, a) && !(c.phase.Constructed? && Swaps(c, a))
    ensures OnTrack(Step(c, a))
  {
    hide LifeOf;
    var d := Step(c, a);
    forall id
      ensures LifeOf(d.log, id) in ExpectedLife(d, id)
    {
      assert LifeOf(c.log, id) in ExpectedLife(c, id);
      if d.log != c.log {
        LifePushed(c.log, d.log[|d.log| - 1], id);
      }
    }
  }

  lemma {:induction false} RunOnTrack(env: Env, states: seq<Component>, actions: seq<Action>, n: nat)
    requires IsRun(env, states, actions) && n <= |actions| && !SwapsEarly(states, actions, n)
    ensures OnTrack(states[n])
  {
    if n > 0 {
      RunOnTrack(env, states, actions, n - 1);
      StepOnTrack(states[n - 1], actions[n - 1]);
    }
  }

  lemma {:induction false} BrokenStays(env: Env, states: seq<Component>, actions: seq<Action>, i: nat, n: nat, id: nat)
    requires IsRun(env, states, actions) && i <= n <= |actions| && LifeOf(states[i].log, id) == Broken
    ensures LifeOf(states[n].log, id) == Broken
    decreases n - i
  {
    hide Step, LifeOf, Enabled;
    if i < n {
      BrokenStays(env, states, actions, i, n - 1, id);
      BrokenStep(states[n - 1], actions[n - 1], id);
    }
  }

  lemma BrokenStep(c: Component, a: Action, id: nat)
    requires Enabled(c, a) && LifeOf(c.log, id) == Broken
    ensures LifeOf(Step(c, a).log, id) == Broken
  {
    var d := Step(c, a);
    if d.log != c.log {
      LifePushed(c.log, d.log[|d.log| - 1], id);
    }
  }

  /** Main result: in a run up to step `n`, every instance is mounted at most once and unmounted at most
      once and only after its mount, if and only if no render before the first commit swapped the logic. */
  lemma HooksBalanceExactly(env: Env, states: seq<Component>, actions: seq<Action>, n: nat)
    requires IsRun(env, states, actions) && n <= |actions|
    ensures Balanced(states[n].log) <==> !SwapsEarly(states, actions, n)
  {
    if SwapsEarly(states, actions, n) {
      var i := FirstEarlySwap(states, actions, n);
      RunOnTrack(env, states, actions, i);
      var c := states[i];
      LifePushed(c.log, WillUnmount(c.logic.id), c.logic.id);
      BrokenStays(env, states, actions, i + 1, n, c.logic.id);
    } else {
      RunOnTrack(env, states, actions, n);
      forall id
        ensures LifeOf(states[n].log, id) != Broken
      {
        assert LifeOf(states[n].log, id) in ExpectedLife(states[n], id);
      }
    }
  }

  lemma {:induction false} FirstEarlySwap(states: seq<Component>, actions: seq<Action>, n: nat) returns (i: nat)
    requires n <= |actions| < |states| && SwapsEarly(states, actions, n)
    ensures i < n && states[i].phase.Constructed? && Swaps(states[i], actions[i]) && !SwapsEarly(states, actions, i)
  {
    if SwapsEarly(states, actions, n - 1) {
      i := FirstEarlySwap(states, actions, n - 1);
    } else {
      i := n - 1;
    }
  }

  // ----- the instance an early swap can leave mounted -----

  /** The update calls the `didMount` it finds owed. */
  predicate Fires(c: Component, a: Action) {
    a.Update? && c.needsDidMount && !a.env.crashed && a.env.hasTemplate
  }

  /** The current instance is given up: by a swap or by the unmount. */
  predicate GivesUp(c: Component, a: Action) {
    a.Unmount? || Swaps(c, a)
  }

  /** Step `k` committed, and so mounted, an instance whose `didMount` stayed owed, and no update up to
      step `j` called it. */
  ghost predicate OwedSince(states: seq<Component>, actions: seq<Action>, k: nat, j: nat)
    requires k < j <= |actions| < |states|
  {
    actions[k].Commit? && states[k].needsDidMount && forall i :: k < i < j ==> !Fires(states[i], actions[i])
  }

  /** The didMount of an instance the commit mounted is owed a second time. */
  ghost predicate OwedAt(states: seq<Component>, actions: seq<Action>, n: nat)
    requires n <= |actions| < |states|
  {
    exists k: nat :: k < n && OwedSince(states, actions, k, n)
  }

  /** The owed instance was given up while its `didMount` was owed, so without a `willUnmount`. */
  ghost predicate GivenUpOwed(states: seq<Component>, actions: seq<Action>, n: nat)
    requires n <= |actions| < |states|
  {
    exists j: nat :: j < n && OwedAt(states, actions, j) && GivesUp(states[j], actions[j])
  }

  /** A live instance that the component no longer shows: nothing will unmount it. */
  ghost predicate Orphaned(c: Component) {
    exists id :: LifeOf(c.log, id) == Live && (id != c.logic.id || c.phase.Unmounted?)
  }

  ghost predicate KnownLives(c: Component) {
    c.logic.id < c.nextId && forall id :: id >= c.nextId ==> LifeOf(c.log, id) == Fresh
  }

  /** No instance is live but the current one once its `didMount` was called and nothing is owed. */
  ghost predicate Clean(c: Component) {
    && KnownLives(c)
    && (c.phase.Constructed? || c.needsDidMount ==> LifeOf(c.log, c.logic.id) == Fresh)
    && forall id :: LifeOf(c.log, id) == Live ==> id == c.logic.id && c.phase.Committed? && !c.needsDidMount
  }

  /** The current instance alone is live, and its `didMount` is owed a second time. */
  ghost predicate Owed(c: Component) {
    && KnownLives(c) && c.phase.Committed? && c.needsDidMount
    && forall id :: LifeOf(c.log, id) == Live <==> id == c.logic.id
  }

  /** What a step makes of one instance's life: nothing new, or the one hook it calls. */
  function LifeAfter(c: Component, a: Action, id: nat): Life {
    var life := LifeOf(c.log, id);
    if id != c.logic.id then life
    else if a.Commit? || Fires(c, a) then After(life, DidMount(id))
    else if GivesUp(c, a) && !c.needsDidMount then After(life, WillUnmount(id))
    else life
  }

  lemma StepLife(c: Component, a: Action, id: nat)
    requires Enabled(c, a)
    ensures LifeOf(Step(c, a).log, id) == LifeAfter(c, a, id)
  {
    hide LifeOf;
    var d := Step(c, a);
    if d.log != c.log {
      LifePushed(c.log, d.log[|d.log| - 1], id);
    }
  }

  lemma CleanStep(c: Component, a: Action)
    requires Clean(c) && Enabled(c, a)
    ensures if a.Commit? && c.needsDidMount then Owed(Step(c, a)) else Clean(Step(c, a))
  {
    hide LifeOf;
    forall id
      ensures LifeOf(Step(c, a).log, id) == LifeAfter(c, a, id)
    {
      StepLife(c, a, id);
    }
  }

  lemma OwedStep(c: Component, a: Action)
    requires Owed(c) && Enabled(c, a)
    ensures if GivesUp(c, a) then Orphaned(Step(c, a)) && KnownLives(Step(c, a))
            else if Fires(c, a) then Clean(Step(c, a))
            else Owed(Step(c, a))
  {
    hide LifeOf;
    forall id
      ensures LifeOf(Step(c, a).log, id) == LifeAfter(c, a, id)
    {
      StepLife(c, a, id);
    }
    if GivesUp(c, a) {
      assert LifeOf(Step(c, a).log, c.logic.id) == Live;
    }
  }

  lemma OrphanStays(c: Component, a: Action)
    requires Orphaned(c) && KnownLives(c) && Enabled(c, a)
    ensures Orphaned(Step(c, a)) && KnownLives(Step(c, a))
  {
    hide LifeOf;
    forall id
      ensures LifeOf(Step(c, a).log, id) == LifeAfter(c, a, id)
    {
      StepLife(c, a, id);
    }
    var id :| LifeOf(c.log, id) == Live && (id != c.logic.id || c.phase.Unmounted?);
    assert LifeOf(Step(c, a).log, id) == Live;
  }

  /** Which of the three a run has reached, by what happened in it. */
  ghost predicate Reached(states: seq<Component>, actions: seq<Action>, n: nat)
    requires n <= |actions| < |states|
  {
    if GivenUpOwed(states, actions, n) then Orphaned(states[n]) && KnownLives(states[n])
    else if OwedAt(states, actions, n) then Owed(states[n])
    else Clean(states[n])
  }

  lemma {:induction false} RunReaches(env: Env, states: seq<Component>, actions: seq<Action>, n: nat)
    requires IsRun(env, states, actions) && n <= |actions|
    ensures Reached(states, actions, n)
  {
    hide LifeOf, Clean, Orphaned, KnownLives, Step, OwedSince;
    if n == 0 {
      ConstructIsClean(env);
    } else {
      var c, a := states[n - 1], actions[n - 1];
      RunReaches(env, states, actions, n - 1);
      OwedNext(states, actions, n - 1);
      if GivenUpOwed(states, actions, n - 1) {
        OrphanStays(c, a);
      } else if OwedAt(states, actions, n - 1) {
        OwedStep(c, a);
      } else {
        CleanStep(c, a);
      }
    }
  }

  /** How one more action changes what is owed. */
  lemma OwedNext(states: seq<Component>, actions: seq<Action>, n: nat)
    requires n < |actions| < |states|
    ensures OwedAt(states, actions, n + 1)
       <==> (OwedAt(states, actions, n) && !Fires(states[n], actions[n]))
            || (actions[n].Commit? && states[n].needsDidMount)
  {
    hide Fires;
    var next := n + 1;
    if k: nat :| k < next && OwedSince(states, actions, k, next) {
      assert k < n ==> OwedSince(states, actions, k, n);
    }
    if OwedAt(states, actions, n) && !Fires(states[n], actions[n]) {
      var k: nat :| k < n && OwedSince(states, actions, k, n);
      assert OwedSince(states, actions, k, n + 1);
    }
    if actions[n].Commit? && states[n].needsDidMount {
      assert OwedSince(states, actions, n, n + 1);
    }
  }

  lemma ConstructIsClean(env: Env)
    ensures Clean(Construct(env))
  {
  }

  /** Main result: exactly when an instance stays mounted for good. Some live instance is no longer the
      current one, or outlives the unmount, if and only if an instance mounted by the commit was given up
      before an update called the `didMount` owed since a swap that came before the commit. */
  lemma OrphansExactly(env: Env, states: seq<Component>, actions: seq<Action>, n: nat)
    requires IsRun(env, states, actions) && n <= |actions|
    ensures Orphaned(states[n]) <==> GivenUpOwed(states, actions, n)
  {
    hide LifeOf, GivenUpOwed;
    RunReaches(env, states, actions, n);
  }

  /** After these hooks instance 1 is live. */
  lemma OnlyMounted()
    ensures LifeOf([WillUnmount(0), DidMount(1)], 1) == Live
  {
    LifePushed([], WillUnmount(0), 1);
    LifePushed([WillUnmount(0)], DidMount(1), 1);
    assert [WillUnmount(0)] + [DidMount(1)] == [WillUnmount(0), DidMount(1)];
    assert [] + [WillUnmount(0)] == [WillUnmount(0)];
  }

  /** Such runs exist: no class at first, one registered by the first render, then commit and unmount. */
  lemma EarlySwapLeavesOneMounted(cls: Class)
    requires cls != BASE
    ensures exists env: Env, states: seq<Component>, actions: seq<Action> ::
              && IsRun(env, states, actions)
              && states[|actions|].phase.Unmounted?
              && states[|actions|].log == [WillUnmount(0), DidMount(1)]
              && LifeOf(states[|actions|].log, 1) == Live
  {
    hide LifeOf;
    OnlyMounted();
    var bare := Env(None, 0, true, 0, false, false, false);
    var env := bare.(logic := Some(cls), ver := 1);
    var actions := [Render(env), Commit, Unmount];
    var s0 := Component(Logic(0, BASE), false, None, 1, Constructed, []);
    var s1 := Component(Logic(1, cls), true, None, 2, Constructed, [WillUnmount(0)]);
    var s2 := s1.(phase := Committed, log := [WillUnmount(0), DidMount(1)]);
    var s3 := s2.(phase := Unmounted);
    assert Construct(bare) == s0;
    assert Step(s0, actions[0]) == s1;
    assert Step(s1, actions[1]) == s2;
    assert Step(s2, actions[2]) == s3;
    hide Step, Construct;
    var states := [s0, s1, s2, s3];
    assert IsRun(bare, states, actions);
    assert states[|actions|] == s3;
  }

  /** After the final unmount no mounted instance is left behind, unless one was given up while owed. */
  lemma UnmountLeavesNothingLive(env: Env, states: seq<Component>, actions: seq<Action>, n: nat, id: nat)
    requires IsRun(env, states, actions) && n <= |actions| && !GivenUpOwed(states, actions, n)
    requires states[n].phase.Unmounted?
    ensures LifeOf(states[n].log, id) != Live
  {
    OrphansExactly(env, states, actions, n);
  }

  /** Between commits and the unmount at most the current instance is live, unless one was given up while
      owed; its own `didMount` is owed again exactly when the commit mounted a swapped instance and no
      update has called it since. */
  lemma OnlyCurrentIsLive(env: Env, states: seq<Component>, actions: seq<Action>, n: nat, id: nat)
    requires IsRun(env, states, actions) && n <= |actions| && !GivenUpOwed(states, actions, n)
    requires LifeOf(states[n].log, id) == Live
    ensures id == states[n].logic.id && states[n].phase.Committed?
    ensures states[n].needsDidMount <==> OwedAt(states, actions, n)
    ensures !SwapsEarly(states, actions, n) ==> !states[n].needsDidMount
  {
    RunReaches(env, states, actions, n);
    if !SwapsEarly(states, actions, n) {
      RunOnTrack(env, states, actions, n);
      assert LifeOf(states[n].log, id) in ExpectedLife(states[n], id);
    }
  }

  // ----- which class a component shows -----

  function Registered(env: Env): Class {
    match env.logic case Some(cls) => cls case None => BASE
  }

  function FailureHere(env: Env): Option<Failure> {
    Some(Failure(env.logic, env.ver, env.props))
  }

  /** An instance recorded as failed is one of the base class. */
  predicate FailedIsBase(c: Component) {
    c.failed.Some? ==> c.logic.cls == BASE
  }

  lemma {:induction false} RunFailedIsBase(env: Env, states: seq<Component>, actions: seq<Action>, n: nat)
    requires IsRun(env, states, actions) && n <= |actions|
    ensures FailedIsBase(states[n])
  {
    if n > 0 {
      RunFailedIsBase(env, states, actions, n - 1);
    }
  }

  /** A fresh instance is of the registered class, unless constructing it throws: then it is of the base
      class and the failure is on record. */
  predicate Builds(env: Env, c: Component) {
    if env.throws && env.logic.Some? then c.logic.cls == BASE && c.failed == FailureHere(env)
    else c.logic.cls == Registered(env) && c.failed == None
  }

  lemma ConstructMeans(env: Env)
    ensures var c := Construct(env);
            Builds(env, c) && c.logic.id == 0 && c.nextId == 1 && c.log == [] && !c.needsDidMount
  {
  }

  /** What a render without crash or cycle does: nothing when the shown class is the registered one or is
      known not to construct; otherwise it builds a fresh instance, unmounts the old one unless its
      mount is owed, and owes the new one its mount. */
  lemma RenderMeans(c: Component, env: Env)
    requires !c.phase.Unmounted? && !env.circular && !env.crashed
    ensures var d := Step(c, Render(env));
            if c.logic.cls == Registered(env) || c.failed == FailureHere(env) then d == c
            else
              && Builds(env, d) && d.logic.id == c.nextId && d.nextId == c.nextId + 1 && d.needsDidMount
              && d.phase == c.phase
              && d.log == if c.needsDidMount then c.log else c.log + [WillUnmount(c.logic.id)]
  {
  }

  /** Main result: after every such render of a run the instance is of the registered class, or of the base
      class with the failure of exactly this class, version and props on record. */
  lemma RenderShowsRegistered(env: Env, states: seq<Component>, actions: seq<Action>, n: nat)
    requires IsRun(env, states, actions) && n < |actions| && actions[n].Render?
    requires !actions[n].env.circular && !actions[n].env.crashed
    ensures var d, now := states[n + 1], actions[n].env;
            d.logic.cls == Registered(now) || (d.logic.cls == BASE && d.failed == FailureHere(now))
  {
    RunFailedIsBase(env, states, actions, n);
    RenderMeans(states[n], actions[n].env);
  }

  /** What the other steps do to the hooks called and to the mount owed. */
  lemma OtherStepsMean(c: Component, env: Env)
    requires c.phase.Constructed? ==> !c.needsDidMount
    ensures c.phase.Constructed? ==>
              Step(c, Commit) == c.(phase := Committed, log := c.log + [DidMount(c.logic.id)])
    ensures c.phase.Committed? && c.needsDidMount && !env.crashed && env.hasTemplate ==>
              Step(c, Update(env)) == c.(needsDidMount := false, log := c.log + [DidMount(c.logic.id)])
    ensures c.phase.Committed? && (!c.needsDidMount || env.crashed || !env.hasTemplate) ==> Step(c, Update(env)) == c
    ensures c.phase.Committed? ==>
              Step(c, Unmount).log == if c.needsDidMount then c.log else c.log + [WillUnmount(c.logic.id)]
    ensures !c.phase.Unmounted? && (env.circular || env.crashed) ==> Step(c, Render(env)) == c
  {
  }
}
