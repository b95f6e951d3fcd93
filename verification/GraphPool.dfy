/** The pool of animation-graph slots that binds active (instance, sample) pairs to graph nodes,
    first as functions on values, then in place as the player updates it. */
module GraphPool {
  import opened Common
  import opened MotionClock

  const ANIMATION_LAYER_COUNT := 16
  const MAX_BLEND_SPACE_MOTIONS := 40

  // ----- one frame of the animation runtime -----

  datatype ClipMotion = ClipMotion(clip: nat, mask: nat, duration: real, timing: Timing)

  /** One active queue entry; `weights` holds one blend weight per example, 0 when inactive. */
  datatype Animation = Animation(
    id: nat, looping: bool, segmentIndex: nat, phase: real, effectiveWeight: real,
    clips: seq<ClipMotion>, weights: seq<real>)
  {
    predicate Valid() {
      && |weights| <= |clips|
      && |weights| <= MAX_BLEND_SPACE_MOTIONS
      && forall c :: 0 <= c < |clips| ==> clips[c].timing.Valid()
    }
  }

  predicate ValidLayer(anims: seq<Animation>) {
    forall k :: 0 <= k < |anims| ==> anims[k].Valid()
  }

  /** The active entries of every layer, in queue order. */
  type Frame = f: seq<seq<Animation>> |
      |f| == ANIMATION_LAYER_COUNT && forall l :: 0 <= l < |f| ==> ValidLayer(f[l])
    witness seq(ANIMATION_LAYER_COUNT, _ => [])

  datatype SampleKey = SampleKey(instance: nat, sample: nat)

  /** What one active sample asks of the pool. */
  datatype Request = Request(layer: nat, key: SampleKey, clip: nat, mask: nat, weight: real, seek: real)

  function SeekTime(a: Animation, clip: ClipMotion): real
    requires clip.timing.Valid()
  {
    clip.timing.NormalizedTime(ResolvedSampleSegment(a.segmentIndex, a.looping, clip.timing), a.phase).value
    * clip.duration
  }

  function SampleRequest(layer: nat, a: Animation, sample: nat): Request
    requires a.Valid() && sample < |a.weights|
  {
    var clip := a.clips[sample];
    Request(layer, SampleKey(a.id, sample), clip.clip, clip.mask, a.effectiveWeight * a.weights[sample],
            SeekTime(a, clip))
  }

  function AnimationRequests(layer: nat, a: Animation, n: nat): seq<Request>
    requires a.Valid() && n <= |a.weights|
  {
    if n == 0 then []
    else AnimationRequests(layer, a, n - 1)
         + (if a.weights[n - 1] != 0.0 then [SampleRequest(layer, a, n - 1)] else [])
  }

  function LayerRequests(layer: nat, anims: seq<Animation>, n: nat): seq<Request>
    requires n <= |anims| && ValidLayer(anims)
  {
    if n == 0 then []
    else LayerRequests(layer, anims, n - 1) + AnimationRequests(layer, anims[n - 1], |anims[n - 1].weights|)
  }

  /** The requests of the first `n` layers, in the order the player meets them. */
  function FrameRequests(frame: Frame, n: nat): seq<Request>
    requires n <= |frame|
  {
    if n == 0 then []
    else FrameRequests(frame, n - 1) + LayerRequests(n - 1, frame[n - 1], |frame[n - 1]|)
  }

  function Requests(frame: Frame): seq<Request> {
    FrameRequests(frame, |frame|)
  }

  // ----- the pool -----

  datatype Binding = Binding(node: nat, layer: nat, instance: Option<nat>, sample: nat, used: bool) {
    predicate Holds(key: SampleKey) {
      instance == Some(key.instance) && sample == key.sample
    }

    function Key(): SampleKey
      requires instance.Some?
    {
      SampleKey(instance.value, sample)
    }
  }

  datatype GraphNode = Foreign | ClipNode(clip: nat, mask: nat, weight: real)

  datatype Playing = Playing(weight: real, speed: real, seek: real, paused: bool)

  datatype Pool = Pool(bindings: seq<Binding>, nodes: seq<GraphNode>, active: map<nat, Playing>)

  /** The binding already held for a key, if any. */
  function FindBound(bindings: seq<Binding>, key: SampleKey): (r: Option<nat>)
    ensures r.Some? ==> r.value < |bindings| && bindings[r.value].Holds(key)
    ensures r.Some? ==> forall i :: 0 <= i < r.value ==> !bindings[i].Holds(key)
    ensures r.None? ==> forall i :: 0 <= i < |bindings| ==> !bindings[i].Holds(key)
  {
    if bindings == [] then None
    else if bindings[0].Holds(key) then Some(0)
    else match FindBound(bindings[1..], key) case None => None case Some(i) => Some(i + 1)
  }

  /** The first free slot of a layer, if any. */
  function FindFree(bindings: seq<Binding>, layer: nat): (r: Option<nat>)
    ensures r.Some? ==> r.value < |bindings| && bindings[r.value].layer == layer && bindings[r.value].instance.None?
    ensures r.Some? ==> forall i :: 0 <= i < r.value && bindings[i].layer == layer ==> bindings[i].instance.Some?
    ensures r.None? ==> forall i :: 0 <= i < |bindings| && bindings[i].layer == layer ==> bindings[i].instance.Some?
  {
    if bindings == [] then None
    else if bindings[0].layer == layer && bindings[0].instance.None? then Some(0)
    else match FindFree(bindings[1..], layer) case None => None case Some(i) => Some(i + 1)
  }

  /** Every binding points at a node of the graph. */
  predicate NodesExist(p: Pool) {
    forall i :: 0 <= i < |p.bindings| ==> p.bindings[i].node < |p.nodes|
  }

  /** `bind_animation`: reuse a free slot of the layer, or add a node and a binding. */
  function Bind(p: Pool, r: Request): (Pool, nat)
    requires NodesExist(p)
  {
    var clip := ClipNode(r.clip, r.mask, 1.0);
    var started := Playing(1.0, 0.0, 0.0, true);
    match FindFree(p.bindings, r.layer)
    case Some(i) =>
      var node := p.bindings[i].node;
      var b := p.bindings[i].(instance := Some(r.key.instance), sample := r.key.sample, used := true);
      (Pool(p.bindings[i := b], p.nodes[node := clip], p.active[node := started]), node)
    case None =>
      var node := |p.nodes|;
      var b := Binding(node, r.layer, Some(r.key.instance), r.key.sample, true);
      (Pool(p.bindings + [b], p.nodes + [clip], p.active[node := started]), node)
  }

  /** Finds or makes the binding of one active sample and sets its playback. */
  function Touch(p: Pool, r: Request): Pool
    requires NodesExist(p)
  {
    var (q, node) := match FindBound(p.bindings, r.key)
      case Some(i) => (p.(bindings := p.bindings[i := p.bindings[i].(used := true)]), p.bindings[i].node)
      case None => Bind(p, r);
    q.(active := q.active[node := Playing(r.weight, 0.0, r.seek, true)])
  }

  function TouchAll(p: Pool, rs: seq<Request>): (q: Pool)
    requires NodesExist(p)
    ensures NodesExist(q)
  {
    if rs == [] then p else Touch(TouchAll(p, rs[..|rs| - 1]), rs[|rs| - 1])
  }

  function ClearUsed(bindings: seq<Binding>): seq<Binding> {
    seq(|bindings|, i requires 0 <= i < |bindings| => bindings[i].(used := false))
  }

  predicate Stale(b: Binding) {
    b.instance.Some? && !b.used
  }

  function Freed(b: Binding): Binding {
    if Stale(b) then b.(instance := None) else b
  }

  function StaleNodes(bindings: seq<Binding>): set<nat> {
    set b | b in bindings && Stale(b) :: b.node
  }

  /** Frees the slots nothing asked for this frame and stops their nodes. */
  function Release(p: Pool): Pool {
    p.(bindings := seq(|p.bindings|, i requires 0 <= i < |p.bindings| => Freed(p.bindings[i])),
       active := p.active - StaleNodes(p.bindings))
  }

  function ApplyFrame(p: Pool, frame: Frame): Pool
    requires NodesExist(p)
  {
    Release(TouchAll(p.(bindings := ClearUsed(p.bindings)), Requests(frame)))
  }

  // ----- the same, in place -----

  class AnimationGraph {
    var nodes: seq<GraphNode>

    method AddClipWithMask(clip: nat, mask: nat, weight: real) returns (node: nat)
      modifies this
      ensures node == old(|nodes|) && nodes == old(nodes) + [ClipNode(clip, mask, weight)]
    {
      node := |nodes|;
      nodes := nodes + [ClipNode(clip, mask, weight)];
    }

    /** `node_weight_mut(..).expect(..)`: the node must exist. */
    method ReplaceClip(node: nat, clip: nat, mask: nat, weight: real)
      requires node < |nodes|
      modifies this
      ensures nodes == old(nodes)[node := ClipNode(clip, mask, weight)]
    {
      nodes := nodes[node := ClipNode(clip, mask, weight)];
    }
  }

  class AnimationPlayer {
    var active: map<nat, Playing>

    method Start(node: nat)
      modifies this
      ensures active == old(active)[node := Playing(1.0, 0.0, 0.0, true)]
    {
      active := active[node := Playing(1.0, 0.0, 0.0, true)];
    }

    /** `animation_mut(..).expect(..)`: the node must be active. */
    method Adjust(node: nat, weight: real, seek: real)
      requires node in active
      modifies this
      ensures active == old(active)[node := Playing(weight, 0.0, seek, true)]
    {
      active := active[node := Playing(weight, 0.0, seek, true)];
    }

    method Stop(node: nat)
      modifies this
      ensures active == old(active) - {node}
    {
      active := active - {node};
    }
  }

  class CryAnimationPlayer {
    var bindings: seq<Binding>

    constructor ()
      ensures bindings == []
    {
      bindings := [];
    }

    ghost function View(graph: AnimationGraph, player: AnimationPlayer): Pool
      reads this, graph, player
    {
      Pool(bindings, graph.nodes, player.active)
    }

    method BindAnimation(r: Request, graph: AnimationGraph, player: AnimationPlayer) returns (node: nat)
      requires NodesExist(View(graph, player))
      modifies this, graph, player
      ensures (View(graph, player), node) == Bind(old(View(graph, player)), r)
    {
      var free := FindFree(bindings, r.layer);
      if free.Some? {
        var i := free.value;
        node := bindings[i].node;
        graph.ReplaceClip(node, r.clip, r.mask, 1.0);
        bindings := bindings[i := bindings[i].(instance := Some(r.key.instance), sample := r.key.sample, used := true)];
      } else {
        node := graph.AddClipWithMask(r.clip, r.mask, 1.0);
        bindings := bindings + [Binding(node, r.layer, Some(r.key.instance), r.key.sample, true)];
      }
      player.Start(node);
    }

    /** One active sample. The player's node is always active when its playback is set. */
    method ApplySample(r: Request, ghost owners: map<nat, Owner>, graph: AnimationGraph, player: AnimationPlayer)
      requires PoolOk(View(graph, player), owners)
      modifies this, graph, player
      ensures View(graph, player) == Touch(old(View(graph, player)), r)
    {
      var bound := FindBound(bindings, r.key);
      var node: nat;
      if bound.Some? {
        var i := bound.value;
        node := bindings[i].node;
        assert SlotOk(View(graph, player), bindings[i], owners);
        bindings := bindings[i := bindings[i].(used := true)];
      } else {
        node := BindAnimation(r, graph, player);
      }
      player.Adjust(node, r.weight, r.seek);
    }

    method ClearUsedFlags()
      modifies this
      ensures bindings == ClearUsed(old(bindings))
    {
      var n := |bindings|;
      for i := 0 to n
        invariant |bindings| == n
        invariant forall k :: 0 <= k < n ==>
                    bindings[k] == if k < i then old(bindings)[k].(used := false) else old(bindings)[k]
      {
        bindings := bindings[i := bindings[i].(used := false)];
      }
    }

    /** Binds every active sample of one animation and sets its playback. */
    method BindSamples(layer: nat, a: Animation, ghost owners: map<nat, Owner>, graph: AnimationGraph,
                       player: AnimationPlayer)
      requires PoolOk(View(graph, player), owners)
      requires a.Valid() && a.id in owners && owners[a.id] == Owner(layer, a.clips)
      modifies this, graph, player
      ensures View(graph, player) == TouchAll(old(View(graph, player)), AnimationRequests(layer, a, |a.weights|))
      ensures PoolOk(View(graph, player), owners)
    {
      hide *;
      ghost var start := View(graph, player);
      TouchNone(start, layer, a, owners);
      for sample := 0 to |a.weights|
        invariant PoolOk(View(graph, player), owners)
        invariant View(graph, player) == TouchAll(start, AnimationRequests(layer, a, sample))
      {
        ghost var now := View(graph, player);
        TouchNext(start, layer, a, sample, owners);
        if a.weights[sample] != 0.0 {
          var r := SampleRequest(layer, a, sample);
          TouchOk(now, r, owners);
          ApplySample(r, owners, graph, player);
          assert View(graph, player) == Touch(now, r);
        } else {
          assert View(graph, player) == now;
        }
      }
    }

    /** Binds every active animation of one layer. */
    method BindLayer(layer: nat, anims: seq<Animation>, ghost owners: map<nat, Owner>, graph: AnimationGraph,
                     player: AnimationPlayer)
      requires PoolOk(View(graph, player), owners) && ValidLayer(anims)
      requires forall k :: 0 <= k < |anims| ==>
                 anims[k].id in owners && owners[anims[k].id] == Owner(layer, anims[k].clips)
      modifies this, graph, player
      ensures NodesExist(old(View(graph, player)))
      ensures View(graph, player) == TouchAll(old(View(graph, player)), LayerRequests(layer, anims, |anims|))
      ensures PoolOk(View(graph, player), owners)
    {
      hide PoolOk, AnimationRequests, NodesExist;
      ghost var start := View(graph, player);
      PoolNodesExist(start, owners);
      for k := 0 to |anims|
        invariant PoolOk(View(graph, player), owners)
        invariant View(graph, player) == TouchAll(start, LayerRequests(layer, anims, k))
      {
        TouchAllConcat(start, LayerRequests(layer, anims, k), AnimationRequests(layer, anims[k], |anims[k].weights|));
        BindSamples(layer, anims[k], owners, graph, player);
      }
    }

    /** Binds every active sample of every layer. */
    method BindActive(frame: Frame, ghost owners: map<nat, Owner>, graph: AnimationGraph, player: AnimationPlayer)
      requires PoolOk(View(graph, player), owners) && FrameFits(frame, owners)
      modifies this, graph, player
      ensures NodesExist(old(View(graph, player)))
      ensures View(graph, player) == TouchAll(old(View(graph, player)), Requests(frame))
    {
      hide PoolOk, LayerRequests, NodesExist;
      ghost var start := View(graph, player);
      PoolNodesExist(start, owners);
      for layer := 0 to |frame|
        invariant PoolOk(View(graph, player), owners)
        invariant View(graph, player) == TouchAll(start, FrameRequests(frame, layer))
      {
        TouchAllConcat(start, FrameRequests(frame, layer), LayerRequests(layer, frame[layer], |frame[layer]|));
        BindLayer(layer, frame[layer], owners, graph, player);
      }
    }

    /** Frees the bindings this frame did not use. */
    method ReleaseStale(graph: AnimationGraph, player: AnimationPlayer)
      modifies this, player
      ensures View(graph, player) == Release(old(View(graph, player)))
    {
      ghost var start := View(graph, player);
      var n := |bindings|;
      for i := 0 to n
        invariant |bindings| == n
        invariant forall k :: 0 <= k < n ==>
                    bindings[k] == if k < i then Freed(start.bindings[k]) else start.bindings[k]
        invariant player.active == start.active - StaleNodes(start.bindings[..i])
      {
        assert start.bindings[..i + 1] == start.bindings[..i] + [start.bindings[i]];
        if bindings[i].instance.None? || bindings[i].used {
          continue;
        }
        player.Stop(bindings[i].node);
        bindings := bindings[i := bindings[i].(instance := None)];
      }
      assert start.bindings[..n] == start.bindings;
    }

    /** One frame: bind every active sample, then free what this frame did not use. */
    method Apply(frame: Frame, ghost owners: map<nat, Owner>, graph: AnimationGraph, player: AnimationPlayer)
      requires PoolOk(View(graph, player), owners) && FrameFits(frame, owners)
      modifies this, graph, player
      ensures NodesExist(old(View(graph, player)))
      ensures View(graph, player) == ApplyFrame(old(View(graph, player)), frame)
      ensures PoolOk(View(graph, player), owners)
    {
      ghost var start := View(graph, player);
      ClearUsedOk(start, owners);
      ApplyFrameOk(start, frame, owners);
      ClearUsedFlags();
      BindActive(frame, owners, graph, player);
      ReleaseStale(graph, player);
    }
  }

  // ----- the pool invariant -----

  /** What an instance keeps for its whole life: its layer and its motion's clips. */
  datatype Owner = Owner(layer: nat, clips: seq<ClipMotion>)

  /** An occupied slot holds the clip and mask of its instance, on its layer. */
  ghost predicate OwnedClip(p: Pool, b: Binding, owners: map<nat, Owner>) {
    && b.instance.Some? && b.instance.value in owners && owners[b.instance.value].layer == b.layer
    && b.sample < |owners[b.instance.value].clips|
    && b.node < |p.nodes|
    && var clip := owners[b.instance.value].clips[b.sample];
    p.nodes[b.node] == ClipNode(clip.clip, clip.mask, 1.0)
  }

  ghost predicate SlotOk(p: Pool, b: Binding, owners: map<nat, Owner>) {
    b.node < |p.nodes| && (b.instance.Some? ==> b.node in p.active && OwnedClip(p, b, owners))
  }

  ghost predicate SlotsOk(p: Pool, owners: map<nat, Owner>) {
    forall i :: 0 <= i < |p.bindings| ==> SlotOk(p, p.bindings[i], owners)
  }

  ghost predicate DistinctNodes(bindings: seq<Binding>) {
    forall i, j :: 0 <= i < j < |bindings| ==> bindings[i].node != bindings[j].node
  }

  ghost predicate DistinctKeys(bindings: seq<Binding>) {
    forall i, j :: 0 <= i < j < |bindings| && bindings[i].instance.Some? && bindings[j].instance.Some? ==>
      bindings[i].Key() != bindings[j].Key()
  }

  ghost predicate Backed(bindings: seq<Binding>, node: nat) {
    exists i :: 0 <= i < |bindings| && bindings[i].instance.Some? && bindings[i].node == node
  }

  /** The player's active nodes are exactly the occupied ones, slots have distinct nodes, no two
      occupied slots share an (instance, sample) pair, and each holds its own clip. */
  ghost predicate PoolOk(p: Pool, owners: map<nat, Owner>) {
    && NodesExist(p) && SlotsOk(p, owners)
    && DistinctNodes(p.bindings) && DistinctKeys(p.bindings)
    && forall n <- p.active :: Backed(p.bindings, n)
  }

  predicate Fits(r: Request, owners: map<nat, Owner>) {
    && r.key.instance in owners && owners[r.key.instance].layer == r.layer
    && r.key.sample < |owners[r.key.instance].clips|
    && owners[r.key.instance].clips[r.key.sample].clip == r.clip
    && owners[r.key.instance].clips[r.key.sample].mask == r.mask
  }

  /** Every active entry plays its own motion on its own layer. */
  predicate FrameFits(frame: Frame, owners: map<nat, Owner>) {
    forall l, k :: 0 <= l < |frame| && 0 <= k < |frame[l]| ==>
      frame[l][k].id in owners && owners[frame[l][k].id] == Owner(l, frame[l][k].clips)
  }

  /** `q` is `p` with slot `i` rewritten or appended. */
  ghost predicate OneSlot(p: Pool, q: Pool, i: nat)
  {
    && i < |q.bindings| && |p.bindings| <= |q.bindings|
    && (forall k :: 0 <= k < |q.bindings| && k != i ==> k < |p.bindings| && q.bindings[k] == p.bindings[k])
    && |p.nodes| <= |q.nodes|
    && (forall n :: 0 <= n < |p.nodes| && n != q.bindings[i].node ==> q.nodes[n] == p.nodes[n])
    && q.active.Keys == p.active.Keys + {q.bindings[i].node}
  }

  lemma OneSlotOk(p: Pool, q: Pool, i: nat, key: SampleKey, owners: map<nat, Owner>)
    requires PoolOk(p, owners) && OneSlot(p, q, i)
    requires SlotOk(q, q.bindings[i], owners) && q.bindings[i].Holds(key)
    requires forall k :: 0 <= k < |q.bindings| && k != i ==>
               q.bindings[k].node != q.bindings[i].node && !q.bindings[k].Holds(key)
    requires i < |p.bindings| ==> p.bindings[i].node == q.bindings[i].node
    ensures PoolOk(q, owners)
  {
    forall k | 0 <= k < |q.bindings|
      ensures SlotOk(q, q.bindings[k], owners)
    {
      var b := q.bindings[k];
      if k != i {
        assert SlotOk(p, p.bindings[k], owners);
      }
    }
    forall n <- q.active
      ensures Backed(q.bindings, n)
    {
      if n != q.bindings[i].node {
        assert Backed(p.bindings, n);
        var k :| 0 <= k < |p.bindings| && p.bindings[k].instance.Some? && p.bindings[k].node == n;
        assert q.bindings[k] == p.bindings[k];
      }
    }
    forall j, k | 0 <= j < k < |q.bindings| && q.bindings[j].instance.Some? && q.bindings[k].instance.Some?
      ensures q.bindings[j].Key() != q.bindings[k].Key()
    {
      if j == i || k == i {
        assert !q.bindings[if j == i then k else j].Holds(key);
      } else {
        assert p.bindings[j].Key() != p.bindings[k].Key();
      }
    }
  }

  /** The slot a request ends up in. */
  function SlotOf(p: Pool, r: Request): nat {
    match FindBound(p.bindings, r.key)
    case Some(i) => i
    case None => match FindFree(p.bindings, r.layer) case Some(i) => i case None => |p.bindings|
  }

  /** Slot `i` alone changed, from free or already holding the request's key to serving the request. */
  ghost predicate Serves(p: Pool, q: Pool, r: Request, i: nat, owners: map<nat, Owner>) {
    && OneSlot(p, q, i)
    && q.bindings[i].Holds(r.key) && q.bindings[i].used && q.bindings[i].layer == r.layer
    && (i < |p.bindings| ==>
         && p.bindings[i].node == q.bindings[i].node && p.bindings[i].layer == r.layer
         && (p.bindings[i].instance.Some? ==> p.bindings[i].Holds(r.key)))
    && SlotOk(q, q.bindings[i], owners)
    && q.active == p.active[q.bindings[i].node := Playing(r.weight, 0.0, r.seek, true)]
    && |q.nodes| - |p.nodes| == |q.bindings| - |p.bindings|
    && |q.bindings| == if i < |p.bindings| then |p.bindings| else |p.bindings| + 1
  }

  lemma BoundServes(p: Pool, r: Request, owners: map<nat, Owner>)
    requires NodesExist(p) && SlotsOk(p, owners) && Fits(r, owners) && FindBound(p.bindings, r.key).Some?
    ensures Serves(p, Touch(p, r), r, FindBound(p.bindings, r.key).value, owners)
  {
    hide FindBound, FindFree;
    assert SlotOk(p, p.bindings[FindBound(p.bindings, r.key).value], owners);
  }

  lemma FreeServes(p: Pool, r: Request, owners: map<nat, Owner>)
    requires NodesExist(p) && Fits(r, owners)
    requires FindBound(p.bindings, r.key).None? && FindFree(p.bindings, r.layer).Some?
    ensures Serves(p, Touch(p, r), r, FindFree(p.bindings, r.layer).value, owners)
  {
    hide FindBound, FindFree;
  }

  lemma NewServes(p: Pool, r: Request, owners: map<nat, Owner>)
    requires NodesExist(p) && Fits(r, owners)
    requires FindBound(p.bindings, r.key).None? && FindFree(p.bindings, r.layer).None?
    ensures Serves(p, Touch(p, r), r, |p.bindings|, owners)
  {
    hide FindBound, FindFree;
  }

  lemma TouchIsOneSlot(p: Pool, r: Request, owners: map<nat, Owner>)
    requires PoolOk(p, owners) && Fits(r, owners)
    ensures Serves(p, Touch(p, r), r, SlotOf(p, r), owners)
  {
    hide Serves, Touch, Fits;
    if FindBound(p.bindings, r.key).Some? {
      BoundServes(p, r, owners);
    } else if FindFree(p.bindings, r.layer).Some? {
      FreeServes(p, r, owners);
    } else {
      NewServes(p, r, owners);
    }
  }

  lemma OtherSlots(p: Pool, r: Request, owners: map<nat, Owner>, k: nat)
    requires PoolOk(p, owners) && Fits(r, owners) && k < |p.bindings| && k != SlotOf(p, r)
    ensures var i := SlotOf(p, r);
            && !p.bindings[k].Holds(r.key)
            && p.bindings[k].node != (if i < |p.bindings| then p.bindings[i].node else |p.nodes|)
  {
    var i := SlotOf(p, r);
    assert SlotOk(p, p.bindings[k], owners);
    if FindBound(p.bindings, r.key).Some? {
      assert p.bindings[i].Key() == r.key;
      assert p.bindings[k].instance.Some? ==> p.bindings[k].Key() != r.key;
    }
  }

  lemma TouchOk(p: Pool, r: Request, owners: map<nat, Owner>)
    requires PoolOk(p, owners) && Fits(r, owners)
    ensures PoolOk(Touch(p, r), owners)
  {
    var q, i := Touch(p, r), SlotOf(p, r);
    TouchIsOneSlot(p, r, owners);
    forall k | 0 <= k < |q.bindings| && k != i
      ensures q.bindings[k].node != q.bindings[i].node && !q.bindings[k].Holds(r.key)
    {
      OtherSlots(p, r, owners, k);
    }
    OneSlotOk(p, q, i, r.key, owners);
  }

  lemma TouchAllStep(p: Pool, rs: seq<Request>, r: Request)
    requires NodesExist(p)
    ensures TouchAll(p, rs + [r]) == Touch(TouchAll(p, rs), r)
  {
    assert (rs + [r])[..|rs + [r]| - 1] == rs;
  }

  lemma TouchNone(p: Pool, layer: nat, a: Animation, owners: map<nat, Owner>)
    requires PoolOk(p, owners) && a.Valid()
    ensures NodesExist(p) && TouchAll(p, AnimationRequests(layer, a, 0)) == p
  {
  }

  /** Serving one more sample of an animation. */
  lemma TouchNext(p: Pool, layer: nat, a: Animation, sample: nat, owners: map<nat, Owner>)
    requires NodesExist(p) && a.Valid() && sample < |a.weights|
    requires a.id in owners && owners[a.id] == Owner(layer, a.clips)
    ensures a.weights[sample] != 0.0 ==>
              && Fits(SampleRequest(layer, a, sample), owners)
              && TouchAll(p, AnimationRequests(layer, a, sample + 1))
                 == Touch(TouchAll(p, AnimationRequests(layer, a, sample)), SampleRequest(layer, a, sample))
    ensures a.weights[sample] == 0.0 ==>
              AnimationRequests(layer, a, sample + 1) == AnimationRequests(layer, a, sample)
  {
    hide Fits, Touch, TouchAll, SampleRequest;
    var done := AnimationRequests(layer, a, sample);
    if a.weights[sample] != 0.0 {
      var r := SampleRequest(layer, a, sample);
      AnimationFits(layer, a, sample + 1, owners);
      assert AnimationRequests(layer, a, sample + 1) == done + [r];
      assert r in done + [r];
      TouchAllStep(p, done, r);
    }
  }

  lemma {:induction false} TouchAllConcat(p: Pool, rs: seq<Request>, more: seq<Request>)
    requires NodesExist(p)
    ensures TouchAll(p, rs + more) == TouchAll(TouchAll(p, rs), more)
  {
    if more == [] {
      assert rs + more == rs;
    } else {
      TouchAllConcat(p, rs, more[..|more| - 1]);
      assert (rs + more)[..|rs + more| - 1] == rs + more[..|more| - 1];
    }
  }

  lemma {:induction false} TouchAllOk(p: Pool, rs: seq<Request>, owners: map<nat, Owner>)
    requires PoolOk(p, owners) && forall r <- rs :: Fits(r, owners)
    ensures PoolOk(TouchAll(p, rs), owners)
  {
    if rs != [] {
      TouchAllOk(p, rs[..|rs| - 1], owners);
      TouchOk(TouchAll(p, rs[..|rs| - 1]), rs[|rs| - 1], owners);
    }
  }

  /** Only `used` flags differ. */
  lemma ClearUsedOk(p: Pool, owners: map<nat, Owner>)
    requires PoolOk(p, owners)
    ensures PoolOk(p.(bindings := ClearUsed(p.bindings)), owners)
  {
    var q := p.(bindings := ClearUsed(p.bindings));
    forall i | 0 <= i < |q.bindings|
      ensures SlotOk(q, q.bindings[i], owners)
    {
      assert SlotOk(p, p.bindings[i], owners);
    }
    forall n <- q.active
      ensures Backed(q.bindings, n)
    {
      assert Backed(p.bindings, n);
      var i :| 0 <= i < |p.bindings| && p.bindings[i].instance.Some? && p.bindings[i].node == n;
      assert q.bindings[i].instance.Some?;
    }
    forall j, k | 0 <= j < k < |q.bindings| && q.bindings[j].instance.Some? && q.bindings[k].instance.Some?
      ensures q.bindings[j].Key() != q.bindings[k].Key()
    {
      assert p.bindings[j].Key() != p.bindings[k].Key();
    }
  }

  lemma StaleNodeIs(p: Pool, n: nat)
    requires DistinctNodes(p.bindings) && n in StaleNodes(p.bindings)
    ensures forall i :: 0 <= i < |p.bindings| && p.bindings[i].node == n ==> Stale(p.bindings[i])
  {
    var b :| b in p.bindings && Stale(b) && b.node == n;
    var j :| 0 <= j < |p.bindings| && p.bindings[j] == b;
    forall i | 0 <= i < |p.bindings| && p.bindings[i].node == n
      ensures i == j
    {
    }
  }

  lemma ReleaseSlots(p: Pool, owners: map<nat, Owner>)
    requires PoolOk(p, owners)
    ensures SlotsOk(Release(p), owners)
  {
    hide OwnedClip, Backed, DistinctKeys, StaleNodes;
    var q := Release(p);
    forall i | 0 <= i < |q.bindings|
      ensures SlotOk(q, q.bindings[i], owners)
    {
      assert SlotOk(p, p.bindings[i], owners);
      if p.bindings[i].node in StaleNodes(p.bindings) {
        StaleNodeIs(p, p.bindings[i].node);
      }
      assert q.bindings[i] == Freed(p.bindings[i]);
      assert OwnedClip(q, p.bindings[i], owners) == OwnedClip(p, p.bindings[i], owners) by {
        SameNodesSameClip(p, q, p.bindings[i], owners);
      }
    }
  }

  lemma SameNodesSameClip(p: Pool, q: Pool, b: Binding, owners: map<nat, Owner>)
    requires p.nodes == q.nodes
    ensures OwnedClip(q, b, owners) == OwnedClip(p, b, owners)
  {
  }

  lemma ReleaseBacked(p: Pool, n: nat)
    requires Backed(p.bindings, n) && n !in StaleNodes(p.bindings)
    ensures Backed(Release(p).bindings, n)
  {
    var i :| 0 <= i < |p.bindings| && p.bindings[i].instance.Some? && p.bindings[i].node == n;
    assert p.bindings[i] in p.bindings;
    assert Release(p).bindings[i] == p.bindings[i];
  }

  lemma ReleaseDistinct(p: Pool)
    requires DistinctKeys(p.bindings) && DistinctNodes(p.bindings)
    ensures DistinctKeys(Release(p).bindings) && DistinctNodes(Release(p).bindings)
  {
    var q := Release(p);
    forall j, k | 0 <= j < k < |q.bindings|
      ensures q.bindings[j].node != q.bindings[k].node
      ensures q.bindings[j].instance.Some? && q.bindings[k].instance.Some? ==>
                q.bindings[j].Key() != q.bindings[k].Key()
    {
      assert p.bindings[j].node != p.bindings[k].node;
    }
  }

  lemma ReleaseOk(p: Pool, owners: map<nat, Owner>)
    requires PoolOk(p, owners)
    ensures PoolOk(Release(p), owners)
  {
    hide SlotsOk, Backed, DistinctKeys, DistinctNodes, StaleNodes;
    var q := Release(p);
    ReleaseSlots(p, owners);
    ReleaseDistinct(p);
    forall n <- q.active
      ensures Backed(q.bindings, n)
    {
      ReleaseBacked(p, n);
    }
  }

  /** One frame keeps the pool invariant. */
  lemma ApplyFrameOk(p: Pool, frame: Frame, owners: map<nat, Owner>)
    requires PoolOk(p, owners) && FrameFits(frame, owners)
    ensures NodesExist(p) && PoolOk(ApplyFrame(p, frame), owners)
  {
    hide PoolOk, Release, TouchAll, Fits;
    var cleared := p.(bindings := ClearUsed(p.bindings));
    ClearUsedOk(p, owners);
    RequestsFit(frame, owners, |frame|);
    PoolNodesExist(cleared, owners);
    PoolNodesExist(p, owners);
    TouchAllOk(cleared, Requests(frame), owners);
    ReleaseOk(TouchAll(cleared, Requests(frame)), owners);
  }

  lemma PoolNodesExist(p: Pool, owners: map<nat, Owner>)
    requires PoolOk(p, owners)
    ensures NodesExist(p)
  {
  }

  // ----- the requests of a frame fit their owners -----

  lemma {:induction false} AnimationFits(layer: nat, a: Animation, n: nat, owners: map<nat, Owner>)
    requires a.Valid() && n <= |a.weights| && a.id in owners && owners[a.id] == Owner(layer, a.clips)
    ensures forall r <- AnimationRequests(layer, a, n) :: Fits(r, owners)
  {
    if n > 0 {
      AnimationFits(layer, a, n - 1, owners);
    }
  }

  lemma {:induction false} LayerFits(frame: Frame, owners: map<nat, Owner>, layer: nat, n: nat)
    requires FrameFits(frame, owners) && layer < |frame| && n <= |frame[layer]|
    ensures forall r <- LayerRequests(layer, frame[layer], n) :: Fits(r, owners)
  {
    if n > 0 {
      LayerFits(frame, owners, layer, n - 1);
      AnimationFits(layer, frame[layer][n - 1], |frame[layer][n - 1].weights|, owners);
    }
  }

  lemma {:induction false} RequestsFit(frame: Frame, owners: map<nat, Owner>, n: nat)
    requires FrameFits(frame, owners) && n <= |frame|
    ensures forall r <- FrameRequests(frame, n) :: Fits(r, owners)
  {
    if n > 0 {
      RequestsFit(frame, owners, n - 1);
      LayerFits(frame, owners, n - 1, |frame[n - 1]|);
    }
  }
}
