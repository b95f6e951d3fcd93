/** What the slot pool holds after a frame and over whole runs, and its exact size. */
module GraphPoolRuns {
  import opened Arithmetic
  import opened Common
  import opened GraphPool
  import opened MotionClock

  // ----- keys held on a layer -----

  function LayerKeys(bindings: seq<Binding>, layer: nat): set<SampleKey> {
    set i | 0 <= i < |bindings| && bindings[i].instance.Some? && bindings[i].layer == layer :: bindings[i].Key()
  }

  function UsedKeys(bindings: seq<Binding>, layer: nat): set<SampleKey> {
    set i | 0 <= i < |bindings| && bindings[i].instance.Some? && bindings[i].layer == layer && bindings[i].used
      :: bindings[i].Key()
  }

  function RequestKeys(rs: seq<Request>, layer: nat): set<SampleKey> {
    set i | 0 <= i < |rs| && rs[i].layer == layer :: rs[i].key
  }

  /** The (instance, sample) pairs active on a layer this frame. */
  function FrameKeys(frame: Frame, layer: nat): set<SampleKey>
    requires layer < |frame|
  {
    set k, s | 0 <= k < |frame[layer]| && 0 <= s < |frame[layer][k].weights| && frame[layer][k].weights[s] != 0.0
      :: SampleKey(frame[layer][k].id, s)
  }

  function OnLayer(layer: nat, r: Request): set<SampleKey> {
    if r.layer == layer then {r.key} else {}
  }

  lemma TouchKeys(p: Pool, r: Request, owners: map<nat, Owner>, layer: nat)
    requires PoolOk(p, owners) && Fits(r, owners)
    ensures LayerKeys(Touch(p, r).bindings, layer) == LayerKeys(p.bindings, layer) + OnLayer(layer, r)
    ensures UsedKeys(Touch(p, r).bindings, layer) == UsedKeys(p.bindings, layer) + OnLayer(layer, r)
  {
    TouchIsOneSlot(p, r, owners);
    SlotKeys(p.bindings, Touch(p, r).bindings, SlotOf(p, r), r, layer);
  }

  lemma SlotKeys(before: seq<Binding>, after: seq<Binding>, i: nat, r: Request, layer: nat)
    requires i < |after| && |before| <= |after|
    requires forall k :: 0 <= k < |after| && k != i ==> k < |before| && after[k] == before[k]
    requires after[i].Holds(r.key) && after[i].used && after[i].layer == r.layer
    requires i < |before| ==> before[i].layer == r.layer && (before[i].instance.Some? ==> before[i].Holds(r.key))
    ensures LayerKeys(after, layer) == LayerKeys(before, layer) + OnLayer(layer, r)
    ensures UsedKeys(after, layer) == UsedKeys(before, layer) + OnLayer(layer, r)
  {
    forall key
      ensures key in LayerKeys(after, layer) <==> key in LayerKeys(before, layer) + OnLayer(layer, r)
      ensures key in UsedKeys(after, layer) <==> key in UsedKeys(before, layer) + OnLayer(layer, r)
    {
      if key in LayerKeys(before, layer) {
        var k :| 0 <= k < |before| && before[k].instance.Some? && before[k].layer == layer && before[k].Key() == key;
        assert k != i ==> after[k] == before[k];
      }
      if key in UsedKeys(before, layer) {
        var k :| 0 <= k < |before| && before[k].instance.Some? && before[k].layer == layer && before[k].used
                 && before[k].Key() == key;
        assert k != i ==> after[k] == before[k];
      }
    }
  }

  lemma {:induction false} TouchAllKeys(p: Pool, rs: seq<Request>, owners: map<nat, Owner>, layer: nat)
    requires PoolOk(p, owners) && forall r <- rs :: Fits(r, owners)
    ensures LayerKeys(TouchAll(p, rs).bindings, layer) == LayerKeys(p.bindings, layer) + RequestKeys(rs, layer)
    ensures UsedKeys(TouchAll(p, rs).bindings, layer) == UsedKeys(p.bindings, layer) + RequestKeys(rs, layer)
  {
    if rs == [] {
      assert RequestKeys(rs, layer) == {};
    } else {
      hide *;
      var init, last := rs[..|rs| - 1], rs[|rs| - 1];
      assert rs == init + [last];
      PoolNodesExist(p, owners);
      TouchAllKeys(p, init, owners, layer);
      TouchAllOk(p, init, owners);
      TouchAllStep(p, init, last);
      TouchKeys(TouchAll(p, init), last, owners, layer);
      RequestKeysPushed(init, last, layer);
    }
  }

  lemma RequestKeysPushed(rs: seq<Request>, r: Request, layer: nat)
    ensures RequestKeys(rs + [r], layer) == RequestKeys(rs, layer) + OnLayer(layer, r)
  {
    forall key
      ensures key in RequestKeys(rs + [r], layer) <==> key in RequestKeys(rs, layer) + OnLayer(layer, r)
    {
      assert (rs + [r])[|rs|] == r;
      if key in RequestKeys(rs, layer) {
        var i :| 0 <= i < |rs| && rs[i].layer == layer && rs[i].key == key;
        assert (rs + [r])[i] == rs[i];
      }
    }
  }

  lemma ReleaseKeys(p: Pool, layer: nat)
    ensures LayerKeys(Release(p).bindings, layer) == UsedKeys(p.bindings, layer)
  {
    var q := Release(p);
    forall key
      ensures key in LayerKeys(q.bindings, layer) <==> key in UsedKeys(p.bindings, layer)
    {
      if key in UsedKeys(p.bindings, layer) {
        var k :| 0 <= k < |p.bindings| && p.bindings[k].instance.Some? && p.bindings[k].layer == layer
                 && p.bindings[k].used && p.bindings[k].Key() == key;
        assert q.bindings[k] == p.bindings[k];
      }
    }
  }

  lemma ClearedKeys(bindings: seq<Binding>, layer: nat)
    ensures LayerKeys(ClearUsed(bindings), layer) == LayerKeys(bindings, layer)
    ensures UsedKeys(ClearUsed(bindings), layer) == {}
  {
    forall key | key in LayerKeys(bindings, layer)
      ensures key in LayerKeys(ClearUsed(bindings), layer)
    {
      var k :| 0 <= k < |bindings| && bindings[k].instance.Some? && bindings[k].layer == layer
        && bindings[k].Key() == key;
      assert ClearUsed(bindings)[k].Key() == key;
    }
  }

  // ----- the requests of a frame are its active pairs -----

  lemma {:induction false} AnimationKeys(layer: nat, a: Animation, n: nat, r: Request)
    requires a.Valid() && n <= |a.weights|
    ensures r in AnimationRequests(layer, a, n) <==>
            exists s :: 0 <= s < n && a.weights[s] != 0.0 && r == SampleRequest(layer, a, s)
  {
    hide SampleRequest;
    if n > 0 {
      AnimationKeys(layer, a, n - 1, r);
      if a.weights[n - 1] != 0.0 && r == SampleRequest(layer, a, n - 1) {
        assert 0 <= n - 1 < n;
      }
    }
  }

  /** Some animation among the first `n` of a layer makes this request. */
  ghost predicate AsksBefore(r: Request, layer: nat, anims: seq<Animation>, n: nat)
    requires n <= |anims| && ValidLayer(anims)
  {
    exists k :: 0 <= k < n && AsksAt(r, layer, anims, k)
  }

  ghost predicate AsksAt(r: Request, layer: nat, anims: seq<Animation>, k: int)
    requires 0 <= k < |anims| && ValidLayer(anims)
  {
    exists s :: 0 <= s < |anims[k].weights| && anims[k].weights[s] != 0.0 && r == SampleRequest(layer, anims[k], s)
  }

  lemma AsksBeforeStep(r: Request, layer: nat, anims: seq<Animation>, n: nat)
    requires 0 < n <= |anims| && ValidLayer(anims)
    ensures AsksBefore(r, layer, anims, n) <==> AsksBefore(r, layer, anims, n - 1) || AsksAt(r, layer, anims, n - 1)
  {
    hide AsksAt;
  }

  lemma {:induction false} LayerRequestsAre(layer: nat, anims: seq<Animation>, n: nat, r: Request)
    requires n <= |anims| && ValidLayer(anims)
    ensures r in LayerRequests(layer, anims, n) <==> AsksBefore(r, layer, anims, n)
  {
    if n > 0 {
      hide AsksBefore, AnimationRequests;
      LayerRequestsAre(layer, anims, n - 1, r);
      AnimationKeys(layer, anims[n - 1], |anims[n - 1].weights|, r);
      AsksBeforeStep(r, layer, anims, n);
    }
  }

  lemma AskedLayer(r: Request, layer: nat, anims: seq<Animation>, n: nat)
    requires n <= |anims| && ValidLayer(anims) && AsksBefore(r, layer, anims, n)
    ensures r.layer == layer
  {
  }

  lemma {:induction false} FrameRequestsAre(frame: Frame, n: nat, r: Request)
    requires n <= |frame|
    ensures r in FrameRequests(frame, n) <==>
            r.layer < n && AsksBefore(r, r.layer, frame[r.layer], |frame[r.layer]|)
  {
    hide AsksBefore, LayerRequests;
    if n > 0 {
      FrameRequestsAre(frame, n - 1, r);
      LayerRequestsAre(n - 1, frame[n - 1], |frame[n - 1]|, r);
      if r in LayerRequests(n - 1, frame[n - 1], |frame[n - 1]|) {
        AskedLayer(r, n - 1, frame[n - 1], |frame[n - 1]|);
      }
    }
  }

  lemma RequestKeysAre(frame: Frame, layer: nat)
    requires layer < |frame|
    ensures RequestKeys(Requests(frame), layer) == FrameKeys(frame, layer)
  {
    forall key
      ensures key in RequestKeys(Requests(frame), layer) <==> key in FrameKeys(frame, layer)
    {
      if key in FrameKeys(frame, layer) {
        ActivePairIsAsked(frame, layer, key);
      }
      if key in RequestKeys(Requests(frame), layer) {
        AskedPairIsActive(frame, layer, key);
      }
    }
  }

  lemma ActivePairIsAsked(frame: Frame, layer: nat, key: SampleKey)
    requires layer < |frame| && key in FrameKeys(frame, layer)
    ensures key in RequestKeys(Requests(frame), layer)
  {
    var rs := Requests(frame);
    var k, s :| 0 <= k < |frame[layer]| && 0 <= s < |frame[layer][k].weights|
                && frame[layer][k].weights[s] != 0.0 && SampleKey(frame[layer][k].id, s) == key;
    var r := SampleRequest(layer, frame[layer][k], s);
    assert AsksAt(r, layer, frame[layer], k);
    FrameRequestsAre(frame, |frame|, r);
    assert r in rs;
  }

  lemma AskedPairIsActive(frame: Frame, layer: nat, key: SampleKey)
    requires layer < |frame| && key in RequestKeys(Requests(frame), layer)
    ensures key in FrameKeys(frame, layer)
  {
    var rs := Requests(frame);
    var i :| 0 <= i < |rs| && rs[i].layer == layer && rs[i].key == key;
    FrameRequestsAre(frame, |frame|, rs[i]);
    var k :| 0 <= k < |frame[layer]| && AsksAt(rs[i], layer, frame[layer], k);
  }

  /** After a frame the occupied slots of a layer are exactly that frame's active pairs. */
  lemma FrameLeavesActivePairs(p: Pool, frame: Frame, owners: map<nat, Owner>, layer: nat)
    requires PoolOk(p, owners) && FrameFits(frame, owners) && layer < |frame|
    ensures LayerKeys(ApplyFrame(p, frame).bindings, layer) == FrameKeys(frame, layer)
  {
    hide PoolOk, LayerKeys, UsedKeys, FrameKeys, RequestKeys, TouchAll, Release;
    PoolNodesExist(p, owners);
    var cleared := p.(bindings := ClearUsed(p.bindings));
    ClearUsedOk(p, owners);
    RequestsFit(frame, owners, |frame|);
    ClearedKeys(p.bindings, layer);
    TouchAllKeys(cleared, Requests(frame), owners, layer);
    ReleaseKeys(TouchAll(cleared, Requests(frame)), layer);
    RequestKeysAre(frame, layer);
  }

  // ----- playback of the active samples -----

  /** A slot holds the request's pair and its node plays the request's weight and seek time, paused. */
  ghost predicate Plays(p: Pool, r: Request) {
    exists i :: 0 <= i < |p.bindings| && PlaysAt(p, r, i)
  }

  ghost predicate PlaysAt(p: Pool, r: Request, i: nat)
    requires i < |p.bindings|
  {
    var b := p.bindings[i];
    b.Holds(r.key) && b.used && b.node in p.active && p.active[b.node] == Playing(r.weight, 0.0, r.seek, true)
  }

  lemma TouchKeepsOthers(p: Pool, r: Request, other: Request, owners: map<nat, Owner>)
    requires PoolOk(p, owners) && Fits(r, owners) && other.key != r.key && Plays(p, other)
    ensures Plays(Touch(p, r), other)
  {
    var q, i := Touch(p, r), SlotOf(p, r);
    TouchIsOneSlot(p, r, owners);
    hide Touch, PoolOk, Fits, SlotOf, SlotOk;
    var k :| 0 <= k < |p.bindings| && PlaysAt(p, other, k);
    OtherSlots(p, r, owners, k);
    assert q.bindings[k] == p.bindings[k];
    assert PlaysAt(q, other, k);
  }

  lemma TouchPlays(p: Pool, r: Request, owners: map<nat, Owner>)
    requires PoolOk(p, owners) && Fits(r, owners)
    ensures Plays(Touch(p, r), r)
  {
    TouchIsOneSlot(p, r, owners);
    assert PlaysAt(Touch(p, r), r, SlotOf(p, r));
  }

  predicate DistinctRequests(rs: seq<Request>) {
    forall i, j :: 0 <= i < j < |rs| ==> rs[i].key != rs[j].key
  }

  lemma {:induction false} TouchAllPlays(p: Pool, rs: seq<Request>, owners: map<nat, Owner>)
    requires PoolOk(p, owners) && DistinctRequests(rs) && forall r <- rs :: Fits(r, owners)
    ensures forall r <- rs :: Plays(TouchAll(p, rs), r)
  {
    PoolNodesExist(p, owners);
    hide PoolOk, Fits, Touch, Plays;
    if rs != [] {
      var init, last := rs[..|rs| - 1], rs[|rs| - 1];
      TouchAllPlays(p, init, owners);
      TouchAllOk(p, init, owners);
      TouchPlays(TouchAll(p, init), last, owners);
      forall r <- rs
        ensures Plays(TouchAll(p, rs), r)
      {
        if r != last {
          assert r in init;
          TouchKeepsOthers(TouchAll(p, init), last, r, owners);
        }
      }
    }
  }

  lemma ReleaseKeepsPlaying(p: Pool, r: Request, owners: map<nat, Owner>)
    requires PoolOk(p, owners) && Plays(p, r)
    ensures Plays(Release(p), r)
  {
    var i :| 0 <= i < |p.bindings| && PlaysAt(p, r, i);
    if p.bindings[i].node in StaleNodes(p.bindings) {
      StaleNodeIs(p, p.bindings[i].node);
    }
    assert PlaysAt(Release(p), r, i);
  }

  /** Instance ids are unique within a layer. */
  predicate UniqueIds(frame: Frame) {
    forall l, j, k :: 0 <= l < |frame| && 0 <= j < k < |frame[l]| ==> frame[l][j].id != frame[l][k].id
  }

  lemma {:induction false} AnimationDistinct(layer: nat, a: Animation, n: nat)
    requires a.Valid() && n <= |a.weights|
    ensures DistinctRequests(AnimationRequests(layer, a, n))
    ensures forall r <- AnimationRequests(layer, a, n) :: r.key.instance == a.id && r.key.sample < n && r.layer == layer
  {
    if n > 0 {
      AnimationDistinct(layer, a, n - 1);
    }
  }

  lemma {:induction false} LayerDistinct(frame: Frame, layer: nat, n: nat)
    requires UniqueIds(frame) && layer < |frame| && n <= |frame[layer]|
    ensures DistinctRequests(LayerRequests(layer, frame[layer], n))
    ensures forall r <- LayerRequests(layer, frame[layer], n) ::
              r.layer == layer && exists k :: 0 <= k < n && r.key.instance == frame[layer][k].id
  {
    hide AnimationRequests;
    if n > 0 {
      var a := frame[layer][n - 1];
      var init, more := LayerRequests(layer, frame[layer], n - 1), AnimationRequests(layer, a, |a.weights|);
      LayerDistinct(frame, layer, n - 1);
      AnimationDistinct(layer, a, |a.weights|);
      ConcatDistinct(init, more);
      forall r: Request <- init + more
        ensures r.layer == layer && exists k :: 0 <= k < n && r.key.instance == frame[layer][k].id
      {
        if r in init {
          var k :| 0 <= k < n - 1 && r.key.instance == frame[layer][k].id;
        }
      }
    }
  }

  lemma ConcatDistinct(a: seq<Request>, b: seq<Request>)
    requires DistinctRequests(a) && DistinctRequests(b)
    requires forall i, j :: 0 <= i < |a| && 0 <= j < |b| ==> a[i].key != b[j].key
    ensures DistinctRequests(a + b)
  {
  }

  lemma {:induction false} FrameDistinct(frame: Frame, owners: map<nat, Owner>, n: nat)
    requires UniqueIds(frame) && FrameFits(frame, owners) && n <= |frame|
    ensures DistinctRequests(FrameRequests(frame, n))
    ensures forall r <- FrameRequests(frame, n) :: r.layer < n
  {
    hide LayerRequests, Fits, UniqueIds, FrameFits;
    if n > 0 {
      var layer: seq<Animation> := frame[n - 1];
      var init, more := FrameRequests(frame, n - 1), LayerRequests(n - 1, layer, |layer|);
      FrameDistinct(frame, owners, n - 1);
      LayerDistinct(frame, n - 1, |layer|);
      RequestsFit(frame, owners, n - 1);
      LayerFits(frame, owners, n - 1, |layer|);
      forall i, j | 0 <= i < |init| && 0 <= j < |more|
        ensures init[i].key != more[j].key
      {
        assert init[i] in init && more[j] in more;
        FitsLayer(init[i], owners);
        FitsLayer(more[j], owners);
      }
      ConcatDistinct(init, more);
    }
  }

  lemma FitsLayer(r: Request, owners: map<nat, Owner>)
    requires Fits(r, owners)
    ensures r.key.instance in owners && owners[r.key.instance].layer == r.layer
  {
  }

  lemma FrameServes(p: Pool, frame: Frame, owners: map<nat, Owner>, layer: nat, k: nat, s: nat)
    requires PoolOk(p, owners) && FrameFits(frame, owners) && UniqueIds(frame)
    requires layer < |frame| && k < |frame[layer]| && s < |frame[layer][k].weights| && frame[layer][k].weights[s] != 0.0
    ensures Plays(ApplyFrame(p, frame), SampleRequest(layer, frame[layer][k], s))
  {
    hide PoolOk, UniqueIds, FrameFits, Plays, TouchAll, Release, FrameRequests, Fits, DistinctRequests;
    var r := SampleRequest(layer, frame[layer][k], s);
    PoolNodesExist(p, owners);
    var cleared := p.(bindings := ClearUsed(p.bindings));
    ClearUsedOk(p, owners);
    RequestsFit(frame, owners, |frame|);
    FrameDistinct(frame, owners, |frame|);
    TouchAllPlays(cleared, Requests(frame), owners);
    TouchAllOk(cleared, Requests(frame), owners);
    assert AsksAt(r, layer, frame[layer], k);
    FrameRequestsAre(frame, |frame|, r);
    ReleaseKeepsPlaying(TouchAll(cleared, Requests(frame)), r, owners);
  }

  lemma SeekSeconds(a: Animation, clip: ClipMotion)
    requires clip.timing.Valid()
    ensures SeekTime(a, clip) == ShownSeconds(a, clip)
  {
    QuotRemDivide(a.segmentIndex, clip.timing.SegmentCount());
  }

  /** The clip time an animation shows: its phase, clamped, laid between the boundaries of the segment
      its index stands for, the index taken modulo the clip's count when looping and capped otherwise. */
  function ShownSeconds(a: Animation, clip: ClipMotion): real
    requires clip.timing.Valid()
  {
    var ends, n := clip.timing.boundaries, |clip.timing.boundaries| - 1;
    var k := if a.looping then a.segmentIndex % n else if a.segmentIndex < n then a.segmentIndex else n - 1;
    var phase := if a.phase < 0.0 then 0.0 else if a.phase > 1.0 then 1.0 else a.phase;
    (ends[k] + phase * (ends[k + 1] - ends[k])) * clip.duration
  }

  /** Slot `i` of a layer holds sample `s` of animation `a`, its node plays the sample's clip under the
      product of the animation's and the sample's weights, stopped at the time the animation shows. */
  ghost predicate SlotPlays(p: Pool, i: nat, layer: nat, a: Animation, s: nat)
    requires a.Valid() && s < |a.weights|
  {
    && i < |p.bindings|
    && var b, clip := p.bindings[i], a.clips[s];
       && b.layer == layer && b.instance == Some(a.id) && b.sample == s
       && b.node < |p.nodes| && p.nodes[b.node] == ClipNode(clip.clip, clip.mask, 1.0)
       && b.node in p.active
       && p.active[b.node] == Playing(a.effectiveWeight * a.weights[s], 0.0, ShownSeconds(a, clip), true)
  }

  /** Main result: after a frame every active sample has a slot that plays it so. */
  lemma FramePlaysSamples(p: Pool, frame: Frame, owners: map<nat, Owner>, layer: nat, k: nat, s: nat)
    requires PoolOk(p, owners) && FrameFits(frame, owners) && UniqueIds(frame)
    requires layer < |frame| && k < |frame[layer]| && s < |frame[layer][k].weights| && frame[layer][k].weights[s] != 0.0
    ensures exists i: nat :: SlotPlays(ApplyFrame(p, frame), i, layer, frame[layer][k], s)
  {
    hide Release, TouchAll, Requests, SeekTime, ShownSeconds, UniqueIds;
    var a := frame[layer][k];
    var after, r := ApplyFrame(p, frame), SampleRequest(layer, a, s);
    PoolNodesExist(p, owners);
    FrameServes(p, frame, owners, layer, k, s);
    ApplyFrameOk(p, frame, owners);
    SeekSeconds(a, a.clips[s]);
    assert owners[a.id] == Owner(layer, a.clips);
    hide ApplyFrame, FrameFits;
    var i :| 0 <= i < |after.bindings| && PlaysAt(after, r, i);
    assert SlotOk(after, after.bindings[i], owners);
    hide PoolOk;
    assert SlotPlays(after, i, layer, a, s);
  }

  // ----- how many slots a layer has -----

  function Slots(bindings: seq<Binding>, layer: nat): nat {
    if bindings == [] then 0
    else Slots(bindings[..|bindings| - 1], layer) + (if bindings[|bindings| - 1].layer == layer then 1 else 0)
  }

  function FreeSlots(bindings: seq<Binding>, layer: nat): nat {
    if bindings == [] then 0
    else var b := bindings[|bindings| - 1];
         FreeSlots(bindings[..|bindings| - 1], layer) + (if b.layer == layer && b.instance.None? then 1 else 0)
  }

  lemma {:induction false} SlotsByLayers(a: seq<Binding>, b: seq<Binding>, layer: nat)
    requires |a| == |b| && forall i :: 0 <= i < |a| ==> a[i].layer == b[i].layer
    ensures Slots(a, layer) == Slots(b, layer)
  {
    if a != [] {
      SlotsByLayers(a[..|a| - 1], b[..|b| - 1], layer);
    }
  }

  /** Every slot of a layer is free or holds one of its keys. */
  lemma {:induction false} SlotsSplit(bindings: seq<Binding>, layer: nat)
    requires DistinctKeys(bindings)
    ensures Slots(bindings, layer) == |LayerKeys(bindings, layer)| + FreeSlots(bindings, layer)
  {
    hide LayerKeys;
    if bindings == [] {
      assert LayerKeys(bindings, layer) == {} by {
        EmptyPool(layer);
      }
    } else {
      var init, b := bindings[..|bindings| - 1], bindings[|bindings| - 1];
      assert bindings == init + [b];
      assert DistinctKeys(init) by {
        assert forall k :: 0 <= k < |init| ==> init[k] == bindings[k];
      }
      SlotsSplit(init, layer);
      PushedKey(init, b, layer);
      if b.instance.Some? && b.layer == layer {
        NewKey(init, b, layer);
      }
    }
  }

  lemma NewKey(init: seq<Binding>, b: Binding, layer: nat)
    requires DistinctKeys(init + [b]) && b.instance.Some? && b.layer == layer
    ensures b.Key() !in LayerKeys(init, layer)
  {
    var all := init + [b];
    forall k | 0 <= k < |init| && init[k].instance.Some?
      ensures init[k].Key() != b.Key()
    {
      assert all[k] == init[k] && all[|init|] == b;
    }
  }

  lemma PushedKey(init: seq<Binding>, b: Binding, layer: nat)
    ensures LayerKeys(init + [b], layer)
         == LayerKeys(init, layer) + if b.instance.Some? && b.layer == layer then {b.Key()} else {}
  {
    var all := init + [b];
    assert all[|init|] == b;
    forall key | key in LayerKeys(init, layer)
      ensures key in LayerKeys(all, layer)
    {
      var k :| 0 <= k < |init| && init[k].instance.Some? && init[k].layer == layer && init[k].Key() == key;
      assert all[k] == init[k];
    }
  }

  lemma {:induction false} FreeSlotsFound(bindings: seq<Binding>, layer: nat)
    ensures FreeSlots(bindings, layer) > 0 <==>
            exists i :: 0 <= i < |bindings| && bindings[i].layer == layer && bindings[i].instance.None?
  {
    if bindings != [] {
      FreeSlotsFound(bindings[..|bindings| - 1], layer);
    }
  }

  function Max(a: nat, b: nat): nat {
    if a < b then b else a
  }

  /** A slot is added only when the layer's slots are all taken, so the count tracks the larger of
      where it started and how many pairs the layer holds. */
  lemma TouchPeak(p: Pool, r: Request, owners: map<nat, Owner>, layer: nat, start: nat)
    requires PoolOk(p, owners) && Fits(r, owners)
    requires Slots(p.bindings, layer) == Max(start, |LayerKeys(p.bindings, layer)|)
    ensures Slots(Touch(p, r).bindings, layer) == Max(start, |LayerKeys(Touch(p, r).bindings, layer)|)
  {
    PoolNodesExist(p, owners);
    hide LayerKeys, Slots, PoolOk, Fits, Touch, SlotOf, NodesExist;
    TouchCount(p, r, owners, layer);
    TouchSlots(p, r, owners, layer);
    TouchRoom(p, r, owners, layer);
  }

  lemma TouchCount(p: Pool, r: Request, owners: map<nat, Owner>, layer: nat)
    requires PoolOk(p, owners) && Fits(r, owners)
    ensures |LayerKeys(Touch(p, r).bindings, layer)|
         == |LayerKeys(p.bindings, layer)|
            + if r.layer == layer && r.key !in LayerKeys(p.bindings, layer) then 1 else 0
  {
    PoolNodesExist(p, owners);
    hide LayerKeys, PoolOk, Fits, Touch, OnLayer, NodesExist;
    TouchKeys(p, r, owners, layer);
    KeyCount(LayerKeys(p.bindings, layer), layer, r);
  }

  /** Keys never outnumber slots, and a push onto a layer means its slots were all taken. */
  lemma TouchRoom(p: Pool, r: Request, owners: map<nat, Owner>, layer: nat)
    requires PoolOk(p, owners) && Fits(r, owners)
    ensures |LayerKeys(Touch(p, r).bindings, layer)| <= Slots(Touch(p, r).bindings, layer)
    ensures SlotOf(p, r) == |p.bindings| && r.layer == layer ==>
              && Slots(p.bindings, layer) == |LayerKeys(p.bindings, layer)|
              && r.key !in LayerKeys(p.bindings, layer)
  {
    PoolNodesExist(p, owners);
    hide LayerKeys, Slots, PoolOk, Fits, Touch, FreeSlots, SlotOf, DistinctKeys, NodesExist;
    TouchOk(p, r, owners);
    PoolDistinct(p, owners);
    PoolDistinct(Touch(p, r), owners);
    SlotsSplit(p.bindings, layer);
    SlotsSplit(Touch(p, r).bindings, layer);
    if SlotOf(p, r) == |p.bindings| {
      PushOnlyWhenFull(p, r, layer);
      KeyIsNew(p, r, layer);
    }
  }

  lemma TouchSlots(p: Pool, r: Request, owners: map<nat, Owner>, layer: nat)
    requires PoolOk(p, owners) && Fits(r, owners)
    ensures Slots(Touch(p, r).bindings, layer)
         == Slots(p.bindings, layer) + if SlotOf(p, r) == |p.bindings| && r.layer == layer then 1 else 0
  {
    PoolNodesExist(p, owners);
    hide Slots, PoolOk, Fits, Touch, SlotOf;
    var q, i := Touch(p, r), SlotOf(p, r);
    TouchIsOneSlot(p, r, owners);
    if i < |p.bindings| {
      assert forall k :: 0 <= k < |q.bindings| && k != i ==> q.bindings[k] == p.bindings[k];
      SlotsByLayers(p.bindings, q.bindings, layer);
    } else {
      assert q.bindings == p.bindings + [q.bindings[i]];
      SlotsPushed(p.bindings, q.bindings[i], layer);
    }
  }

  lemma KeyCount(keys: set<SampleKey>, layer: nat, r: Request)
    ensures |keys + OnLayer(layer, r)| == |keys| + if r.layer == layer && r.key !in keys then 1 else 0
  {
    if r.key in keys {
      assert keys + {r.key} == keys;
    }
    assert keys + {} == keys;
  }

  lemma PoolDistinct(p: Pool, owners: map<nat, Owner>)
    requires PoolOk(p, owners)
    ensures DistinctKeys(p.bindings)
  {
  }

  lemma PushOnlyWhenFull(p: Pool, r: Request, layer: nat)
    requires SlotOf(p, r) == |p.bindings|
    ensures r.layer == layer ==> FreeSlots(p.bindings, layer) == 0
  {
    FreeSlotsFound(p.bindings, layer);
  }

  lemma SlotsPushed(bindings: seq<Binding>, b: Binding, layer: nat)
    ensures Slots(bindings + [b], layer) == Slots(bindings, layer) + if b.layer == layer then 1 else 0
  {
    assert (bindings + [b])[..|bindings|] == bindings;
  }

  lemma KeyIsNew(p: Pool, r: Request, layer: nat)
    requires SlotOf(p, r) == |p.bindings|
    ensures r.key !in LayerKeys(p.bindings, layer)
  {
    forall i | 0 <= i < |p.bindings| && p.bindings[i].instance.Some?
      ensures p.bindings[i].Key() != r.key
    {
      assert !p.bindings[i].Holds(r.key);
    }
  }

  lemma {:induction false} TouchAllPeak(p: Pool, rs: seq<Request>, owners: map<nat, Owner>, layer: nat)
    requires PoolOk(p, owners) && forall r <- rs :: Fits(r, owners)
    ensures Slots(TouchAll(p, rs).bindings, layer)
         == Max(Slots(p.bindings, layer), |LayerKeys(TouchAll(p, rs).bindings, layer)|)
  {
    hide LayerKeys, Touch, Fits, Slots;
    if rs == [] {
      SlotsSplit(p.bindings, layer);
    } else {
      var init, last := rs[..|rs| - 1], rs[|rs| - 1];
      TouchAllPeak(p, init, owners, layer);
      TouchAllOk(p, init, owners);
      TouchPeak(TouchAll(p, init), last, owners, layer, Slots(p.bindings, layer));
    }
  }

  /** One frame grows a layer's slots exactly to the size of the union of the pairs held before it
      and the pairs it asks for, because slots are freed only after all binding is done. */
  lemma FramePeak(p: Pool, frame: Frame, owners: map<nat, Owner>, layer: nat)
    requires PoolOk(p, owners) && FrameFits(frame, owners) && layer < |frame|
    ensures Slots(ApplyFrame(p, frame).bindings, layer)
         == Max(Slots(p.bindings, layer), |LayerKeys(p.bindings, layer) + FrameKeys(frame, layer)|)
  {
    hide LayerKeys, TouchAll, Fits, Slots, FrameKeys, PoolOk;
    PoolNodesExist(p, owners);
    var cleared := p.(bindings := ClearUsed(p.bindings));
    var bound := TouchAll(cleared, Requests(frame));
    ClearUsedOk(p, owners);
    RequestsFit(frame, owners, |frame|);
    SlotsByLayers(p.bindings, cleared.bindings, layer);
    ClearedKeys(p.bindings, layer);
    TouchAllPeak(cleared, Requests(frame), owners, layer);
    TouchAllKeys(cleared, Requests(frame), owners, layer);
    RequestKeysAre(frame, layer);
    SlotsByLayers(bound.bindings, Release(bound).bindings, layer);
  }

  // ----- whole runs -----

  /** The pool after a sequence of frames, from an empty pool on a graph that may hold other nodes. */
  ghost function Run(nodes: seq<GraphNode>, frames: seq<Frame>, owners: map<nat, Owner>): (p: Pool)
    requires forall f <- frames :: FrameFits(f, owners)
    ensures PoolOk(p, owners)
  {
    if frames == [] then Pool([], nodes, map[])
    else
      var before := Run(nodes, frames[..|frames| - 1], owners);
      ApplyFrameOk(before, frames[|frames| - 1], owners);
      ApplyFrame(before, frames[|frames| - 1])
  }

  function KeysAfter(frames: seq<Frame>, layer: nat): set<SampleKey>
    requires layer < ANIMATION_LAYER_COUNT
  {
    if frames == [] then {} else FrameKeys(frames[|frames| - 1], layer)
  }

  /** The largest union of two consecutive frames' active pairs on a layer. */
  function PeakUnion(frames: seq<Frame>, layer: nat): nat
    requires layer < ANIMATION_LAYER_COUNT
  {
    if frames == [] then 0
    else
      var init := frames[..|frames| - 1];
      Max(PeakUnion(init, layer), |KeysAfter(init, layer) + FrameKeys(frames[|frames| - 1], layer)|)
  }

  /** Main result: over any run, the occupied slots of a layer are the last frame's active pairs,
      and the number of slots ever made on it is exactly the peak union. */
  lemma {:induction false} RunIsTight(nodes: seq<GraphNode>, frames: seq<Frame>, owners: map<nat, Owner>, layer: nat)
    requires layer < ANIMATION_LAYER_COUNT && forall f <- frames :: FrameFits(f, owners)
    ensures LayerKeys(Run(nodes, frames, owners).bindings, layer) == KeysAfter(frames, layer)
    ensures Slots(Run(nodes, frames, owners).bindings, layer) == PeakUnion(frames, layer)
  {
    hide LayerKeys, FrameKeys, PoolOk, ApplyFrame, Slots;
    if frames == [] {
      assert LayerKeys([], layer) == {} && Slots([], layer) == 0 by {
        EmptyPool(layer);
      }
    } else {
      var init, last := frames[..|frames| - 1], frames[|frames| - 1];
      RunIsTight(nodes, init, owners, layer);
      FrameLeavesActivePairs(Run(nodes, init, owners), last, owners, layer);
      FramePeak(Run(nodes, init, owners), last, owners, layer);
    }
  }

  lemma EmptyPool(layer: nat)
    ensures LayerKeys([], layer) == {} && Slots([], layer) == 0
  {
  }

  lemma {:induction false} TouchAllNodes(p: Pool, rs: seq<Request>, owners: map<nat, Owner>)
    requires PoolOk(p, owners) && forall r <- rs :: Fits(r, owners)
    ensures |TouchAll(p, rs).nodes| - |p.nodes| == |TouchAll(p, rs).bindings| - |p.bindings|
  {
    PoolNodesExist(p, owners);
    hide PoolOk, Fits, Touch;
    if rs != [] {
      var init, last := rs[..|rs| - 1], rs[|rs| - 1];
      TouchAllNodes(p, init, owners);
      TouchAllOk(p, init, owners);
      TouchIsOneSlot(TouchAll(p, init), last, owners);
    }
  }

  /** Nodes are added to the graph one for one with slots, and never removed. */
  lemma {:induction false} RunAddsNodes(nodes: seq<GraphNode>, frames: seq<Frame>, owners: map<nat, Owner>)
    requires forall f <- frames :: FrameFits(f, owners)
    ensures var p := Run(nodes, frames, owners); |p.nodes| == |nodes| + |p.bindings|
  {
    hide PoolOk, TouchAll, Fits;
    if frames != [] {
      var init, last := frames[..|frames| - 1], frames[|frames| - 1];
      var p := Run(nodes, init, owners);
      RunAddsNodes(nodes, init, owners);
      ClearUsedOk(p, owners);
      RequestsFit(last, owners, |last|);
      TouchAllNodes(p.(bindings := ClearUsed(p.bindings)), Requests(last), owners);
    }
  }
}
