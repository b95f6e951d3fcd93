/** Staged resolution of cooked motions whose products load in any order, and the proof that the
    order and the grouping into frames do not matter. */
module MotionLoading {
  import opened Common

  type Handle = nat
  type AssetId = nat

  // ----- asset stores -----

  datatype Gltf = Gltf(animations: seq<Handle>, document: Option<nat>, nodes: seq<Handle>)

  datatype GltfNode = GltfNode(isAnimationRoot: bool, name: string, index: nat)

  datatype AnimationRef = AnimationRef(product: ProductRef, alias: string)

  datatype ProductRef = NoProduct | OtherProduct | MotionProduct(hint: Option<string>)

  datatype BlendSpaceMotion = BlendSpaceMotion(animation: AnimationRef, playbackScale: real, directDelta: nat)

  datatype SamplerKind = BlendSpaceSampler | CombinedSampler

  datatype Sampler = Sampler(kind: SamplerKind, id: nat, exampleCount: nat)

  datatype BlendAsset = BlendAsset(
    motions: seq<BlendSpaceMotion>, sampler: nat, exampleCount: nat, timewarpGroup: Option<string>)

  datatype AssetType = AnimationAsset | BlendSpaceAsset | CombinedBlendSpaceAsset | OtherAsset

  datatype CatalogEntry = CatalogEntry(assetType: AssetType, path: string)

  /** Everything the two systems read; a resource that is not installed is `None`. */
  datatype Stores = Stores(
    catalog: Option<map<AssetId, CatalogEntry>>,
    server: bool,
    blendSpaces: Option<map<Handle, BlendAsset>>,
    combined: Option<map<Handle, BlendAsset>>,
    gltfs: Option<map<Handle, Gltf>>,
    nodes: Option<map<Handle, GltfNode>>,
    clips: Option<map<Handle, real>>)

  ghost predicate Extends<K, V>(a: Option<map<K, V>>, b: Option<map<K, V>>) {
    a.Some? ==> b.Some? && forall k <- a.value :: k in b.value && b.value[k] == a.value[k]
  }

  /** Stores only grow: what was installed or loaded stays as it is. */
  ghost predicate Grows(s: Stores, t: Stores) {
    && (s.server ==> t.server)
    && Extends(s.catalog, t.catalog) && Extends(s.blendSpaces, t.blendSpaces) && Extends(s.combined, t.combined)
    && Extends(s.gltfs, t.gltfs) && Extends(s.nodes, t.nodes) && Extends(s.clips, t.clips)
  }

  // ----- what the animation builder reads off a glTF document, as parameters -----

  datatype Binding = Binding(usesControllerTargets: bool, rootController: Option<nat>)

  datatype Builder = Builder(
    duration: (nat, nat) -> Option<real>,
    binding: (nat, nat) -> Option<Binding>,
    controllerNode: (nat, nat) -> Option<nat>,
    timing: (nat, nat, nat, real) -> Option<nat>,
    productPath: string -> string,
    handle: string -> Handle)

  datatype RootTarget = ControllerTarget(id: nat) | ControllerRoot | NamedTarget(name: string)

  datatype ClipMotion = ClipMotion(
    clip: Handle, duration: real, mask: nat, root: RootTarget, timing: nat, playbackScale: real, directDelta: nat)

  datatype Motion = Motion(
    assetId: Option<AssetId>, clips: seq<ClipMotion>, sampler: Option<Sampler>, timewarpGroup: Option<string>)

  datatype ResolveError =
    | Pending
    | MissingAnimation(index: nat)
    | MissingGltfDocument
    | AnimationRootCount(found: nat)
    | MissingControllerNode(controller: nat)
    | MissingRootMotionTiming
    | InvalidParametricMotion(actual: nat, expected: nat)
    | InvalidPlaybackScale(index: nat)

  datatype Source = Source(gltf: Handle, animationIndex: nat, mask: nat)

  datatype Loaded = Loaded(gltfs: map<Handle, Gltf>, nodes: map<Handle, GltfNode>, clips: map<Handle, real>)

  ghost predicate LoadedGrows(s: Loaded, t: Loaded) {
    && Extends(Some(s.gltfs), Some(t.gltfs)) && Extends(Some(s.nodes), Some(t.nodes))
    && Extends(Some(s.clips), Some(t.clips))
  }

  function AnimationRoots(nodes: map<Handle, GltfNode>, handles: seq<Handle>): seq<GltfNode>
    requires forall h <- handles :: h in nodes
  {
    if handles == [] then []
    else
      (if nodes[handles[0]].isAnimationRoot then [nodes[handles[0]]] else []) + AnimationRoots(nodes, handles[1..])
  }

  function RootOf(b: Builder, document: nat, index: nat, root: GltfNode): Result<(RootTarget, nat), ResolveError> {
    match b.binding(document, index)
    case Some(binding) =>
      if !binding.usesControllerTargets then Ok((NamedTarget(root.name), root.index))
      else (match binding.rootController
            case None => Ok((ControllerRoot, root.index))
            case Some(id) =>
              match b.controllerNode(document, id)
              case None => Err(MissingControllerNode(id))
              case Some(node) => Ok((ControllerTarget(id), node)))
    case None => Ok((NamedTarget(root.name), root.index))
  }

  /** The clip of one motion product, or why it has none: `Pending` means not yet. */
  function ResolveClip(b: Builder, source: Source, s: Loaded): Result<ClipMotion, ResolveError> {
    if source.gltf !in s.gltfs then Err(Pending)
    else
      var gltf := s.gltfs[source.gltf];
      if source.animationIndex >= |gltf.animations| then Err(MissingAnimation(source.animationIndex))
      else
        var clip := gltf.animations[source.animationIndex];
        if clip !in s.clips then Err(Pending)
        else if gltf.document.None? then Err(MissingGltfDocument)
        else if exists h <- gltf.nodes :: h !in s.nodes then Err(Pending)
        else
          var roots := AnimationRoots(s.nodes, gltf.nodes);
          if |roots| != 1 then Err(AnimationRootCount(|roots|))
          else
            var duration := match b.duration(gltf.document.value, source.animationIndex)
                            case Some(d) => d
                            case None => s.clips[clip];
            match RootOf(b, gltf.document.value, source.animationIndex, roots[0])
            case Err(e) => Err(e)
            case Ok((target, node)) =>
              match b.timing(gltf.document.value, source.animationIndex, node, duration)
              case None => Err(MissingRootMotionTiming)
              case Some(timing) => Ok(ClipMotion(clip, duration, source.mask, target, timing, 1.0, 0))
  }

  function Direct(clip: ClipMotion): Motion {
    Motion(None, [clip], None, None)
  }

  function ResolveDirect(b: Builder, source: Source, s: Loaded): Result<Motion, ResolveError> {
    match ResolveClip(b, source, s)
    case Ok(clip) => Ok(Direct(clip))
    case Err(e) => Err(e)
  }

  // ----- parametric motions -----

  datatype Example = Example(source: Source, playbackScale: real, directDelta: nat)

  datatype ParametricSource = ParametricSource(
    assetId: AssetId, examples: seq<Example>, sampler: Sampler, timewarpGroup: Option<string>)

  function MotionProductPath(b: Builder, a: AnimationRef): Option<string> {
    if a.product.MotionProduct? && a.product.hint.Some? then Some(b.productPath(a.product.hint.value)) else None
  }

  /** One example per motion, or nothing when some motion has no product path. */
  function ParametricExamples(b: Builder, motions: seq<BlendSpaceMotion>, mask: nat): Option<seq<Example>> {
    if motions == [] then Some([])
    else
      var m := motions[0];
      match MotionProductPath(b, m.animation)
      case None => None
      case Some(path) =>
        match ParametricExamples(b, motions[1..], mask)
        case None => None
        case Some(rest) => Some([Example(Source(b.handle(path), 0, mask), m.playbackScale, m.directDelta)] + rest)
  }

  function FromAsset(b: Builder, id: AssetId, asset: BlendAsset, kind: SamplerKind, mask: nat)
      : Option<ParametricSource> {
    match ParametricExamples(b, asset.motions, mask)
    case None => None
    case Some(examples) =>
      Some(ParametricSource(id, examples, Sampler(kind, asset.sampler, asset.exampleCount),
                            if kind == BlendSpaceSampler then asset.timewarpGroup else None))
  }

  /** The examples' clips in order, or the first failure. */
  function ResolveExamples(b: Builder, examples: seq<Example>, s: Loaded): (r: Result<seq<ClipMotion>, ResolveError>)
    ensures r.Ok? ==> |r.value| == |examples|
  {
    if examples == [] then Ok([])
    else
      match ResolveClip(b, examples[0].source, s)
      case Err(e) => Err(e)
      case Ok(clip) =>
        match ResolveExamples(b, examples[1..], s)
        case Err(e) => Err(e)
        case Ok(rest) => Ok([clip] + rest)
  }

  /** Applies the authored metadata; the first out-of-range playback scale fails. */
  function ApplyMetadata(examples: seq<Example>, clips: seq<ClipMotion>, from: nat)
      : Result<seq<ClipMotion>, ResolveError>
    requires |examples| == |clips| && from <= |clips|
    decreases |clips| - from
  {
    if from == |clips| then Ok([])
    else if examples[from].playbackScale < 0.0 then Err(InvalidPlaybackScale(from))
    else
      match ApplyMetadata(examples, clips, from + 1)
      case Err(e) => Err(e)
      case Ok(rest) =>
        Ok([clips[from].(playbackScale := examples[from].playbackScale,
                         directDelta := examples[from].directDelta)] + rest)
  }

  function Assemble(p: ParametricSource, clips: seq<ClipMotion>): Result<Motion, ResolveError> {
    if |clips| != |p.examples| then Err(InvalidParametricMotion(|clips|, |p.examples|))
    else
      match ApplyMetadata(p.examples, clips, 0)
      case Err(e) => Err(e)
      case Ok(resolved) =>
        if |resolved| != p.sampler.exampleCount then Err(InvalidParametricMotion(|resolved|, p.sampler.exampleCount))
        else Ok(Motion(Some(p.assetId), resolved, Some(p.sampler), p.timewarpGroup))
  }

  function ResolveParametric(b: Builder, p: ParametricSource, s: Loaded): Result<Motion, ResolveError> {
    match ResolveExamples(b, p.examples, s)
    case Err(e) => Err(e)
    case Ok(clips) => Assemble(p, clips)
  }

  // ----- the pipeline of one request -----

  datatype Request = Request(assetId: AssetId, mask: nat)

  datatype PendingMotion =
    | DirectPending(source: Source)
    | BlendSpacePending(handle: Handle, mask: nat)
    | CombinedPending(handle: Handle, mask: nat)
    | ParametricPending(parametric: ParametricSource)

  datatype MotionError =
    | CatalogMissing(id: AssetId)
    | UnsupportedAssetType(id: AssetId, assetType: AssetType)
    | UnresolvableExample(id: AssetId, alias: string)
    | Product(id: AssetId, error: ResolveError)

  datatype Status = Requested | Waiting(pending: PendingMotion) | Ready(motion: Motion) | Failed(error: MotionError)

  predicate Settled(st: Status) {
    st.Ready? || st.Failed?
  }

  /** The first system: classify the request by its catalog entry. */
  function Classify(b: Builder, r: Request, s: Stores): Status {
    if s.catalog.None? || !s.server then Requested
    else if r.assetId !in s.catalog.value then Failed(CatalogMissing(r.assetId))
    else
      var entry := s.catalog.value[r.assetId];
      match entry.assetType
      case AnimationAsset => Waiting(DirectPending(Source(b.handle(entry.path), 0, r.mask)))
      case BlendSpaceAsset => Waiting(BlendSpacePending(b.handle(entry.path), r.mask))
      case CombinedBlendSpaceAsset => Waiting(CombinedPending(b.handle(entry.path), r.mask))
      case OtherAsset => Failed(UnsupportedAssetType(r.assetId, entry.assetType))
  }

  /** The alias of the first example without a product path. */
  function UnresolvableAlias(b: Builder, motions: seq<BlendSpaceMotion>): string
    requires exists k :: 0 <= k < |motions| && MotionProductPath(b, motions[k].animation).None?
  {
    if MotionProductPath(b, motions[0].animation).None? then motions[0].animation.alias
    else UnresolvableAlias(b, motions[1..])
  }

  /** A blend-space product fails to become a source exactly when some example has no path, so the
      search for the offending alias always finds one. */
  lemma {:induction false} ExamplesFailOnMissingPath(b: Builder, motions: seq<BlendSpaceMotion>, mask: nat)
    ensures ParametricExamples(b, motions, mask).None?
       <==> exists k :: 0 <= k < |motions| && MotionProductPath(b, motions[k].animation).None?
  {
    if motions != [] {
      ExamplesFailOnMissingPath(b, motions[1..], mask);
      if k :| 0 <= k < |motions[1..]| && MotionProductPath(b, motions[1..][k].animation).None? {
        assert motions[1..][k] == motions[k + 1];
      }
      if k :| 0 < k < |motions| && MotionProductPath(b, motions[k].animation).None? {
        assert motions[1..][k - 1] == motions[k];
      }
    }
  }

  function AssetStage(b: Builder, r: Request, asset: BlendAsset, kind: SamplerKind, mask: nat): Status {
    ExamplesFailOnMissingPath(b, asset.motions, mask);
    match FromAsset(b, r.assetId, asset, kind, mask)
    case Some(source) => Waiting(ParametricPending(source))
    case None => Failed(UnresolvableExample(r.assetId, UnresolvableAlias(b, asset.motions)))
  }

  function Finish(r: Request, p: PendingMotion, resolved: Result<Motion, ResolveError>): Status {
    match resolved
    case Ok(motion) => Ready(motion.(assetId := Some(r.assetId)))
    case Err(error) => if error.Pending? then Waiting(p) else Failed(Product(r.assetId, error))
  }

  /** The second system: advance a pending motion by one stage. */
  function Build(b: Builder, r: Request, p: PendingMotion, s: Stores): (st: Status)
    ensures !st.Requested?
    ensures st.Failed? ==> !st.error.CatalogMissing?
  {
    if !s.server then Waiting(p)
    else
      match p
      case BlendSpacePending(handle, mask) =>
        if s.blendSpaces.None? || handle !in s.blendSpaces.value then Waiting(p)
        else AssetStage(b, r, s.blendSpaces.value[handle], BlendSpaceSampler, mask)
      case CombinedPending(handle, mask) =>
        if s.combined.None? || handle !in s.combined.value then Waiting(p)
        else AssetStage(b, r, s.combined.value[handle], CombinedSampler, mask)
      case DirectPending(source) =>
        if s.gltfs.None? || s.nodes.None? || s.clips.None? then Waiting(p)
        else
          Finish(r, p, ResolveDirect(b, source, Loaded(s.gltfs.value, s.nodes.value, s.clips.value)))
      case ParametricPending(source) =>
        if s.gltfs.None? || s.nodes.None? || s.clips.None? then Waiting(p)
        else Finish(r, p, ResolveParametric(b, source, Loaded(s.gltfs.value, s.nodes.value, s.clips.value)))
  }

  /** One frame runs both systems in order. */
  function Frame(b: Builder, r: Request, st: Status, s: Stores): Status {
    var classified := if st.Requested? then Classify(b, r, s) else st;
    if classified.Waiting? then Build(b, r, classified.pending, s) else classified
  }

  /** Resolution in one go on one set of stores: every stage that can be taken is taken. */
  function Complete(b: Builder, r: Request, st: Status, s: Stores): Status {
    match st
    case Requested =>
      var classified := Classify(b, r, s);
      if classified.Waiting? then CompletePending(b, r, classified.pending, s) else classified
    case Waiting(p) => CompletePending(b, r, p, s)
    case _ => st
  }

  function CompletePending(b: Builder, r: Request, p: PendingMotion, s: Stores): Status {
    var next := Build(b, r, p, s);
    if next.Waiting? && next.pending != p then Build(b, r, next.pending, s) else next
  }

  // ----- a result that is not pending never changes -----

  lemma {:induction false} RootsSame(a: map<Handle, GltfNode>, b: map<Handle, GltfNode>, handles: seq<Handle>)
    requires forall h <- handles :: h in a && h in b && a[h] == b[h]
    ensures AnimationRoots(a, handles) == AnimationRoots(b, handles)
  {
    if handles != [] {
      RootsSame(a, b, handles[1..]);
    }
  }

  lemma ClipResultStable(b: Builder, source: Source, s: Loaded, t: Loaded)
    requires LoadedGrows(s, t) && ResolveClip(b, source, s) != Err(Pending)
    ensures ResolveClip(b, source, t) == ResolveClip(b, source, s)
  {
    var gltf := s.gltfs[source.gltf];
    assert t.gltfs[source.gltf] == gltf;
    if source.animationIndex < |gltf.animations| {
      var clip := gltf.animations[source.animationIndex];
      assert t.clips[clip] == s.clips[clip];
      if gltf.document.Some? {
        assert forall h <- gltf.nodes :: h in s.nodes;
        RootsSame(s.nodes, t.nodes, gltf.nodes);
      }
    }
  }

  lemma {:induction false} ExamplesResultStable(b: Builder, examples: seq<Example>, s: Loaded, t: Loaded)
    requires LoadedGrows(s, t) && ResolveExamples(b, examples, s) != Err(Pending)
    ensures ResolveExamples(b, examples, t) == ResolveExamples(b, examples, s)
  {
    hide ResolveClip, LoadedGrows;
    if examples != [] {
      ClipResultStable(b, examples[0].source, s, t);
      if ResolveClip(b, examples[0].source, s).Ok? {
        ExamplesResultStable(b, examples[1..], s, t);
      }
    }
  }

  lemma StoresLoadedGrow(s: Stores, t: Stores)
    requires Grows(s, t) && s.gltfs.Some? && s.nodes.Some? && s.clips.Some?
    ensures t.gltfs.Some? && t.nodes.Some? && t.clips.Some?
    ensures LoadedGrows(Loaded(s.gltfs.value, s.nodes.value, s.clips.value),
                        Loaded(t.gltfs.value, t.nodes.value, t.clips.value))
  {
  }

  /** A stage taken on smaller stores is the stage larger stores take. */
  lemma BuildStable(b: Builder, r: Request, p: PendingMotion, s: Stores, t: Stores)
    requires Grows(s, t) && Build(b, r, p, s) != Waiting(p)
    ensures Build(b, r, p, t) == Build(b, r, p, s)
  {
    hide ResolveClip, AssetStage, Assemble, ResolveExamples, LoadedGrows;
    match p
    case BlendSpacePending(handle, mask) =>
    case CombinedPending(handle, mask) =>
    case DirectPending(source) =>
      StoresLoadedGrow(s, t);
      ClipResultStable(b, source, Loaded(s.gltfs.value, s.nodes.value, s.clips.value),
                       Loaded(t.gltfs.value, t.nodes.value, t.clips.value));
    case ParametricPending(source) =>
      StoresLoadedGrow(s, t);
      ExamplesResultStable(b, source.examples, Loaded(s.gltfs.value, s.nodes.value, s.clips.value),
                           Loaded(t.gltfs.value, t.nodes.value, t.clips.value));
  }

  /** Only a blend-space asset leads to a further stage, and that stage is a parametric source. */
  lemma NextStage(b: Builder, r: Request, p: PendingMotion, s: Stores)
    requires Build(b, r, p, s).Waiting? && Build(b, r, p, s).pending != p
    ensures Build(b, r, p, s).pending.ParametricPending? && !p.ParametricPending?
  {
    hide ResolveClip, Assemble, ResolveExamples;
  }

  lemma LastStage(b: Builder, r: Request, p: PendingMotion, s: Stores)
    requires p.ParametricPending?
    ensures Build(b, r, p, s).Waiting? ==> Build(b, r, p, s).pending == p
  {
    hide ResolveClip, Assemble, ResolveExamples;
  }

  /** The request would be classified, and the catalog has no entry for it: an error that stays. */
  predicate MissesEntry(r: Request, s: Stores) {
    s.catalog.Some? && s.server && r.assetId !in s.catalog.value
  }

  /** The requested entry did not come after the frame that would have classified the request. */
  predicate NotTooLate(r: Request, s: Stores, t: Stores) {
    MissesEntry(r, s) ==> MissesEntry(r, t)
  }

  /** A frame on smaller stores does not change where resolution on larger stores ends. */
  lemma FrameKeepsOutcome(b: Builder, r: Request, st: Status, s: Stores, t: Stores)
    requires Grows(s, t) && NotTooLate(r, s, t)
    ensures Complete(b, r, Frame(b, r, st, s), t) == Complete(b, r, st, t)
  {
    hide Build;
    var classified := if st.Requested? then Classify(b, r, s) else st;
    if classified.Waiting? {
      var p := classified.pending;
      var next := Build(b, r, p, s);
      if next != Waiting(p) {
        BuildStable(b, r, p, s, t);
        if next.Waiting? {
          NextStage(b, r, p, s);
          LastStage(b, r, next.pending, t);
        }
      }
    }
  }

  /** Two frames on the same stores take every stage that can be taken. */
  lemma TwoFramesComplete(b: Builder, r: Request, st: Status, s: Stores)
    ensures Frame(b, r, Frame(b, r, st, s), s) == Complete(b, r, st, s)
  {
    hide Build;
    var classified := if st.Requested? then Classify(b, r, s) else st;
    if classified.Waiting? {
      var p := classified.pending;
      var next := Build(b, r, p, s);
      if next.Waiting? && next.pending != p {
        NextStage(b, r, p, s);
        LastStage(b, r, next.pending, s);
      }
    }
  }

  // ----- runs -----

  ghost predicate GrowingRun(run: seq<Stores>) {
    forall i, j :: 0 <= i < j < |run| ==> Grows(run[i], run[j])
  }

  function RunStatus(b: Builder, r: Request, run: seq<Stores>): Status {
    if run == [] then Requested else Frame(b, r, RunStatus(b, r, run[..|run| - 1]), run[|run| - 1])
  }

  lemma {:induction false} RunKeepsOutcome(b: Builder, r: Request, run: seq<Stores>, final: Stores)
    requires GrowingRun(run) && forall s <- run :: Grows(s, final) && NotTooLate(r, s, final)
    ensures Complete(b, r, RunStatus(b, r, run), final) == Complete(b, r, Requested, final)
  {
    hide Frame, Complete, Grows, NotTooLate;
    if run != [] {
      RunKeepsOutcome(b, r, run[..|run| - 1], final);
      FrameKeepsOutcome(b, r, RunStatus(b, r, run[..|run| - 1]), run[|run| - 1], final);
    }
  }

  lemma GrowsReflexive(s: Stores)
    ensures Grows(s, s)
  {
  }

  /** Until a catalog and a server are installed a request waits. */
  lemma {:induction false} NothingInstalled(b: Builder, r: Request, run: seq<Stores>)
    requires forall s <- run :: s.catalog.None? || !s.server
    ensures RunStatus(b, r, run) == Requested
  {
    if run != [] {
      NothingInstalled(b, r, run[..|run| - 1]);
    }
  }

  /** A frame without the entry settles the request for good. */
  lemma {:induction false} MissingStays(b: Builder, r: Request, run: seq<Stores>, i: nat)
    requires GrowingRun(run) && i < |run| && MissesEntry(r, run[i])
    ensures RunStatus(b, r, run) == Failed(CatalogMissing(r.assetId))
  {
    hide Build;
    var init := run[..|run| - 1];
    if k :| 0 <= k < |init| && MissesEntry(r, init[k]) {
      MissingStays(b, r, init, k);
    } else {
      forall s <- init
        ensures s.catalog.None? || !s.server
      {
        var k :| 0 <= k < |init| && init[k] == s;
        assert Grows(run[k], run[i]);
        assert !MissesEntry(r, init[k]);
      }
      NothingInstalled(b, r, init);
    }
  }

  lemma FoundIsNotMissing(b: Builder, r: Request, s: Stores)
    requires s.catalog.Some? && r.assetId in s.catalog.value
    ensures Complete(b, r, Requested, s) != Failed(CatalogMissing(r.assetId))
  {
    hide Build;
  }

  lemma LateEntryFails(b: Builder, r: Request, run: seq<Stores>, s: Stores, final: Stores)
    requires GrowingRun(run) && s in run && Grows(s, final) && !NotTooLate(r, s, final)
    ensures RunStatus(b, r, run) == Failed(CatalogMissing(r.assetId)) != Complete(b, r, Requested, final)
  {
    hide Complete, RunStatus;
    var i :| 0 <= i < |run| && run[i] == s;
    MissingStays(b, r, run, i);
    FoundIsNotMissing(b, r, final);
  }

  /** Main result, safety: whatever the arrival order and the grouping into frames, a motion or an
      error that a run arrives at is the one that resolution in one go finds on the final stores, if and
      only if the requested catalog entry did not come after a frame that looked for it. */
  lemma SettledIsOneShot(b: Builder, r: Request, run: seq<Stores>)
    requires GrowingRun(run) && run != [] && Settled(RunStatus(b, r, run))
    ensures var final := run[|run| - 1];
            RunStatus(b, r, run) == Complete(b, r, Requested, final)
            <==> forall s <- run :: NotTooLate(r, s, final)
  {
    hide Frame, Grows, NotTooLate, RunStatus;
    var final := run[|run| - 1];
    GrowsReflexive(final);
    if s :| s in run && !NotTooLate(r, s, final) {
      LateEntryFails(b, r, run, s, final);
    } else {
      RunKeepsOutcome(b, r, run, final);
    }
  }

  /** Main result, progress: two more frames on the final stores reach exactly that outcome, under the
      same condition. */
  lemma RunReachesOneShot(b: Builder, r: Request, run: seq<Stores>, final: Stores)
    requires GrowingRun(run) && forall s <- run :: Grows(s, final)
    ensures RunStatus(b, r, run + [final, final]) == Complete(b, r, Requested, final)
       <==> forall s <- run :: NotTooLate(r, s, final)
  {
    hide Frame, Grows, Complete, NotTooLate;
    var once := run + [final];
    assert run + [final, final] == once + [final];
    assert (once + [final])[..|once|] == once && once[..|run|] == run;
    if s :| s in run && !NotTooLate(r, s, final) {
      GrowsReflexive(final);
      assert s in once + [final];
      hide RunStatus;
      LateEntryFails(b, r, once + [final], s, final);
    } else {
      RunKeepsOutcome(b, r, run, final);
      TwoFramesComplete(b, r, RunStatus(b, r, run), final);
    }
  }

  // ----- what a resolved motion is made of -----

  /** Position `k` of a node list is its only animation root. */
  ghost predicate OnlyRoot(nodes: map<Handle, GltfNode>, handles: seq<Handle>, k: nat)
    requires forall h <- handles :: h in nodes
  {
    k < |handles| && forall i :: 0 <= i < |handles| ==> (nodes[handles[i]].isAnimationRoot <==> i == k)
  }

  lemma {:induction false} NoRoots(nodes: map<Handle, GltfNode>, handles: seq<Handle>)
    requires forall h <- handles :: h in nodes
    ensures AnimationRoots(nodes, handles) == []
       <==> forall i :: 0 <= i < |handles| ==> !nodes[handles[i]].isAnimationRoot
  {
    if handles != [] {
      NoRoots(nodes, handles[1..]);
      assert forall i :: 0 < i < |handles| ==> handles[i] == handles[1..][i - 1];
      assert forall i :: 0 <= i < |handles| - 1 ==> handles[1..][i] == handles[i + 1];
    }
  }

  /** A list has one root exactly when some position is the only one. */
  lemma {:induction false} OneRoot(nodes: map<Handle, GltfNode>, handles: seq<Handle>) returns (k: nat)
    requires (forall h <- handles :: h in nodes) && |AnimationRoots(nodes, handles)| == 1
    ensures OnlyRoot(nodes, handles, k) && AnimationRoots(nodes, handles)[0] == nodes[handles[k]]
  {
    var rest := handles[1..];
    assert forall i :: 0 < i < |handles| ==> handles[i] == rest[i - 1];
    if nodes[handles[0]].isAnimationRoot {
      NoRoots(nodes, rest);
      k := 0;
    } else {
      k := OneRoot(nodes, rest);
      k := k + 1;
    }
  }

  /** A resolved clip is the one at the source's index, targets the file's only animation root unless
      the document binds a controller, and is played for the document's duration or else its own. */
  lemma ResolvedClipIs(b: Builder, source: Source, s: Loaded, m: ClipMotion) returns (k: nat)
    requires ResolveClip(b, source, s) == Ok(m)
    ensures source.gltf in s.gltfs && source.animationIndex < |s.gltfs[source.gltf].animations|
    ensures var gltf := s.gltfs[source.gltf];
            && m.clip == gltf.animations[source.animationIndex] && m.clip in s.clips && gltf.document.Some?
            && (forall h <- gltf.nodes :: h in s.nodes) && OnlyRoot(s.nodes, gltf.nodes, k)
            && m.mask == source.mask
            && var document := gltf.document.value;
               && m.duration == (match b.duration(document, source.animationIndex)
                                 case Some(d) => d
                                 case None => s.clips[m.clip])
               && var bound := b.binding(document, source.animationIndex);
                  if bound.Some? && bound.value.usesControllerTargets then
                    (match bound.value.rootController
                     case Some(id) => m.root == ControllerTarget(id) && b.controllerNode(document, id).Some?
                     case None => m.root == ControllerRoot)
                  else m.root == NamedTarget(s.nodes[gltf.nodes[k]].name)
  {
    var gltf := s.gltfs[source.gltf];
    k := OneRoot(s.nodes, gltf.nodes);
  }

  lemma {:induction false} ExamplesInOrder(b: Builder, examples: seq<Example>, s: Loaded)
    ensures match ResolveExamples(b, examples, s)
            case Ok(clips) => forall k :: 0 <= k < |examples| ==> ResolveClip(b, examples[k].source, s) == Ok(clips[k])
            case Err(e) =>
              exists k :: 0 <= k < |examples| && ResolveClip(b, examples[k].source, s) == Err(e)
                && forall i :: 0 <= i < k ==> ResolveClip(b, examples[i].source, s).Ok?
  {
    hide ResolveClip;
    if examples != [] {
      var rest := examples[1..];
      ExamplesInOrder(b, rest, s);
      assert forall k :: 0 < k < |examples| ==> examples[k] == rest[k - 1];
      match ResolveExamples(b, rest, s)
      case Err(e) =>
        var k :| 0 <= k < |rest| && ResolveClip(b, rest[k].source, s) == Err(e)
          && forall i :: 0 <= i < k ==> ResolveClip(b, rest[i].source, s).Ok?;
        assert examples[k + 1] == rest[k];
        if ResolveClip(b, examples[0].source, s).Ok? {
          assert ResolveExamples(b, examples, s) == Err(e);
          forall i | 0 <= i < k + 1
            ensures ResolveClip(b, examples[i].source, s).Ok?
          {
            if i > 0 {
              assert examples[i] == rest[i - 1];
            }
          }
        } else {
          assert 0 < |examples|;
        }
      case Ok(_) =>
        if ResolveClip(b, examples[0].source, s).Err? {
          assert 0 < |examples|;
        }
    }
  }

  lemma {:induction false} MetadataInOrder(examples: seq<Example>, clips: seq<ClipMotion>, from: nat)
    requires |examples| == |clips| && from <= |clips|
    ensures match ApplyMetadata(examples, clips, from)
            case Ok(resolved) =>
              && |resolved| == |clips| - from
              && forall k :: from <= k < |clips| ==>
                   && examples[k].playbackScale >= 0.0
                   && resolved[k - from] == clips[k].(playbackScale := examples[k].playbackScale,
                                                      directDelta := examples[k].directDelta)
            case Err(e) =>
              exists k :: from <= k < |clips| && e == InvalidPlaybackScale(k) && examples[k].playbackScale < 0.0
                && forall i :: from <= i < k ==> examples[i].playbackScale >= 0.0
    decreases |clips| - from
  {
    if from < |clips| {
      MetadataInOrder(examples, clips, from + 1);
    }
  }

  /** A parametric motion keeps its examples' positions: clip `k` is example `k`'s own clip carrying
      that example's metadata, and there are as many as the sampler addresses. */
  lemma ParametricKeepsPositions(b: Builder, p: ParametricSource, s: Loaded, m: Motion)
    requires ResolveParametric(b, p, s) == Ok(m)
    ensures |m.clips| == |p.examples| == p.sampler.exampleCount
    ensures forall k :: 0 <= k < |p.examples| ==>
              exists clip :: ResolveClip(b, p.examples[k].source, s) == Ok(clip)
                && m.clips[k] == clip.(playbackScale := p.examples[k].playbackScale,
                                       directDelta := p.examples[k].directDelta)
  {
    hide ResolveClip;
    var clips := ResolveExamples(b, p.examples, s).value;
    ExamplesInOrder(b, p.examples, s);
    MetadataInOrder(p.examples, clips, 0);
    forall k | 0 <= k < |p.examples|
      ensures exists clip :: ResolveClip(b, p.examples[k].source, s) == Ok(clip)
                && m.clips[k] == clip.(playbackScale := p.examples[k].playbackScale,
                                       directDelta := p.examples[k].directDelta)
    {
      assert ResolveClip(b, p.examples[k].source, s) == Ok(clips[k]);
      assert m.clips[k - 0] == m.clips[k];
    }
  }

  // ----- the two systems, over all entities -----

  class MotionRuntime {
    var requests: map<nat, Request>
    var status: map<nat, Status>

    ghost predicate Valid()
      reads this
    {
      status.Keys == requests.Keys
    }

    /** Classifies every entity that has no pending motion, no motion and no error yet. */
    method ResolveSources(b: Builder, s: Stores)
      requires Valid()
      modifies this`status
      ensures Valid()
      ensures status == map e | e in old(status) ::
                          if old(status)[e].Requested? then Classify(b, requests[e], s) else old(status)[e]
    {
      if s.catalog.None? || !s.server {
        return;
      }
      var rest := status.Keys;
      ghost var before := status;
      while rest != {}
        invariant rest <= before.Keys && status.Keys == before.Keys
        invariant forall e <- before :: status[e] ==
                    if e !in rest && before[e].Requested? then Classify(b, requests[e], s) else before[e]
      {
        var e :| e in rest;
        if status[e].Requested? {
          status := status[e := Classify(b, requests[e], s)];
        }
        rest := rest - {e};
      }
    }

    /** Advances every pending motion by one stage. */
    method BuildResolved(b: Builder, s: Stores)
      requires Valid()
      modifies this`status
      ensures Valid()
      ensures status == map e | e in old(status) ::
                          if old(status)[e].Waiting? then Build(b, requests[e], old(status)[e].pending, s)
                          else old(status)[e]
    {
      if !s.server {
        return;
      }
      var rest := status.Keys;
      ghost var before := status;
      while rest != {}
        invariant rest <= before.Keys && status.Keys == before.Keys
        invariant forall e <- before :: status[e] ==
                    if e !in rest && before[e].Waiting? then Build(b, requests[e], before[e].pending, s) else before[e]
      {
        var e :| e in rest;
        if status[e].Waiting? {
          status := status[e := Build(b, requests[e], status[e].pending, s)];
        }
        rest := rest - {e};
      }
    }

    /** One frame takes each entity through `Frame`, independently of the others. */
    method Update(b: Builder, s: Stores)
      requires Valid()
      modifies this`status
      ensures Valid()
      ensures status == map e | e in old(status) :: Frame(b, requests[e], old(status)[e], s)
    {
      ResolveSources(b, s);
      BuildResolved(b, s);
    }
  }
}
