/** What resolution in one go ends in, read off the catalog entry and the asset stores. */
module MotionMeaning {
  import opened Common
  import opened MotionLoading

  // ----- one clip -----

  /** The document binds the clip's root to a controller. */
  predicate BindsController(b: Builder, document: nat, index: nat) {
    b.binding(document, index).Some? && b.binding(document, index).value.usesControllerTargets
    && b.binding(document, index).value.rootController.Some?
  }

  /** The node the root motion of a clip is timed on: the bound controller's, or the animation root. */
  function RootNode(b: Builder, document: nat, index: nat, root: GltfNode): Option<nat> {
    if BindsController(b, document, index) then
      b.controllerNode(document, b.binding(document, index).value.rootController.value)
    else Some(root.index)
  }

  /** The duration of a clip: the document's, or its own. */
  function Duration(b: Builder, document: nat, index: nat, own: real): real {
    if b.duration(document, index).Some? then b.duration(document, index).value else own
  }

  /** Everything a clip's resolution looks at first is loaded. */
  predicate ClipLoaded(source: Source, s: Loaded) {
    && source.gltf in s.gltfs
    && var gltf := s.gltfs[source.gltf];
       && source.animationIndex < |gltf.animations| && gltf.animations[source.animationIndex] in s.clips
       && gltf.document.Some? && forall h <- gltf.nodes :: h in s.nodes
  }

  /** A clip waits exactly while its file, then its animation, then one of the file's nodes is missing. */
  lemma ClipPendingExactly(b: Builder, source: Source, s: Loaded)
    ensures ResolveClip(b, source, s) == Err(Pending)
       <==> source.gltf !in s.gltfs
            || (var gltf := s.gltfs[source.gltf];
                && source.animationIndex < |gltf.animations|
                && (gltf.animations[source.animationIndex] !in s.clips
                    || (gltf.document.Some? && exists h <- gltf.nodes :: h !in s.nodes)))
  {
  }

  /** The failures found before the nodes are looked at. */
  lemma ClipMissingExactly(b: Builder, source: Source, s: Loaded)
    requires source.gltf in s.gltfs
    ensures var gltf := s.gltfs[source.gltf];
            && (forall i :: ResolveClip(b, source, s) == Err(MissingAnimation(i)) <==>
                              i == source.animationIndex >= |gltf.animations|)
            && (ResolveClip(b, source, s) == Err(MissingGltfDocument) <==>
                  source.animationIndex < |gltf.animations|
                  && gltf.animations[source.animationIndex] in s.clips && gltf.document.None?)
  {
  }

  /** Among a loaded file's nodes there must be one animation root, in position `k`. */
  lemma ClipRootExactly(b: Builder, source: Source, s: Loaded)
    requires ClipLoaded(source, s)
    ensures (exists found :: ResolveClip(b, source, s) == Err(AnimationRootCount(found)))
       <==> !exists k :: OnlyRoot(s.nodes, s.gltfs[source.gltf].nodes, k)
  {
    var gltf := s.gltfs[source.gltf];
    var roots := AnimationRoots(s.nodes, gltf.nodes);
    if |roots| == 1 {
      var k := OneRoot(s.nodes, gltf.nodes);
    } else {
      if k :| OnlyRoot(s.nodes, gltf.nodes, k) {
        OnlyRootCounts(s.nodes, gltf.nodes, k);
      }
      assert ResolveClip(b, source, s) == Err(AnimationRootCount(|roots|));
    }
  }

  lemma {:induction false} OnlyRootCounts(nodes: map<Handle, GltfNode>, handles: seq<Handle>, k: nat)
    requires (forall h <- handles :: h in nodes) && OnlyRoot(nodes, handles, k)
    ensures AnimationRoots(nodes, handles) == [nodes[handles[k]]]
  {
    var rest := handles[1..];
    assert forall i :: 0 <= i < |rest| ==> rest[i] == handles[i + 1];
    if k == 0 {
      NoRoots(nodes, rest);
      assert nodes[handles[0]].isAnimationRoot;
    } else {
      assert !nodes[handles[0]].isAnimationRoot;
      OnlyRootCounts(nodes, rest, k - 1);
    }
  }

  /** With its one animation root the clip resolves exactly when the root's node and its timing are found,
      and fails for the first of the two that is not. */
  lemma ClipMeans(b: Builder, source: Source, s: Loaded, k: nat)
    requires ClipLoaded(source, s) && OnlyRoot(s.nodes, s.gltfs[source.gltf].nodes, k)
    ensures var gltf := s.gltfs[source.gltf];
            var document, index := gltf.document.value, source.animationIndex;
            var clip, root := gltf.animations[index], s.nodes[gltf.nodes[k]];
            var node, seconds := RootNode(b, document, index, root), Duration(b, document, index, s.clips[clip]);
            var r := ResolveClip(b, source, s);
            && (node.None? ==>
                 r == Err(MissingControllerNode(b.binding(document, index).value.rootController.value)))
            && (node.Some? && b.timing(document, index, node.value, seconds).None? ==>
                 r == Err(MissingRootMotionTiming))
            && (node.Some? && b.timing(document, index, node.value, seconds).Some? ==>
                 && r.Ok? && r.value.clip == clip && r.value.duration == seconds && r.value.mask == source.mask
                 && r.value.timing == b.timing(document, index, node.value, seconds).value
                 && r.value.playbackScale == 1.0 && r.value.directDelta == 0)
  {
    hide AnimationRoots;
    OnlyRootCounts(s.nodes, s.gltfs[source.gltf].nodes, k);
  }

  // ----- one request -----

  /** The stores that resolving clips needs. */
  predicate ClipStores(s: Stores) {
    s.gltfs.Some? && s.nodes.Some? && s.clips.Some?
  }

  function ClipsOf(s: Stores): Loaded
    requires ClipStores(s)
  {
    Loaded(s.gltfs.value, s.nodes.value, s.clips.value)
  }

  /** The request's catalog entry, when one can be looked up. */
  predicate HasEntry(r: Request, s: Stores, entry: CatalogEntry) {
    s.catalog.Some? && s.server && r.assetId in s.catalog.value && s.catalog.value[r.assetId] == entry
  }

  /** Without catalog and server nothing happens; without an entry, or with one of another type, the
      request fails. */
  lemma RequestMeans(b: Builder, r: Request, s: Stores)
    ensures s.catalog.None? || !s.server ==> Complete(b, r, Requested, s) == Requested
    ensures s.catalog.Some? && s.server && r.assetId !in s.catalog.value ==>
              Complete(b, r, Requested, s) == Failed(CatalogMissing(r.assetId))
    ensures forall path :: HasEntry(r, s, CatalogEntry(OtherAsset, path)) ==>
              Complete(b, r, Requested, s) == Failed(UnsupportedAssetType(r.assetId, OtherAsset))
  {
  }

  /** Main result: an animation ends in the motion of animation 0 of the file at its path, under the
      request's mask, or in that clip's failure, or waits. */
  lemma AnimationMeans(b: Builder, r: Request, s: Stores, path: string)
    requires HasEntry(r, s, CatalogEntry(AnimationAsset, path))
    ensures var st := Complete(b, r, Requested, s);
            && (!ClipStores(s) ==> st.Waiting?)
            && (ClipStores(s) ==>
                 match ResolveClip(b, Source(b.handle(path), 0, r.mask), ClipsOf(s))
                 case Ok(clip) => st == Ready(Motion(Some(r.assetId), [clip], None, None))
                 case Err(e) => if e.Pending? then st.Waiting? else st == Failed(Product(r.assetId, e)))
  {
    hide ResolveClip;
  }

  // ----- blend spaces -----

  /** The asset a blend-space request reads, each kind from its own store. */
  predicate ReadsAsset(b: Builder, r: Request, s: Stores, kind: SamplerKind, path: string, asset: BlendAsset) {
    match kind
    case BlendSpaceSampler =>
      HasEntry(r, s, CatalogEntry(BlendSpaceAsset, path)) && s.blendSpaces.Some?
      && b.handle(path) in s.blendSpaces.value && s.blendSpaces.value[b.handle(path)] == asset
    case CombinedSampler =>
      HasEntry(r, s, CatalogEntry(CombinedBlendSpaceAsset, path)) && s.combined.Some?
      && b.handle(path) in s.combined.value && s.combined.value[b.handle(path)] == asset
  }

  /** Until that store holds the asset the request waits. */
  lemma MissingAssetWaits(b: Builder, r: Request, s: Stores, path: string)
    ensures HasEntry(r, s, CatalogEntry(BlendSpaceAsset, path))
            && (s.blendSpaces.None? || b.handle(path) !in s.blendSpaces.value) ==>
              Complete(b, r, Requested, s).Waiting?
    ensures HasEntry(r, s, CatalogEntry(CombinedBlendSpaceAsset, path))
            && (s.combined.None? || b.handle(path) !in s.combined.value) ==>
              Complete(b, r, Requested, s).Waiting?
  {
    hide ResolveClip, AssetStage;
  }

  predicate HasPath(m: BlendSpaceMotion) {
    m.animation.product.MotionProduct? && m.animation.product.hint.Some?
  }

  /** The clip of one example: animation 0 of the file its product names. */
  function ExampleClip(b: Builder, r: Request, s: Stores, m: BlendSpaceMotion): Result<ClipMotion, ResolveError>
    requires ClipStores(s) && HasPath(m)
  {
    ResolveClip(b, Source(b.handle(b.productPath(m.animation.product.hint.value)), 0, r.mask), ClipsOf(s))
  }

  /** Main result: an example without a product path fails the request, under the first such alias. */
  lemma PathlessExampleFails(b: Builder, r: Request, s: Stores, kind: SamplerKind, path: string, asset: BlendAsset,
                             k: nat)
    requires ReadsAsset(b, r, s, kind, path, asset)
    requires k < |asset.motions| && !HasPath(asset.motions[k]) && forall i :: 0 <= i < k ==> HasPath(asset.motions[i])
    ensures Complete(b, r, Requested, s)
         == Failed(UnresolvableExample(r.assetId, asset.motions[k].animation.alias))
  {
    hide ResolveClip;
    assert MotionProductPath(b, asset.motions[k].animation).None?;
    ExamplesFailOnMissingPath(b, asset.motions, r.mask);
    FirstAlias(b, asset.motions, k);
  }

  lemma {:induction false} FirstAlias(b: Builder, motions: seq<BlendSpaceMotion>, k: nat)
    requires k < |motions| && !HasPath(motions[k]) && forall i :: 0 <= i < k ==> HasPath(motions[i])
    requires exists i :: 0 <= i < |motions| && MotionProductPath(b, motions[i].animation).None?
    ensures UnresolvableAlias(b, motions) == motions[k].animation.alias
  {
    if k > 0 {
      assert motions[1..][k - 1] == motions[k];
      assert MotionProductPath(b, motions[1..][k - 1].animation).None?;
      assert forall i :: 0 <= i < k - 1 ==> motions[1..][i] == motions[i + 1];
      FirstAlias(b, motions[1..], k - 1);
    }
  }

  function ExampleOf(b: Builder, m: BlendSpaceMotion, mask: nat): Example
    requires HasPath(m)
  {
    Example(Source(b.handle(b.productPath(m.animation.product.hint.value)), 0, mask), m.playbackScale, m.directDelta)
  }

  /** With a path for every example, the examples are the motions in order. */
  lemma {:induction false} ExamplesAre(b: Builder, motions: seq<BlendSpaceMotion>, mask: nat)
    requires forall i :: 0 <= i < |motions| ==> HasPath(motions[i])
    ensures var examples := ParametricExamples(b, motions, mask);
            && examples.Some? && |examples.value| == |motions|
            && forall i :: 0 <= i < |motions| ==>
                 HasPath(motions[i]) && examples.value[i] == ExampleOf(b, motions[i], mask)
  {
    if motions != [] {
      assert forall i :: 0 <= i < |motions| - 1 ==> motions[1..][i] == motions[i + 1];
      ExamplesAre(b, motions[1..], mask);
    }
  }

  /** The motion a blend space ends in: its examples' clips in order, each with its example's metadata. */
  ghost predicate IsBlend(b: Builder, r: Request, s: Stores, kind: SamplerKind, asset: BlendAsset, m: Motion)
    requires ClipStores(s) && forall i :: 0 <= i < |asset.motions| ==> HasPath(asset.motions[i])
  {
    && m.assetId == Some(r.assetId) && m.sampler == Some(Sampler(kind, asset.sampler, asset.exampleCount))
    && m.timewarpGroup == (if kind == BlendSpaceSampler then asset.timewarpGroup else None)
    && |m.clips| == |asset.motions|
    && forall i :: 0 <= i < |asset.motions| ==>
         var clip := ExampleClip(b, r, s, asset.motions[i]);
         clip.Ok? && m.clips[i] == clip.value.(playbackScale := asset.motions[i].playbackScale,
                                               directDelta := asset.motions[i].directDelta)
  }

  /** The asset's parametric source. */
  function SourceOf(b: Builder, r: Request, kind: SamplerKind, asset: BlendAsset): ParametricSource
    requires forall i :: 0 <= i < |asset.motions| ==> HasPath(asset.motions[i])
  {
    ExamplesAre(b, asset.motions, r.mask);
    FromAsset(b, r.assetId, asset, kind, r.mask).value
  }

  /** With its paths an asset is resolved as its parametric source. */
  lemma BlendStages(b: Builder, r: Request, s: Stores, kind: SamplerKind, path: string, asset: BlendAsset)
    requires ReadsAsset(b, r, s, kind, path, asset)
    requires forall i :: 0 <= i < |asset.motions| ==> HasPath(asset.motions[i])
    ensures Complete(b, r, Requested, s) == Build(b, r, ParametricPending(SourceOf(b, r, kind, asset)), s)
  {
    hide ResolveClip, ResolveParametric, FromAsset;
    ExamplesAre(b, asset.motions, r.mask);
    FromAssetIs(b, r, kind, asset);
  }

  lemma FromAssetIs(b: Builder, r: Request, kind: SamplerKind, asset: BlendAsset)
    requires forall i :: 0 <= i < |asset.motions| ==> HasPath(asset.motions[i])
    ensures FromAsset(b, r.assetId, asset, kind, r.mask) == Some(SourceOf(b, r, kind, asset))
  {
    ExamplesAre(b, asset.motions, r.mask);
  }

  /** Main result: with a path for every example a blend space ends ready exactly when every example's
      clip resolves with a playback scale that is not negative, and there are as many as the sampler
      addresses; the motion is then those clips in order. */
  lemma BlendReadyExactly(b: Builder, r: Request, s: Stores, kind: SamplerKind, path: string, asset: BlendAsset)
    requires ReadsAsset(b, r, s, kind, path, asset) && ClipStores(s)
    requires forall i :: 0 <= i < |asset.motions| ==> HasPath(asset.motions[i])
    ensures var st := Complete(b, r, Requested, s);
            && (st.Ready?
                <==> (forall i :: 0 <= i < |asset.motions| ==>
                       ExampleClip(b, r, s, asset.motions[i]).Ok? && asset.motions[i].playbackScale >= 0.0)
                     && |asset.motions| == asset.exampleCount)
            && (st.Ready? ==> IsBlend(b, r, s, kind, asset, st.motion))
  {
    hide ResolveClip, ParametricExamples, ResolveParametric, Complete;
    BlendStages(b, r, s, kind, path, asset);
    var p := SourceOf(b, r, kind, asset);
    ExamplesAre(b, asset.motions, r.mask);
    ParametricExactly(b, p, ClipsOf(s));
    if ResolveParametric(b, p, ClipsOf(s)).Ok? {
      ParametricIs(b, p, ClipsOf(s), ResolveParametric(b, p, ClipsOf(s)).value);
    }
  }

  /** A parametric source resolves exactly when its examples do, with usable scales and count. */
  lemma ParametricExactly(b: Builder, p: ParametricSource, s: Loaded)
    ensures ResolveParametric(b, p, s).Ok?
       <==> (forall i :: 0 <= i < |p.examples| ==>
              ResolveClip(b, p.examples[i].source, s).Ok? && p.examples[i].playbackScale >= 0.0)
            && |p.examples| == p.sampler.exampleCount
  {
    hide ResolveClip, ApplyMetadata, ResolveExamples;
    ExamplesInOrder(b, p.examples, s);
    var clips := ResolveExamples(b, p.examples, s);
    if clips.Ok? {
      MetadataInOrder(p.examples, clips.value, 0);
    }
  }

  lemma ParametricIs(b: Builder, p: ParametricSource, s: Loaded, m: Motion)
    requires ResolveParametric(b, p, s) == Ok(m)
    ensures m.assetId == Some(p.assetId) && m.sampler == Some(p.sampler) && m.timewarpGroup == p.timewarpGroup
    ensures |m.clips| == |p.examples|
    ensures forall i :: 0 <= i < |p.examples| ==>
              && ResolveClip(b, p.examples[i].source, s).Ok?
              && m.clips[i] == ResolveClip(b, p.examples[i].source, s).value
                                 .(playbackScale := p.examples[i].playbackScale,
                                   directDelta := p.examples[i].directDelta)
  {
    hide ResolveClip, ApplyMetadata, ResolveExamples;
    ParametricKeepsPositions(b, p, s, m);
  }

  /** Main result: the first example whose clip does not resolve decides: the request waits for it, or
      records its failure. */
  lemma FirstClipFailureDecides(b: Builder, r: Request, s: Stores, kind: SamplerKind, path: string, asset: BlendAsset,
                                k: nat)
    requires ReadsAsset(b, r, s, kind, path, asset) && ClipStores(s)
    requires forall i :: 0 <= i < |asset.motions| ==> HasPath(asset.motions[i])
    requires k < |asset.motions| && ExampleClip(b, r, s, asset.motions[k]).Err?
    requires forall i :: 0 <= i < k ==> ExampleClip(b, r, s, asset.motions[i]).Ok?
    ensures var e, st := ExampleClip(b, r, s, asset.motions[k]).error, Complete(b, r, Requested, s);
            if e.Pending? then st.Waiting? else st == Failed(Product(r.assetId, e))
  {
    hide ResolveClip, ParametricExamples, ResolveExamples, Complete;
    BlendStages(b, r, s, kind, path, asset);
    var p := SourceOf(b, r, kind, asset);
    ExamplesAre(b, asset.motions, r.mask);
    FirstExampleFails(b, p.examples, ClipsOf(s), k);
  }

  lemma {:induction false} FirstExampleFails(b: Builder, examples: seq<Example>, s: Loaded, k: nat)
    requires k < |examples| && ResolveClip(b, examples[k].source, s).Err?
    requires forall i :: 0 <= i < k ==> ResolveClip(b, examples[i].source, s).Ok?
    ensures ResolveExamples(b, examples, s) == Err(ResolveClip(b, examples[k].source, s).error)
  {
    hide ResolveClip;
    if k > 0 {
      assert forall i :: 0 <= i < |examples| - 1 ==> examples[1..][i] == examples[i + 1];
      FirstExampleFails(b, examples[1..], s, k - 1);
    }
  }

  /** When every clip resolves, the first negative playback scale fails the request; failing that a count
      other than the sampler's does. */
  lemma MetadataFailureDecides(b: Builder, r: Request, s: Stores, kind: SamplerKind, path: string, asset: BlendAsset)
    requires ReadsAsset(b, r, s, kind, path, asset) && ClipStores(s)
    requires forall i :: 0 <= i < |asset.motions| ==> HasPath(asset.motions[i])
    requires forall i :: 0 <= i < |asset.motions| ==> ExampleClip(b, r, s, asset.motions[i]).Ok?
    ensures forall k :: 0 <= k < |asset.motions| && asset.motions[k].playbackScale < 0.0
                        && (forall i :: 0 <= i < k ==> asset.motions[i].playbackScale >= 0.0) ==>
              Complete(b, r, Requested, s) == Failed(Product(r.assetId, InvalidPlaybackScale(k)))
    ensures (forall i :: 0 <= i < |asset.motions| ==> asset.motions[i].playbackScale >= 0.0)
            && |asset.motions| != asset.exampleCount ==>
              Complete(b, r, Requested, s)
              == Failed(Product(r.assetId, InvalidParametricMotion(|asset.motions|, asset.exampleCount)))
  {
    hide ResolveClip, ParametricExamples, ResolveExamples, ApplyMetadata, Complete;
    BlendStages(b, r, s, kind, path, asset);
    var p := SourceOf(b, r, kind, asset);
    ExamplesAre(b, asset.motions, r.mask);
    ExamplesInOrder(b, p.examples, ClipsOf(s));
    var clips := ResolveExamples(b, p.examples, ClipsOf(s)).value;
    MetadataInOrder(p.examples, clips, 0);
  }

  /** And without the clip stores it waits. */
  lemma NoClipStoresWaits(b: Builder, r: Request, s: Stores, kind: SamplerKind, path: string, asset: BlendAsset)
    requires ReadsAsset(b, r, s, kind, path, asset) && !ClipStores(s)
    requires forall i :: 0 <= i < |asset.motions| ==> HasPath(asset.motions[i])
    ensures Complete(b, r, Requested, s).Waiting?
  {
    hide ResolveClip, ParametricExamples, Complete;
    BlendStages(b, r, s, kind, path, asset);
  }
}
