# Verified models of az-rs runtime pieces

Dafny models of seven parts of the az-rs repository, each with the properties that hold over every
input, run or interleaving.

| part | files |
|---|---|
| animation playback: slot pool on the animation graph | `GraphPool.dfy`, `GraphPoolRuns.dfy` |
| animation playback: clock, segments, root motion, blending | `MotionClock.dfy`, `RootPose.dfy`, `PoseMeaning.dfy`, `RootMotion.dfy`, `RootMotionLimits.dfy`, `UnwrappedMotion.dfy`, `RootBlend.dfy` |
| animation assets: staged motion loading | `MotionLoading.dfy`, `MotionMeaning.dfy` |
| characters: skeleton index and skinned attachments | `Hierarchy.dfy`, `Rebinding.dfy`, `SkeletonIndex.dfy` |
| template runtime: expressions, expansion, hot swap | `TemplateText.dfy`, `TemplateExpr.dfy`, `TemplateMeaning.dfy`, `TemplateExpansion.dfy`, `TemplateLifecycle.dfy` |
| log-change notifier | `LogFollow.dfy` |
| type-registry tables and the auth host | `TypeRegistry.dfy`, `SessionHost.dfy` |

`Common.dfy`, `Arithmetic.dfy` and `Ordering.dfy` hold shared types, division facts, sorting and
binary search. `dafny verify dfyconfig.toml` checks everything.

Code that works in place is a class with `modifies` clauses, or a method with loops, proved equal to a
function on values; what the source promises is then proved about that function over all runs.

The lemmas whose names end in `Means`, and those in the `...Meaning` files, say what an operation
answers in terms of its inputs alone, without the functions the run theorems are stated with.

## How to read the models

- **Slot pool.** A frame lists, per layer, the active animations with their blend weights. `Touch`
  serves one active sample, `Release` frees what the frame did not use, `ApplyFrame` is one call of
  `apply`. `owners` says which layer and clips an instance keeps for life.
- **Clock and root motion.** Times and poses are exact reals; a pose turns about the vertical axis
  only, because sampling keeps just z and w. The clock is the unwinding loop of the animation queue.
  A run is a sequence of `TimeStep`s, each with its own segment count, the largest among the clips
  active at that moment; an index at or past the count wraps to 0 at the next unit. `CountsAgree` says
  that every update winds the index back by whole cycles of the clip, which is exactly when the index
  keeps step with an unbounded segment counter (`InStepExactly`). `Unwrapped(m, k, pose)` lays the clip
  end to end k times before `pose`.
- **Motion loading.** One request is a state machine over stores, the catalog among them, that only
  grow. `Complete` is
  resolution in one go. What the animation builder reads off a document is a parameter.
- **Rebinding.** A scene is a set of living entities with parent links, names and joint lists;
  `rank` witnesses that the hierarchy has no cycle. Deferred commands apply in order after the
  queries were read.
- **Expressions.** `Expr` is a tree with its blank padding; `Print` writes it, `Eval` evaluates it
  directly, `Resolve` is the text evaluator. JavaScript's member access, truthiness, equality and
  number conversion are the parameters in `Host`.
- **Expansion and hot swap.** Imports are unconditional; the hot-swap machine records every
  `didMount` and `willUnmount` it calls. The methods of `StreamableComponent` are its steps in place.
- **Notifier.** Each atomic access is one step; every interleaving of one callback and one waiter is
  a run, under sequential consistency. The methods of `FileChangeEvents` are the steps in place.
- **Auth host.** Tokens are symbolic signed terms; nobody else can sign with the authority's key.
  The clock and the leeway are inputs. Provider, scheme and size checks appear as the outcome
  `verified` of the credential.

## Where an expected property fails, and exactly when it holds

- The loops of a clip are counted right in every run of a looping entry if and only if the clip has
  one segment, or the entry's segment count never changes and the clip's divides it; otherwise a fresh
  entry already miscounts (`CountsRightExactly`). A two-segment clip under the counts 4, 4, 2, 2 with
  one unit each is such a run: the index goes 0, 1, 2, 0 (`ShrunkCountMiscounts`).
- Under exactly the same condition loop counts and clip seconds add up over every run
  (`TotalsExactly`), the root deltas of every run telescope for every clip on the timing, and looping
  runs that cover the same time compose to the same movement (`MovementExactly`). Under the constant
  count 3 a two-segment clip moves one cycle less in updates of 3 units and 1 unit than in one of 4.
- Runs of an entry that plays once and that cover the same time compose to the same movement if and
  only if its segment count never changes (`SplitOnceExactly`).
- For one update: an index in step stays so if and only if the clip's count divides what the update
  winds it back by (`StepKeptExactly`); for a single wrap past a shrunken count that is the index plus
  one (`PastCountWrap`).
- No forward update plays a clip backwards if and only if, for a looping entry, loops are always
  counted right, and for one that plays once, its segment count never changes and is no larger than
  the clip's: a shorter clip repeats its last segment (`ForwardExactly`).
- A request whose catalog entry appears only after a frame that looked for it fails for good; the
  outcome is that of one-shot resolution if and only if this does not happen (`SettledIsOneShot`).
- A logic class that changes before the first commit has its instance unmounted without a mount;
  the hooks balance if and only if that does not happen (`HooksBalanceExactly`).
- Such a change also leaves a mount owed a second time. An instance stays mounted for good, no longer
  the current one or past the unmount, if and only if the instance the commit mounted is swapped or the
  component unmounted before an update calls the owed `didMount` (`OrphansExactly`); the hooks
  `willUnmount(0), didMount(1)` of `EarlySwapLeavesOneMounted` are the shortest case.
- Both threads at rest, a reset is left pending with no wake-up queued if and only if the flag was
  stored after the last swap and no token was sent after the last `recv`; the last wait then returned
  an error (`StrandedResetExactly`). Such states are reached (`ResetOutlivesFailedWait`).
- Rebinding keeps every mesh and removes every old joint if and only if no mesh is itself an old
  joint and the attachment is neither at nor under one (`MeshesSurviveAndJointsGo`).
- A quoted string reads back as its body if and only if the operator scan, which does not skip
  quotes, finds no equality in it (`QuotedReadsBackExactly`).
- Applied blend weights sum to 1 if and only if the missing clips' weights cancel
  (`AppliedSumsToOne`).
- An accepted UUID text is a way to write its UUID, up to hyphens and case, if and only if it has no
  plus sign, which `parse_uuid` reads as a leading zero (`WrittenExactly`); every UUID whose first
  byte is below 16 has such a text (`PlusSignParses`).

## Model

| member | source | states |
|---|---|---|
| TemplateText.ScanParensWrapWhole | design/aether-handoff/project/support.js:235-245 | the scan answers true exactly when no closing parenthesis before the last character closes the outermost one |
| TemplateText.ScanTopLevelEquality | design/aether-handoff/project/support.js:246-260 | the scan returns exactly the leftmost operator at net bracket depth 0 that is not preceded by `=` or `!` and has a non-blank left side, with its text |
| TemplateText.FirstEquality | design/aether-handoff/project/support.js:246-260 | the found position is such an operator and no earlier position is; none found means there is none |
| TemplateText.TrimBlank | design/aether-handoff/project/support.js:253-255 | trimming gives the empty text exactly for blank texts |
| TemplateExpr.Evaluate | design/aether-handoff/project/support.js:203-234 | the recursive evaluator terminates on every text and computes `Resolve` |
| TemplateExpr.EvaluateTrimmed | design/aether-handoff/project/support.js:205-233 | so does each of its branches |
| TemplateExpr.WalkPath | design/aether-handoff/project/support.js:261-293 | the index loop of the path walk computes `ResolvePath`, bracketed keys included |
| TemplateExpr.ScanClose | design/aether-handoff/project/support.js:272-283 | the bracket scan returns the first position where the opened brackets are all closed |
| TemplateExpr.EqualityFound | design/aether-handoff/project/support.js:246-260 | in a printed equality the scan stops at the printed operator and reads its full length |
| TemplateExpr.EqualityNotWrapped | design/aether-handoff/project/support.js:206-208 | an equality between parenthesised operands is not taken for one parenthesised whole |
| TemplateExpr.IndexCloses | design/aether-handoff/project/support.js:272-283 | the bracket scan stops at the bracket printed for a key, at any nesting |
| TemplateExpr.PrintSolid | design/aether-handoff/project/support.js:203-293 | every printed tree is trimmed and balanced, and shows no operator at depth 0 unless it is an equality |
| TemplateExpr.ResolveReadsPrint | design/aether-handoff/project/support.js:203-293 | resolving the text of any readable tree, with any padding, equals direct evaluation of the tree |
| TemplateExpr.QuotedReadsBackExactly | design/aether-handoff/project/support.js:209-232 | a quoted text reads as its body if and only if the scan finds no equality in it |
| TemplateMeaning.Alphabets | design/aether-handoff/project/support.js:201-202 | which characters are digits and which start or continue an identifier, one by one |
| TemplateMeaning.SpacesAre | design/aether-handoff/project/support.js:204 | which code points trimming removes |
| TemplateMeaning.NumberExactly | design/aether-handoff/project/support.js:202 | a number is an optional minus sign, digits, and optionally a point and more digits |
| TemplateMeaning.BlankMeans | design/aether-handoff/project/support.js:204-205 | a blank text resolves to undefined |
| TemplateMeaning.WordsMean | design/aether-handoff/project/support.js:225-228 | the four words resolve to their values |
| TemplateMeaning.NumbersMean | design/aether-handoff/project/support.js:229 | a number resolves to its conversion |
| TemplateMeaning.EqualityMeans | design/aether-handoff/project/support.js:209-222 | `===` and `==` give the strict and the loose comparison of what their operands resolve to, `!==` and `!=` its negation |
| TemplateMeaning.NotMeans | design/aether-handoff/project/support.js:224 | `!` gives the negated truthiness of what its operand resolves to |
| TemplateMeaning.GroupMeans | design/aether-handoff/project/support.js:206-208 | parentheses change nothing |
| TemplateMeaning.HeadMeans | design/aether-handoff/project/support.js:261-264 | a name resolves to that member of the values, to undefined when they are null or undefined |
| TemplateMeaning.DotMeans | design/aether-handoff/project/support.js:267-271 | a member step gives that member of what the path before it resolves to, undefined for null and undefined |
| TemplateMeaning.IndexMeans | design/aether-handoff/project/support.js:272-287 | so does a bracketed step, with the key its content resolves to |
| TemplateExpansion.DepthBounded | design/aether-handoff/project/support.js:939-954 | expansion terminates and nests no deeper than the registered names outside the chain |
| TemplateExpansion.CircularExactly | design/aether-handoff/project/support.js:939-1003 | a circular placeholder appears if and only if some walk of imports from the component comes back to a passed name |
| TemplateExpansion.EveryReportIsACycle | design/aether-handoff/project/support.js:940-953 | every reported cycle starts and ends with the same name, each renders the next, and no other name repeats |
| TemplateExpansion.ExpansionShows | design/aether-handoff/project/support.js:939-1027 | the node at the end of any path of imports carries the last name and one child for each of its imports, or the placeholder with the names since its earlier occurrence, or nothing yet |
| TemplateLifecycle.StreamableComponent.ReconcileLogic | design/aether-handoff/project/support.js:875-891 | swaps exactly when the class differs and is not a known failure, unmounting a mounted instance first |
| TemplateLifecycle.ConstructMeans | design/aether-handoff/project/support.js:817-859 | a new component holds an instance of the registered class, or of the base class with the failure on record |
| TemplateLifecycle.RenderMeans | design/aether-handoff/project/support.js:839-891 | a render keeps the instance when its class is the registered one or known to fail, and otherwise unmounts it, unless its mount is owed, and builds a fresh one |
| TemplateLifecycle.RenderShowsRegistered | design/aether-handoff/project/support.js:875-891 | after every render of a run the instance is of the registered class, or of the base class with exactly this failure on record |
| TemplateLifecycle.OtherStepsMean | design/aether-handoff/project/support.js:892-927 | which hook a commit, an update and the unmount call, and when |
| TemplateLifecycle.HooksBalanceExactly | design/aether-handoff/project/support.js:875-927 | in every run each instance mounts at most once and unmounts at most once after it, if and only if no render before the first commit swapped the logic |
| TemplateLifecycle.OrphansExactly | design/aether-handoff/project/support.js:875-927 | over every run, an instance is live without being current, or past the unmount, if and only if the instance the commit mounted was given up while its `didMount` was owed again |
| TemplateLifecycle.EarlySwapLeavesOneMounted | design/aether-handoff/project/support.js:875-927 | a class registered before the first commit and an unmount right after it leave instance 1 mounted |
| TemplateLifecycle.UnmountLeavesNothingLive | design/aether-handoff/project/support.js:918-927 | after the final unmount no instance is mounted, unless one was given up while owed |
| TemplateLifecycle.OnlyCurrentIsLive | design/aether-handoff/project/support.js:875-917 | unless one was given up while owed, at most the current instance is mounted, and its `didMount` is owed again exactly when the commit mounted a swapped instance and no update has called it since |
| GraphPool.CryAnimationPlayer.BindAnimation | gems/animation/src/bevy_runtime.rs:1243-1281 | reuses a free slot of the layer or adds a node and a slot, and starts the node |
| GraphPool.CryAnimationPlayer.ApplySample | gems/animation/src/bevy_runtime.rs:1086-1116 | serves one active sample; its node is always active, so the expect never fires |
| GraphPool.CryAnimationPlayer.ReleaseStale | gems/animation/src/bevy_runtime.rs:1121-1128 | frees and stops exactly the slots this frame did not use |
| GraphPool.CryAnimationPlayer.Apply | gems/animation/src/bevy_runtime.rs:1070-1129 | one frame computes `ApplyFrame` and keeps the pool invariant |
| GraphPool.ApplyFrameOk | gems/animation/src/bevy_runtime.rs:1070-1129 | after any frame nodes are distinct, no two slots share an (instance, sample) pair, slots hold their clip and mask, and active nodes are exactly the occupied ones |
| GraphPoolRuns.FrameLeavesActivePairs | gems/animation/src/bevy_runtime.rs:1073-1128 | the occupied slots of a layer after a frame are exactly that frame's active pairs |
| GraphPoolRuns.FramePlaysSamples | gems/animation/src/bevy_runtime.rs:1101-1116 | every active sample ends the frame in a slot of its layer playing its clip under the product of the two weights, paused at the time its animation shows |
| GraphPoolRuns.FramePeak | gems/animation/src/bevy_runtime.rs:1073-1128 | a frame grows a layer to the larger of its size and the union of the pairs held before and asked for |
| GraphPoolRuns.RunIsTight | gems/animation/src/bevy_runtime.rs:1070-1129 | over any run a layer's slots number exactly the peak union of consecutive frames, and the occupied ones are the last frame's pairs |
| GraphPoolRuns.RunAddsNodes | gems/animation/src/bevy_runtime.rs:1252-1277 | the graph grows by exactly one node per slot |
| MotionClock.SegmentTimeFromEntire | gems/animation/src/bevy_runtime.rs:862-898 | with any active clip the search succeeds with the least segment of the reference clip reaching the clamped time, and mapping its answer back gives that time; without one there is none |
| MotionClock.ReferenceExactly | gems/animation/src/bevy_runtime.rs:862-869 | the reference is the last of the active clips with the most segments |
| MotionClock.EntireTimeMeans | gems/animation/src/bevy_runtime.rs:870-878 | whole-clip time is linear between the boundaries of the segment, of the last one past the end |
| MotionClock.SegmentTimeRoundTrip | gems/animation/src/bevy_runtime.rs:870-898 | segment and phase come back unchanged, except that the start of a later segment comes back as the end of the one before |
| MotionClock.NormalizedTimeInSegment | crates/az/animation/src/blend_space.rs:2069-2075 | the mapped time lies in its segment, at the ends exactly for phases 0 and 1 |
| RootMotion.UpdateAnimationTime | crates/az/animation/src/character.rs:769-831 | the unwinding loop computes the closed form for any index and count: whole units crossed, wrapped or clamped index, remaining phase |
| RootMotion.AdvanceMeans | crates/az/animation/src/character.rs:769-831 | one update by cases: segments advanced are the whole part of the phase, wrapped by `%` and counted by `/`, or stopped at the end |
| RootMotion.StepKeptExactly | crates/az/animation/src/character.rs:806-819 | an index in step with the unbounded counter stays so if and only if the update winds it back by a multiple of the clip's segment count |
| RootMotion.PastCountWrap | crates/az/animation/src/character.rs:808-819 | one wrap of an index past a shrunken count keeps step if and only if the clip's count divides the index plus one |
| RootMotion.InStepExactly | gems/animation/src/bevy_runtime.rs:755-762 | over a run with changing counts the index is in step throughout if and only if every update winds it back by whole cycles |
| RootMotion.InRangeRewindsWhole | gems/animation/src/bevy_runtime.rs:755-762 | it is when the clip's count divides every update's and the index is always below it |
| RootPose.ComposeAssoc | gems/animation/src/bevy_runtime.rs:1298-1304 | composition of poses is associative |
| RootPose.ComposeInverse | gems/animation/src/bevy_runtime.rs:1290-1304 | the inverse pose undoes a pose on both sides |
| PoseMeaning.ProductIsHamilton | gems/animation/src/bevy_runtime.rs:1300-1301 | yaw quaternions multiply as full quaternions do |
| PoseMeaning.RotateIsConjugation | gems/animation/src/bevy_runtime.rs:1302 | turning a vector is conjugating it by the quaternion |
| PoseMeaning.ComposeMeans | gems/animation/src/bevy_runtime.rs:1298-1304 | composing multiplies the rotations and carries the second origin by the first pose |
| PoseMeaning.InverseMeans | gems/animation/src/bevy_runtime.rs:1290-1296 | the inverse rotation multiplies to one, and the pose carries the inverse origin to zero |
| PoseMeaning.SampledPose | gems/animation/src/bevy_runtime.rs:1517-1532 | a sampled pose is what the curves give, identity or origin for a missing one |
| PoseMeaning.SampledTime | gems/animation/src/bevy_runtime.rs:1442-1455 | the clip time shown is linear between the boundaries of the segment the index stands for |
| RootMotion.AnimationRootDelta | gems/animation/src/bevy_runtime.rs:1437-1470 | the loop over wraps computes `RootDelta`, and there is none exactly when the clip moves no part of the root |
| PoseMeaning.DeltaCarries | gems/animation/src/bevy_runtime.rs:1456-1459 | without a wrap the delta takes the pose before to the pose after: rotations multiply, and its translation is carried to the new one |
| PoseMeaning.LoopedDeltaCarries | gems/animation/src/bevy_runtime.rs:1461-1469 | with wraps it takes the pose before to the end of the clip, over the whole cycles, and on from the start |
| RootMotion.DeltaIsUnwrappedStep | gems/animation/src/bevy_runtime.rs:1456-1469 | each delta is the step between two unwrapped poses, from whatever loop it is counted |
| RootMotion.LoopsCounted | gems/animation/src/bevy_runtime.rs:1505-1515 | an update counts exactly the wraps of the unbounded segment counter when the counts agree |
| RootMotion.RunTelescopes | gems/animation/src/bevy_runtime.rs:1437-1515 | when the counts agree, the deltas of a run compose to the step between its two unwrapped ends |
| RootMotion.SplitIndependent | gems/animation/src/bevy_runtime.rs:1437-1515 | looping runs whose counts agree and that cover the same time compose to the same movement, however split into frames |
| RootMotion.SplitIndependentOnce | gems/animation/src/bevy_runtime.rs:1437-1515 | so do runs of an entry that plays once, if its count does not change or they end short of every count |
| RootMotion.LoopsTelescope | gems/animation/src/bevy_runtime.rs:1505-1515 | when the counts agree, the loop counts of a run sum to the difference of the unbounded counter's wraps |
| RootMotion.SecondsAreLoops | gems/animation/src/bevy_runtime.rs:1476-1499 | whatever the counts, the clip seconds of a run are the duration times the loops counted plus the change in clip time |
| RootMotion.SecondsTelescope | gems/animation/src/bevy_runtime.rs:1476-1499 | when the counts agree, they are the duration times the change in unwrapped clip time |
| RootMotion.ForwardSeconds | gems/animation/src/bevy_runtime.rs:1476-1499 | a forward update that keeps step never plays a clip backwards |
| RootMotionLimits.CountsRightExactly | gems/animation/src/bevy_runtime.rs:755-762 | every loop of every run is counted if and only if the clip has one segment or the entry's count never changes and the clip's divides it; otherwise a fresh entry miscounts |
| RootMotionLimits.BadWrapMiscounts | gems/animation/src/bevy_runtime.rs:1505-1515 | up to a wrap that falls inside a cycle of the clip, over it and on to the cycle's end, one loop goes uncounted |
| RootMotionLimits.ShrunkCountMiscounts | crates/az/animation/src/character.rs:806-819 | a count that shrinks from 4 to 2 makes a two-segment clip miss a loop although its count divides both |
| RootMotionLimits.ForwardExactly | gems/animation/src/bevy_runtime.rs:1476-1499 | for which segment counts no forward update of any run plays the clip backwards, looping or once |
| UnwrappedMotion.TotalsExactly | gems/animation/src/bevy_runtime.rs:1476-1515 | for which segment counts loop counts, and clip seconds, add up over every run |
| UnwrappedMotion.MovementExactly | gems/animation/src/bevy_runtime.rs:1437-1515 | for which segment counts root deltas telescope over every looping run of every clip on a timing, and movement does not depend on the split into frames |
| UnwrappedMotion.SplitOnceExactly | gems/animation/src/bevy_runtime.rs:1437-1515 | movement of an entry that plays once does not depend on the split if and only if its count never changes |
| UnwrappedMotion.BadWrapSplits | gems/animation/src/bevy_runtime.rs:1437-1470 | two runs of the same span from a fresh entry that differ by a whole loop |
| RootBlend.PriorityStart | gems/animation/src/bevy_runtime.rs:1145-1158 | contributors start at the last weighted animation with full root priority, or at the first |
| RootBlend.CalculateRelativeMovement | gems/animation/src/bevy_runtime.rs:1132-1186 | the two passes compute the normalized blend of the contributors, or nothing below the weight threshold |
| RootBlend.PriorityMeans | gems/animation/src/bevy_runtime.rs:1145-1158 | the start in plain terms of flag and weight |
| RootBlend.MovementIsWeightedSum | gems/animation/src/bevy_runtime.rs:1160-1187 | on each axis the translation is the sum of each sample's share of the weight, transition weight times its own, times its movement |
| RootBlend.AppliedSumsToOne | gems/animation/src/bevy_runtime.rs:1160-1187 | applied weights sum to 1 if and only if the missing clips' weights cancel |
| RootBlend.NormalizedBlendInBox | gems/animation/src/bevy_runtime.rs:1160-1334 | with non-negative weights and every clip present the translation stays in any box holding the contributors |
| MotionLoading.ResolvedClipIs | gems/animation/src/bevy_runtime.rs:126-198 | a resolved clip is the one at the index, targets the only animation root unless a controller is bound, and has the document's duration or else its own |
| MotionMeaning.ClipPendingExactly | gems/animation/src/bevy_runtime.rs:126-198 | a clip waits exactly while its file, its animation or one of the file's nodes is missing |
| MotionMeaning.ClipMissingExactly | gems/animation/src/bevy_runtime.rs:126-198 | when the animation or the document is reported missing |
| MotionMeaning.ClipRootExactly | gems/animation/src/bevy_runtime.rs:126-198 | the root count is reported exactly when no node is the only animation root |
| MotionMeaning.ClipMeans | gems/animation/src/bevy_runtime.rs:126-198 | otherwise the clip has the timing of its root node, the bound controller's or the animation root's, or the failure to find either |
| MotionLoading.ClipResultStable | gems/animation/src/bevy_runtime.rs:126-198 | a clip result other than pending never changes on larger stores |
| MotionLoading.ParametricKeepsPositions | gems/animation/src/bevy_runtime.rs:381-430 | clip k of a parametric motion is example k's clip with its metadata, and there are as many as the sampler addresses |
| MotionLoading.ExamplesInOrder | gems/animation/src/bevy_runtime.rs:381-392 | resolution gives every example's clip in order or the failure of the first example that has none |
| MotionLoading.ExamplesFailOnMissingPath | gems/animation/src/motion_runtime.rs:420-428 | source construction fails exactly when some example has no product path, so the alias search succeeds |
| MotionLoading.BuildStable | gems/animation/src/motion_runtime.rs:287-372 | a stage taken on smaller stores is the stage larger stores take |
| MotionLoading.FrameKeepsOutcome | gems/animation/src/motion_runtime.rs:218-418 | a frame on smaller stores does not change where resolution on larger stores ends, unless it missed an entry they have |
| MotionLoading.SettledIsOneShot | gems/animation/src/motion_runtime.rs:218-418 | a motion or error any run arrives at is the one found in one go on the final stores, if and only if the catalog entry did not come after a frame that looked for it |
| MotionLoading.RunReachesOneShot | gems/animation/src/motion_runtime.rs:218-418 | two more frames on the final stores reach exactly that outcome, under the same condition |
| MotionMeaning.RequestMeans | gems/animation/src/motion_runtime.rs:218-275 | a request waits for catalog and server, and fails without an entry or with one of another type |
| MotionMeaning.AnimationMeans | gems/animation/src/motion_runtime.rs:247-257 | an animation ends in the motion of animation 0 of its file under the request's mask, in that clip's failure, or waits |
| MotionMeaning.MissingAssetWaits | gems/animation/src/motion_runtime.rs:296-302 | a blend space waits for its asset in the store of its own kind |
| MotionMeaning.PathlessExampleFails | gems/animation/src/motion_runtime.rs:303-319 | an example without a path fails the request under the first such alias |
| MotionMeaning.BlendReadyExactly | gems/animation/src/bevy_runtime.rs:381-430 | a blend space ends ready exactly when all examples resolve with usable scales and count, as their clips in order with their metadata |
| MotionMeaning.FirstClipFailureDecides | gems/animation/src/bevy_runtime.rs:381-392 | the first example that does not resolve makes the request wait or fail with its error |
| MotionMeaning.MetadataFailureDecides | gems/animation/src/bevy_runtime.rs:393-430 | then the first negative scale, then the count, fails it |
| MotionMeaning.NoClipStoresWaits | gems/animation/src/motion_runtime.rs:348-358 | without the clip stores it waits |
| MotionLoading.MotionRuntime.ResolveSources | gems/animation/src/motion_runtime.rs:218-280 | classifies every entity with no pending motion, motion or error, and no other |
| MotionLoading.MotionRuntime.BuildResolved | gems/animation/src/motion_runtime.rs:287-372 | advances every pending motion one stage and leaves the rest |
| MotionLoading.MotionRuntime.Update | gems/animation/src/motion_runtime.rs:205-210 | a frame takes each entity through both systems independently |
| Hierarchy.AncestorInSet | gems/animation/src/character_runtime.rs:856-866 | the climb finds a member exactly when a strict ancestor is in the set |
| Rebinding.RemapJoints | gems/animation/src/character_runtime.rs:810-837 | the first named joint without a counterpart blocks the list, else any unnamed joint does, else every joint maps to its counterpart |
| Rebinding.World.DespawnNow | gems/animation/src/character_runtime.rs:846-853 | despawning removes the living subtree and nothing else |
| Rebinding.World.QueueCommands | gems/animation/src/character_runtime.rs:841-853 | moves exactly the meshes under old joints and despawns exactly the old joints whose parent is not one |
| Rebinding.World.BindSkinnedAttachment | gems/animation/src/character_runtime.rs:777-854 | nothing but the error changes when a joint list is blocked, the first blocked mesh deciding the error; otherwise the scene becomes `Rebound` |
| Rebinding.MeshesSurviveAndJointsGo | gems/animation/src/character_runtime.rs:801-854 | every mesh survives and every old joint goes if and only if no mesh is an old joint and the attachment is not at or under one |
| Rebinding.BystandersKeepParents | gems/animation/src/character_runtime.rs:839-854 | whatever was not at or under an old joint survives with its parent |
| Rebinding.MeshesAreRemapped | gems/animation/src/character_runtime.rs:807-837 | surviving meshes have joint lists of equal length remapped pointwise by name, and hang from the attachment if they were under a joint |
| Rebinding.NothingElseChanges | gems/animation/src/character_runtime.rs:834-854 | survivors keep their names, meshes elsewhere their joint lists and others their parents; nothing is gained or lost otherwise than by despawning |
| Rebinding.JointSubtreesGo | gems/animation/src/character_runtime.rs:846-853 | whatever stands under an old joint with no mesh in between goes with it |
| SkeletonIndex.FindRoot | gems/animation/src/character_runtime.rs:407-411 | in an acyclic hierarchy a nonempty joint list always has a root joint |
| SkeletonIndex.BuildCharacterSkeleton | gems/animation/src/character_runtime.rs:395-437 | the index exists exactly for a nonempty joint list with a controller id on each joint and no id twice |
| SkeletonIndex.JointByName | gems/animation/src/character_runtime.rs:193-198 | lookup by name finds a joint of that name whenever there is one, and the one linear search finds when names are distinct |
| SkeletonIndex.JointByControllerId | gems/animation/src/character_runtime.rs:206-211 | lookup by controller id agrees with linear search over the joints |
| LogFollow.RunKeepsInv | src/commands/log_follow.rs:38-94 | in every interleaving a pending error, reset or unseen notification has its wake-up queued or on its way |
| LogFollow.RestingStateWakes | src/commands/log_follow.rs:38-94 | at rest an unseen notification or a pending error finds a token, and a pending reset finds one or follows a failed wait |
| LogFollow.WaitIsTrueExactly | src/commands/log_follow.rs:75-94 | a wait ends true if and only if a replacement, rescan or error was signalled since the previous swap |
| LogFollow.ErrorIsReported | src/commands/log_follow.rs:50-57 | the first take after an error fails, with that message unless a later one replaced it |
| LogFollow.EventWakes | src/commands/log_follow.rs:38-94 | a relevant event ends the wait it wakes with true exactly for a creation, removal, rename or rescan, or a reset still pending |
| LogFollow.ErrorWakes | src/commands/log_follow.rs:50-92 | an error ends the wait it wakes with its message |
| LogFollow.IrrelevantIgnored | src/commands/log_follow.rs:38-50 | an event that is neither a rescan nor about the target changes nothing |
| LogFollow.TokenExactly | src/commands/log_follow.rs:38-94 | the channel holds a token exactly when one was sent since the last `recv` |
| LogFollow.StrandedResetExactly | src/commands/log_follow.rs:38-94 | at rest a reset is pending with no wake-up if and only if it was stored after the last swap with no token sent after the last `recv`, and then the last wait failed |
| LogFollow.ResetOutlivesFailedWait | src/commands/log_follow.rs:83-93 | some run reaches such a state |
| TypeRegistry.ParseUuid | crates/az/gridmate/build.rs:328-338 | the sixteen pairs left without hyphens read as the bytes returned, and as no UUID when none is |
| TypeRegistry.AcceptedExactly | crates/az/gridmate/build.rs:328-338 | a text parses if and only if it has 32 characters besides hyphens, hexadecimal except that a pair may start with a plus sign |
| TypeRegistry.WrittenExactly | crates/az/gridmate/build.rs:334-336 | an accepted text is a way to write its UUID if and only if it has no plus sign |
| TypeRegistry.PlusSignParses | crates/az/gridmate/build.rs:334-336 | every UUID with a first byte below 16 parses from a text with a plus sign |
| TypeRegistry.ParseFormatted | crates/az/gridmate/build.rs:328-360 | parsing a formatted UUID gives the same bytes |
| TypeRegistry.FormatLayout | crates/az/gridmate/build.rs:340-360 | every byte stands at its place as two lower-case digits, the high one first, with hyphens after 8, 12, 16 and 20 digits |
| TypeRegistry.ValidateDense | crates/az/gridmate/build.rs:167-182 | the check passes exactly when every class index is its slot |
| TypeRegistry.DenseExactly | crates/az/gridmate/build.rs:105-106 | a snapshot passes exactly when its class indices are a permutation of 0 to N-1 |
| TypeRegistry.WriteUuidMap | crates/az/gridmate/build.rs:216-241 | the map builds exactly for distinct UUIDs and holds exactly the rows |
| TypeRegistry.WriteTypeIndexMap | crates/az/gridmate/build.rs:243-270 | the map builds exactly when nonzero type indices are distinct and holds exactly those rows |
| TypeRegistry.Emit | crates/az/gridmate/build.rs:92-108 | output exists exactly for such snapshots and is the sorted table with its three indexes |
| TypeRegistry.OrderDoesNotMatter | crates/az/gridmate/build.rs:98-107 | the output is the same for every order of the rows |
| TypeRegistry.TablesAgree | crates/az/gridmate/build.rs:216-294 | every row is found as the same row through the UUID map, the type-index map and the sorted table |
| TypeRegistry.KeysStemFromRows | crates/az/gridmate/build.rs:216-270 | every key of an index stems from a row |
| TypeRegistry.ValueOrder | crates/az/gridmate/build.rs:272-294 | the numbers of the sorted table compare as the UUIDs' bytes do |
| SessionHost.SessionIdInjective | gems/auth/src/authority.rs:294-302 | the id text determines the nanoseconds and the counter |
| SessionHost.IdsAreDistinct | gems/auth/src/authority.rs:294-302 | ids issued by one process are pairwise distinct until the counter wraps |
| SessionHost.GrantValidates | gems/auth/src/authority.rs:208-274 | a granted access token validates to its own claims until expiry with leeway, and only the refresh token refreshes |
| SessionHost.ScopesExactly | gems/auth/src/authority.rs:394-401 | every requested or augmented scope is granted once, in order, and no other |
| SessionHost.ReferenceAuthHost.OnValidate | gems/auth/src/authority.rs:410-423 | a token validates through the authority and then the revocation set |
| SessionHost.ReferenceAuthHost.OnRefresh | gems/auth/src/authority.rs:425-446 | a refresh checks the token and the revocation set, then issues for the same subject |
| SessionHost.RevokedNeverSucceeds | gems/auth/src/authority.rs:410-454 | once a session is revoked no later validate or refresh of its tokens succeeds |
| SessionHost.ValidateExactly | gems/auth/src/authority.rs:257-261 | validation succeeds exactly for minted, unexpired and unrevoked tokens, and vouches for an issued session |
| SessionHost.RefreshExactly | gems/auth/src/authority.rs:425-446 | a refresh succeeds exactly for minted, unexpired and unrevoked refresh tokens when the clock is past the epoch |
| SessionHost.ExchangeMeans | gems/auth/src/authority.rs:360-408 | an exchange grants exactly for a verified, active identity, with the claims, lifetimes, scopes and id stated field by field, and else fails for the first reason |
| SessionHost.ValidateMeans | gems/auth/src/authority.rs:257-286 | the answer to a token, error by error |
| SessionHost.RefreshMeans | gems/auth/src/authority.rs:262-286 | the answer to a refresh, error by error, and the grant field by field |
| SessionHost.GrantedIsCoherent | gems/auth/src/authority.rs:208-255 | whatever call grants it, a grant's refresh token names its subject, provider and session |
| SessionHost.ChainKeepsSubject | gems/auth/src/authority.rs:425-446 | a refresh chain of any length keeps subject and provider, and carries no scopes after the first refresh |

## Left out

- RootMotion.AnimationRootDelta: exact reals instead of `f32`, yaw-only rotations, and rotation curves that already yield a normalized yaw; curve sampling itself is a parameter.
- RootMotion.UpdateAnimationTime: one entry at a time; manual update, time-warp synchronisation and queue removal are not part of the model, and the 8-bit index is taken as unbounded.
- RootBlend.CalculateRelativeMovement: only the accumulated translation; the speed, angle and slope channels and the trigonometry that finishes them are left out.
- GraphPool.CryAnimationPlayer.Apply: instance ids are unique and an instance keeps its layer and motion, as the queue assigns them; nothing else adds nodes to the graph while the player runs.
- Rebinding.World.BindSkinnedAttachment: the sorted, deduplicated joint vector is a set, the traversal of descendants is an input, and the early returns for a missing attachment or skeleton component are left out.
- TypeRegistry.ParseUuid: texts are ASCII; the source measures and slices bytes, which differs on other text.
- SkeletonIndex.BuildCharacterSkeleton: starts from the joint list of the largest skinned mesh; picking that mesh and reading controller ids out of JSON extras are inputs.
- MotionLoading.ResolvedClipIs: the timing and controller lookups of the animation builder are uninterpreted parameters.
- SessionHost.ValidateExactly: signatures are symbolic and the order of checks inside the JWT library is assumed to be signature, expiry, issuer and audience; `validate` is not claimed to tell access tokens from refresh tokens.
- SessionHost.IdsAreDistinct: one host per process; the source's counter is a process-wide static that several hosts would share.
- LogFollow.RunKeepsInv: sequential consistency, one callback at a time and one waiter; the operating system's watcher and path normalisation are outside.
- TemplateLifecycle.HooksBalanceExactly: no discarded renders; instance state carried over a swap, streaming flags and placeholders are left out.
- TemplateExpansion.CircularExactly: imports are unconditional and pass no children.
- Bevy scheduling, asset input and output, glTF parsing and blend-space sampling.
- JSON row validation in `parse_type_entry`, whose branches are one field check each.
- External modules, DOM, CSS and helmet handling in the template runtime.
- Command-line parsing and the process-launch commands.
- Cryptography, HTTP transport, zeroizing and identity-provider bridges.
