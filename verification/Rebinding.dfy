/** Rebinding a skinned attachment to its character's skeleton: joints are remapped by name, meshes
    are moved out from under the attachment's own joints, and those joints are despawned. */
module Rebinding {
  import opened Common
  import opened Hierarchy

  datatype Scene = Scene(
    alive: set<Entity>,
    parents: map<Entity, Entity>,
    names: map<Entity, string>,
    meshes: map<Entity, seq<Entity>>)
  {
    /** Links and components belong to living entities. */
    predicate Valid() {
      && (forall e <- parents :: e in alive && parents[e] in alive)
      && names.Keys <= alive && meshes.Keys <= alive
    }
  }

  type Lookup = string -> Option<Entity>

  datatype Remap = Remapped(joints: seq<Entity>) | MissingJoint(name: string) | Unnamed

  // ----- remapping by name -----

  predicate Unknown(names: map<Entity, string>, lookup: Lookup, joint: Entity) {
    joint in names && lookup(names[joint]).None?
  }

  /** The outcome for one joint list: the first named joint without a counterpart blocks it; failing
      that any unnamed joint does; otherwise every joint maps to its counterpart. */
  predicate IsRemap(names: map<Entity, string>, lookup: Lookup, joints: seq<Entity>, r: Remap) {
    match r
    case MissingJoint(name) =>
      exists i :: 0 <= i < |joints| && Unknown(names, lookup, joints[i]) && name == names[joints[i]]
        && forall k :: 0 <= k < i ==> !Unknown(names, lookup, joints[k])
    case Unnamed =>
      && (forall k :: 0 <= k < |joints| ==> !Unknown(names, lookup, joints[k]))
      && exists k :: 0 <= k < |joints| && joints[k] !in names
    case Remapped(base) =>
      && |base| == |joints|
      && forall k :: 0 <= k < |joints| ==> joints[k] in names && lookup(names[joints[k]]) == Some(base[k])
  }

  method RemapJoints(names: map<Entity, string>, lookup: Lookup, joints: seq<Entity>) returns (r: Remap)
    ensures IsRemap(names, lookup, joints, r)
  {
    var base := [];
    for i := 0 to |joints|
      invariant forall k :: 0 <= k < i ==> !Unknown(names, lookup, joints[k])
      invariant |base| <= i
      invariant |base| == i ==>
                  forall k :: 0 <= k < i ==> joints[k] in names && lookup(names[joints[k]]) == Some(base[k])
      invariant |base| < i ==> exists k :: 0 <= k < i && joints[k] !in names
    {
      if joints[i] !in names {
        continue;
      }
      var found := lookup(names[joints[i]]);
      if found.None? {
        return MissingJoint(names[joints[i]]);
      }
      base := base + [found.value];
    }
    if |base| != |joints| {
      return Unnamed;
    }
    return Remapped(base);
  }

  lemma RemapUnique(names: map<Entity, string>, lookup: Lookup, joints: seq<Entity>, r: Remap, s: Remap)
    requires IsRemap(names, lookup, joints, r) && IsRemap(names, lookup, joints, s)
    ensures r == s
  {
    if r.Remapped? && s.Remapped? {
      assert r.joints == s.joints;
    } else if r.MissingJoint? && s.MissingJoint? {
      var i :| 0 <= i < |joints| && Unknown(names, lookup, joints[i]) && r.name == names[joints[i]]
        && forall k :: 0 <= k < i ==> !Unknown(names, lookup, joints[k]);
      var j :| 0 <= j < |joints| && Unknown(names, lookup, joints[j]) && s.name == names[joints[j]]
        && forall k :: 0 <= k < j ==> !Unknown(names, lookup, joints[k]);
      assert i == j;
    }
  }

  // ----- the attachment -----

  /** The skinned meshes below the attachment. */
  ghost function MeshesBelow(sc: Scene, rank: Entity -> nat, root: Entity): set<Entity>
    requires Ranked(sc.parents, rank)
  {
    set e | e in sc.meshes && Under(sc.parents, rank, e, {root})
  }

  function JointsOf(meshes: map<Entity, seq<Entity>>, among: set<Entity>): set<Entity> {
    set m, k | m in meshes && m in among && 0 <= k < |meshes[m]| :: meshes[m][k]
  }

  /** The old joints of the attachment. */
  ghost function OldJoints(sc: Scene, rank: Entity -> nat, root: Entity): set<Entity>
    requires Ranked(sc.parents, rank)
  {
    JointsOf(sc.meshes, MeshesBelow(sc, rank, root))
  }

  /** Old joints whose parent is not one: the despawned roots. */
  function TopJoints(parents: map<Entity, Entity>, joints: set<Entity>): set<Entity> {
    set j | j in joints && (j in parents ==> parents[j] !in joints)
  }

  /** The forest after the meshes under old joints were moved to the attachment. */
  ghost function MovedParents(sc: Scene, rank: Entity -> nat, root: Entity): map<Entity, Entity>
    requires Ranked(sc.parents, rank)
  {
    var meshes, joints := MeshesBelow(sc, rank, root), OldJoints(sc, rank, root);
    map e | e in sc.parents ::
      if e in meshes && Under(sc.parents, rank, e, joints) then root else sc.parents[e]
  }

  lemma MovedRanked(sc: Scene, rank: Entity -> nat, root: Entity)
    requires Ranked(sc.parents, rank)
    ensures Ranked(MovedParents(sc, rank, root), rank)
  {
    forall e <- sc.parents
      ensures rank(MovedParents(sc, rank, root)[e]) < rank(e)
    {
      if e in MeshesBelow(sc, rank, root) {
        UnderRank(sc.parents, rank, e, root);
      }
    }
  }

  ghost predicate Blocked(sc: Scene, lookup: Lookup, mesh: Entity)
    requires mesh in sc.meshes
  {
    !exists base :: IsRemap(sc.names, lookup, sc.meshes[mesh], Remapped(base))
  }

  /** The entities of a traversal that carry a skinned mesh, in traversal order. */
  function OnlyMeshes(order: seq<Entity>, meshes: set<Entity>): seq<Entity> {
    if order == [] then []
    else
      var last := order[|order| - 1];
      OnlyMeshes(order[..|order| - 1], meshes) + (if last in meshes then [last] else [])
  }

  lemma {:induction false} OnlyMeshesMembers(order: seq<Entity>, meshes: set<Entity>)
    ensures Members(OnlyMeshes(order, meshes)) == Members(order) * meshes
  {
    if order != [] {
      var init, last := order[..|order| - 1], order[|order| - 1];
      OnlyMeshesMembers(init, meshes);
      MembersConcat(OnlyMeshes(init, meshes), if last in meshes then [last] else []);
      MembersConcat(init, [last]);
      assert order == init + [last];
    }
  }

  lemma MembersConcat(a: seq<Entity>, b: seq<Entity>)
    ensures Members(a + b) == Members(a) + Members(b)
  {
  }

  /** `r` is why the first blocked mesh of the list is blocked. */
  ghost predicate FirstBlock(sc: Scene, lookup: Lookup, order: seq<Entity>, r: Remap) {
    && (forall m <- order :: m in sc.meshes)
    && !r.Remapped?
    && exists i :: 0 <= i < |order| && IsRemap(sc.names, lookup, sc.meshes[order[i]], r)
         && forall k :: 0 <= k < i ==> !Blocked(sc, lookup, order[k])
  }

  // ----- the scene, in place -----

  class World {
    var alive: set<Entity>
    var parents: map<Entity, Entity>
    var names: map<Entity, string>
    var meshes: map<Entity, seq<Entity>>
    var missingJoint: map<Entity, (string, string)>

    ghost function View(): Scene
      reads this
    {
      Scene(alive, parents, names, meshes)
    }

    /** `set_parent_in_place` on a living entity. */
    method SetParentNow(entity: Entity, parent: Entity)
      modifies this`parents
      ensures parents == old(parents)[entity := parent]
    {
      parents := parents[entity := parent];
    }

    /** Removes an entity with everything below it; a dead entity is left alone. */
    method DespawnNow(entity: Entity, ghost rank: Entity -> nat)
      requires View().Valid() && Ranked(parents, rank)
      modifies this`alive, this`parents, this`names, this`meshes
      ensures View().Valid() && Ranked(parents, rank)
      ensures alive == old(alive) - Subtree(old(alive), old(parents), rank, entity)
      ensures parents == Restrict(old(parents), alive)
      ensures names == Restrict(old(names), alive) && meshes == Restrict(old(meshes), alive)
    {
      ghost var gone := Subtree(alive, parents, rank, entity);
      if entity !in alive {
        assert gone == {} by {
          forall d | d in gone
            ensures false
          {
            DeadHasNoSubtree(View(), rank, d, entity);
          }
        }
        assert parents == Restrict(parents, alive) && names == Restrict(names, alive);
        assert meshes == Restrict(meshes, alive);
        return;
      }
      var left := Descendants(entity, rank);
      assert left == gone;
      alive := alive - left;
      parents := Restrict(parents, alive);
      names := Restrict(names, alive);
      meshes := Restrict(meshes, alive);
    }

    /** The subtree of an entity, by climbing from every living entity. */
    method Descendants(entity: Entity, ghost rank: Entity -> nat) returns (below: set<Entity>)
      requires Ranked(parents, rank)
      ensures below == Subtree(alive, parents, rank, entity)
    {
      below := {};
      var rest := alive;
      while rest != {}
        invariant rest <= alive
        invariant below == Subtree(alive - rest, parents, rank, entity)
      {
        var d :| d in rest;
        var under := AncestorInSet(d, {entity}, parents, rank);
        if d == entity || under {
          below := below + {d};
        }
        rest := rest - {d};
      }
    }

    /** Gathers the new joint list of every mesh in order, stopping at the first blocked one. */
    method RemapMeshes(order: seq<Entity>, lookup: Lookup)
      returns (blocked: Option<Remap>, remapped: map<Entity, seq<Entity>>, oldJoints: set<Entity>)
      requires forall m <- order :: m in meshes
      ensures blocked.None? ==>
                && remapped.Keys == Members(order)
                && (forall m <- order :: IsRemap(names, lookup, meshes[m], Remapped(remapped[m])))
                && oldJoints == JointsOf(meshes, Members(order))
      ensures blocked.Some? ==>
                && !blocked.value.Remapped?
                && exists i :: 0 <= i < |order| && IsRemap(names, lookup, meshes[order[i]], blocked.value)
                     && forall k :: 0 <= k < i ==> !Blocked(View(), lookup, order[k])
    {
      remapped, oldJoints := map[], {};
      for i := 0 to |order|
        invariant remapped.Keys == Members(order[..i])
        invariant forall k :: 0 <= k < i ==> IsRemap(names, lookup, meshes[order[k]], Remapped(remapped[order[k]]))
        invariant oldJoints == JointsOf(meshes, Members(order[..i]))
      {
        var m := order[i];
        var r := RemapJoints(names, lookup, meshes[m]);
        if !r.Remapped? {
          return Some(r), map[], {};
        }
        remapped := remapped[m := r.joints];
        MembersPushed(order, i);
        oldJoints := oldJoints + (set k | 0 <= k < |meshes[m]| :: meshes[m][k]);
      }
      assert order[..|order|] == order;
      blocked := None;
    }

    /** The commands the rebinding queues, computed from the hierarchy as it stands. */
    method QueueCommands(root: Entity, order: seq<Entity>, oldJoints: set<Entity>, ghost rank: Entity -> nat)
      returns (moved: seq<Entity>, tops: seq<Entity>)
      requires Ranked(parents, rank)
      ensures forall e :: e in moved <==> e in order && Under(parents, rank, e, oldJoints)
      ensures forall e :: e in tops <==> e in TopJoints(parents, oldJoints)
    {
      moved, tops := [], [];
      for i := 0 to |order|
        invariant forall e :: e in moved <==> e in order[..i] && Under(parents, rank, e, oldJoints)
      {
        var under := AncestorInSet(order[i], oldJoints, parents, rank);
        if under {
          moved := moved + [order[i]];
        }
      }
      var rest := oldJoints;
      while rest != {}
        invariant rest <= oldJoints
        invariant forall e :: e in tops <==> e in TopJoints(parents, oldJoints) && e !in rest
      {
        var j :| j in rest;
        if j !in parents || parents[j] !in oldJoints {
          tops := tops + [j];
        }
        rest := rest - {j};
      }
    }

    /** Moves the queued meshes under the attachment. */
    method MoveMeshes(root: Entity, moved: seq<Entity>, ghost rank: Entity -> nat)
      requires View().Valid() && Ranked(parents, rank) && root in alive
      requires forall m <- moved :: m in alive && rank(root) < rank(m)
      modifies this`parents
      ensures View() == old(View()).(parents := Linked(old(parents), Members(moved), root))
      ensures View().Valid() && Ranked(parents, rank)
    {
      ghost var before := View();
      LinkedNone(parents, root);
      for i := 0 to |moved|
        invariant View() == before.(parents := Linked(before.parents, Members(moved[..i]), root))
        invariant View().Valid() && Ranked(parents, rank)
      {
        LinkedPushed(before.parents, moved, i, root);
        StaysValid(View(), rank, moved[i], root);
        hide *;
        SetParentNow(moved[i], root);
      }
      assert moved[..|moved|] == moved;
    }

    /** Despawns the queued joints, each with what is left below it. */
    method DespawnTops(tops: seq<Entity>, ghost rank: Entity -> nat)
      requires View().Valid() && Ranked(parents, rank)
      modifies this`alive, this`parents, this`names, this`meshes
      ensures View() == Cut(old(View()), rank, Members(tops))
      ensures View().Valid()
    {
      ghost var before := View();
      CutNothing(before, rank);
      assert Members(tops[..0]) == {};
      for i := 0 to |tops|
        invariant View().Valid() && Ranked(parents, rank)
        invariant View() == Cut(before, rank, Members(tops[..i]))
      {
        hide Cut, Subtree, Restrict, AtOrUnder;
        MembersPushed(tops, i);
        CutMore(before, rank, Members(tops[..i]), tops[i]);
        DespawnNow(tops[i], rank);
      }
      assert tops[..|tops|] == tops;
    }

    /** Writes the new joint lists, then queues and applies the commands. */
    method Commit(root: Entity, order: seq<Entity>, remapped: map<Entity, seq<Entity>>, oldJoints: set<Entity>,
                  lookup: Lookup, ghost rank: Entity -> nat)
      requires View().Valid() && Ranked(parents, rank) && root in alive
      requires Members(order) == MeshesBelow(View(), rank, root) == remapped.Keys
      requires forall m <- order :: remapped[m] == Counterparts(names, lookup, meshes[m])
      requires oldJoints == OldJoints(View(), rank, root)
      modifies this`alive, this`parents, this`names, this`meshes
      ensures View() == Rebound(old(View()), rank, root, lookup)
      ensures View().Valid()
    {
      ghost var before := View();
      meshes := map m | m in meshes :: if m in remapped then remapped[m] else meshes[m];
      assert meshes == RemappedMeshes(before, rank, root, lookup);
      var moved, tops := QueueCommands(root, order, oldJoints, rank);
      MovedIsLinked(before, rank, root, moved);
      assert Members(tops) == TopJoints(before.parents, oldJoints);
      MoveMeshes(root, moved, rank);
      DespawnTops(tops, rank);
    }

    /** The skinned meshes among the descendants, in traversal order. */
    method CollectMeshes(descendants: seq<Entity>) returns (order: seq<Entity>)
      ensures order == OnlyMeshes(descendants, meshes.Keys)
    {
      order := [];
      for i := 0 to |descendants|
        invariant order == OnlyMeshes(descendants[..i], meshes.Keys)
      {
        assert descendants[..i + 1][..i] == descendants[..i];
        if descendants[i] in meshes {
          order := order + [descendants[i]];
        }
      }
      assert descendants[..|descendants|] == descendants;
    }

    /** Rebinds the attachment under `root`. Nothing changes when some joint has no name or no
        counterpart; otherwise the scene becomes `Rebound`. */
    method BindSkinnedAttachment(root: Entity, character: Entity, attachment: string, lookup: Lookup,
                                 descendants: seq<Entity>, ghost rank: Entity -> nat)
      requires View().Valid() && Ranked(parents, rank)
      requires root in alive
      requires forall e :: e in Members(descendants) <==> e in alive && Under(parents, rank, e, {root})
      modifies this
      ensures View().Valid()
      ensures AnyBlocked(old(View()), rank, root, lookup) ==> View() == old(View())
      ensures !AnyBlocked(old(View()), rank, root, lookup) ==>
                View() == Rebound(old(View()), rank, root, lookup) && missingJoint == old(missingJoint)
      ensures AnyBlocked(old(View()), rank, root, lookup) ==>
                exists r :: FirstBlock(old(View()), lookup, OnlyMeshes(descendants, old(meshes).Keys), r)
                  && missingJoint == if r.MissingJoint? then old(missingJoint)[character := (attachment, r.name)]
                                     else old(missingJoint)
    {
      hide Rebound, Counterparts, IsRemap, Under;
      ghost var before := View();
      var order := CollectMeshes(descendants);
      OnlyMeshesMembers(descendants, meshes.Keys);
      assert Members(order) == MeshesBelow(before, rank, root);
      assert forall m <- order :: m in Members(order);
      var blocked, remapped, oldJoints := RemapMeshes(order, lookup);
      if blocked.Some? {
        ghost var i :| 0 <= i < |order| && IsRemap(names, lookup, meshes[order[i]], blocked.value)
          && forall k :: 0 <= k < i ==> !Blocked(before, lookup, order[k]);
        assert FirstBlock(before, lookup, order, blocked.value);
        BlockedByRemap(before, lookup, order[i], blocked.value);
        assert order[i] in Members(order);
        if blocked.value.MissingJoint? {
          missingJoint := missingJoint[character := (attachment, blocked.value.name)];
        }
        return;
      }
      forall m <- order
        ensures !Blocked(before, lookup, m) && remapped[m] == Counterparts(before.names, lookup, before.meshes[m])
      {
        CounterpartsUnique(before.names, lookup, before.meshes[m], remapped[m]);
      }
      Commit(root, order, remapped, oldJoints, lookup, rank);
    }
  }

  lemma {:induction false} DeadHasNoSubtree(sc: Scene, rank: Entity -> nat, d: Entity, e: Entity)
    requires sc.Valid() && Ranked(sc.parents, rank) && d in sc.alive && AtOrUnder(sc.parents, rank, d, {e})
    ensures e in sc.alive
    decreases rank(d)
  {
    if d != e {
      DeadHasNoSubtree(sc, rank, sc.parents[d], e);
    }
  }

  // ----- the scene after a rebinding -----

  function Members(s: seq<Entity>): set<Entity> {
    set e | e in s
  }

  lemma MembersPushed(s: seq<Entity>, i: nat)
    requires i < |s|
    ensures Members(s[..i + 1]) == Members(s[..i]) + {s[i]}
  {
    assert s[..i + 1] == s[..i] + [s[i]];
  }

  function Linked(parents: map<Entity, Entity>, moved: set<Entity>, root: Entity): map<Entity, Entity> {
    map e | e in parents.Keys + moved :: if e in moved then root else parents[e]
  }

  lemma LinkedNone(parents: map<Entity, Entity>, root: Entity)
    ensures Linked(parents, Members([]), root) == parents
  {
  }

  lemma StaysValid(sc: Scene, rank: Entity -> nat, m: Entity, root: Entity)
    requires sc.Valid() && Ranked(sc.parents, rank) && m in sc.alive && root in sc.alive && rank(root) < rank(m)
    ensures sc.(parents := sc.parents[m := root]).Valid() && Ranked(sc.parents[m := root], rank)
  {
  }

  lemma LinkedPushed(parents: map<Entity, Entity>, moved: seq<Entity>, i: nat, root: Entity)
    requires i < |moved|
    ensures Linked(parents, Members(moved[..i + 1]), root)
         == Linked(parents, Members(moved[..i]), root)[moved[i] := root]
  {
    MembersPushed(moved, i);
  }

  lemma MovedIsLinked(sc: Scene, rank: Entity -> nat, root: Entity, moved: seq<Entity>)
    requires Ranked(sc.parents, rank) && sc.Valid()
    requires forall e :: e in moved <==>
               e in MeshesBelow(sc, rank, root) && Under(sc.parents, rank, e, OldJoints(sc, rank, root))
    ensures Linked(sc.parents, Members(moved), root) == MovedParents(sc, rank, root)
    ensures forall m <- moved :: m in sc.alive && rank(root) < rank(m)
  {
    forall m <- moved
      ensures m in sc.parents && rank(root) < rank(m)
    {
      UnderRank(sc.parents, rank, m, root);
    }
  }

  ghost predicate AnyBlocked(sc: Scene, rank: Entity -> nat, root: Entity, lookup: Lookup)
    requires Ranked(sc.parents, rank)
  {
    exists m :: m in MeshesBelow(sc, rank, root) && Blocked(sc, lookup, m)
  }

  /** The scene without everything at or under `roots`. */
  ghost function Cut(sc: Scene, rank: Entity -> nat, roots: set<Entity>): Scene
    requires Ranked(sc.parents, rank)
  {
    var keep := Without(sc.alive, sc.parents, rank, roots);
    Scene(keep, Restrict(sc.parents, keep), Restrict(sc.names, keep), Restrict(sc.meshes, keep))
  }

  lemma CutNothing(sc: Scene, rank: Entity -> nat)
    requires sc.Valid() && Ranked(sc.parents, rank)
    ensures Cut(sc, rank, {}) == sc
  {
    forall d | d in sc.alive
      ensures !Under(sc.parents, rank, d, {})
    {
      UnderNothing(sc.parents, rank, d);
    }
  }

  lemma {:induction false} UnderNothing(parents: map<Entity, Entity>, rank: Entity -> nat, e: Entity)
    requires Ranked(parents, rank)
    ensures !Under(parents, rank, e, {})
    decreases rank(e)
  {
    if e in parents {
      UnderNothing(parents, rank, parents[e]);
    }
  }

  /** Despawning one more entity of a cut scene cuts it too. */
  lemma CutMore(sc: Scene, rank: Entity -> nat, roots: set<Entity>, e: Entity)
    requires sc.Valid() && Ranked(sc.parents, rank)
    ensures var cut := Cut(sc, rank, roots);
            && Ranked(cut.parents, rank)
            && var keep := cut.alive - Subtree(cut.alive, cut.parents, rank, e);
               Cut(sc, rank, roots + {e})
               == Scene(keep, Restrict(cut.parents, keep), Restrict(cut.names, keep), Restrict(cut.meshes, keep))
  {
    RemoveSubtree(sc.alive, sc.parents, rank, roots, e);
  }

  function Counterparts(names: map<Entity, string>, lookup: Lookup, joints: seq<Entity>): seq<Entity> {
    seq(|joints|, k requires 0 <= k < |joints| =>
      if joints[k] in names && lookup(names[joints[k]]).Some? then lookup(names[joints[k]]).value else joints[k])
  }

  lemma CounterpartsUnique(names: map<Entity, string>, lookup: Lookup, joints: seq<Entity>, base: seq<Entity>)
    requires IsRemap(names, lookup, joints, Remapped(base))
    ensures base == Counterparts(names, lookup, joints)
  {
  }

  lemma BlockedByRemap(sc: Scene, lookup: Lookup, m: Entity, r: Remap)
    requires m in sc.meshes && !r.Remapped? && IsRemap(sc.names, lookup, sc.meshes[m], r)
    ensures Blocked(sc, lookup, m)
  {
    if base :| IsRemap(sc.names, lookup, sc.meshes[m], Remapped(base)) {
      RemapUnique(sc.names, lookup, sc.meshes[m], r, Remapped(base));
    }
  }

  ghost function RemappedMeshes(sc: Scene, rank: Entity -> nat, root: Entity, lookup: Lookup): map<Entity, seq<Entity>>
    requires Ranked(sc.parents, rank)
  {
    var below := MeshesBelow(sc, rank, root);
    map m | m in sc.meshes :: if m in below then Counterparts(sc.names, lookup, sc.meshes[m]) else sc.meshes[m]
  }

  ghost function Rebound(sc: Scene, rank: Entity -> nat, root: Entity, lookup: Lookup): Scene
    requires Ranked(sc.parents, rank)
  {
    MovedRanked(sc, rank, root);
    Cut(sc.(parents := MovedParents(sc, rank, root), meshes := RemappedMeshes(sc, rank, root, lookup)), rank,
        TopJoints(sc.parents, OldJoints(sc, rank, root)))
  }

  // ----- what a rebinding guarantees -----

  /** Moving meshes leaves the ancestry of everything that is not under an old joint alone. */
  lemma {:induction false} MovedKeepsBystanders(sc: Scene, rank: Entity -> nat, root: Entity, e: Entity, s: set<Entity>)
    requires Ranked(sc.parents, rank) && Ranked(MovedParents(sc, rank, root), rank)
    requires !Under(sc.parents, rank, e, OldJoints(sc, rank, root))
    ensures Under(MovedParents(sc, rank, root), rank, e, s) <==> Under(sc.parents, rank, e, s)
    decreases rank(e)
  {
    if e in sc.parents {
      MovedKeepsBystanders(sc, rank, root, sc.parents[e], s);
    }
  }

  /** Nor does it change the ancestry of the attachment itself. */
  lemma {:induction false} MovedKeepsAbove(sc: Scene, rank: Entity -> nat, root: Entity, e: Entity, s: set<Entity>)
    requires Ranked(sc.parents, rank) && Ranked(MovedParents(sc, rank, root), rank)
    requires !Under(sc.parents, rank, e, {root})
    ensures Under(MovedParents(sc, rank, root), rank, e, s) <==> Under(sc.parents, rank, e, s)
    decreases rank(e)
  {
    if e in sc.parents {
      MovedKeepsAbove(sc, rank, root, sc.parents[e], s);
    }
  }

  /** Climbing from an old joint through old joints ends at one that is despawned. */
  lemma {:induction false} JointHasTop(sc: Scene, rank: Entity -> nat, j: Entity, joints: set<Entity>)
    requires Ranked(sc.parents, rank) && j in joints
    ensures AtOrUnder(sc.parents, rank, j, TopJoints(sc.parents, joints))
    decreases rank(j)
  {
    if j !in TopJoints(sc.parents, joints) {
      JointHasTop(sc, rank, sc.parents[j], joints);
    }
  }

  lemma {:induction false} UnderJointUnderTop(sc: Scene, rank: Entity -> nat, e: Entity, joints: set<Entity>)
    requires Ranked(sc.parents, rank) && Under(sc.parents, rank, e, joints)
    ensures Under(sc.parents, rank, e, TopJoints(sc.parents, joints))
    decreases rank(e)
  {
    if sc.parents[e] in joints {
      JointHasTop(sc, rank, sc.parents[e], joints);
    } else {
      UnderJointUnderTop(sc, rank, sc.parents[e], joints);
    }
  }

  lemma {:induction false} MovedJointHasTop(sc: Scene, rank: Entity -> nat, root: Entity, j: Entity)
    requires Ranked(sc.parents, rank) && Ranked(MovedParents(sc, rank, root), rank)
    requires MeshesBelow(sc, rank, root) !! OldJoints(sc, rank, root)
    requires j in OldJoints(sc, rank, root)
    ensures AtOrUnder(MovedParents(sc, rank, root), rank, j, TopJoints(sc.parents, OldJoints(sc, rank, root)))
    decreases rank(j)
  {
    if j !in TopJoints(sc.parents, OldJoints(sc, rank, root)) {
      MovedJointHasTop(sc, rank, root, sc.parents[j]);
    }
  }

  lemma NotUnderSelf(parents: map<Entity, Entity>, rank: Entity -> nat, e: Entity)
    requires Ranked(parents, rank)
    ensures !Under(parents, rank, e, {e})
  {
    if Under(parents, rank, e, {e}) {
      UnderRank(parents, rank, e, e);
    }
  }

  /** The attachment is cut away exactly when it stands at or under one of its own old joints. */
  lemma RootCut(sc: Scene, rank: Entity -> nat, root: Entity)
    requires Ranked(sc.parents, rank) && Ranked(MovedParents(sc, rank, root), rank)
    ensures var joints := OldJoints(sc, rank, root);
            AtOrUnder(MovedParents(sc, rank, root), rank, root, TopJoints(sc.parents, joints))
            <==> AtOrUnder(sc.parents, rank, root, joints)
  {
    var joints := OldJoints(sc, rank, root);
    var tops := TopJoints(sc.parents, joints);
    NotUnderSelf(sc.parents, rank, root);
    MovedKeepsAbove(sc, rank, root, root, tops);
    if root in joints {
      JointHasTop(sc, rank, root, joints);
    } else if Under(sc.parents, rank, root, joints) {
      UnderJointUnderTop(sc, rank, root, joints);
    }
    if Under(sc.parents, rank, root, tops) {
      UnderMonotone(sc.parents, rank, root, tops, joints);
    }
  }

  /** A mesh below the attachment is cut away exactly when it is a despawned joint, or it was under
      an old joint and the attachment is cut away. */
  lemma MeshCut(sc: Scene, rank: Entity -> nat, root: Entity, m: Entity)
    requires Ranked(sc.parents, rank) && Ranked(MovedParents(sc, rank, root), rank)
    requires m in MeshesBelow(sc, rank, root)
    ensures var joints := OldJoints(sc, rank, root);
            AtOrUnder(MovedParents(sc, rank, root), rank, m, TopJoints(sc.parents, joints))
            <==> m in TopJoints(sc.parents, joints)
                 || (Under(sc.parents, rank, m, joints) && AtOrUnder(sc.parents, rank, root, joints))
  {
    var joints := OldJoints(sc, rank, root);
    var tops := TopJoints(sc.parents, joints);
    RootCut(sc, rank, root);
    if !Under(sc.parents, rank, m, joints) {
      MovedKeepsBystanders(sc, rank, root, m, tops);
      if Under(sc.parents, rank, m, tops) {
        UnderMonotone(sc.parents, rank, m, tops, joints);
      }
    }
  }

  ghost predicate MeshesSurvive(sc: Scene, rank: Entity -> nat, root: Entity, lookup: Lookup)
    requires Ranked(sc.parents, rank)
  {
    MeshesBelow(sc, rank, root) <= Rebound(sc, rank, root, lookup).alive
  }

  ghost predicate JointsGone(sc: Scene, rank: Entity -> nat, root: Entity, lookup: Lookup)
    requires Ranked(sc.parents, rank)
  {
    OldJoints(sc, rank, root) !! Rebound(sc, rank, root, lookup).alive
  }

  /** Main result: the rebinding keeps every mesh and removes every old joint if and only if no mesh
      is itself an old joint and the attachment stands neither at nor under one. */
  lemma MeshesSurviveAndJointsGo(sc: Scene, rank: Entity -> nat, root: Entity, lookup: Lookup)
    requires sc.Valid() && Ranked(sc.parents, rank)
    ensures MeshesSurvive(sc, rank, root, lookup) && JointsGone(sc, rank, root, lookup)
       <==> MeshesBelow(sc, rank, root) !! OldJoints(sc, rank, root)
            && !AtOrUnder(sc.parents, rank, root, OldJoints(sc, rank, root))
  {
    var meshes, joints := MeshesBelow(sc, rank, root), OldJoints(sc, rank, root);
    MovedRanked(sc, rank, root);
    forall m <- meshes
      ensures m in Rebound(sc, rank, root, lookup).alive
         <==> !(m in TopJoints(sc.parents, joints)
                || (Under(sc.parents, rank, m, joints) && AtOrUnder(sc.parents, rank, root, joints)))
    {
      MeshCut(sc, rank, root, m);
    }
    if AtOrUnder(sc.parents, rank, root, joints) {
      UnderNothing(sc.parents, rank, root);
      assert meshes == {} ==> joints == {};
      var m :| m in meshes;
      UnderTransitive(sc.parents, rank, m, root, joints);
    } else if meshes !! joints {
      forall j <- joints
        ensures j !in Rebound(sc, rank, root, lookup).alive
      {
        MovedJointHasTop(sc, rank, root, j);
      }
    }
  }

  /** Whatever was not at or under an old joint survives with the parent it had. */
  lemma BystandersKeepParents(sc: Scene, rank: Entity -> nat, root: Entity, lookup: Lookup, e: Entity)
    requires sc.Valid() && Ranked(sc.parents, rank) && e in sc.alive
    requires !AtOrUnder(sc.parents, rank, e, OldJoints(sc, rank, root))
    ensures var after := Rebound(sc, rank, root, lookup);
            && e in after.alive
            && (e in after.parents <==> e in sc.parents)
            && (e in sc.parents ==> after.parents[e] == sc.parents[e])
  {
    var joints := OldJoints(sc, rank, root);
    var tops := TopJoints(sc.parents, joints);
    MovedRanked(sc, rank, root);
    MovedKeepsBystanders(sc, rank, root, e, tops);
    if Under(sc.parents, rank, e, tops) {
      UnderMonotone(sc.parents, rank, e, tops, joints);
    }
  }

  /** Every surviving mesh of the attachment has a joint list of the same length, each joint being
      the skeleton's joint of the same name, and hangs from the attachment if it was under a joint. */
  lemma MeshesAreRemapped(sc: Scene, rank: Entity -> nat, root: Entity, lookup: Lookup, m: Entity)
    requires sc.Valid() && Ranked(sc.parents, rank) && !AnyBlocked(sc, rank, root, lookup)
    requires m in MeshesBelow(sc, rank, root) && m in Rebound(sc, rank, root, lookup).alive
    ensures var after := Rebound(sc, rank, root, lookup);
            && m in after.meshes && |after.meshes[m]| == |sc.meshes[m]|
            && (forall k :: 0 <= k < |sc.meshes[m]| ==>
                 sc.meshes[m][k] in sc.names && lookup(sc.names[sc.meshes[m][k]]) == Some(after.meshes[m][k]))
            && (Under(sc.parents, rank, m, OldJoints(sc, rank, root)) ==>
                 m in after.parents && after.parents[m] == root)
  {
    MovedRanked(sc, rank, root);
    var base :| IsRemap(sc.names, lookup, sc.meshes[m], Remapped(base));
    CounterpartsUnique(sc.names, lookup, sc.meshes[m], base);
  }

  /** Nothing else changes: a survivor keeps its name, and a mesh that is not below the attachment keeps
      its joint list; no entity gains a name, a mesh or a parent, or loses one otherwise than by being
      despawned; nothing comes to life. */
  lemma NothingElseChanges(sc: Scene, rank: Entity -> nat, root: Entity, lookup: Lookup, e: Entity)
    requires sc.Valid() && Ranked(sc.parents, rank)
    ensures var after := Rebound(sc, rank, root, lookup);
            && (e in after.alive ==> e in sc.alive)
            && (e in after.names <==> e in sc.names && e in after.alive)
            && (e in after.names ==> after.names[e] == sc.names[e])
            && (e in after.meshes <==> e in sc.meshes && e in after.alive)
            && (e in after.meshes && !Under(sc.parents, rank, e, {root}) ==> after.meshes[e] == sc.meshes[e])
            && (e in after.parents <==> e in sc.parents && e in after.alive)
            && (e in after.parents && (e !in sc.meshes || !Under(sc.parents, rank, e, {root})) ==>
                 after.parents[e] == sc.parents[e])
  {
    MovedRanked(sc, rank, root);
  }

  lemma {:induction false} NoMeshAbove(sc: Scene, rank: Entity -> nat, root: Entity, e: Entity, s: set<Entity>)
    requires Ranked(sc.parents, rank) && Ranked(MovedParents(sc, rank, root), rank)
    requires !AtOrUnder(sc.parents, rank, e, MeshesBelow(sc, rank, root))
    ensures Under(MovedParents(sc, rank, root), rank, e, s) <==> Under(sc.parents, rank, e, s)
    decreases rank(e)
  {
    if e in sc.parents {
      NoMeshAbove(sc, rank, root, sc.parents[e], s);
    }
  }

  /** Whatever stands at or under an old joint with no mesh of the attachment in between goes with it. */
  lemma JointSubtreesGo(sc: Scene, rank: Entity -> nat, root: Entity, lookup: Lookup, e: Entity)
    requires sc.Valid() && Ranked(sc.parents, rank)
    requires AtOrUnder(sc.parents, rank, e, OldJoints(sc, rank, root))
    requires !AtOrUnder(sc.parents, rank, e, MeshesBelow(sc, rank, root))
    ensures e !in Rebound(sc, rank, root, lookup).alive
  {
    var joints := OldJoints(sc, rank, root);
    MovedRanked(sc, rank, root);
    NoMeshAbove(sc, rank, root, e, TopJoints(sc.parents, joints));
    if e in joints {
      JointHasTop(sc, rank, e, joints);
    } else {
      UnderJointUnderTop(sc, rank, e, joints);
    }
  }
}
