/** The joint index of a character: its root joint, and binary-search lookup by name and by
    controller id. */
module SkeletonIndex {
  import opened Common
  import opened Ordering
  import opened Hierarchy

  datatype Skeleton = Skeleton(animationRoot: Entity, byName: seq<(string, Entity)>, byController: seq<(nat, Entity)>)

  predicate NameLe(a: (string, Entity), b: (string, Entity)) {
    TextLe(a.0, b.0)
  }

  predicate ControllerLe(a: (nat, Entity), b: (nat, Entity)) {
    a.0 <= b.0
  }

  lemma OrdersAreTotal()
    ensures TotalOrder(NameLe) && TotalOrder(ControllerLe)
  {
    forall a: (string, Entity), b: (string, Entity)
      ensures NameLe(a, b) || NameLe(b, a)
    {
      TextTotal(a.0, b.0);
    }
    forall a: (string, Entity), b: (string, Entity), c: (string, Entity) | NameLe(a, b) && NameLe(b, c)
      ensures NameLe(a, c)
    {
      TextTransitive(a.0, b.0, c.0);
    }
  }

  /** A joint whose parent, if any, is no joint. */
  predicate IsRoot(joints: seq<Entity>, parents: map<Entity, Entity>, j: Entity) {
    j in parents ==> parents[j] !in joints
  }

  /** Climbing from a joint through joints reaches a root joint. */
  lemma {:induction false} RootAbove(joints: seq<Entity>, parents: map<Entity, Entity>, rank: Entity -> nat, j: Entity)
    requires Ranked(parents, rank) && j in joints
    ensures exists r <- joints :: IsRoot(joints, parents, r)
    decreases rank(j)
  {
    if !IsRoot(joints, parents, j) {
      RootAbove(joints, parents, rank, parents[j]);
    }
  }

  method FindRoot(joints: seq<Entity>, parents: map<Entity, Entity>, ghost rank: Entity -> nat)
      returns (r: Option<Entity>)
    requires Ranked(parents, rank)
    ensures r.Some? <==> joints != []
    ensures r.Some? ==> r.value in joints && IsRoot(joints, parents, r.value)
    ensures r.Some? ==> exists i :: 0 <= i < |joints| && joints[i] == r.value
                                    && forall k :: 0 <= k < i ==> !IsRoot(joints, parents, joints[k])
  {
    for i := 0 to |joints|
      invariant forall k :: 0 <= k < i ==> !IsRoot(joints, parents, joints[k])
    {
      if joints[i] !in parents || parents[joints[i]] !in joints {
        return Some(joints[i]);
      }
    }
    if joints != [] {
      RootAbove(joints, parents, rank, joints[0]);
    }
    return None;
  }

  function Named(joints: seq<Entity>, names: map<Entity, string>): seq<(string, Entity)> {
    if joints == [] then []
    else
      (if joints[0] in names then [(names[joints[0]], joints[0])] else []) + Named(joints[1..], names)
  }

  function Controlled(joints: seq<Entity>, controllers: map<Entity, nat>): seq<(nat, Entity)>
    requires forall j <- joints :: j in controllers
  {
    seq(|joints|, i requires 0 <= i < |joints| => (controllers[joints[i]], joints[i]))
  }

  lemma {:induction false} NamedAre(joints: seq<Entity>, names: map<Entity, string>)
    ensures forall p :: p in Named(joints, names) <==> p.1 in joints && p.1 in names && p.0 == names[p.1]
  {
    if joints != [] {
      NamedAre(joints[1..], names);
    }
  }

  /** No two joints carry the same controller id. */
  predicate DistinctControllers(joints: seq<Entity>, controllers: map<Entity, nat>)
    requires forall j <- joints :: j in controllers
  {
    forall i, k :: 0 <= i < k < |joints| ==> controllers[joints[i]] != controllers[joints[k]]
  }

  predicate SameController(a: (nat, Entity), b: (nat, Entity)) {
    a.0 == b.0
  }

  /** Checking neighbours of the sorted list finds every duplicate. */
  method HasDuplicate(sorted: seq<(nat, Entity)>) returns (found: bool)
    requires Sorted(ControllerLe, sorted)
    ensures found <==> !NoPair(SameController, sorted)
  {
    for i := 0 to |sorted|
      invariant i > 0 ==> forall k, l :: 0 <= k < l < i ==> sorted[k].0 < sorted[l].0
    {
      if i > 0 && sorted[i - 1].0 == sorted[i].0 {
        assert SameController(sorted[i - 1], sorted[i]);
        return true;
      }
      assert i > 0 ==> ControllerLe(sorted[i - 1], sorted[i]);
    }
    return false;
  }

  predicate IsSkeleton(s: Skeleton, joints: seq<Entity>, parents: map<Entity, Entity>, names: map<Entity, string>,
                       controllers: map<Entity, nat>) {
    && s.animationRoot in joints && IsRoot(joints, parents, s.animationRoot)
    && (forall j <- joints :: j in controllers) && DistinctControllers(joints, controllers)
    && s.byName == Sort(NameLe, Named(joints, names))
    && s.byController == Sort(ControllerLe, Controlled(joints, controllers))
  }

  /** In an acyclic hierarchy the index exists exactly when there are joints, each with a controller
      id, and no id twice; in particular a root joint is always found. */
  method BuildCharacterSkeleton(joints: seq<Entity>, parents: map<Entity, Entity>, names: map<Entity, string>,
                                controllers: map<Entity, nat>, ghost rank: Entity -> nat)
    returns (r: Option<Skeleton>)
    requires Ranked(parents, rank)
    ensures r.Some?
       <==> joints != [] && (forall j <- joints :: j in controllers) && DistinctControllers(joints, controllers)
    ensures r.Some? ==> IsSkeleton(r.value, joints, parents, names, controllers)
  {
    var root := FindRoot(joints, parents, rank);
    if root.None? {
      return None;
    }
    var byName := Sort(NameLe, Named(joints, names));
    if exists j <- joints :: j !in controllers {
      return None;
    }
    var listed := Controlled(joints, controllers);
    var byController := Sort(ControllerLe, listed);
    OrdersAreTotal();
    SortKeeps(ControllerLe, listed);
    var duplicate := HasDuplicate(byController);
    DistinctReordered(joints, controllers, byController);
    if duplicate {
      return None;
    }
    return Some(Skeleton(root.value, byName, byController));
  }

  lemma DistinctReordered(joints: seq<Entity>, controllers: map<Entity, nat>, sorted: seq<(nat, Entity)>)
    requires (forall j <- joints :: j in controllers) && multiset(sorted) == multiset(Controlled(joints, controllers))
    ensures DistinctControllers(joints, controllers) <==> NoPair(SameController, sorted)
  {
    var listed := Controlled(joints, controllers);
    assert DistinctControllers(joints, controllers) <==> NoPair(SameController, listed) by {
      if NoPair(SameController, listed) {
        forall i, k | 0 <= i < k < |joints|
          ensures controllers[joints[i]] != controllers[joints[k]]
        {
          assert !SameController(listed[i], listed[k]);
        }
      }
    }
    if NoPair(SameController, listed) {
      NoPairReordered(SameController, listed, sorted);
    }
    if NoPair(SameController, sorted) {
      NoPairReordered(SameController, sorted, listed);
    }
  }

  // ----- lookups agree with linear search -----

  /** The first joint of that name. */
  function LinearByName(joints: seq<Entity>, names: map<Entity, string>, name: string): (r: Option<Entity>)
    ensures r.Some? ==> r.value in joints && r.value in names && names[r.value] == name
    ensures r.None? ==> forall j <- joints :: j in names ==> names[j] != name
  {
    if joints == [] then None
    else if joints[0] in names && names[joints[0]] == name then Some(joints[0])
    else LinearByName(joints[1..], names, name)
  }

  function LinearByController(joints: seq<Entity>, controllers: map<Entity, nat>, id: nat): (r: Option<Entity>)
    requires forall j <- joints :: j in controllers
    ensures r.Some? ==> r.value in joints && controllers[r.value] == id
    ensures r.None? ==> forall j <- joints :: controllers[j] != id
  {
    if joints == [] then None
    else if controllers[joints[0]] == id then Some(joints[0])
    else LinearByController(joints[1..], controllers, id)
  }

  function CompareText(a: string, b: string): Cmp {
    if a == b then Equal else if TextLe(a, b) then Less else Greater
  }

  function CompareId(a: nat, b: nat): Cmp {
    if a == b then Equal else if a < b then Less else Greater
  }

  lemma NameSearchable(byName: seq<(string, Entity)>, name: string)
    requires Sorted(NameLe, byName)
    ensures Searchable(byName, (p: (string, Entity)) => CompareText(p.0, name))
  {
    forall i, j | 0 <= i < j < |byName|
      ensures Rank(CompareText(byName[i].0, name)) <= Rank(CompareText(byName[j].0, name))
    {
      var a, b := byName[i].0, byName[j].0;
      assert NameLe(byName[i], byName[j]);
      TextTotal(a, name);
      TextTotal(b, name);
      TextTotal(a, b);
      if TextLe(name, a) {
        TextTransitive(name, a, b);
      }
    }
  }

  /** Lookup by name finds a joint of that name whenever there is one; when names are distinct it is
      the one linear search finds. */
  method JointByName(s: Skeleton, joints: seq<Entity>, ghost parents: map<Entity, Entity>, names: map<Entity, string>,
                     ghost controllers: map<Entity, nat>, name: string)
    returns (r: Option<Entity>)
    requires IsSkeleton(s, joints, parents, names, controllers)
    ensures r.Some? ==> r.value in joints && r.value in names && names[r.value] == name
    ensures r.None? ==> forall j <- joints :: j in names ==> names[j] != name
    ensures (forall j <- joints, k <- joints :: j in names && k in names && names[j] == names[k] ==> j == k) ==>
              r == LinearByName(joints, names, name)
  {
    hide Sorted, Searchable, LinearByName, CompareText, Named, Sort;
    NamesIndexed(s, joints, parents, names, controllers, name);
    var at := BinarySearch(s.byName, (p: (string, Entity)) => CompareText(p.0, name));
    if at.None? {
      forall j <- joints | j in names
        ensures names[j] != name
      {
        assert (names[j], j) in s.byName;
        NameMissed(s.byName, name, (names[j], j));
      }
      return None;
    }
    assert s.byName[at.value] in s.byName;
    assert s.byName[at.value].0 == name by {
      NameHit(s.byName[at.value].0, name);
    }
    return Some(s.byName[at.value].1);
  }

  lemma NameHit(a: string, b: string)
    ensures CompareText(a, b) == Equal <==> a == b
  {
  }

  lemma NameMissed(byName: seq<(string, Entity)>, name: string, p: (string, Entity))
    requires forall i :: 0 <= i < |byName| ==> CompareText(byName[i].0, name) != Equal
    requires p in byName
    ensures p.0 != name
  {
  }

  /** The sorted name list is searchable and holds exactly the named joints. */
  lemma NamesIndexed(s: Skeleton, joints: seq<Entity>, parents: map<Entity, Entity>, names: map<Entity, string>,
                     controllers: map<Entity, nat>, name: string)
    requires IsSkeleton(s, joints, parents, names, controllers)
    ensures Searchable(s.byName, (p: (string, Entity)) => CompareText(p.0, name))
    ensures forall p :: p in s.byName <==> p.1 in joints && p.1 in names && p.0 == names[p.1]
  {
    hide Searchable, CompareText, Named, Sort, TotalOrder, Sorted;
    OrdersAreTotal();
    SortKeeps(NameLe, Named(joints, names));
    SortMembers(NameLe, Named(joints, names));
    NamedAre(joints, names);
    NameSearchable(s.byName, name);
  }

  lemma IdSearchable(byController: seq<(nat, Entity)>, id: nat)
    requires Sorted(ControllerLe, byController)
    ensures Searchable(byController, (p: (nat, Entity)) => CompareId(p.0, id))
  {
    forall i, j | 0 <= i < j < |byController|
      ensures Rank(CompareId(byController[i].0, id)) <= Rank(CompareId(byController[j].0, id))
    {
      assert ControllerLe(byController[i], byController[j]);
    }
  }

  /** Lookup by controller id is linear search over the joints. */
  method JointByControllerId(s: Skeleton, joints: seq<Entity>, ghost parents: map<Entity, Entity>,
                             ghost names: map<Entity, string>,
                             controllers: map<Entity, nat>, id: nat)
    returns (r: Option<Entity>)
    requires IsSkeleton(s, joints, parents, names, controllers)
    ensures r == LinearByController(joints, controllers, id)
  {
    hide LinearByController, TotalOrder;
    OrdersAreTotal();
    var listed := Controlled(joints, controllers);
    SortKeeps(ControllerLe, listed);
    SortMembers(ControllerLe, listed);
    hide Sort;
    var cmp := (p: (nat, Entity)) => CompareId(p.0, id);
    IdSearchable(s.byController, id);
    hide Sorted, Searchable;
    var at := BinarySearch(s.byController, cmp);
    if at.None? {
      forall j <- joints
        ensures controllers[j] != id
      {
        var k :| 0 <= k < |joints| && joints[k] == j;
        assert listed[k] == (controllers[j], j);
        assert (controllers[j], j) in s.byController;
      }
      return None;
    }
    var p := s.byController[at.value];
    assert p in s.byController && p in listed;
    OneJointPerId(joints, controllers, p.1, id);
    return Some(p.1);
  }

  lemma OneJointPerId(joints: seq<Entity>, controllers: map<Entity, nat>, j: Entity, id: nat)
    requires (forall j <- joints :: j in controllers) && DistinctControllers(joints, controllers)
    requires j in joints && controllers[j] == id
    ensures LinearByController(joints, controllers, id) == Some(j)
  {
    var found := LinearByController(joints, controllers, id);
    assert found.Some?;
    var a :| 0 <= a < |joints| && joints[a] == found.value;
    var b :| 0 <= b < |joints| && joints[b] == j;
    assert a == b;
  }
}
