/** Parent links of an entity forest, and removal of subtrees. */
module Hierarchy {
  type Entity = nat

  /** Parents rank strictly below their children: the hierarchy has no cycle. */
  ghost predicate Ranked(parents: map<Entity, Entity>, rank: Entity -> nat) {
    forall e <- parents :: rank(parents[e]) < rank(e)
  }

  /** Some strict ancestor of `e` is in `s`. */
  ghost predicate Under(parents: map<Entity, Entity>, rank: Entity -> nat, e: Entity, s: set<Entity>)
    requires Ranked(parents, rank)
    decreases rank(e)
  {
    e in parents && (parents[e] in s || Under(parents, rank, parents[e], s))
  }

  ghost predicate AtOrUnder(parents: map<Entity, Entity>, rank: Entity -> nat, e: Entity, s: set<Entity>)
    requires Ranked(parents, rank)
  {
    e in s || Under(parents, rank, e, s)
  }

  /** Climbs from `entity` until it meets a member of the set or runs out of parents. */
  method AncestorInSet(entity: Entity, s: set<Entity>, parents: map<Entity, Entity>, ghost rank: Entity -> nat)
    returns (found: bool)
    requires Ranked(parents, rank)
    ensures found <==> Under(parents, rank, entity, s)
  {
    var current := entity;
    while current in parents
      invariant Under(parents, rank, entity, s) <==> Under(parents, rank, current, s)
      decreases rank(current)
    {
      current := parents[current];
      if current in s {
        return true;
      }
    }
    return false;
  }

  lemma {:induction false} UnderMonotone(parents: map<Entity, Entity>, rank: Entity -> nat, e: Entity, s: set<Entity>,
                                         t: set<Entity>)
    requires Ranked(parents, rank) && s <= t && Under(parents, rank, e, s)
    ensures Under(parents, rank, e, t)
    decreases rank(e)
  {
    if parents[e] !in t {
      UnderMonotone(parents, rank, parents[e], s, t);
    }
  }

  lemma {:induction false} UnderUnion(parents: map<Entity, Entity>, rank: Entity -> nat, e: Entity, s: set<Entity>,
                                      t: set<Entity>)
    requires Ranked(parents, rank)
    ensures Under(parents, rank, e, s + t) <==> Under(parents, rank, e, s) || Under(parents, rank, e, t)
    decreases rank(e)
  {
    if e in parents {
      UnderUnion(parents, rank, parents[e], s, t);
    }
  }

  lemma {:induction false} UnderTransitive(parents: map<Entity, Entity>, rank: Entity -> nat, e: Entity, m: Entity,
                                           s: set<Entity>)
    requires Ranked(parents, rank) && Under(parents, rank, e, {m}) && AtOrUnder(parents, rank, m, s)
    ensures Under(parents, rank, e, s)
    decreases rank(e)
  {
    if parents[e] != m {
      UnderTransitive(parents, rank, parents[e], m, s);
    }
  }

  lemma {:induction false} UnderRank(parents: map<Entity, Entity>, rank: Entity -> nat, e: Entity, m: Entity)
    requires Ranked(parents, rank) && Under(parents, rank, e, {m})
    ensures rank(m) < rank(e)
    decreases rank(e)
  {
    if parents[e] != m {
      UnderRank(parents, rank, parents[e], m);
    }
  }

  /** The subtree of `e` among the living. */
  ghost function Subtree(alive: set<Entity>, parents: map<Entity, Entity>, rank: Entity -> nat, e: Entity): set<Entity>
    requires Ranked(parents, rank)
  {
    set d | d in alive && AtOrUnder(parents, rank, d, {e})
  }

  /** What is left of the living once everything at or under `roots` is gone. */
  ghost function Without(alive: set<Entity>, parents: map<Entity, Entity>, rank: Entity -> nat, roots: set<Entity>)
      : set<Entity>
    requires Ranked(parents, rank)
  {
    set d | d in alive && !AtOrUnder(parents, rank, d, roots)
  }

  function Restrict<T>(m: map<Entity, T>, keep: set<Entity>): map<Entity, T> {
    map e | e in m && e in keep :: m[e]
  }

  /** Among survivors, ancestry is as it was. */
  lemma {:induction false} SurvivorAncestry(parents: map<Entity, Entity>, rank: Entity -> nat, keep: set<Entity>,
                                            e: Entity, s: set<Entity>)
    requires Ranked(parents, rank) && e in keep
    requires forall d :: d in parents && d in keep ==> parents[d] in keep
    ensures Ranked(Restrict(parents, keep), rank)
    ensures Under(Restrict(parents, keep), rank, e, s) <==> Under(parents, rank, e, s)
    decreases rank(e)
  {
    if e in parents {
      SurvivorAncestry(parents, rank, keep, parents[e], s);
    }
  }

  /** Removing one more subtree from what is left: the result is what is left without both. */
  lemma RemoveSubtree(alive: set<Entity>, parents: map<Entity, Entity>, rank: Entity -> nat, gone: set<Entity>,
                      e: Entity)
    requires Ranked(parents, rank)
    requires forall d <- parents :: d in alive && parents[d] in alive
    ensures var keep := Without(alive, parents, rank, gone);
            && Ranked(Restrict(parents, keep), rank)
            && keep - Subtree(keep, Restrict(parents, keep), rank, e) == Without(alive, parents, rank, gone + {e})
  {
    var keep := Without(alive, parents, rank, gone);
    var left := keep - Subtree(keep, Restrict(parents, keep), rank, e);
    forall d | d in keep
      ensures d in left <==> d in Without(alive, parents, rank, gone + {e})
    {
      SurvivorAncestry(parents, rank, keep, d, {e});
      UnderUnion(parents, rank, d, gone, {e});
    }
    forall d | d in Without(alive, parents, rank, gone + {e})
      ensures d in keep
    {
      UnderUnion(parents, rank, d, gone, {e});
    }
  }
}
