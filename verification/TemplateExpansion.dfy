/** Expansion of components through their imports, guarded by the chain of enclosing components. */
module TemplateExpansion {
  import opened Common

  /** The components each template renders, in order. A name without an entry has no template yet. */
  type Imports = map<string, seq<string>>

  datatype Tree =
    | Circular(cycle: seq<string>)
    | NoTemplate(name: string)
    | Element(name: string, children: seq<Tree>)

  predicate Distinct(chain: seq<string>) {
    forall i, j :: 0 <= i < j < |chain| ==> chain[i] != chain[j]
  }

  function Members(chain: seq<string>): set<string> {
    set i | 0 <= i < |chain| :: chain[i]
  }

  function IndexOf(chain: seq<string>, name: string): (i: nat)
    requires name in chain
    ensures i < |chain| && chain[i] == name
  {
    if chain[0] == name then 0 else 1 + IndexOf(chain[1..], name)
  }

  /** What a component renders inside the given chain of ancestors. */
  function Expand(imports: Imports, name: string, chain: seq<string>): Tree
    decreases |imports.Keys - Members(chain)|, 1
  {
    if name in chain then Circular(chain[IndexOf(chain, name)..] + [name])
    else if name !in imports then NoTemplate(name)
    else
      EntersShrink(imports, name, chain);
      Element(name, ExpandAll(imports, imports[name], chain + [name]))
  }

  function ExpandAll(imports: Imports, names: seq<string>, chain: seq<string>): (trees: seq<Tree>)
    ensures |trees| == |names|
    decreases |imports.Keys - Members(chain)|, 2, |names|
  {
    if names == [] then [] else [Expand(imports, names[0], chain)] + ExpandAll(imports, names[1..], chain)
  }

  /** Entering a component leaves fewer names that can still be entered. */
  lemma EntersShrink(imports: Imports, name: string, chain: seq<string>)
    requires name in imports && name !in chain
    ensures |imports.Keys - Members(chain + [name])| < |imports.Keys - Members(chain)|
  {
    var longer := chain + [name];
    assert longer[|chain|] == name;
    assert forall i :: 0 <= i < |chain| ==> longer[i] == chain[i];
    assert imports.Keys - Members(longer) == (imports.Keys - Members(chain)) - {name};
  }

  // ----- depth -----

  function Depth(t: Tree): nat {
    match t
    case Element(_, children) => 1 + MaxDepth(children)
    case _ => 0
  }

  function MaxDepth(ts: seq<Tree>): nat {
    if ts == [] then 0
    else var d, rest := Depth(ts[0]), MaxDepth(ts[1..]); if d < rest then rest else d
  }

  /** Nesting never gets deeper than the number of registered names still outside the chain. */
  lemma {:induction false} DepthBounded(imports: Imports, name: string, chain: seq<string>)
    ensures Depth(Expand(imports, name, chain)) <= |imports.Keys - Members(chain)|
    decreases |imports.Keys - Members(chain)|, 1
  {
    if name !in chain && name in imports {
      EntersShrink(imports, name, chain);
      AllDepthBounded(imports, imports[name], chain + [name]);
    }
  }

  lemma {:induction false} AllDepthBounded(imports: Imports, names: seq<string>, chain: seq<string>)
    ensures MaxDepth(ExpandAll(imports, names, chain)) <= |imports.Keys - Members(chain)|
    decreases |imports.Keys - Members(chain)|, 2, |names|
  {
    if names != [] {
      DepthBounded(imports, names[0], chain);
      AllDepthBounded(imports, names[1..], chain);
    }
  }

  // ----- circular placeholders -----

  predicate HasCircular(t: Tree) {
    match t
    case Circular(_) => true
    case NoTemplate(_) => false
    case Element(_, children) => exists c <- children :: HasCircular(c)
  }

  /** Each name's template renders the next one. */
  predicate IsWalk(imports: Imports, walk: seq<string>) {
    && walk != []
    && forall i :: 0 <= i < |walk| - 1 ==> walk[i] in imports && walk[i + 1] in imports[walk[i]]
  }

  /** A walk whose last name occurred before. */
  predicate ComesBack(imports: Imports, walk: seq<string>) {
    IsWalk(imports, walk) && walk[|walk| - 1] in walk[..|walk| - 1]
  }

  lemma {:induction false} ExpandAllAt(imports: Imports, names: seq<string>, chain: seq<string>, k: nat)
    requires k < |names|
    ensures ExpandAll(imports, names, chain)[k] == Expand(imports, names[k], chain)
  {
    if k > 0 {
      ExpandAllAt(imports, names[1..], chain, k - 1);
    }
  }

  /** A circular placeholder below a component stands at the end of a walk that comes back. */
  lemma {:induction false} CircularHasWalk(imports: Imports, name: string, chain: seq<string>)
      returns (walk: seq<string>)
    requires IsWalk(imports, chain + [name]) && HasCircular(Expand(imports, name, chain))
    ensures ComesBack(imports, walk) && chain + [name] <= walk
    decreases |imports.Keys - Members(chain)|
  {
    walk := chain + [name];
    if name !in chain {
      EntersShrink(imports, name, chain);
      var children := ExpandAll(imports, imports[name], chain + [name]);
      var k :| 0 <= k < |children| && HasCircular(children[k]);
      ExpandAllAt(imports, imports[name], chain + [name], k);
      ExtendWalk(imports, chain + [name], imports[name][k]);
      walk := CircularHasWalk(imports, imports[name][k], chain + [name]);
    } else {
      assert walk[..|walk| - 1] == chain;
    }
  }

  lemma ExtendWalk(imports: Imports, walk: seq<string>, next: string)
    requires IsWalk(imports, walk) && walk[|walk| - 1] in imports && next in imports[walk[|walk| - 1]]
    ensures IsWalk(imports, walk + [next])
  {
  }

  /** A placeholder below a child is one below its parent. */
  lemma ChildCircular(imports: Imports, name: string, chain: seq<string>, j: nat)
    requires name !in chain && name in imports && j < |imports[name]|
    requires HasCircular(Expand(imports, imports[name][j], chain + [name]))
    ensures HasCircular(Expand(imports, name, chain))
  {
    EntersShrink(imports, name, chain);
    ExpandAllAt(imports, imports[name], chain + [name], j);
    var children := ExpandAll(imports, imports[name], chain + [name]);
    assert children[j] in children;
  }

  lemma RepeatCircular(imports: Imports, name: string, chain: seq<string>)
    requires name in chain
    ensures HasCircular(Expand(imports, name, chain))
  {
  }

  /** Following a walk that comes back through the expansion meets a circular placeholder. */
  lemma {:induction false} WalkMeetsCircular(imports: Imports, walk: seq<string>, k: nat)
    requires ComesBack(imports, walk) && k < |walk| && Distinct(walk[..k])
    ensures HasCircular(Expand(imports, walk[k], walk[..k]))
    decreases |walk| - k
  {
    hide HasCircular, Expand;
    var chain, name := walk[..k], walk[k];
    assert k == |walk| - 1 ==> walk[..|walk| - 1] == chain;
    if name in chain {
      RepeatCircular(imports, name, chain);
    } else {
      assert walk[..k + 1] == chain + [name];
      WalkMeetsCircular(imports, walk, k + 1);
      var j :| 0 <= j < |imports[name]| && imports[name][j] == walk[k + 1];
      ChildCircular(imports, name, chain, j);
    }
  }

  /** Main result: a component's expansion shows a circular placeholder if and only if some walk of
      imports from it comes back to a name it has passed. */
  lemma CircularExactly(imports: Imports, root: string)
    ensures HasCircular(Expand(imports, root, []))
       <==> exists walk :: ComesBack(imports, walk) && walk[0] == root
  {
    if HasCircular(Expand(imports, root, [])) {
      assert [] + [root] == [root];
      var walk := CircularHasWalk(imports, root, []);
      assert walk[0] == root;
    }
    if walk :| ComesBack(imports, walk) && walk[0] == root {
      assert walk[..0] == [];
      WalkMeetsCircular(imports, walk, 0);
    }
  }

  /** The names reported by a circular placeholder are a cycle of imports: they start and end with
      the same name, each renders the next, and no other name repeats. */
  lemma ReportedCycle(imports: Imports, name: string, chain: seq<string>)
    requires IsWalk(imports, chain + [name]) && Distinct(chain) && name in chain
    ensures var t := Expand(imports, name, chain);
            && t.Circular? && |t.cycle| >= 2
            && IsWalk(imports, t.cycle)
            && t.cycle[0] == t.cycle[|t.cycle| - 1] == name
            && Distinct(t.cycle[1..])
  {
    var i, full := IndexOf(chain, name), chain + [name];
    assert chain[i..] + [name] == full[i..];
    SuffixWalk(imports, full, i);
    CycleDistinct(chain, i);
  }

  lemma SuffixWalk(imports: Imports, walk: seq<string>, i: nat)
    requires IsWalk(imports, walk) && i < |walk|
    ensures IsWalk(imports, walk[i..])
  {
  }

  lemma CycleDistinct(chain: seq<string>, i: nat)
    requires Distinct(chain) && i < |chain|
    ensures Distinct((chain[i..] + [chain[i]])[1..])
  {
    var rest := chain[i + 1..] + [chain[i]];
    assert (chain[i..] + [chain[i]])[1..] == rest;
    forall a, b | 0 <= a < b < |rest|
      ensures rest[a] != rest[b]
    {
      assert rest[a] == chain[i + 1 + a];
      assert rest[b] == if b < |rest| - 1 then chain[i + 1 + b] else chain[i];
    }
  }

  ghost predicate HasCycle(t: Tree, cycle: seq<string>) {
    match t
    case Circular(c) => c == cycle
    case NoTemplate(_) => false
    case Element(_, children) => exists c <- children :: HasCycle(c, cycle)
  }

  /** Every placeholder shown anywhere in an expansion reports such a cycle. */
  lemma {:induction false} EveryReportIsACycle(imports: Imports, name: string, chain: seq<string>, cycle: seq<string>)
    requires IsWalk(imports, chain + [name]) && Distinct(chain) && HasCycle(Expand(imports, name, chain), cycle)
    ensures |cycle| >= 2 && IsWalk(imports, cycle) && cycle[0] == cycle[|cycle| - 1] && Distinct(cycle[1..])
    decreases |imports.Keys - Members(chain)|
  {
    if name in chain {
      ReportedCycle(imports, name, chain);
    } else {
      EntersShrink(imports, name, chain);
      var children := ExpandAll(imports, imports[name], chain + [name]);
      var k :| 0 <= k < |children| && HasCycle(children[k], cycle);
      ExpandAllAt(imports, imports[name], chain + [name], k);
      ExtendWalk(imports, chain + [name], imports[name][k]);
      EveryReportIsACycle(imports, imports[name][k], chain + [name], cycle);
    }
  }

  // ----- the whole tree, node by node -----

  /** The node reached by taking child `path[0]`, then child `path[1]` of that one, and so on. */
  function At(t: Tree, path: seq<nat>): Option<Tree>
    decreases |path|
  {
    if path == [] then Some(t)
    else if t.Element? && path[0] < |t.children| then At(t.children[path[0]], path[1..])
    else None
  }

  /** The names met when the import at each position of `path` is followed in turn. */
  ghost predicate Follows(imports: Imports, names: seq<string>, path: seq<nat>) {
    && |names| == |path| + 1
    && forall i :: 0 <= i < |path| ==>
         names[i] in imports && path[i] < |imports[names[i]]| && names[i + 1] == imports[names[i]][path[i]]
  }

  lemma {:induction false} FollowedNode(imports: Imports, names: seq<string>, path: seq<nat>, chain: seq<string>)
    requires Follows(imports, names, path) && Distinct(chain + names[..|path|])
    ensures At(Expand(imports, names[0], chain), path)
         == Some(Expand(imports, names[|path|], chain + names[..|path|]))
    decreases |path|
  {
    var name, all := names[0], chain + names[..|path|];
    if path == [] {
      assert chain + names[..0] == chain;
    } else {
      assert all[|chain|] == name && forall i :: 0 <= i < |chain| ==> all[i] == chain[i];
      assert name !in chain;
      hide Expand, At;
      assert names[1..][..|path| - 1] == names[1..|path|];
      assert names[..|path|] == [name] + names[1..|path|];
      assert chain + [name] + names[1..|path|] == all;
      hide Distinct;
      FollowedNode(imports, names[1..], path[1..], chain + [name]);
      ChildAt(imports, name, chain, path);
    }
  }

  lemma ChildAt(imports: Imports, name: string, chain: seq<string>, path: seq<nat>)
    requires name !in chain && name in imports && path != [] && path[0] < |imports[name]|
    ensures At(Expand(imports, name, chain), path)
         == At(Expand(imports, imports[name][path[0]], chain + [name]), path[1..])
  {
    EntersShrink(imports, name, chain);
    ExpandAllAt(imports, imports[name], chain + [name], path[0]);
  }

  /** Main result: the node at the end of a path of imports stands for the last name: a placeholder with
      the names from its earlier occurrence on when it was passed before, an element without content when
      it has no template, and otherwise its element with one child for each of its imports. */
  lemma ExpansionShows(imports: Imports, names: seq<string>, path: seq<nat>)
    requires Follows(imports, names, path) && Distinct(names[..|path|])
    ensures var last, passed := names[|path|], names[..|path|];
            var node := At(Expand(imports, names[0], []), path);
            && (forall i :: 0 <= i < |path| && passed[i] == last ==>
                 node == Some(Circular(passed[i..] + [last])))
            && (last !in passed && last !in imports ==> node == Some(NoTemplate(last)))
            && (last !in passed && last in imports ==>
                 node.Some? && node.value.Element? && node.value.name == last
                 && |node.value.children| == |imports[last]|)
  {
    hide Expand, At;
    var last, passed := names[|path|], names[..|path|];
    assert [] + passed == passed;
    FollowedNode(imports, names, path, []);
    NodeIs(imports, last, passed);
  }

  lemma NodeIs(imports: Imports, name: string, chain: seq<string>)
    requires Distinct(chain)
    ensures forall i :: 0 <= i < |chain| && chain[i] == name ==>
              Expand(imports, name, chain) == Circular(chain[i..] + [name])
    ensures name !in chain && name !in imports ==> Expand(imports, name, chain) == NoTemplate(name)
    ensures name !in chain && name in imports ==>
              var node := Expand(imports, name, chain);
              node.Element? && node.name == name && |node.children| == |imports[name]|
  {
    forall i | 0 <= i < |chain| && chain[i] == name
      ensures IndexOf(chain, name) == i
    {
    }
  }
}
