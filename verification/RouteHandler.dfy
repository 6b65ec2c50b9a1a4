/** The route tree of include/http/route_handler.hpp, refined against the flat table of Routing. */
module RouteTree {
  import opened Outcomes
  import opened Text
  import opened Routing
  import opened Requests

  // ---------------------------------------------------------------------------------------------
  // Trees as values: what is stored at the node that each path leads to
  // ---------------------------------------------------------------------------------------------

  type Tree = map<Path, Option<Handler>>

  /** The patterns that a tree has handlers for. */
  ghost function Dynamics(t: Tree): map<Path, Handler> {
    map p | p in t && t[p].Some? :: t[p].value
  }

  ghost predicate OnSomePattern(ps: set<Path>, p: Path) {
    p == [] || exists q :: q in ps && p <= q
  }

  /** `nodes` are exactly the prefixes of the patterns `ps`. */
  ghost predicate Shape(nodes: set<Path>, ps: set<Path>) {
    forall p {:trigger OnSomePattern(ps, p)} :: p in nodes <==> OnSomePattern(ps, p)
  }

  /** A node for every prefix of a pattern, no other node, and no clash. */
  ghost predicate WellFormed(t: Tree) {
    Shape(t.Keys, Dynamics(t).Keys) && Coherent(Dynamics(t).Keys)
  }

  lemma ShapeChild(nodes: set<Path>, ps: set<Path>, p: Path, key: string)
    requires Shape(nodes, ps)
    ensures Child(p, key) in nodes <==> Below(ps, Child(p, key)) != {}
    ensures Child(p, key) in nodes ==> p in nodes
  {
    assert Child(p, key) in nodes <==> OnSomePattern(ps, Child(p, key));
    assert p in nodes <==> OnSomePattern(ps, p);
    if Child(p, key) in nodes {
      var q :| q in ps && Child(p, key) <= q;
      assert q in Below(ps, Child(p, key));
      assert p <= q;
    }
    if Below(ps, Child(p, key)) != {} {
      var q :| q in Below(ps, Child(p, key));
    }
  }

  /** Two parameters below one node are the same parameter. */
  lemma OneParam(nodes: set<Path>, ps: set<Path>, p: Path, k1: string, k2: string)
    requires Shape(nodes, ps) && Coherent(ps)
    requires IsParam(k1) && IsParam(k2)
    requires Child(p, k1) in nodes && Child(p, k2) in nodes
    ensures k1 == k2
  {
    assert OnSomePattern(ps, Child(p, k1)) && OnSomePattern(ps, Child(p, k2));
    var q1 :| q1 in ps && Child(p, k1) <= q1;
    var q2 :| q2 in ps && Child(p, k2) <= q2;
    assert q1[..|p|] == p == q2[..|p|] && q1[|p|] == k1 && q2[|p|] == k2;
    assert !Clash(q1, q2);
    assert !ClashAt(q1, q2, |p|);
  }

  /** A pattern clashes on level i exactly when the node there has a different parameter child. */
  lemma ClashIsConflict(nodes: set<Path>, ps: set<Path>, p: Path, i: nat)
    requires Shape(nodes, ps) && i < |p|
    ensures (exists q :: q in ps && ClashAt(p, q, i))
       <==> IsParam(p[i]) && exists k :: IsParam(k) && k != p[i] && Child(p[..i], k) in nodes
  {
    if q :| q in ps && ClashAt(p, q, i) {
      assert Child(p[..i], q[i]) == q[..i + 1] <= q;
      assert OnSomePattern(ps, Child(p[..i], q[i]));
    }
    if k :| IsParam(p[i]) && IsParam(k) && k != p[i] && Child(p[..i], k) in nodes {
      assert OnSomePattern(ps, Child(p[..i], k));
      var q :| q in ps && Child(p[..i], k) <= q;
      assert q[..i] == p[..i] && q[i] == k;
      assert ClashAt(p, q, i);
    }
  }

  /** What the children of the node on level i say about clashes on level i. */
  lemma LevelChecked(t: Tree, p: Path, i: nat, keys: set<string>)
    requires WellFormed(t) && i < |p|
    requires forall k :: k in keys <==> Child(p[..i], k) in t
    ensures forall k1, k2 :: k1 in keys && k2 in keys && IsParam(k1) && IsParam(k2) ==> k1 == k2
    ensures (exists q :: q in Dynamics(t) && ClashAt(p, q, i))
       <==> IsParam(p[i]) && exists k :: k in keys && IsParam(k) && k != p[i]
  {
    ClashIsConflict(t.Keys, Dynamics(t).Keys, p, i);
    forall k1, k2 | k1 in keys && k2 in keys && IsParam(k1) && IsParam(k2)
      ensures k1 == k2
    {
      OneParam(t.Keys, Dynamics(t).Keys, p[..i], k1, k2);
    }
  }

  /** add_handler can only meet a conflict at a node that was there before the call. */
  lemma ConflictOnOldNode(t: Tree, p: Path, i: nat)
    requires WellFormed(t) && i < |p|
    requires exists q :: q in Dynamics(t) && ClashAt(p, q, i)
    ensures p[..i] in t && Blocked(Dynamics(t).Keys, p)
  {
    var q :| q in Dynamics(t) && ClashAt(p, q, i);
    assert Clash(p, q);
    assert OnSomePattern(Dynamics(t).Keys, p[..i]);
  }

  // ---------------------------------------------------------------------------------------------
  // Adding nodes
  // ---------------------------------------------------------------------------------------------

  /** The prefixes of p with at most i segments. */
  ghost function Prefixes(p: Path, i: nat): set<Path>
    requires i <= |p|
  {
    set j | 0 <= j <= i :: p[..j]
  }

  /** The tree with bare nodes added along the first i segments of p. */
  ghost function Extended(t: Tree, p: Path, i: nat): Tree
    requires i <= |p|
  {
    map q | q in t.Keys + Prefixes(p, i) :: if q in t then t[q] else None
  }

  /** The tree after a step to p, where a bare node is made when there is none. */
  ghost function Stepped(t: Tree, p: Path): Tree {
    if p in t then t else t[p := None]
  }

  ghost predicate Childless(t: Tree, p: Path) {
    forall k :: Child(p, k) !in t
  }

  lemma NoGrandchildren(t: Tree, p: Path)
    requires Childless(t, p)
    ensures forall k :: Child(p, k) !in t
  {
  }

  lemma ExtendedStep(t: Tree, p: Path, i: nat)
    requires WellFormed(t) && i < |p|
    ensures Child(p[..i], p[i]) == p[..i + 1]
    ensures Extended(t, p, i + 1) == Stepped(Extended(t, p, i), p[..i + 1])
    ensures forall k :: Child(p[..i], k) in Extended(t, p, i) <==> Child(p[..i], k) in t
    ensures p[..i + 1] in t ==> p[..i] in t
    ensures p[..i + 1] !in t ==> Childless(Extended(t, p, i), p[..i + 1])
  {
    assert Child(p[..i], p[i]) == p[..i + 1];
    assert Prefixes(p, i + 1) == Prefixes(p, i) + {p[..i + 1]};
    ShapeChild(t.Keys, Dynamics(t).Keys, p[..i], p[i]);
    var next := p[..i + 1];
    forall k
      ensures Child(next, k) in t ==> next in t
    {
      ShapeChild(t.Keys, Dynamics(t).Keys, next, k);
    }
  }

  lemma RootExtended(t: Tree, p: Path)
    requires WellFormed(t)
    ensures [] in t && Extended(t, p, 0) == t
  {
    assert OnSomePattern(Dynamics(t).Keys, []);
    assert Prefixes(p, 0) == {p[..0]};
  }

  lemma ShapeAfterInsert(nodes: set<Path>, ps: set<Path>, p: Path)
    requires Shape(nodes, ps)
    ensures Shape(nodes + Prefixes(p, |p|), ps + {p})
  {
    forall r
      ensures r in nodes + Prefixes(p, |p|) <==> OnSomePattern(ps + {p}, r)
    {
      assert r in nodes <==> OnSomePattern(ps, r);
      if r <= p {
        assert r == p[..|r|];
        assert p in ps + {p};
      } else if r in nodes && r != [] {
        var q :| q in ps && r <= q;
        assert q in ps + {p};
      }
    }
  }

  lemma CoherentAfterInsert(ps: set<Path>, p: Path)
    requires Coherent(ps) && !Blocked(ps, p)
    ensures Coherent(ps + {p})
  {
    forall q, r | q in ps + {p} && r in ps + {p}
      ensures !Clash(q, r)
    {
      if Clash(q, r) {
        var i :| ClashAt(q, r, i);
        assert ClashAt(r, q, i);
        assert Clash(r, q);
      }
    }
  }

  lemma StoredTree(t: Tree, u: Tree, p: Path, handler: Handler)
    requires WellFormed(t) && !Blocked(Dynamics(t).Keys, p)
    requires u == Extended(t, p, |p|)[p := Some(handler)]
    ensures WellFormed(u) && Dynamics(u) == Dynamics(t)[p := handler]
  {
    assert p[..|p|] == p;
    assert Dynamics(u) == Dynamics(t)[p := handler];
    assert Dynamics(u).Keys == Dynamics(t).Keys + {p};
    assert u.Keys == t.Keys + Prefixes(p, |p|);
    ShapeAfterInsert(t.Keys, Dynamics(t).Keys, p);
    CoherentAfterInsert(Dynamics(t).Keys, p);
  }

  /** No pattern clashes with p on the first i levels. */
  ghost predicate ClearBefore(ps: set<Path>, p: Path, i: nat) {
    forall j, q :: 0 <= j < i && q in ps ==> !ClashAt(p, q, j)
  }

  lemma ClearAtStart(ps: set<Path>, p: Path)
    ensures ClearBefore(ps, p, 0)
  {
  }

  lemma ClearStep(ps: set<Path>, p: Path, i: nat)
    requires ClearBefore(ps, p, i) && !exists q :: q in ps && ClashAt(p, q, i)
    ensures ClearBefore(ps, p, i + 1)
  {
  }

  lemma ClearIsUnblocked(ps: set<Path>, p: Path)
    requires ClearBefore(ps, p, |p|)
    ensures !Blocked(ps, p)
  {
  }

  // ---------------------------------------------------------------------------------------------
  // Lookup, one level at a time
  // ---------------------------------------------------------------------------------------------

  /** What is left to do for route when it has arrived at p. */
  ghost function Remaining(t: Tree, p: Path, segments: Path, bound: Bindings): Lookup
    requires |p| <= |segments|
  {
    Follow(Below(Dynamics(t).Keys, p), segments, |p|, bound)
  }

  lemma WalkStarts(t: Tree, segments: Path, bound: Bindings)
    requires WellFormed(t)
    ensures [] in t && Remaining(t, [], segments, bound) == Follow(Dynamics(t).Keys, segments, 0, bound)
  {
    assert OnSomePattern(Dynamics(t).Keys, []);
    assert Below(Dynamics(t).Keys, []) == Dynamics(t).Keys;
  }

  lemma WalkLiteral(t: Tree, p: Path, segments: Path, bound: Bindings)
    requires WellFormed(t) && |p| < |segments| && Child(p, segments[|p|]) in t
    ensures |Child(p, segments[|p|])| == |p| + 1
    ensures Remaining(t, p, segments, bound) == Remaining(t, Child(p, segments[|p|]), segments, bound)
  {
    BelowSegment(Dynamics(t).Keys, p, segments[|p|]);
    ShapeChild(t.Keys, Dynamics(t).Keys, p, segments[|p|]);
  }

  lemma WalkParam(t: Tree, p: Path, segments: Path, key: string, bound: Bindings)
    requires WellFormed(t) && |p| < |segments| && Child(p, segments[|p|]) !in t
    requires IsParam(key) && Child(p, key) in t
    ensures |Child(p, key)| == |p| + 1
    ensures Remaining(t, p, segments, bound)
         == Remaining(t, Child(p, key), segments, Emplace(bound, ParamName(key), segments[|p|]))
  {
    BelowSegment(Dynamics(t).Keys, p, segments[|p|]);
    ShapeChild(t.Keys, Dynamics(t).Keys, p, segments[|p|]);
    ShapeChild(t.Keys, Dynamics(t).Keys, p, key);
    ParamAtBelow(Dynamics(t).Keys, p, key);
  }

  lemma WalkStops(t: Tree, p: Path, segments: Path, bound: Bindings)
    requires WellFormed(t) && |p| < |segments| && Child(p, segments[|p|]) !in t
    requires forall k :: Child(p, k) in t ==> !IsParam(k)
    ensures Remaining(t, p, segments, bound) == Lookup(None, bound)
  {
    var ps := Dynamics(t).Keys;
    BelowSegment(ps, p, segments[|p|]);
    ShapeChild(t.Keys, ps, p, segments[|p|]);
    forall q | q in Below(ps, p) && |p| < |q|
      ensures !IsParam(q[|p|])
    {
      BelowSegment(ps, p, q[|p|]);
      assert q in WithSegment(Below(ps, p), |p|, q[|p|]);
      ShapeChild(t.Keys, ps, p, q[|p|]);
    }
  }

  lemma WalkEnds(t: Tree, p: Path, segments: Path, bound: Bindings)
    requires p in t && |p| == |segments|
    ensures Remaining(t, p, segments, bound) == Lookup(if t[p].Some? then Some(p) else None, bound)
    ensures t[p].Some? ==> p in Dynamics(t) && Dynamics(t)[p] == t[p].value
  {
    forall q
      ensures q in Below(Dynamics(t).Keys, p) && |q| == |p| <==> q == p && t[p].Some?
    {
      if q in Below(Dynamics(t).Keys, p) && |q| == |p| {
        assert q == p;
      }
    }
  }

  // ---------------------------------------------------------------------------------------------
  // The tree in the heap
  // ---------------------------------------------------------------------------------------------

  class ResourceHandler {
    var resource: Option<Handler>
    var nodes: map<string, ResourceHandler>
    ghost const path: Path // the path from the root that leads here

    constructor (ghost path: Path)
      ensures resource == None && nodes == map[] && this.path == path
    {
      resource := None;
      nodes := map[];
      this.path := path;
    }
  }

  lemma ChildInjective(p: Path, key: string)
    ensures forall q, k {:trigger Child(q, k)} :: Child(q, k) == Child(p, key) ==> q == p && k == key
    ensures Child(p, key) != p && Child(p, key) != []
  {
    forall q, k | Child(q, k) == Child(p, key)
      ensures q == p && k == key
    {
      assert Child(q, k)[..|q|] == q && Child(q, k)[|q|] == k;
      assert Child(p, key)[..|p|] == p && Child(p, key)[|p|] == key;
    }
  }

  /** What the nodes of a tree have for children: the nodes one segment further down. */
  ghost predicate Links(at: map<Path, ResourceHandler>, nodes: map<Path, map<string, ResourceHandler>>) {
    && nodes.Keys == at.Keys
    && (forall p, k {:trigger k in nodes[p]} {:trigger Child(p, k) in at} ::
          p in at ==> (k in nodes[p] <==> Child(p, k) in at))
    && (forall p, k {:trigger nodes[p][k]} :: p in at && k in nodes[p] ==> nodes[p][k] == at[Child(p, k)])
  }

  /** One more child without children of its own. */
  lemma LinksAfterAttach(at: map<Path, ResourceHandler>, nodes: map<Path, map<string, ResourceHandler>>,
                         p: Path, key: string, child: ResourceHandler)
    requires Links(at, nodes) && p in at
    requires Child(p, key) !in at && forall k :: Child(Child(p, key), k) !in at
    ensures Links(at[Child(p, key) := child], nodes[p := nodes[p][key := child]][Child(p, key) := map[]])
  {
    hide Child;
    ChildInjective(p, key);
  }

  class RouteHandler {
    const dynamicHandlers: ResourceHandler
    var staticHandlers: map<string, Handler>
    ghost var at: map<Path, ResourceHandler> // the node that each path leads to
    ghost var tree: Tree                     // what those nodes store
    ghost var Repr: set<ResourceHandler>     // the nodes

    /** Every node is where its path says and stores what the tree says, so none is in it twice. */
    ghost predicate Placed()
      reads `at, `tree, `Repr, Repr
    {
      && [] in at && at[[]] == dynamicHandlers
      && tree.Keys == at.Keys
      && (forall p :: p in at ==> at[p] in Repr && at[p].path == p && at[p].resource == tree[p])
    }

    /** The child lists of the nodes. */
    ghost function Nodes(): map<Path, map<string, ResourceHandler>>
      requires Placed()
      reads `at, `tree, `Repr, Repr
    {
      map p | p in at :: at[p].nodes
    }

    /** `at` is the tree below dynamicHandlers. */
    ghost predicate Linked()
      reads `at, `tree, `Repr, Repr
    {
      Placed() && Links(at, Nodes())
    }

    ghost predicate Valid()
      reads `at, `tree, `Repr, Repr
    {
      Linked() && WellFormed(tree)
    }

    ghost function Contents(): Table
      reads `staticHandlers, `tree
    {
      Table(staticHandlers, Dynamics(tree))
    }

    /** Every node is where it was and holds what it held. */
    twostate predicate Untouched()
      reads `at, `tree, `Repr, Repr
    {
      at == old(at) && tree == old(tree) && Repr == old(Repr) && forall n :: n in Repr ==> unchanged(n)
    }

    constructor ()
      ensures Valid() && Contents() == EMPTY
      ensures fresh(Repr)
    {
      dynamicHandlers := new ResourceHandler([]);
      staticHandlers := map[];
      new;
      at, tree, Repr := map[[] := dynamicHandlers], map[[] := None], {dynamicHandlers};
      assert Dynamics(tree) == map[];
    }

    /**
      Registers a handler, or throws std::invalid_argument. The new contents are those of the flat
      table, and a call that throws has changed no node, no child list and no resource.
     */
    method AddHandler(path: string, handler: Handler) returns (r: Result<()>)
      requires Valid()
      modifies this, Repr
      ensures Valid() && fresh(Repr - old(Repr))
      ensures r.Ok? ==> Register(old(Contents()), path, handler) == Ok(Contents())
      ensures r.Err? ==> Register(old(Contents()), path, handler) == Err(r.error) && r.error == ParameterConflict
      ensures r.Err? ==> staticHandlers == old(staticHandlers) && Untouched()
    {
      hide WellFormed, Dynamics, Blocked, Links, Split, Canonical;
      if '{' !in path {
        AddStatic(path, handler);
        r := Ok(());
      } else {
        var parts := SplitString(path, '/');
        r := AddDynamic(parts, handler);
      }
    }

    method AddStatic(path: string, handler: Handler)
      modifies `staticHandlers
      ensures staticHandlers == old(staticHandlers)[Canonical(path) := handler]
    {
      var key := FormatPath(path);
      staticHandlers := staticHandlers[key := handler];
    }

    method AddDynamic(parts: seq<string>, handler: Handler) returns (r: Result<()>)
      requires Valid()
      modifies `at, `tree, `Repr, Repr
      ensures Valid() && fresh(Repr - old(Repr))
      ensures r == if Blocked(Dynamics(old(tree)).Keys, parts) then Err(ParameterConflict) else Ok(())
      ensures r.Ok? ==> Dynamics(tree) == Dynamics(old(tree))[parts := handler]
      ensures r.Err? ==> Untouched()
    {
      hide WellFormed, Dynamics, Blocked, Extended, Links;
      var node := Extend(parts);
      if node == None {
        return Err(ParameterConflict);
      }
      Store(node.value, parts, handler);
      StoredTree(old(tree), tree, parts, handler);
      r := Ok(());
    }

    /** node->resource = handler. */
    method Store(node: ResourceHandler, ghost p: Path, handler: Handler)
      requires Linked() && p in at && at[p] == node
      modifies `tree, node`resource
      ensures Linked() && tree == old(tree)[p := Some(handler)]
    {
      hide Child, Links;
      node.resource, tree := Some(handler), tree[p := Some(handler)];
      assert Nodes() == old(Nodes());
    }

    /** The loop of add_handler: the node for `parts`, or None where the source throws. */
    method Extend(parts: seq<string>) returns (r: Option<ResourceHandler>)
      requires Valid()
      modifies `at, `tree, `Repr, Repr
      ensures Linked() && fresh(Repr - old(Repr))
      ensures r == None <==> Blocked(Dynamics(old(tree)).Keys, parts)
      ensures r == None ==> Untouched()
      ensures r.Some? ==> tree == Extended(old(tree), parts, |parts|) && parts in at && at[parts] == r.value
    {
      hide WellFormed, Dynamics, Blocked, Extended, ClearBefore, Child, Links;
      ghost var before := tree;
      var node := dynamicHandlers;
      var i := 0;
      RootExtended(before, parts);
      assert parts[..0] == [];
      ClearAtStart(Dynamics(before).Keys, parts);
      while i < |parts|
        invariant 0 <= i <= |parts|
        invariant Linked() && fresh(Repr - old(Repr))
        invariant parts[..i] in at && at[parts[..i]] == node
        invariant tree == Extended(before, parts, i)
        invariant parts[..i] in before ==> Untouched()
        invariant ClearBefore(Dynamics(before).Keys, parts, i)
      {
        var next := Level(before, node, parts, i);
        if next == None {
          return None;
        }
        ClearStep(Dynamics(before).Keys, parts, i);
        node := next.value;
        i := i + 1;
      }
      assert parts[..i] == parts;
      ClearIsUnblocked(Dynamics(before).Keys, parts);
      r := Some(node);
    }

    /** One round of that loop: level i of the walk along `parts` into a tree that was `before`. */
    method Level(ghost before: Tree, node: ResourceHandler, parts: seq<string>, i: nat)
      returns (next: Option<ResourceHandler>)
      requires Linked() && WellFormed(before) && i < |parts|
      requires parts[..i] in at && at[parts[..i]] == node
      requires tree == Extended(before, parts, i)
      modifies `at, `tree, `Repr, node`nodes
      ensures Linked() && fresh(Repr - old(Repr))
      ensures next == None <==> exists q :: q in Dynamics(before) && ClashAt(parts, q, i)
      ensures next == None ==> Blocked(Dynamics(before).Keys, parts)
      ensures next == None ==> parts[..i] in before && at == old(at) && tree == old(tree)
      ensures next == None ==> Repr == old(Repr) && unchanged(node)
      ensures next.Some? ==> tree == Extended(before, parts, i + 1)
      ensures next.Some? ==> parts[..i + 1] in at && at[parts[..i + 1]] == next.value
      ensures next.Some? && parts[..i + 1] in before ==> parts[..i] in before && at == old(at) && tree == old(tree)
      ensures next.Some? && parts[..i + 1] in before ==> Repr == old(Repr) && unchanged(node)
    {
      hide WellFormed, Dynamics, Blocked, Child, ClashAt, Extended;
      ExtendedStep(before, parts, i);
      LevelChecked(before, parts, i, node.nodes.Keys);
      var conflict := OtherParam(node, parts[i]);
      if conflict {
        ConflictOnOldNode(before, parts, i);
        return None;
      }
      var child := Descend(node, parts[..i], parts[i]);
      next := Some(child);
    }

    /** The check that add_handler makes on each level before it descends. */
    method OtherParam(node: ResourceHandler, key: string) returns (conflict: bool)
      requires forall k1, k2 :: k1 in node.nodes && k2 in node.nodes && IsParam(k1) && IsParam(k2) ==> k1 == k2
      ensures conflict <==> IsParam(key) && exists k :: k in node.nodes && IsParam(k) && k != key
    {
      conflict := false;
      if IsParam(key) {
        var params := set k | k in node.nodes && IsParam(k);
        assert forall k :: k in node.nodes && IsParam(k) ==> k in params;
        if params != {} {
          var found :| found in params; // std::find_if over an unordered_map: any order
          assert found in node.nodes && IsParam(found);
          conflict := found != key;
        }
      }
    }

    /** node->nodes[key]: the child, made on the spot when there is none. */
    method Descend(node: ResourceHandler, ghost p: Path, key: string) returns (child: ResourceHandler)
      requires Linked() && p in at && at[p] == node
      requires Child(p, key) !in at ==> Childless(tree, Child(p, key))
      modifies `at, `tree, `Repr, node`nodes
      ensures Linked() && fresh(Repr - old(Repr))
      ensures Child(p, key) in old(at) ==> at == old(at) && Repr == old(Repr) && unchanged(node)
      ensures tree == Stepped(old(tree), Child(p, key))
      ensures Child(p, key) in at && at[Child(p, key)] == child
    {
      hide Child;
      if key !in node.nodes {
        child := AddChild(node, p, key);
      } else {
        child := node.nodes[key];
      }
    }

    method AddChild(node: ResourceHandler, ghost p: Path, key: string) returns (child: ResourceHandler)
      requires Linked() && p in at && at[p] == node && Child(p, key) !in at
      requires Childless(tree, Child(p, key))
      modifies `at, `tree, `Repr, node`nodes
      ensures Linked() && fresh(child) && Repr == old(Repr) + {child}
      ensures at == old(at)[Child(p, key) := child] && tree == old(tree)[Child(p, key) := None]
    {
      hide Child, Childless;
      child := new ResourceHandler(Child(p, key));
      Attach(node, p, key, child);
    }

    method Attach(node: ResourceHandler, ghost p: Path, key: string, child: ResourceHandler)
      requires Linked() && p in at && at[p] == node && Child(p, key) !in at
      requires Childless(tree, Child(p, key))
      requires child !in Repr && child.path == Child(p, key) && child.nodes == map[] && child.resource == None
      modifies `at, `tree, `Repr, node`nodes
      ensures Linked() && Repr == old(Repr) + {child}
      ensures at == old(at)[Child(p, key) := child] && tree == old(tree)[Child(p, key) := None]
    {
      hide Child, Childless, Links, Placed;
      ghost var nodes := Nodes();
      ghost var after := nodes[p := nodes[p][key := child]][Child(p, key) := map[]];
      NoGrandchildren(tree, Child(p, key));
      PlacedFacts(p);
      LinksAfterAttach(at, nodes, p, key, child);
      assert node != child;
      Place(node, p, key, child);
      assert forall q :: q in at && q != p && q != Child(p, key) ==> at[q].nodes == nodes[q];
      NodesAre(after);
    }

    lemma PlacedFacts(p: Path)
      requires Placed() && p in at
      ensures tree.Keys == at.Keys && at[p] in Repr
      ensures forall q :: q in at && q != p ==> at[q] in Repr && at[q] != at[p]
    {
    }

    lemma NodesAre(nodes: map<Path, map<string, ResourceHandler>>)
      requires Placed()
      requires nodes.Keys == at.Keys && forall q :: q in at ==> at[q].nodes == nodes[q]
      ensures Nodes() == nodes
    {
    }

    /** The assignments themselves. */
    method Place(node: ResourceHandler, ghost p: Path, key: string, child: ResourceHandler)
      requires Placed() && p in at && at[p] == node && Child(p, key) !in at
      requires child !in Repr && child.path == Child(p, key) && child.resource == None
      modifies `at, `tree, `Repr, node`nodes
      ensures Placed() && Repr == old(Repr) + {child} && node.nodes == old(node.nodes)[key := child]
      ensures at == old(at)[Child(p, key) := child] && tree == old(tree)[Child(p, key) := None]
    {
      hide Child;
      ChildInjective(p, key);
      node.nodes := node.nodes[key := child];
      at, tree, Repr := at[Child(p, key) := child], tree[Child(p, key) := None], Repr + {child};
    }

    /**
      Answers as the flat table does, whichever parameter child std::find_if meets first, and leaves
      the tree alone. A failed lookup may still have stored parameters in the request.
     */
    method Route(request: Request) returns (handler: Option<Handler>)
      requires Valid()
      modifies request`pathParams
      ensures Valid() && Untouched() && Contents() == old(Contents())
      ensures (handler, request.pathParams) == Routing.Route(Contents(), request.path, old(request.pathParams))
      ensures request.path in staticHandlers ==>
                handler == Some(staticHandlers[request.path]) && request.pathParams == old(request.pathParams)
    {
      hide WellFormed, Dynamics, Child, Follow;
      if request.path in staticHandlers {
        return Some(staticHandlers[request.path]);
      }
      var parts := SplitString(request.path, '/');
      var bound;
      handler, bound := Search(parts, request.pathParams);
      request.pathParams := bound;
    }

    /** The loop of route; `bound` is what it emplaces into the path parameters on the way. */
    method Search(parts: seq<string>, initial: Bindings) returns (handler: Option<Handler>, bound: Bindings)
      requires Valid()
      ensures var found := Follow(Dynamics(tree).Keys, parts, 0, initial);
              && bound == found.bound
              && handler == if found.pattern.Some? then Some(Dynamics(tree)[found.pattern.value]) else None
    {
      hide WellFormed, Dynamics, Child, Follow, Remaining, Emplace;
      bound := initial;
      var node := dynamicHandlers;
      var i := 0;
      ghost var p: Path := [];
      WalkStarts(tree, parts, initial);
      while i < |parts|
        invariant 0 <= i <= |parts| && |p| == i
        invariant p in at && at[p] == node
        invariant Follow(Dynamics(tree).Keys, parts, 0, initial) == Remaining(tree, p, parts, bound)
      {
        var key := parts[i];
        if key in node.nodes {
          WalkLiteral(tree, p, parts, bound);
          node := node.nodes[key];
          p := Child(p, key);
        } else {
          var params := set k | k in node.nodes && IsParam(k);
          assert forall k :: k in node.nodes && IsParam(k) ==> k in params;
          if params == {} {
            WalkStops(tree, p, parts, bound);
            return None, bound;
          }
          var found :| found in params; // std::find_if over an unordered_map: any order
          WalkParam(tree, p, parts, found, bound);
          bound := Emplace(bound, ParamName(found), key);
          node := node.nodes[found];
          p := Child(p, found);
        }
        i := i + 1;
      }
      WalkEnds(tree, p, parts, bound);
      handler := node.resource;
    }
  }
}
