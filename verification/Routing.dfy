/**
  What include/http/route_handler.hpp decides, stated over the flat set of patterns that were
  accepted, with no tree in sight. RouteHandler.dfy proves that the tree computes exactly this.
 */
module Routing {
  import opened Outcomes
  import opened Text

  type Handler = nat // stands for a handler creator
  type Path = seq<string>
  type Bindings = map<string, string>

  /** The accepted registrations: canonical text of static paths, segment lists of dynamic patterns. */
  datatype Table = Table(statics: map<string, Handler>, dynamics: map<Path, Handler>)

  const EMPTY := Table(map[], map[])

  predicate IsParam(segment: string) {
    segment != "" && segment[0] == '{'
  }

  /** substr(1, size - 2); on the one-character key "{" the unsigned length wraps and the name is empty. */
  function ParamName(key: string): string
    requires IsParam(key)
  {
    if |key| == 1 then "" else key[1..|key| - 1]
  }

  /** The segments of a path whose parameters are replaced by their values; an unknown one is empty. */
  function Substitute(p: Path, params: Bindings): (r: Path)
    ensures |r| == |p|
  {
    seq(|p|, i requires 0 <= i < |p| =>
      if !IsParam(p[i]) then p[i]
      else if ParamName(p[i]) in params then params[ParamName(p[i])] else "")
  }

  /** `p` and `q` share the first i segments and then have different parameters. */
  predicate ClashAt(p: Path, q: Path, i: nat) {
    i < |p| && i < |q| && p[..i] == q[..i] && p[i] != q[i] && IsParam(p[i]) && IsParam(q[i])
  }

  ghost predicate Clash(p: Path, q: Path) {
    exists i :: ClashAt(p, q, i)
  }

  ghost predicate Blocked(ps: set<Path>, p: Path) {
    exists q :: q in ps && Clash(p, q)
  }

  /** No two accepted patterns clash. */
  ghost predicate Coherent(ps: set<Path>) {
    forall p, q {:trigger Clash(p, q)} :: p in ps && q in ps ==> !Clash(p, q)
  }

  /** add_handler over the flat table. */
  ghost function Register(t: Table, path: string, handler: Handler): Result<Table> {
    if '{' !in path then Ok(t.(statics := t.statics[Canonical(path) := handler]))
    else if Blocked(t.dynamics.Keys, Split(path, '/')) then Err(ParameterConflict)
    else Ok(t.(dynamics := t.dynamics[Split(path, '/') := handler]))
  }

  /** std::unordered_map::emplace: the first value stored under a name stays. */
  function Emplace(bound: Bindings, name: string, value: string): Bindings {
    if name in bound then bound else bound[name := value]
  }

  ghost function WithSegment(ps: set<Path>, i: nat, segment: string): set<Path> {
    set p | p in ps && i < |p| && p[i] == segment
  }

  ghost function WithParam(ps: set<Path>, i: nat): set<Path> {
    set p | p in ps && i < |p| && IsParam(p[i])
  }

  /** The parameter at level i; in a coherent set with a common prefix there is only one. */
  ghost function ParamAt(ps: set<Path>, i: nat): (key: string)
    requires WithParam(ps, i) != {}
    ensures IsParam(key)
  {
    var p :| p in WithParam(ps, i); p[i]
  }

  datatype Lookup = Lookup(pattern: Option<Path>, bound: Bindings)

  /** Narrow the patterns segment by segment: those with the equal segment, else those with a parameter. */
  ghost function Follow(ps: set<Path>, segments: Path, i: nat, bound: Bindings): (r: Lookup)
    requires i <= |segments|
    ensures r.pattern.Some? ==> r.pattern.value in ps && |r.pattern.value| == |segments|
    decreases |segments| - i
  {
    if i == |segments| then
      Lookup(if exists p :: p in ps && |p| == i then var p :| p in ps && |p| == i; Some(p) else None, bound)
    else if WithSegment(ps, i, segments[i]) != {} then
      Follow(WithSegment(ps, i, segments[i]), segments, i + 1, bound)
    else if WithParam(ps, i) != {} then
      Follow(WithParam(ps, i), segments, i + 1, Emplace(bound, ParamName(ParamAt(ps, i)), segments[i]))
    else
      Lookup(None, bound)
  }

  /** route over the flat table: the handler, and the path parameters the request is left with. */
  ghost function Route(t: Table, path: string, bound: Bindings): (r: (Option<Handler>, Bindings)) {
    if path in t.statics then (Some(t.statics[path]), bound)
    else
      var found := Follow(t.dynamics.Keys, Split(path, '/'), 0, bound);
      (if found.pattern.Some? then Some(t.dynamics[found.pattern.value]) else None, found.bound)
  }

  // ---------------------------------------------------------------------------------------------
  // The same lookup, characterised position by position
  // ---------------------------------------------------------------------------------------------

  ghost predicate Sibling(ps: set<Path>, p: Path, i: nat, segment: string)
    requires i <= |p|
  {
    exists q :: q in ps && i < |q| && q[..i] == p[..i] && q[i] == segment
  }

  /** At position i pattern p has the segment itself, or a parameter that no literal sibling shadows. */
  ghost predicate Fits(ps: set<Path>, p: Path, i: nat, segment: string)
    requires i < |p|
  {
    p[i] == segment || (IsParam(p[i]) && !Sibling(ps, p, i, segment))
  }

  ghost predicate Selected(ps: set<Path>, segments: Path, p: Path) {
    p in ps && |p| == |segments| && forall i :: 0 <= i < |p| ==> Fits(ps, p, i, segments[i])
  }

  /** The parameters that matching `segments` against p from position i on stores. */
  function BindFrom(p: Path, segments: Path, i: nat, bound: Bindings): Bindings
    requires i <= |p| == |segments|
    requires forall k :: 0 <= k < |p| ==> p[k] == segments[k] || IsParam(p[k])
    decreases |p| - i
  {
    if i == |p| then bound
    else if p[i] == segments[i] then BindFrom(p, segments, i + 1, bound)
    else BindFrom(p, segments, i + 1, Emplace(bound, ParamName(p[i]), segments[i]))
  }

  ghost function Below(ps: set<Path>, prefix: Path): set<Path> {
    set p | p in ps && prefix <= p
  }

  function Child(p: Path, key: string): Path {
    p + [key]
  }

  lemma BelowSegment(ps: set<Path>, prefix: Path, key: string)
    ensures WithSegment(Below(ps, prefix), |prefix|, key) == Below(ps, Child(prefix, key))
  {
    forall p | p in ps
      ensures prefix <= p && |prefix| < |p| && p[|prefix|] == key <==> Child(prefix, key) <= p
    {
      if prefix <= p && |prefix| < |p| && p[|prefix|] == key {
        assert p[..|prefix| + 1] == Child(prefix, key);
      }
    }
  }

  /** In a coherent set the patterns with a parameter after `prefix` all have the same one. */
  lemma BelowParam(ps: set<Path>, prefix: Path, p: Path)
    requires Coherent(ps)
    requires p in WithParam(Below(ps, prefix), |prefix|)
    ensures WithParam(Below(ps, prefix), |prefix|) == Below(ps, Child(prefix, p[|prefix|]))
  {
    BelowSegment(ps, prefix, p[|prefix|]);
    var i := |prefix|;
    forall q | q in WithParam(Below(ps, prefix), i)
      ensures q[i] == p[i]
    {
      assert p[..i] == prefix == q[..i];
      assert !Clash(p, q);
      assert !ClashAt(p, q, i);
    }
  }

  lemma ParamAtBelow(ps: set<Path>, prefix: Path, key: string)
    requires Coherent(ps)
    requires IsParam(key) && Below(ps, Child(prefix, key)) != {}
    ensures WithParam(Below(ps, prefix), |prefix|) == Below(ps, Child(prefix, key)) != {}
    ensures ParamAt(Below(ps, prefix), |prefix|) == key
  {
    var p :| p in Below(ps, Child(prefix, key));
    BelowSegment(ps, prefix, key);
    assert p in WithSegment(Below(ps, prefix), |prefix|, key);
    BelowParam(ps, prefix, p);
  }

  /** Every selected pattern starts with `prefix`, and `prefix` itself was walked correctly. */
  ghost predicate Walked(ps: set<Path>, segments: Path, prefix: Path) {
    && |prefix| <= |segments|
    && (forall i :: 0 <= i < |prefix| ==> Fits(ps, prefix, i, segments[i]))
    && (forall p :: Selected(ps, segments, p) ==> prefix <= p)
  }

  lemma WalkedStep(ps: set<Path>, segments: Path, prefix: Path, key: string)
    requires Coherent(ps) && Walked(ps, segments, prefix) && |prefix| < |segments|
    requires Below(ps, Child(prefix, key)) != {}
    requires key == segments[|prefix|]
          || (IsParam(key) && Below(ps, Child(prefix, segments[|prefix|])) == {})
    ensures Walked(ps, segments, Child(prefix, key))
  {
    var i := |prefix|;
    var next := Child(prefix, key);
    var other :| other in Below(ps, next);
    BelowSegment(ps, prefix, key);
    BelowSegment(ps, prefix, segments[i]);
    forall k | 0 <= k < |next|
      ensures Fits(ps, next, k, segments[k])
    {
      assert next[..k] == if k < i then prefix[..k] else prefix;
      if k < i {
        assert Fits(ps, prefix, k, segments[k]);
      } else if Sibling(ps, next, i, segments[i]) {
        var q :| q in ps && i < |q| && q[..i] == next[..i] && q[i] == segments[i];
        assert q in WithSegment(Below(ps, prefix), i, segments[i]);
      }
    }
    forall p | Selected(ps, segments, p)
      ensures next <= p
    {
      assert Fits(ps, p, i, segments[i]);
      assert p in Below(ps, prefix) && p[..i] == prefix == other[..i];
      if key == segments[i] {
        assert Sibling(ps, p, i, segments[i]);
      } else {
        assert p !in WithSegment(Below(ps, prefix), i, segments[i]);
        assert !Clash(p, other);
        assert !ClashAt(p, other, i);
      }
      assert p in WithSegment(Below(ps, prefix), i, key);
    }
  }

  lemma {:induction false} FollowFrom(ps: set<Path>, segments: Path, prefix: Path, bound: Bindings)
    requires Coherent(ps) && Walked(ps, segments, prefix)
    ensures var r := Follow(Below(ps, prefix), segments, |prefix|, bound);
            && (forall p :: r.pattern == Some(p) <==> Selected(ps, segments, p))
            && (forall p :: Selected(ps, segments, p) ==> r.bound == BindFrom(p, segments, |prefix|, bound))
    decreases |segments| - |prefix|
  {
    var i := |prefix|;
    var here := Below(ps, prefix);
    if i == |segments| {
      forall p
        ensures p in here && |p| == i <==> Selected(ps, segments, p)
        ensures p in here && |p| == i ==> p == prefix
      {
        if p in here && |p| == i {
          assert p == prefix;
        }
      }
    } else {
      BelowSegment(ps, prefix, segments[i]);
      if WithSegment(here, i, segments[i]) != {} {
        WalkedStep(ps, segments, prefix, segments[i]);
        FollowFrom(ps, segments, Child(prefix, segments[i]), bound);
        forall p | Selected(ps, segments, p)
          ensures p[i] == segments[i]
        {
          assert Child(prefix, segments[i]) <= p;
        }
      } else if WithParam(here, i) != {} {
        var key := ParamAt(here, i);
        var p0 :| p0 in WithParam(here, i) && p0[i] == key;
        BelowParam(ps, prefix, p0);
        WalkedStep(ps, segments, prefix, key);
        FollowFrom(ps, segments, Child(prefix, key), Emplace(bound, ParamName(key), segments[i]));
        forall p | Selected(ps, segments, p)
          ensures p[i] == key
          ensures p[i] != segments[i]
        {
          assert Child(prefix, key) <= p;
          assert p in WithSegment(here, i, p[i]);
        }
      } else {
        forall p | p in here && i < |p|
          ensures !Fits(ps, p, i, segments[i])
        {
          assert p !in WithSegment(here, i, segments[i]) && p !in WithParam(here, i);
        }
      }
    }
  }

  /**
    Lookup without a search: it finds p if and only if p is an accepted pattern of the right length
    whose every position fits, and then it stores exactly the bindings of p.
   */
  lemma FollowSelects(ps: set<Path>, segments: Path, bound: Bindings)
    requires Coherent(ps)
    ensures var r := Follow(ps, segments, 0, bound);
            && (forall p :: r.pattern == Some(p) <==> Selected(ps, segments, p))
            && (forall p :: Selected(ps, segments, p) ==> r.bound == BindFrom(p, segments, 0, bound))
  {
    assert Below(ps, []) == ps;
    FollowFrom(ps, segments, [], bound);
  }
}
