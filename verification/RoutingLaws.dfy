/** Laws of registration and lookup over the flat table that the route tree implements. */
module RoutingLaws {
  import opened Outcomes
  import opened Text
  import opened Routing

  // ---------------------------------------------------------------------------------------------
  // Registration is confluent
  // ---------------------------------------------------------------------------------------------

  /** One add_handler<T> call. */
  datatype Entry = Entry(path: string, handler: Handler) {
    predicate Dynamic() {
      '{' in path
    }

    function Pattern(): Path {
      Split(path, '/')
    }

    /** The slot of the router that the entry is stored in. */
    function Target(): Target {
      if Dynamic() then DynamicSlot(Pattern()) else StaticSlot(Canonical(path))
    }
  }

  datatype Target = StaticSlot(text: string) | DynamicSlot(path: Path)

  ghost function AfterOne(t: Table, e: Entry): Table {
    var r := Register(t, e.path, e.handler);
    if r.Ok? then r.value else t
  }

  /** The table after the calls `es`, where a call that throws is caught and the next one made. */
  ghost function After(es: seq<Entry>): Table {
    if es == [] then EMPTY else AfterOne(After(es[..|es| - 1]), es[|es| - 1])
  }

  ghost predicate Accepted(es: seq<Entry>, i: nat)
    requires i < |es|
  {
    Register(After(es[..i]), es[i].path, es[i].handler).Ok?
  }

  ghost predicate AllAccepted(es: seq<Entry>) {
    forall i :: 0 <= i < |es| ==> Accepted(es, i)
  }

  ghost predicate Compatible(es: seq<Entry>) {
    forall e, f {:trigger Clash(e.Pattern(), f.Pattern())} ::
      e in es && f in es && e.Dynamic() && f.Dynamic() ==> !Clash(e.Pattern(), f.Pattern())
  }

  /** No two different entries compete for a slot. */
  ghost predicate Functional(es: seq<Entry>) {
    forall e, f :: e in es && f in es && e.Target() == f.Target() ==> e == f
  }

  /** The dynamic patterns of a table are those of the entries. */
  ghost predicate Covers(t: Table, es: seq<Entry>) {
    forall p :: p in t.dynamics <==> exists e :: e in es && e.Dynamic() && e.Pattern() == p
  }

  lemma ClashSymmetric(p: Path, q: Path)
    ensures Clash(p, q) <==> Clash(q, p)
    ensures !Clash(p, p)
  {
    if i :| ClashAt(p, q, i) {
      assert ClashAt(q, p, i);
    }
    if i :| ClashAt(q, p, i) {
      assert ClashAt(p, q, i);
    }
  }

  /** Whatever is registered, accepted or not, the accepted patterns never clash. */
  lemma {:induction false} ReachableCoherent(es: seq<Entry>)
    ensures Coherent(After(es).dynamics.Keys)
  {
    if es != [] {
      ReachableCoherent(es[..|es| - 1]);
      var e, ps := es[|es| - 1], After(es[..|es| - 1]).dynamics.Keys;
      forall p, q | p in After(es).dynamics && q in After(es).dynamics
        ensures !Clash(p, q)
      {
        ClashSymmetric(p, q);
        if p !in ps || q !in ps {
          assert p == e.Pattern() || q == e.Pattern();
        }
      }
    }
  }

  /** Two patterns that part with different segments clash exactly when both of these are parameters. */
  lemma ClashAtParting(prefix: Path, k1: string, rest1: Path, k2: string, rest2: Path)
    requires k1 != k2
    ensures Clash(prefix + [k1] + rest1, prefix + [k2] + rest2) <==> "{" <= k1 && "{" <= k2
  {
    var p, q, n := prefix + [k1] + rest1, prefix + [k2] + rest2, |prefix|;
    assert p[..n] == prefix == q[..n] && p[n] == k1 && q[n] == k2;
    assert forall i :: 0 <= i < n ==> p[i] == prefix[i] == q[i];
    forall i: nat | n < i
      ensures !ClashAt(p, q, i)
    {
      if i <= |p| && i <= |q| {
        assert p[..i][n] == k1 && q[..i][n] == k2;
      }
    }
    assert ClashAt(p, q, n) <==> "{" <= k1 && "{" <= k2;
  }

  /** A pattern never clashes with one that goes on behind it. */
  lemma NoClashWithLonger(p: Path, rest: Path)
    ensures !Clash(p, p + rest)
  {
    forall i: nat
      ensures !ClashAt(p, p + rest, i)
    {
    }
  }

  lemma CoversStep(t: Table, es: seq<Entry>, e: Entry)
    requires Covers(t, es)
    requires Register(t, e.path, e.handler).Ok?
    ensures Covers(AfterOne(t, e), es + [e])
  {
    forall p
      ensures p in AfterOne(t, e).dynamics <==> exists f :: f in es + [e] && f.Dynamic() && f.Pattern() == p
    {
      if p in AfterOne(t, e).dynamics {
        if p in t.dynamics {
          var f :| f in es && f.Dynamic() && f.Pattern() == p;
          assert f in es + [e];
        } else {
          assert e in es + [e];
        }
      }
    }
  }

  lemma AcceptedPrefix(es: seq<Entry>, n: nat, i: nat)
    requires i < n <= |es|
    ensures Accepted(es[..n], i) <==> Accepted(es, i)
  {
    assert es[..n][..i] == es[..i];
  }

  lemma AllAcceptedPrefix(es: seq<Entry>, n: nat)
    requires n <= |es| && AllAccepted(es)
    ensures AllAccepted(es[..n])
  {
    hide Accepted;
    forall i | 0 <= i < n
      ensures Accepted(es[..n], i)
    {
      AcceptedPrefix(es, n, i);
    }
  }

  lemma {:induction false} AcceptedCovers(es: seq<Entry>)
    requires AllAccepted(es)
    ensures Covers(After(es), es)
  {
    if es != [] {
      var n := |es| - 1;
      AllAcceptedPrefix(es, n);
      AcceptedCovers(es[..n]);
      assert Accepted(es, n);
      CoversStep(After(es[..n]), es[..n], es[n]);
      assert es == es[..n] + [es[n]];
    }
  }

  /** An entry that clashes with none of those that a table came from is accepted. */
  lemma ClearOfCovered(t: Table, es: seq<Entry>, e: Entry)
    requires Covers(t, es)
    requires forall f :: f in es && e.Dynamic() && f.Dynamic() ==> !Clash(e.Pattern(), f.Pattern())
    ensures Register(t, e.path, e.handler).Ok?
  {
    forall q | q in t.dynamics && e.Dynamic()
      ensures !Clash(e.Pattern(), q)
    {
      var f :| f in es && f.Dynamic() && f.Pattern() == q;
    }
  }

  lemma {:induction false} CompatibleAccepted(es: seq<Entry>)
    requires Compatible(es)
    ensures AllAccepted(es)
  {
    if es != [] {
      hide Covers, Clash, Register;
      var n := |es| - 1;
      var init := es[..n];
      assert forall e :: e in init ==> e in es;
      CompatibleAccepted(init);
      AcceptedCovers(init);
      assert es[n] in es;
      ClearOfCovered(After(init), init, es[n]);
      assert Accepted(es, n);
      forall i | 0 <= i < n
        ensures Accepted(es, i)
      {
        AcceptedPrefix(es, n, i);
      }
    }
  }

  /** A run of registrations goes through without a throw exactly when its patterns are compatible. */
  lemma AcceptedIffCompatible(es: seq<Entry>)
    ensures AllAccepted(es) <==> Compatible(es)
  {
    if Compatible(es) {
      CompatibleAccepted(es);
    }
    if AllAccepted(es) {
      forall i, j | 0 <= j < i < |es| && es[i].Dynamic() && es[j].Dynamic()
        ensures !Clash(es[i].Pattern(), es[j].Pattern())
      {
        EarlierDoesNotClash(es, i, j);
      }
      forall e, f | e in es && f in es && e.Dynamic() && f.Dynamic()
        ensures !Clash(e.Pattern(), f.Pattern())
      {
        var i :| 0 <= i < |es| && es[i] == e;
        var j :| 0 <= j < |es| && es[j] == f;
        ClashSymmetric(e.Pattern(), f.Pattern());
        ClashSymmetric(f.Pattern(), f.Pattern());
      }
    }
  }

  lemma EarlierDoesNotClash(es: seq<Entry>, i: nat, j: nat)
    requires AllAccepted(es) && j < i < |es| && es[i].Dynamic() && es[j].Dynamic()
    ensures !Clash(es[i].Pattern(), es[j].Pattern())
  {
    var init := es[..i];
    AllAcceptedPrefix(es, i);
    AcceptedCovers(init);
    assert init[j] == es[j] && es[j] in init;
    assert es[j].Pattern() in After(init).dynamics;
    assert Accepted(es, i);
  }

  /** What a slot of the router holds. */
  ghost function Held(t: Table, slot: Target): Option<Handler> {
    match slot
    case StaticSlot(text) => if text in t.statics then Some(t.statics[text]) else None
    case DynamicSlot(path) => if path in t.dynamics then Some(t.dynamics[path]) else None
  }

  ghost predicate AcceptedFor(es: seq<Entry>, i: nat, slot: Target) {
    i < |es| && Accepted(es, i) && es[i].Target() == slot
  }

  /** Entry i is the last that was accepted for the slot. */
  ghost predicate LastFor(es: seq<Entry>, i: nat, slot: Target) {
    AcceptedFor(es, i, slot) && forall j :: i < j < |es| ==> !AcceptedFor(es, j, slot)
  }

  lemma AcceptedForPrefix(es: seq<Entry>, n: nat, i: nat, slot: Target)
    requires i < n <= |es|
    ensures AcceptedFor(es[..n], i, slot) <==> AcceptedFor(es, i, slot)
  {
    assert es[..n][..i] == es[..i];
  }

  lemma HeldStep(t: Table, e: Entry, slot: Target)
    ensures Held(AfterOne(t, e), slot) ==
            if Register(t, e.path, e.handler).Ok? && e.Target() == slot then Some(e.handler) else Held(t, slot)
  {
  }

  /**
    After any calls, with slots registered again and calls that throw among them, a slot holds the
    handler of the last entry that was accepted for it, and nothing if there is none.
   */
  lemma {:induction false} LastWins(es: seq<Entry>, slot: Target)
    ensures Held(After(es), slot) == None <==> forall i :: 0 <= i < |es| ==> !AcceptedFor(es, i, slot)
    ensures forall i: nat :: LastFor(es, i, slot) ==> Held(After(es), slot) == Some(es[i].handler)
  {
    hide Register, Held, AfterOne;
    if es != [] {
      var n := |es| - 1;
      LastWins(es[..n], slot);
      HeldStep(After(es[..n]), es[n], slot);
      forall i | 0 <= i < n
        ensures AcceptedFor(es[..n], i, slot) <==> AcceptedFor(es, i, slot)
      {
        AcceptedForPrefix(es, n, i, slot);
      }
      if AcceptedFor(es, n, slot) {
        assert forall i: nat :: LastFor(es, i, slot) ==> i == n;
      } else {
        forall i: nat | LastFor(es, i, slot)
          ensures LastFor(es[..n], i, slot) && es[..n][i] == es[i]
        {
          assert i < n;
        }
      }
    } else {
      NothingHeld(slot);
    }
  }

  lemma NothingHeld(slot: Target)
    ensures Held(EMPTY, slot) == None
  {
  }

  /** When no slot is competed for, every entry is in its slot and nothing else is anywhere. */
  lemma EntriesStored(es: seq<Entry>, slot: Target)
    requires Compatible(es) && Functional(es)
    ensures Held(After(es), slot) == None <==> forall e :: e in es ==> e.Target() != slot
    ensures forall e :: e in es && e.Target() == slot ==> Held(After(es), slot) == Some(e.handler)
  {
    hide Held, Compatible;
    CompatibleAccepted(es);
    LastWins(es, slot);
    forall e | e in es && e.Target() == slot
      ensures Held(After(es), slot) == Some(e.handler)
    {
      var i :| 0 <= i < |es| && es[i] == e;
      assert AcceptedFor(es, i, slot);
      var last := LastIndex(es, slot, i);
      assert es[last] in es;
    }
  }

  /** The last accepted entry for a slot, searching from one that is accepted for it. */
  ghost function LastIndex(es: seq<Entry>, slot: Target, i: nat): (last: nat)
    requires AcceptedFor(es, i, slot)
    ensures LastFor(es, last, slot)
    decreases |es| - i
  {
    if j: nat :| i < j < |es| && AcceptedFor(es, j, slot) then LastIndex(es, slot, j) else i
  }

  /**
    Confluence: compatible entries that do not compete for a slot are all accepted in any order and
    any number of repetitions, and the router ends up the same.
   */
  lemma Confluence(es: seq<Entry>, fs: seq<Entry>)
    requires Compatible(es) && Functional(es)
    requires forall e :: e in es <==> e in fs
    ensures AllAccepted(es) && AllAccepted(fs) && After(es) == After(fs)
  {
    assert Compatible(fs) && Functional(fs) by {
      assert forall e :: e in fs ==> e in es;
    }
    CompatibleAccepted(es);
    CompatibleAccepted(fs);
    forall slot
      ensures Held(After(es), slot) == Held(After(fs), slot)
    {
      EntriesStored(es, slot);
      EntriesStored(fs, slot);
      assert Held(After(es), slot) == None <==> Held(After(fs), slot) == None;
    }
    SameSlots(After(es), After(fs));
  }

  lemma SameSlots(t: Table, u: Table)
    requires forall slot :: Held(t, slot) == Held(u, slot)
    ensures t == u
  {
    forall p
      ensures p in t.dynamics <==> p in u.dynamics
      ensures p in t.dynamics ==> t.dynamics[p] == u.dynamics[p]
    {
      assert Held(t, DynamicSlot(p)) == Held(u, DynamicSlot(p));
    }
    forall s
      ensures s in t.statics <==> s in u.statics
      ensures s in t.statics ==> t.statics[s] == u.statics[s]
    {
      assert Held(t, StaticSlot(s)) == Held(u, StaticSlot(s));
    }
    assert t.dynamics == u.dynamics && t.statics == u.statics;
  }

  // ---------------------------------------------------------------------------------------------
  // Lookup
  // ---------------------------------------------------------------------------------------------

  lemma {:induction false} FollowKeeps(ps: set<Path>, segments: Path, i: nat, b: Bindings)
    requires i <= |segments|
    ensures b.Keys <= Follow(ps, segments, i, b).bound.Keys
    decreases |segments| - i
  {
    if i < |segments| {
      if WithSegment(ps, i, segments[i]) != {} {
        FollowKeeps(WithSegment(ps, i, segments[i]), segments, i + 1, b);
      } else if WithParam(ps, i) != {} {
        FollowKeeps(WithParam(ps, i), segments, i + 1, Emplace(b, ParamName(ParamAt(ps, i)), segments[i]));
      }
    }
  }

  /** Once the names are stored another lookup of the same path stores nothing. */
  lemma {:induction false} FollowAgain(ps: set<Path>, segments: Path, i: nat, b: Bindings, c: Bindings)
    requires i <= |segments|
    requires Follow(ps, segments, i, b).bound.Keys <= c.Keys
    ensures Follow(ps, segments, i, c) == Lookup(Follow(ps, segments, i, b).pattern, c)
    decreases |segments| - i
  {
    if i < |segments| {
      if WithSegment(ps, i, segments[i]) != {} {
        FollowAgain(WithSegment(ps, i, segments[i]), segments, i + 1, b, c);
      } else if WithParam(ps, i) != {} {
        var more := Emplace(b, ParamName(ParamAt(ps, i)), segments[i]);
        FollowKeeps(WithParam(ps, i), segments, i + 1, more);
        FollowAgain(WithParam(ps, i), segments, i + 1, more, c);
      }
    }
  }

  /**
    The session routes a request with a body twice, to prepare it and to process it: the second
    lookup gives the same handler and leaves the path parameters as they are.
   */
  lemma RouteTwice(t: Table, path: string, bound: Bindings)
    ensures var first := Route(t, path, bound);
            Route(t, path, first.1) == first
  {
    var segments := Split(path, '/');
    FollowAgain(t.dynamics.Keys, segments, 0, bound, Follow(t.dynamics.Keys, segments, 0, bound).bound);
  }

  /** The lookup can go no further than the first k segments of the accepted pattern q. */
  ghost predicate EndsAt(ps: set<Path>, segments: Path, q: Path, k: nat) {
    && q in ps && k <= |q| && k <= |segments|
    && (forall i :: 0 <= i < k ==> Fits(ps, q, i, segments[i]))
    && (k < |segments| ==>
          forall p :: p in ps && k < |p| && p[..k] == q[..k] ==> p[k] != segments[k] && !IsParam(p[k]))
  }

  lemma FitsMatches(ps: set<Path>, segments: Path, q: Path, k: nat)
    requires EndsAt(ps, segments, q, k)
    ensures forall i :: 0 <= i < k ==> q[..k][i] == segments[..k][i] || IsParam(q[..k][i])
  {
    forall i | 0 <= i < k
      ensures q[i] == segments[i] || IsParam(q[i])
    {
      assert Fits(ps, q, i, segments[i]);
    }
  }

  lemma {:induction false} FollowBindsFrom(ps: set<Path>, segments: Path, q: Path, k: nat, i: nat, b: Bindings)
    requires Coherent(ps) && EndsAt(ps, segments, q, k) && i <= k
    requires forall j :: 0 <= j < k ==> q[..k][j] == segments[..k][j] || IsParam(q[..k][j])
    ensures Follow(Below(ps, q[..i]), segments, i, b).bound == BindFrom(q[..k], segments[..k], i, b)
    decreases k - i
  {
    var here := Below(ps, q[..i]);
    if i < k {
      assert Fits(ps, q, i, segments[i]);
      assert q in here && Child(q[..i], q[i]) == q[..i + 1];
      BelowSegment(ps, q[..i], segments[i]);
      if q[i] == segments[i] {
        assert q in WithSegment(here, i, segments[i]);
        FollowBindsFrom(ps, segments, q, k, i + 1, b);
      } else {
        NoSibling(ps, segments, q, i);
        BelowSegment(ps, q[..i], q[i]);
        assert q in WithSegment(here, i, q[i]);
        ParamAtBelow(ps, q[..i], q[i]);
        FollowBindsFrom(ps, segments, q, k, i + 1, Emplace(b, ParamName(q[i]), segments[i]));
      }
    } else if k < |segments| {
      assert forall p :: p in here && k < |p| ==> p[..k] == q[..k];
      assert WithSegment(here, k, segments[k]) == {} && WithParam(here, k) == {};
    }
  }

  lemma NoSibling(ps: set<Path>, segments: Path, q: Path, i: nat)
    requires i < |q| && i < |segments| && !Sibling(ps, q, i, segments[i])
    ensures WithSegment(Below(ps, q[..i]), i, segments[i]) == {}
  {
    forall p | p in Below(ps, q[..i]) && i < |p|
      ensures p[i] != segments[i]
    {
      assert p[..i] == q[..i];
    }
  }

  /**
    What a lookup stores, whether it finds a handler or not: the bindings of the pattern that it
    followed, as far as it got.
   */
  lemma StoredOnTheWay(ps: set<Path>, segments: Path, q: Path, k: nat, b: Bindings)
    requires Coherent(ps) && EndsAt(ps, segments, q, k)
    requires forall j :: 0 <= j < k ==> q[..k][j] == segments[..k][j] || IsParam(q[..k][j])
    ensures Follow(ps, segments, 0, b).bound == BindFrom(q[..k], segments[..k], 0, b)
  {
    assert Below(ps, q[..0]) == ps;
    FollowBindsFrom(ps, segments, q, k, 0, b);
  }

  /**
    The answer of the router after any registrations. The last entry accepted for the static path
    wins, whatever patterns there are, and binds nothing; otherwise the last entry accepted for the
    selected pattern answers and binds what it matched; otherwise there is no handler.
   */
  lemma RouteAfter(es: seq<Entry>, path: string, bound: Bindings)
    ensures forall i: nat :: LastFor(es, i, StaticSlot(path)) ==>
              Route(After(es), path, bound) == (Some(es[i].handler), bound)
    ensures var ps, segments := After(es).dynamics.Keys, Split(path, '/');
            (forall i :: 0 <= i < |es| ==> !AcceptedFor(es, i, StaticSlot(path))) ==>
              && (forall p, i: nat :: Selected(ps, segments, p) && LastFor(es, i, DynamicSlot(p)) ==>
                    Route(After(es), path, bound) == (Some(es[i].handler), BindFrom(p, segments, 0, bound)))
              && ((forall p :: !Selected(ps, segments, p)) ==> Route(After(es), path, bound).0 == None)
  {
    hide After;
    LastWins(es, StaticSlot(path));
    ReachableCoherent(es);
    var t, segments := After(es), Split(path, '/');
    FollowSelects(t.dynamics.Keys, segments, bound);
    forall p, i: nat | Selected(t.dynamics.Keys, segments, p) && LastFor(es, i, DynamicSlot(p))
      ensures t.dynamics[p] == es[i].handler
    {
      LastWins(es, DynamicSlot(p));
    }
  }

  /** There is no backtracking: {a/b, {x}/c} has no handler for a/c although {x}/c would match it. */
  lemma NoBacktracking()
    ensures var ps := {["a", "b"], ["{x}", "c"]};
            && Coherent(ps)
            && Follow(ps, ["a", "c"], 0, map[]).pattern == None
            && Follow(ps, ["d", "c"], 0, map[]).pattern == Some(["{x}", "c"])
  {
    var p, q := ["a", "b"], ["{x}", "c"];
    var ps := {p, q};
    TwoCompatible(p, q);
    FollowSelects(ps, ["a", "c"], map[]);
    assert p[..0] == q[..0] && p[0] == "a";
    assert Sibling(ps, q, 0, "a");
    assert !Fits(ps, q, 0, ["a", "c"][0]);
    assert !Fits(ps, p, 1, ["a", "c"][1]);
    FollowSelects(ps, ["d", "c"], map[]);
    assert Fits(ps, q, 0, ["d", "c"][0]) && Fits(ps, q, 1, ["d", "c"][1]);
  }

  lemma TwoCompatible(p: Path, q: Path)
    requires p != [] && q != [] && p[0] != q[0] && !IsParam(p[0])
    ensures Coherent({p, q})
  {
    ClashAtParting([], p[0], p[1..], q[0], q[1..]);
    assert [] + [p[0]] + p[1..] == p && [] + [q[0]] + q[1..] == q;
    ClashSymmetric(p, q);
    ClashSymmetric(q, q);
  }

  // ---------------------------------------------------------------------------------------------
  // Binding path parameters and substituting them
  // ---------------------------------------------------------------------------------------------

  /** A parameter is written {name}; of a key that is written otherwise the first and the last character are dropped. */
  lemma WrittenName(name: string, key: string)
    ensures IsParam("{" + name + "}") && ParamName("{" + name + "}") == name
    ensures IsParam(key) && |key| >= 2 ==> key == "{" + ParamName(key) + [key[|key| - 1]]
    ensures IsParam(key) && |key| == 1 ==> ParamName(key) == ""
    ensures IsParam(key) <==> "{" <= key
  {
    var written := "{" + name + "}";
    assert written[0] == '{' && written[1..|written| - 1] == name;
  }

  /** The segment {name} of the pattern that a request selects binds the name to the segment that it meets. */
  lemma WrittenNameBinds(ps: set<Path>, segments: Path, p: Path, i: nat, name: string, bound: Bindings)
    requires Coherent(ps) && Selected(ps, segments, p) && i < |p| && name !in bound
    requires p[i] == "{" + name + "}" != segments[i] && forall j :: 0 <= j < i ==> p[j] != p[i]
    requires forall j :: 0 <= j < i && IsParam(p[j]) ==> |p[j]| >= 2 && p[j][|p[j]| - 1] == '}'
    ensures var r := Follow(ps, segments, 0, bound).bound; name in r && r[name] == segments[i]
  {
    FollowSelects(ps, segments, bound);
    SelectedMatches(ps, segments, p);
    BindFromAt(p, segments, 0, bound, name);
    WrittenName(name, "");
    forall j | 0 <= j < i
      ensures !BindsName(p, segments, name, j)
    {
      WrittenName("", p[j]);
    }
    assert BindsName(p, segments, name, i);
    assert FirstBinder(p, segments, name, 0) == i;
  }

  /** With a value for the name, {name} becomes that value, and a segment without a brace in front stays. */
  lemma WrittenNameIsSubstituted(p: Path, i: nat, name: string, params: Bindings)
    requires i < |p|
    ensures p[i] == "{" + name + "}" ==> Substitute(p, params)[i] == if name in params then params[name] else ""
    ensures !("{" <= p[i]) ==> Substitute(p, params)[i] == p[i]
  {
    WrittenName(name, p[i]);
  }

  predicate Binds(p: Path, segments: Path, i: nat)
    requires i < |p| == |segments|
  {
    IsParam(p[i]) && p[i] != segments[i]
  }

  predicate BindsName(p: Path, segments: Path, name: string, k: nat)
    requires k < |p| == |segments|
  {
    Binds(p, segments, k) && ParamName(p[k]) == name
  }

  /** The first position from i on that binds the name, or |p|. */
  function FirstBinder(p: Path, segments: Path, name: string, i: nat): (k: nat)
    requires i <= |p| == |segments|
    ensures i <= k <= |p|
    ensures k < |p| ==> BindsName(p, segments, name, k)
    ensures forall j :: i <= j < k ==> !BindsName(p, segments, name, j)
    decreases |p| - i
  {
    if i == |p| || BindsName(p, segments, name, i) then i else FirstBinder(p, segments, name, i + 1)
  }

  /** A name that was free is bound by the first position that binds it. */
  lemma {:induction false} BindFromAt(p: Path, segments: Path, i: nat, b: Bindings, name: string)
    requires i <= |p| == |segments|
    requires forall k :: 0 <= k < |p| ==> p[k] == segments[k] || IsParam(p[k])
    ensures var r, k := BindFrom(p, segments, i, b), FirstBinder(p, segments, name, i);
            && (name in r <==> name in b || k < |p|)
            && (name in r ==> r[name] == if name in b then b[name] else segments[k])
    decreases |p| - i
  {
    if i < |p| {
      if p[i] == segments[i] {
        BindFromAt(p, segments, i + 1, b, name);
      } else {
        BindFromAt(p, segments, i + 1, Emplace(b, ParamName(p[i]), segments[i]), name);
      }
    }
  }

  /** Position i of the pattern gets its segment back: the first position that binds its name met the same one. */
  predicate Restored(p: Path, segments: Path, i: nat)
    requires i < |p| == |segments|
  {
    IsParam(p[i]) ==>
      var k := FirstBinder(p, segments, ParamName(p[i]), 0);
      k < |p| && segments[k] == segments[i]
  }

  lemma SelectedMatches(ps: set<Path>, segments: Path, p: Path)
    requires Selected(ps, segments, p)
    ensures forall i :: 0 <= i < |p| ==> p[i] == segments[i] || IsParam(p[i])
  {
    forall i | 0 <= i < |p|
      ensures p[i] == segments[i] || IsParam(p[i])
    {
      assert Fits(ps, p, i, segments[i]);
    }
  }

  /**
    Routing binds and prepare_request substitutes. For any pattern, repeated names included, putting
    the bound values back gives the request's segments if and only if for every parameter the first
    position that binds its name met the same segment. (A segment that is spelled exactly like the
    parameter it meets is taken as a literal and not bound.)
   */
  lemma BindThenSubstitute(ps: set<Path>, segments: Path, p: Path)
    requires Coherent(ps) && Selected(ps, segments, p)
    requires IsSegments(segments, '/')
    ensures Substitute(p, Follow(ps, segments, 0, map[]).bound) == segments
       <==> forall i :: 0 <= i < |p| ==> Restored(p, segments, i)
  {
    FollowSelects(ps, segments, map[]);
    SelectedMatches(ps, segments, p);
    var r := BindFrom(p, segments, 0, map[]);
    forall i | 0 <= i < |p|
      ensures Substitute(p, r)[i] == segments[i] <==> Restored(p, segments, i)
    {
      SubstitutedAt(p, segments, i);
    }
    if forall i :: 0 <= i < |p| ==> Restored(p, segments, i) {
      assert Substitute(p, r) == segments;
    }
  }

  lemma SubstitutedAt(p: Path, segments: Path, i: nat)
    requires i < |p| == |segments| && IsSegments(segments, '/')
    requires forall k :: 0 <= k < |p| ==> p[k] == segments[k] || IsParam(p[k])
    ensures Substitute(p, BindFrom(p, segments, 0, map[]))[i] == segments[i] <==> Restored(p, segments, i)
  {
    if IsParam(p[i]) {
      BindFromAt(p, segments, 0, map[], ParamName(p[i]));
    }
  }

  predicate SameName(p: Path, i: nat, j: nat)
    requires i < |p| && j < |p|
  {
    IsParam(p[i]) && IsParam(p[j]) && ParamName(p[i]) == ParamName(p[j])
  }

  /**
    When no segment is spelled like the parameter it meets, the segments come back if and only if
    parameters of one name meet one segment: that is what a repeated name costs.
   */
  lemma RepeatedNames(ps: set<Path>, segments: Path, p: Path)
    requires Coherent(ps) && Selected(ps, segments, p) && IsSegments(segments, '/')
    requires forall i :: 0 <= i < |p| && IsParam(p[i]) ==> segments[i] != p[i]
    ensures Substitute(p, Follow(ps, segments, 0, map[]).bound) == segments
       <==> forall i, j :: 0 <= i < |p| && 0 <= j < |p| && SameName(p, i, j) ==> segments[i] == segments[j]
  {
    BindThenSubstitute(ps, segments, p);
    forall i | 0 <= i < |p| && IsParam(p[i])
      ensures var k := FirstBinder(p, segments, ParamName(p[i]), 0);
              k < |p| && SameName(p, i, k)
    {
      assert BindsName(p, segments, ParamName(p[i]), i);
    }
    if forall i :: 0 <= i < |p| ==> Restored(p, segments, i) {
      forall i, j | 0 <= i < |p| && 0 <= j < |p| && SameName(p, i, j)
        ensures segments[i] == segments[j]
      {
        assert Restored(p, segments, i) && Restored(p, segments, j);
      }
    }
  }

  /** When names are distinct, they come back if and only if no segment is spelled like its parameter. */
  lemma DistinctNames(ps: set<Path>, segments: Path, p: Path)
    requires Coherent(ps) && Selected(ps, segments, p) && IsSegments(segments, '/')
    requires forall i, j :: 0 <= i < j < |p| && IsParam(p[i]) && IsParam(p[j]) ==> ParamName(p[i]) != ParamName(p[j])
    ensures Substitute(p, Follow(ps, segments, 0, map[]).bound) == segments
       <==> forall i :: 0 <= i < |p| ==> !(IsParam(p[i]) && segments[i] == p[i])
  {
    BindThenSubstitute(ps, segments, p);
    forall i | 0 <= i < |p| && IsParam(p[i])
      ensures Restored(p, segments, i) <==> segments[i] != p[i]
    {
      var k := FirstBinder(p, segments, ParamName(p[i]), 0);
      if k < |p| {
        assert k == i;
      } else {
        assert !BindsName(p, segments, ParamName(p[i]), i);
      }
    }
  }

  /** An input that shows the loss: {x}/{x} meets a/b, and a/a comes back. */
  lemma DuplicateNameLosesValue()
    ensures var p := ["{x}", "{x}"];
            Substitute(p, BindFrom(p, ["a", "b"], 0, map[])) == ["a", "a"]
  {
    var p, s := ["{x}", "{x}"], ["a", "b"];
    assert ParamName("{x}") == "x";
    assert BindFrom(p, s, 2, map["x" := "a"]) == map["x" := "a"];
    assert BindFrom(p, s, 1, map["x" := "a"]) == map["x" := "a"];
    assert BindFrom(p, s, 0, map[]) == map["x" := "a"];
  }

  /**
    The other way round: a client that fills the parameters of a registered pattern in gets them
    back at the server exactly when no value is captured by a literal sibling of its parameter or by
    the parameter's own spelling. Repeated names do no harm, as each gets one value.
   */
  lemma SubstituteThenBind(ps: set<Path>, p: Path, params: Bindings)
    requires Coherent(ps) && p in ps
    requires forall i :: 0 <= i < |p| && IsParam(p[i]) ==> ParamName(p[i]) in params
    ensures var segments := Substitute(p, params);
            var found := Follow(ps, segments, 0, map[]);
            && (found.pattern == Some(p) <==>
                forall i :: 0 <= i < |p| && IsParam(p[i]) && p[i] != segments[i] ==> !Sibling(ps, p, i, segments[i]))
            && (found.pattern == Some(p) && (forall i :: 0 <= i < |p| && IsParam(p[i]) ==> p[i] != segments[i]) ==>
                && (forall i :: 0 <= i < |p| && IsParam(p[i]) ==>
                      ParamName(p[i]) in found.bound && found.bound[ParamName(p[i])] == params[ParamName(p[i])])
                && (forall n :: n in found.bound ==>
                      exists i :: 0 <= i < |p| && IsParam(p[i]) && ParamName(p[i]) == n))
  {
    var segments := Substitute(p, params);
    FollowSelects(ps, segments, map[]);
    assert forall i :: 0 <= i < |p| && !IsParam(p[i]) ==> p[i] == segments[i];
    assert Selected(ps, segments, p) <==>
           forall i :: 0 <= i < |p| && IsParam(p[i]) && p[i] != segments[i] ==> !Sibling(ps, p, i, segments[i]);
    var r := BindFrom(p, segments, 0, map[]);
    forall i | 0 <= i < |p| && IsParam(p[i]) && p[i] != segments[i]
      ensures ParamName(p[i]) in r && r[ParamName(p[i])] == params[ParamName(p[i])]
    {
      BindFromAt(p, segments, 0, map[], ParamName(p[i]));
      assert BindsName(p, segments, ParamName(p[i]), i);
    }
    forall n | n in r
      ensures exists i :: 0 <= i < |p| && IsParam(p[i]) && ParamName(p[i]) == n
    {
      BindFromAt(p, segments, 0, map[], n);
      assert BindsName(p, segments, n, FirstBinder(p, segments, n, 0));
    }
  }
}
