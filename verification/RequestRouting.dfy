/** Which handler a request gets: the parsed request target meets the routing table. */
module RequestRouting {
  import opened Outcomes
  import opened Text
  import opened Routing
  import RoutingLaws
  import opened HeaderFields
  import opened Requests
  import opened RequestLaws
  import opened Framing
  import Numerals

  // ---------------------------------------------------------------------------------------------
  // Static routes
  // ---------------------------------------------------------------------------------------------

  ghost predicate CanonicalStatics(t: Table) {
    forall s :: s in t.statics ==> Canonical(s) == s
  }

  /** Whatever is registered, static keys are canonical. */
  lemma {:induction false} StaticsStayCanonical(es: seq<RoutingLaws.Entry>)
    ensures CanonicalStatics(RoutingLaws.After(es))
  {
    if es != [] {
      StaticsStayCanonical(es[..|es| - 1]);
      CanonicalForm(es[|es| - 1].path, "");
    }
  }

  /**
    When a target reaches a static handler. One with a query keeps the slashes of its path, so it
    gets there only if its path was spelled canonically, which a path behind a slash never is.
   */
  lemma StaticRoute(t: Table, target: string)
    requires CanonicalStatics(t)
    ensures var i := Find(target, '?', 0);
            ParseTarget(target).0 in t.statics <==>
            if i == 0 || i == |target| then Canonical(target) in t.statics
            else Canonical(target[..i]) in t.statics && Canonical(target[..i]) == target[..i]
    ensures target != "" && target[0] == '/' ==>
              (ParseTarget(target).0 in t.statics <==> '?' !in target && Canonical(target) in t.statics)
  {
    hide Canonical, Split, ParsePairs;
    var i := Find(target, '?', 0);
    if target != "" && target[0] == '/' && i < |target| {
      CanonicalHasNoLeadingSlash(target[..i]);
      assert target[..i][0] == '/';
    }
  }

  /**
    Static handlers come first: whatever dynamic patterns there are, a target without a query that was
    registered as a static path, in whatever spelling of its slashes, gets the last handler that was
    registered for it, and no path parameter is stored.
   */
  lemma StaticWins(es: seq<RoutingLaws.Entry>, i: nat, target: string, bound: Bindings)
    requires RoutingLaws.LastFor(es, i, RoutingLaws.StaticSlot(Canonical(target)))
    requires '?' !in target
    ensures Route(RoutingLaws.After(es), ParseTarget(target).0, bound) == (Some(es[i].handler), bound)
  {
    hide RoutingLaws.After, RoutingLaws.LastFor, Routing.Route, Canonical;
    RoutingLaws.RouteAfter(es, Canonical(target), bound);
  }

  lemma OneStatic(h: Handler)
    ensures RoutingLaws.After([RoutingLaws.Entry("/a", h)]) == Table(map["a" := h], map[])
    ensures Split("/a", '/') == ["a"] && Canonical("/a") == "a"
  {
    var e := RoutingLaws.Entry("/a", h);
    assert [e][..0] == [];
    assert Tokens("a", '/') == ["a"] && NonEmpty(["a"]) == ["a"] + NonEmpty([]);
    SplitConcat("", '/', "a");
    assert "" + ['/'] + "a" == "/a";
  }

  /** The same page is found without a query and not found with one. */
  lemma QueryHidesStaticRoute(h: Handler)
    ensures var t := RoutingLaws.After([RoutingLaws.Entry("/a", h)]);
            && Route(t, ParseTarget("/a").0, map[]).0 == Some(h)
            && Route(t, ParseTarget("/a?b=c").0, map[]).0 == None
  {
    OneStatic(h);
    StaticsStayCanonical([RoutingLaws.Entry("/a", h)]);
    StaticRoute(Table(map["a" := h], map[]), "/a?b=c");
    assert "/a?b=c"[2] == '?';
    assert Find("/a?b=c", '?', 0) == 2 && "/a?b=c"[..2] == "/a";
    assert WithSegment({}, 0, "a") == {} && WithParam({}, 0) == {};
  }

  // ---------------------------------------------------------------------------------------------
  // From the client's pattern to the server's handler
  // ---------------------------------------------------------------------------------------------

  /** Every parameter of the pattern has a value that is one segment and that no other route captures. */
  ghost predicate Fillable(t: Table, p: Path, params: Params) {
    && params != map[]
    && Join(Substitute(p, params), '/') !in t.statics
    && IsSegments(Substitute(p, params), '/')
    && LastIsNew(p)
    && forall i :: 0 <= i < |p| && IsParam(p[i]) ==>
         ParamName(p[i]) in params && params[ParamName(p[i])] != p[i] &&
         !Sibling(t.dynamics.Keys, p, i, params[ParamName(p[i])])
  }

  /** A path is found among the static handlers only by the canonical text of its segments. */
  lemma NotStatic(t: Table, path: string, segments: Path)
    requires CanonicalStatics(t) && Split(path, '/') == segments && Join(segments, '/') !in t.statics
    ensures path !in t.statics
  {
  }

  /**
    A client that fills in the parameters of a pattern that is registered at the server, however it
    was registered, reaches the handler of that pattern, which finds those parameters and no others:
    through printing, any network cut, parsing and the lookup.
   */
  lemma ParametersArrive(es: seq<RoutingLaws.Entry>, m: Outgoing, fieldOrder: seq<string>, queryOrder: seq<string>,
                         cut: nat)
    requires Sendable(m) && BodySafe(m)
    requires Enumerates(fieldOrder, m.fields.Keys) && Enumerates(queryOrder, m.query.Keys)
    requires IsCut(PrintRequest(m, fieldOrder, queryOrder), cut)
    requires |PrintRequest(m, fieldOrder, queryOrder)| < Numerals.SIZE_LIMIT
    ensures var t, p := RoutingLaws.After(es), Split(m.path, '/');
            p in t.dynamics && Fillable(t, p, m.params) ==>
              var r := Receive(PrintRequest(m, fieldOrder, queryOrder), cut);
              r.Ok? &&
              var (handler, bound) := Route(t, r.value.message.path, map[]);
              && handler == Some(t.dynamics[p])
              && (forall i :: 0 <= i < |p| && IsParam(p[i]) ==>
                    ParamName(p[i]) in bound && bound[ParamName(p[i])] == m.params[ParamName(p[i])])
              && (forall n :: n in bound ==> exists i :: 0 <= i < |p| && IsParam(p[i]) && ParamName(p[i]) == n)
  {
    hide PathText, Split, Join, Receive, PrintRequest, Follow, IsParam, ParamName, Sendable, BodySafe, Sibling;
    var t, p := RoutingLaws.After(es), Split(m.path, '/');
    if p in t.dynamics && Fillable(t, p, m.params) {
      RoutingLaws.ReachableCoherent(es);
      StaticsStayCanonical(es);
      assert PrintRequest(m, fieldOrder, queryOrder) + "" == PrintRequest(m, fieldOrder, queryOrder);
      FramedRoundTrip(m, fieldOrder, queryOrder, "", cut);
      SubstitutedPathSegments(m.path, m.params);
      var path := Receive(PrintRequest(m, fieldOrder, queryOrder), cut).value.message.path;
      NotStatic(t, path, Substitute(p, m.params));
      RoutingLaws.SubstituteThenBind(t.dynamics.Keys, p, m.params);
    }
  }
}
