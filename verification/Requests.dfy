/** Parsing and printing requests: source/http/request.cpp. */
module Requests {
  import opened Outcomes
  import opened Text
  import opened Numerals
  import HeaderFields
  import Routing

  type Params = map<string, string>

  datatype Method = NoMethod | Get | Post | Put | Patch | Delete | Head | Options | Connect | Trace

  datatype Version = NoVersion | Http10 | Http11 | Http2 | Http3

  function MethodText(m: Method): string {
    match m
    case NoMethod => "NONE"
    case Get => "GET"
    case Post => "POST"
    case Put => "PUT"
    case Patch => "PATCH"
    case Delete => "DELETE"
    case Head => "HEAD"
    case Options => "OPTIONS"
    case Connect => "CONNECT"
    case Trace => "TRACE"
  }

  function MethodFrom(s: string): Method {
    if s == "GET" then Get
    else if s == "POST" then Post
    else if s == "PUT" then Put
    else if s == "DELETE" then Delete
    else if s == "PATCH" then Patch
    else if s == "HEAD" then Head
    else if s == "OPTIONS" then Options
    else if s == "CONNECT" then Connect
    else if s == "TRACE" then Trace
    else NoMethod
  }

  /** Looks at the start of the text only, so the CR behind the version does not matter. */
  function VersionFrom(s: string): Version {
    if "HTTP/1.0" <= s then Http10
    else if "HTTP/1.1" <= s then Http11
    else if "HTTP/2" <= s then Http2
    else if "HTTP/3" <= s then Http3
    else NoVersion
  }

  // ---------------------------------------------------------------------------------------------
  // Parsing
  // ---------------------------------------------------------------------------------------------

  /** What a request text says. */
  datatype Message = Message(verb: Method, path: string, version: Version, fields: HeaderFields.Fields, query: Params)

  function SplitParameter(s: string): (string, string) {
    var i := Find(s, '=', 0);
    if i == |s| then (s, "") else (s[..i], s[i + 1..])
  }

  /** Every token is emplaced: the first value of a name stays. */
  function ParsePairs(tokens: seq<string>, found: Params): Params {
    if tokens == [] then found
    else
      var (name, value) := SplitParameter(tokens[0]);
      ParsePairs(tokens[1..], Routing.Emplace(found, name, value))
  }

  /** The path and the query of a request target. Only a target without a query is made canonical. */
  function ParseTarget(target: string): (string, Params) {
    var i := Find(target, '?', 0);
    if i == |target| then (Canonical(target), map[])
    else (if i == 0 then Canonical(target) else target[..i], ParsePairs(Split(target[i + 1..], '&'), map[]))
  }

  /** The constructor of Request. With fewer than three parts the source indexes past its vector. */
  function ParseLines(lines: seq<string>): Result<Message> {
    var parts := SplitLimit(if lines == [] then "" else lines[0], ' ', 3);
    if |parts| < 3 then Err(MissingPart)
    else
      var (path, query) := ParseTarget(parts[1]);
      var fields := HeaderFields.ParseFields(if lines == [] then [] else lines[1..], map[]);
      if fields.Err? then Err(fields.error)
      else Ok(Message(MethodFrom(parts[0]), path, VersionFrom(parts[2]), fields.value, query))
  }

  function ParseRequest(raw: string): Result<Message> {
    ParseLines(Tokens(raw, '\n'))
  }

  // ---------------------------------------------------------------------------------------------
  // Printing
  // ---------------------------------------------------------------------------------------------

  /** A request as the client builds it. */
  datatype Outgoing = Outgoing(verb: Method, path: string, params: Params, query: Params,
                               fields: HeaderFields.Fields, body: Option<string>)

  function PartText(part: string, params: Params): string {
    if !Routing.IsParam(part) then part
    else if Routing.ParamName(part) in params then params[Routing.ParamName(part)]
    else ""
  }

  /** A slash follows every part that differs from the last one, which is compared by value. */
  function PartsText(parts: seq<string>, params: Params, last: string): string {
    if parts == [] then ""
    else PartText(parts[0], params) + (if parts[0] == last then "" else "/") + PartsText(parts[1..], params, last)
  }

  /** The path behind the leading slash. On an empty path without parameters path_.back() is undefined. */
  function PathText(path: string, params: Params): string
    requires path != "" || params != map[]
  {
    if params != map[] then
      var parts := Split(path, '/');
      if parts == [] then "" else PartsText(parts, params, parts[|parts| - 1])
    else if path[|path| - 1] == '/' then path[..|path| - 1]
    else Canonical(path)
  }

  function PairText(name: string, value: string): string {
    name + "=" + value
  }

  function PairTexts(query: Params, order: seq<string>): (texts: seq<string>)
    requires forall k :: k in order ==> k in query
    ensures |texts| == |order|
    ensures forall i :: 0 <= i < |order| ==> texts[i] == PairText(order[i], query[order[i]])
  {
    if order == [] then [] else [PairText(order[0], query[order[0]])] + PairTexts(query, order[1..])
  }

  function QueryText(query: Params, order: seq<string>): string
    requires forall k :: k in order ==> k in query
  {
    if query == map[] then "" else "?" + Join(PairTexts(query, order), '&')
  }

  function Target(m: Outgoing, queryOrder: seq<string>): string
    requires m.path != "" || m.params != map[]
    requires forall k :: k in queryOrder ==> k in m.query
  {
    "/" + PathText(m.path, m.params) + QueryText(m.query, queryOrder)
  }

  /** The fields that prepare_request adds to those of the request. */
  function Extras(m: Outgoing): seq<string> {
    (if "user-agent" in m.fields then [] else [HeaderFields.FieldText("User-Agent", "Asio/RoutineHttp")])
    + (if m.body == None then [] else [HeaderFields.FieldText("Content-Length", ToDecimal(|m.body.value|))])
  }

  function Lines(m: Outgoing, fieldOrder: seq<string>, queryOrder: seq<string>): seq<string>
    requires m.path != "" || m.params != map[]
    requires forall k :: k in fieldOrder ==> k in m.fields
    requires forall k :: k in queryOrder ==> k in m.query
  {
    [MethodText(m.verb) + " " + Target(m, queryOrder) + " " + "HTTP/1.1"]
    + HeaderFields.FieldTexts(m.fields, fieldOrder) + Extras(m)
  }

  /** prepare_request, when the hash tables are iterated in these orders. */
  function PrintRequest(m: Outgoing, fieldOrder: seq<string>, queryOrder: seq<string>): string
    requires m.path != "" || m.params != map[]
    requires forall k :: k in fieldOrder ==> k in m.fields
    requires forall k :: k in queryOrder ==> k in m.query
  {
    HeaderFields.Block(Lines(m, fieldOrder, queryOrder)) + "\r\n" + (if m.body == None then "" else m.body.value)
  }

  // ---------------------------------------------------------------------------------------------
  // Path parameters
  // ---------------------------------------------------------------------------------------------

  /** The number of parts before the last that have the value of the last: each loses its slash. */
  function Repeats(parts: seq<string>, last: string): nat {
    if |parts| <= 1 then 0 else (if parts[0] == last then 1 else 0) + Repeats(parts[1..], last)
  }

  /** A part {name} prints as the value of the name, or as nothing without one; a part without a brace as itself. */
  lemma WrittenNamePrints(name: string, part: string, params: Params)
    ensures PartText("{" + name + "}", params) == if name in params then params[name] else ""
    ensures !("{" <= part) ==> PartText(part, params) == part
  {
    var written := "{" + name + "}";
    assert written[0] == '{' && written[1..|written| - 1] == name;
  }

  lemma {:induction false} PartsTextLength(parts: seq<string>, params: Params)
    requires parts != []
    ensures var last := parts[|parts| - 1];
            var text := PartsText(parts, params, last);
            var joined := Join(Routing.Substitute(parts, params), '/');
            |text| + Repeats(parts, last) == |joined| && (Repeats(parts, last) == 0 ==> text == joined)
  {
    var last := parts[|parts| - 1];
    var values := Routing.Substitute(parts, params);
    assert values[0] == PartText(parts[0], params);
    if |parts| > 1 {
      var tail := parts[1..];
      assert values[1..] == Routing.Substitute(tail, params);
      assert tail[|tail| - 1] == last;
      PartsTextLength(tail, params);
    } else {
      assert parts[1..] == [];
    }
  }

  /** No earlier part has the value of the last one. */
  predicate LastIsNew(parts: seq<string>) {
    forall i :: 0 <= i < |parts| - 1 ==> parts[i] != parts[|parts| - 1]
  }

  lemma {:induction false} RepeatsZero(parts: seq<string>, last: string)
    requires parts != []
    ensures last == parts[|parts| - 1] ==> (Repeats(parts, last) == 0 <==> LastIsNew(parts))
    ensures Repeats(parts, last) == 0 <==> forall i :: 0 <= i < |parts| - 1 ==> parts[i] != last
  {
    if |parts| > 1 {
      RepeatsZero(parts[1..], last);
      assert forall i :: 0 <= i < |parts| - 2 ==> parts[1..][i] == parts[i + 1];
      assert forall i :: 1 <= i < |parts| - 1 ==> parts[i] == parts[1..][i - 1];
    }
  }

  /**
    prepare_request puts the values of the path parameters in place and slashes between all segments
    if and only if no earlier segment of the pattern equals its last one.
   */
  lemma SubstitutedPath(parts: seq<string>, params: Params)
    requires parts != []
    ensures PartsText(parts, params, parts[|parts| - 1]) == Join(Routing.Substitute(parts, params), '/')
       <==> LastIsNew(parts)
  {
    PartsTextLength(parts, params);
    RepeatsZero(parts, parts[|parts| - 1]);
  }

  /** One slash at the end is dropped and the rest kept as it is spelled; other paths become canonical. */
  lemma PlainPathText(path: string)
    ensures PathText(path + "/", map[]) == path
    ensures path != "" && path[|path| - 1] != '/' ==> PathText(path, map[]) == Canonical(path)
  {
    var longer := path + "/";
    assert longer[|longer| - 1] == '/' && longer[..|longer| - 1] == path;
  }

  /** Without parameters the server sees the segments of the path, slashes aside. */
  lemma PlainPathSegments(path: string)
    requires path != ""
    ensures Split(PathText(path, map[]), '/') == Split(path, '/')
  {
    var n := |path| - 1;
    if path[n] == '/' {
      assert path == path[..n] + ['/'] + "";
      SplitConcat(path[..n], '/', "");
      assert Split("", '/') == [];
    } else {
      CanonicalKeepsSegments(path);
    }
  }

  /**
    With parameters it sees the pattern with the values put in if and only if no earlier segment of the
    pattern equals its last one: otherwise two segments run together.
   */
  lemma SubstitutedPathSegments(path: string, params: Params)
    requires params != map[]
    requires IsSegments(Routing.Substitute(Split(path, '/'), params), '/')
    ensures Split(PathText(path, params), '/') == Routing.Substitute(Split(path, '/'), params)
       <==> LastIsNew(Split(path, '/'))
  {
    var parts := Split(path, '/');
    if parts == [] {
      assert Split("", '/') == [];
    } else {
      hide Split, Join, PartsText, Routing.Substitute, IsSegments, LastIsNew;
      SubstitutedPath(parts, params);
      SplitJoin(Routing.Substitute(parts, params), '/');
      SlashesMatter(parts, params);
    }
  }

  /** Text that has lost a slash is too short for all the segments. */
  lemma SlashesMatter(parts: seq<string>, params: Params)
    requires parts != []
    ensures var text := PartsText(parts, params, parts[|parts| - 1]);
            var values := Routing.Substitute(parts, params);
            Split(text, '/') == values ==> text == Join(values, '/')
  {
    hide Split, Join, PartsText, Routing.Substitute;
    CanonicalIsNoLonger(PartsText(parts, params, parts[|parts| - 1]));
    PartsTextLength(parts, params);
  }

  // ---------------------------------------------------------------------------------------------
  // Query round trip
  // ---------------------------------------------------------------------------------------------

  predicate QuerySafe(query: Params) {
    forall k :: k in query ==> '&' !in k && '=' !in k && '&' !in query[k]
  }

  /** The parameters after those of `order` have been emplaced. */
  function StoredPairs(query: Params, order: seq<string>, found: Params): Params
    requires forall k :: k in order ==> k in query
  {
    if order == [] then found else StoredPairs(query, order[1..], Routing.Emplace(found, order[0], query[order[0]]))
  }

  /** A pair is read back if and only if its name has no equals sign; its value may have any. */
  lemma PairParses(name: string, value: string)
    ensures SplitParameter(PairText(name, value)) == (name, value) <==> '=' !in name
  {
    var s := PairText(name, value);
    assert s[|name|] == '=';
    assert forall k :: 0 <= k < |name| ==> s[k] == name[k];
    if '=' !in name {
      assert Find(s, '=', 0) == |name|;
      assert s[..|name|] == name && s[|name| + 1..] == value;
    }
  }

  /** Any token is cut at its first equals sign; one that has none is a name with an empty value. */
  lemma TokenSplits(s: string)
    ensures var (name, value) := SplitParameter(s);
            '=' !in name && (s == PairText(name, value) || (s == name && value == ""))
    ensures '=' !in s ==> SplitParameter(s) == (s, "")
  {
    var i := Find(s, '=', 0);
    NotBefore(s, '=');
    if i < |s| {
      CutOut(s, i);
      assert s == s[..i] + "=" + s[i + 1..];
    } else {
      assert s[..i] == s;
    }
  }

  /** The first token from i on that has the name, or |tokens|. */
  function FirstNamed(tokens: seq<string>, name: string, i: nat): (k: nat)
    requires i <= |tokens|
    ensures i <= k <= |tokens|
    ensures k < |tokens| ==> SplitParameter(tokens[k]).0 == name
    ensures forall j :: i <= j < k ==> SplitParameter(tokens[j]).0 != name
    decreases |tokens| - i
  {
    if i == |tokens| || SplitParameter(tokens[i]).0 == name then i else FirstNamed(tokens, name, i + 1)
  }

  /** The query has the names of its tokens, each with the value of the first token of that name. */
  lemma {:induction false} FirstValueStays(tokens: seq<string>, i: nat, found: Params, name: string)
    requires i <= |tokens|
    ensures var r, k := ParsePairs(tokens[i..], found), FirstNamed(tokens, name, i);
            && (name in r <==> name in found || k < |tokens|)
            && (name in r ==> r[name] == if name in found then found[name] else SplitParameter(tokens[k]).1)
    decreases |tokens| - i
  {
    hide SplitParameter;
    if i < |tokens| {
      NextPairParsed(tokens, i, found);
      var (first, value) := SplitParameter(tokens[i]);
      FirstValueStays(tokens, i + 1, Routing.Emplace(found, first, value), name);
    }
  }

  lemma BareNamesStored(tokens: seq<string>)
    ensures forall t :: t in tokens && '=' !in t ==> t in ParsePairs(tokens, map[])
  {
    hide ParsePairs, SplitParameter;
    assert tokens[0..] == tokens;
    forall t | t in tokens && '=' !in t
      ensures t in ParsePairs(tokens, map[])
    {
      TokenSplits(t);
      FirstValueStays(tokens, 0, map[], t);
    }
  }

  /** A query of bare names stores each of them with an empty value. */
  lemma BareNames(names: seq<string>)
    requires IsSegments(names, '&') && forall n :: n in names ==> '=' !in n
    ensures var r := ParsePairs(Split(Join(names, '&'), '&'), map[]);
            forall n :: (n in r <==> n in names) && (n in r ==> r[n] == "")
  {
    hide ParsePairs, SplitParameter, Split, Join;
    SplitJoin(names, '&');
    assert names[0..] == names;
    forall n
      ensures var r := ParsePairs(names, map[]); (n in r <==> n in names) && (n in r ==> r[n] == "")
    {
      FirstValueStays(names, 0, map[], n);
      var k := FirstNamed(names, n, 0);
      forall j | 0 <= j < |names|
        ensures SplitParameter(names[j]) == (names[j], "")
      {
        TokenSplits(names[j]);
      }
    }
  }

  lemma {:induction false} PairsParse(query: Params, order: seq<string>, found: Params)
    requires QuerySafe(query) && forall k :: k in order ==> k in query
    ensures ParsePairs(PairTexts(query, order), found) == StoredPairs(query, order, found)
  {
    if order != [] {
      PairParses(order[0], query[order[0]]);
      PairsParse(query, order[1..], Routing.Emplace(found, order[0], query[order[0]]));
    }
  }

  lemma {:induction false} StoredPairsAll(query: Params, order: seq<string>, found: Params)
    requires forall k :: k in order ==> k in query
    ensures forall k :: k in StoredPairs(query, order, found) <==> k in found || k in order
    ensures forall k :: k in StoredPairs(query, order, found) ==>
              StoredPairs(query, order, found)[k] == if k in found then found[k] else query[k]
  {
    if order != [] {
      assert forall k :: k in order <==> k == order[0] || k in order[1..];
      StoredPairsAll(query, order[1..], Routing.Emplace(found, order[0], query[order[0]]));
    }
  }

  lemma PairTextsAreSegments(query: Params, order: seq<string>)
    requires QuerySafe(query) && forall k :: k in order ==> k in query
    ensures IsSegments(PairTexts(query, order), '&')
  {
    var texts := PairTexts(query, order);
    forall i | 0 <= i < |texts|
      ensures texts[i] != "" && '&' !in texts[i]
    {
      assert order[i] in query && texts[i] == PairText(order[i], query[order[i]]);
    }
  }

  /** Printed in any order, a query without delimiters in the wrong places parses back to itself. */
  lemma QueryRoundTrip(query: Params, order: seq<string>)
    requires QuerySafe(query) && HeaderFields.Enumerates(order, query.Keys)
    ensures ParsePairs(Split(Join(PairTexts(query, order), '&'), '&'), map[]) == query
  {
    hide Join, Split, ParsePairs, PairTexts, StoredPairs;
    PairTextsAreSegments(query, order);
    SplitJoin(PairTexts(query, order), '&');
    PairsParse(query, order, map[]);
    StoredPairsAll(query, order, map[]);
    assert StoredPairs(query, order, map[]) == query;
  }

  // ---------------------------------------------------------------------------------------------
  // The object
  // ---------------------------------------------------------------------------------------------

  /** Looking names up has only added empty values for those that were missing. */
  ghost predicate Defaulted(params: Params, later: Params) {
    && (forall k :: k in params ==> k in later && later[k] == params[k])
    && (forall k :: k in later && k !in params ==> later[k] == "")
  }

  function ParamNames(parts: seq<string>): set<string> {
    set i | 0 <= i < |parts| && Routing.IsParam(parts[i]) :: Routing.ParamName(parts[i])
  }

  /** Exactly the names of the parameters among the parts have been looked up. */
  predicate Asked(parts: seq<string>, params: Params, later: Params) {
    later.Keys == params.Keys + ParamNames(parts)
  }

  class Request {
    var verb: Method
    var path: string
    var version: Version
    const headers: HeaderFields.Headers
    var queryParams: Params
    var pathParams: Params
    var body: Option<string>

    constructor ()
      ensures fresh(headers) && headers.fields == map[] && queryParams == map[] && pathParams == map[] && body == None
    {
      verb, path, version := NoMethod, "", NoVersion;
      headers := new HeaderFields.Headers();
      queryParams, pathParams, body := map[], map[], None;
    }

    /** What the constructor of the source does with the text of a request. */
    method Parse(raw: string) returns (r: Result<()>)
      requires headers.fields == map[] && queryParams == map[]
      modifies `verb, `path, `version, `queryParams, headers
      ensures r.Ok? ==> ParseRequest(raw) == Ok(Content())
      ensures r.Err? ==> ParseRequest(raw) == Err(r.error)
    {
      hide Tokens, ParseTarget, HeaderFields.ParseFields, SplitLimit;
      var stream := new InputStream(raw);
      var ok, line := stream.GetLine('\n');
      var parts := SplitStringLimit(if ok then line else "", ' ', 3);
      if |parts| < 3 {
        return Err(MissingPart);
      }
      verb := MethodFrom(parts[0]);
      ParsePath(parts[1]);
      version := VersionFrom(parts[2]);
      assert ok ==> ([line] + Tokens(stream.rest, '\n'))[1..] == Tokens(stream.rest, '\n');
      assert !ok ==> SplitLimit("", ' ', 3) == [] by {
        NothingToSplit();
      }
      r := headers.InitFromStream(stream);
    }

    /** The path part of that constructor. */
    method ParsePath(target: string)
      requires queryParams == map[]
      modifies `path, `queryParams
      ensures (path, queryParams) == ParseTarget(target)
    {
      var index := ParseQueryParameters(target);
      if index == 0 {
        path := FormatPath(target);
      } else {
        path := target[..index];
      }
    }

    /** Answers the position of the question mark, and 0 when there is none. */
    method ParseQueryParameters(target: string) returns (index: nat)
      requires queryParams == map[]
      modifies `path, `queryParams
      ensures var i := Find(target, '?', 0);
              if i == |target| then index == 0 && queryParams == map[]
              else
                && index == i && queryParams == ParsePairs(Split(target[i + 1..], '&'), map[])
                && forall t :: t in Split(target[i + 1..], '&') && '=' !in t ==> t in queryParams
    {
      hide ParsePairs, Split, SplitParameter;
      index := Find(target, '?', 0);
      if index == |target| {
        return 0;
      }
      path := target[..index];
      var params := SplitString(target[index + 1..], '&');
      ghost var parsed := ParsePairs(params, map[]);
      assert params[0..] == params;
      for i := 0 to |params|
        invariant parsed == ParsePairs(params[i..], queryParams)
      {
        NextPairParsed(params, i, queryParams);
        var (name, value) := SplitParameter(params[i]);
        queryParams := Routing.Emplace(queryParams, name, value);
      }
      AllPairsParsed(params, queryParams);
      BareNamesStored(params);
    }

    function Content(): Message
      reads this, headers
    {
      Message(verb, path, version, headers.fields, queryParams)
    }

    ghost function View(): Outgoing
      reads this, headers
    {
      Outgoing(verb, path, pathParams, queryParams, headers.fields, body)
    }

    /**
      Prints the request with its hash tables in some order. Asking for a path parameter that is not
      there stores an empty one.
     */
    method PrepareRequest() returns (text: string, ghost fieldOrder: seq<string>, ghost queryOrder: seq<string>)
      requires path != "" || pathParams != map[]
      modifies `pathParams
      ensures HeaderFields.Enumerates(fieldOrder, headers.fields.Keys)
      ensures HeaderFields.Enumerates(queryOrder, queryParams.Keys)
      ensures text == PrintRequest(old(View()), fieldOrder, queryOrder)
      ensures old(pathParams) == map[] ==> pathParams == map[]
      ensures old(pathParams) != map[] ==> Asked(Split(path, '/'), old(pathParams), pathParams)
      ensures Defaulted(old(pathParams), pathParams)
    {
      hide MethodText, PathText, QueryText, HeaderFields.Block, HeaderFields.FieldTexts, ToDecimal, PrintRequest;
      ghost var m := View();
      var where := PrintPath();
      var query, fields;
      query, queryOrder := PrintQuery(queryParams);
      fields, fieldOrder := PrintFields(headers.fields);
      var agent, length := "", "";
      if "user-agent" !in headers.fields {
        agent := "User-Agent: Asio/RoutineHttp\r\n";
      }
      if body.Some? {
        length := "Content-Length: " + ToDecimal(|body.value|) + "\r\n";
      }
      text := MethodText(verb) + " /" + where + query + " HTTP/1.1\r\n" + fields + (agent + length) + "\r\n"
              + (if body.Some? then body.value else "");
      PrintedInPieces(m, fieldOrder, queryOrder);
    }

    method PrintPath() returns (text: string)
      requires path != "" || pathParams != map[]
      modifies `pathParams
      ensures text == PathText(path, old(pathParams))
      ensures old(pathParams) == map[] ==> pathParams == map[]
      ensures old(pathParams) != map[] ==> Asked(Split(path, '/'), old(pathParams), pathParams)
      ensures Defaulted(old(pathParams), pathParams)
    {
      hide Split, Canonical, PartsText;
      if |pathParams| == 0 {
        assert pathParams == map[];
        if path[|path| - 1] == '/' {
          text := path[..|path| - 1];
        } else {
          text := FormatPath(path);
        }
        return;
      }
      var parts := SplitString(path, '/');
      if parts == [] {
        AskedNothing(pathParams);
        return "";
      }
      text := PrintParts(parts);
    }

    /** The loop over the parts of a path with parameters. */
    method PrintParts(parts: seq<string>) returns (text: string)
      requires parts != []
      modifies `pathParams
      ensures text == PartsText(parts, old(pathParams), parts[|parts| - 1])
      ensures Defaulted(old(pathParams), pathParams) && Asked(parts, old(pathParams), pathParams)
    {
      hide PartsText, PartText, Defaulted, Asked;
      text := "";
      var last := parts[|parts| - 1];
      ghost var params := pathParams;
      assert parts[0..] == parts;
      DefaultedSame(params);
      AskedNothing(params);
      assert parts[..0] == [];
      for i := 0 to |parts|
        invariant PartsText(parts, params, last) == text + PartsText(parts[i..], params, last)
        invariant Defaulted(params, pathParams) && Asked(parts[..i], params, pathParams)
      {
        NextPart(text, parts, i, params, last);
        DefaultedText(parts[i], params, pathParams);
        ghost var before := pathParams;
        var part := PrintPart(parts[i]);
        DefaultedTwice(params, before, pathParams);
        AskedOneMore(parts, i, params, before, pathParams);
        text := text + part;
        if parts[i] != last {
          text := text + "/";
        }
      }
      NoPart(text, params, last);
      assert parts[|parts|..] == [] && parts[..|parts|] == parts;
    }

    method PrintPart(part: string) returns (text: string)
      modifies `pathParams
      ensures text == PartText(part, old(pathParams))
      ensures forall name: string :: part == "{" + name + "}" ==>
                text == if name in old(pathParams) then old(pathParams)[name] else ""
      ensures Defaulted(old(pathParams), pathParams) && Asked([part], old(pathParams), pathParams)
    {
      forall name: string | part == "{" + name + "}"
        ensures PartText(part, pathParams) == if name in pathParams then pathParams[name] else ""
      {
        WrittenNamePrints(name, part, pathParams);
      }
      OneParamName(part);
      if Routing.IsParam(part) {
        var name := Routing.ParamName(part);
        if name !in pathParams {
          pathParams := pathParams[name := ""];
        }
        text := pathParams[name];
      } else {
        text := part;
      }
    }

    static method PrintQuery(query: Params) returns (text: string, ghost order: seq<string>)
      ensures HeaderFields.Enumerates(order, query.Keys)
      ensures text == QueryText(query, order)
    {
      text, order := "", [];
      if |query| == 0 {
        assert query == map[];
        return;
      }
      hide Join, PairTexts, PairText;
      var pairs := "";
      var left := query.Keys;
      NoPairs(query);
      while left != {}
        invariant left <= query.Keys && HeaderFields.Enumerates(order, query.Keys - left)
        invariant var joined := Join(PairTexts(query, order), '&');
                  pairs == if order == [] || left == {} then joined else joined + "&"
        decreases |left|
      {
        var name :| name in left; // an unordered_map: any order
        NextPair(pairs, query, order, name);
        left := left - {name};
        pairs := pairs + name + "=" + query[name];
        if left != {} {
          pairs := pairs + "&";
        }
        order := order + [name];
      }
      text := "?" + pairs;
    }

    static method PrintFields(fields: HeaderFields.Fields) returns (text: string, ghost order: seq<string>)
      ensures HeaderFields.Enumerates(order, fields.Keys)
      ensures text == HeaderFields.Block(HeaderFields.FieldTexts(fields, order))
    {
      hide HeaderFields.Block, HeaderFields.FieldTexts, HeaderFields.FieldText;
      text, order := "", [];
      var left := fields.Keys;
      HeaderFields.NoFields(fields);
      while left != {}
        invariant left <= fields.Keys && HeaderFields.Enumerates(order, fields.Keys - left)
        invariant text == HeaderFields.Block(HeaderFields.FieldTexts(fields, order))
        decreases |left|
      {
        var key :| key in left; // an unordered_set: any order
        HeaderFields.NextField(fields, order, key);
        left := left - {key};
        text := text + HeaderFields.FieldText(key, fields[key]) + "\r\n";
        order := order + [key];
      }
    }
  }

  lemma NextPairParsed(tokens: seq<string>, i: nat, found: Params)
    requires i < |tokens|
    ensures ParsePairs(tokens[i..], found) ==
            var (name, value) := SplitParameter(tokens[i]);
            ParsePairs(tokens[i + 1..], Routing.Emplace(found, name, value))
  {
    assert tokens[i..][1..] == tokens[i + 1..];
  }

  lemma AllPairsParsed(tokens: seq<string>, found: Params)
    ensures ParsePairs(tokens[|tokens|..], found) == found
  {
  }

  lemma NothingToSplit()
    ensures SplitLimit("", ' ', 3) == []
  {
  }

  lemma NextPart(text: string, parts: seq<string>, i: nat, params: Params, last: string)
    requires i < |parts|
    ensures var rest := PartsText(parts[i + 1..], params, last);
            var next := text + PartText(parts[i], params);
            text + PartsText(parts[i..], params, last) == if parts[i] == last then next + rest else next + "/" + rest
  {
    assert parts[i..][1..] == parts[i + 1..];
  }

  /** Names stored empty by an earlier lookup print as missing ones do. */
  lemma DefaultedText(part: string, params: Params, later: Params)
    requires Defaulted(params, later)
    ensures PartText(part, params) == PartText(part, later)
  {
  }

  lemma AskedNothing(params: Params)
    ensures Asked([], params, params)
  {
  }

  lemma AskedOneMore(parts: seq<string>, i: nat, params: Params, later: Params, last: Params)
    requires i < |parts| && Asked(parts[..i], params, later) && Asked([parts[i]], later, last)
    ensures Asked(parts[..i + 1], params, last)
  {
    assert ParamNames(parts[..i + 1]) == ParamNames(parts[..i]) + ParamNames([parts[i]]) by {
      assert parts[..i + 1][i] == parts[i] == [parts[i]][0];
      assert forall j :: 0 <= j < i ==> parts[..i + 1][j] == parts[..i][j];
    }
  }

  lemma OneParamName(part: string)
    ensures ParamNames([part]) == if Routing.IsParam(part) then {Routing.ParamName(part)} else {}
  {
    assert [part][0] == part;
  }

  lemma DefaultedSame(params: Params)
    ensures Defaulted(params, params)
  {
  }

  lemma DefaultedTwice(params: Params, later: Params, last: Params)
    requires Defaulted(params, later) && Defaulted(later, last)
    ensures Defaulted(params, last)
  {
  }

  lemma NoPart(text: string, params: Params, last: string)
    ensures text + PartsText([], params, last) == text
  {
  }

  lemma NoPairs(query: Params)
    ensures Join(PairTexts(query, []), '&') == ""
  {
  }

  lemma {:induction false} PairTextsSnoc(query: Params, order: seq<string>, name: string)
    requires name in query && forall k :: k in order ==> k in query
    ensures PairTexts(query, order + [name]) == PairTexts(query, order) + [PairText(name, query[name])]
  {
  }

  lemma NextPair(pairs: string, query: Params, order: seq<string>, name: string)
    requires name in query && forall k :: k in order ==> k in query
    requires var joined := Join(PairTexts(query, order), '&'); pairs == if order == [] then joined else joined + "&"
    ensures pairs + name + "=" + query[name] == Join(PairTexts(query, order + [name]), '&')
  {
    PairTextsSnoc(query, order, name);
    JoinSnoc(PairTexts(query, order), PairText(name, query[name]), '&');
    NoPairs(query);
    assert pairs + name + "=" + query[name] == pairs + PairText(name, query[name]);
  }

  lemma RegroupFirstLine(verb: string, path: string, query: string)
    ensures verb + " " + ("/" + path + query) + " " + "HTTP/1.1" + "\r\n"
         == verb + " /" + path + query + " HTTP/1.1\r\n"
  {
  }

  function AgentText(m: Outgoing): string {
    if "user-agent" in m.fields then "" else "User-Agent: Asio/RoutineHttp\r\n"
  }

  function LengthText(m: Outgoing): string {
    if m.body.Some? then "Content-Length: " + ToDecimal(|m.body.value|) + "\r\n" else ""
  }

  lemma PrintedInPieces(m: Outgoing, fieldOrder: seq<string>, queryOrder: seq<string>)
    requires m.path != "" || m.params != map[]
    requires forall k :: k in fieldOrder ==> k in m.fields
    requires forall k :: k in queryOrder ==> k in m.query
    ensures PrintRequest(m, fieldOrder, queryOrder) ==
            MethodText(m.verb) + " /" + PathText(m.path, m.params) + QueryText(m.query, queryOrder) + " HTTP/1.1\r\n"
            + HeaderFields.Block(HeaderFields.FieldTexts(m.fields, fieldOrder)) + (AgentText(m) + LengthText(m)) + "\r\n"
            + (if m.body.Some? then m.body.value else "")
  {
    hide MethodText, PathText, QueryText, HeaderFields.Block, HeaderFields.FieldTexts, ToDecimal, Extras, AgentText,
         LengthText;
    var first := MethodText(m.verb) + " " + Target(m, queryOrder) + " " + "HTTP/1.1";
    var texts := HeaderFields.FieldTexts(m.fields, fieldOrder);
    HeaderFields.BlockAppend([first] + texts, Extras(m));
    HeaderFields.BlockAppend([first], texts);
    BlockOfOne(first);
    ExtrasBlock(m);
    RegroupFirstLine(MethodText(m.verb), PathText(m.path, m.params), QueryText(m.query, queryOrder));
  }

  lemma BlockOfOne(text: string)
    ensures HeaderFields.Block([text]) == text + "\r\n"
  {
    assert [text][1..] == [];
  }

  lemma AgentBlock()
    ensures HeaderFields.Block([HeaderFields.FieldText("User-Agent", "Asio/RoutineHttp")])
         == "User-Agent: Asio/RoutineHttp\r\n"
  {
    BlockOfOne(HeaderFields.FieldText("User-Agent", "Asio/RoutineHttp"));
  }

  lemma LengthBlock(value: string)
    ensures HeaderFields.Block([HeaderFields.FieldText("Content-Length", value)])
         == "Content-Length: " + value + "\r\n"
  {
    BlockOfOne(HeaderFields.FieldText("Content-Length", value));
    assert "Content-Length" + ": " == "Content-Length: ";
  }

  lemma ExtrasBlock(m: Outgoing)
    ensures HeaderFields.Block(Extras(m)) == AgentText(m) + LengthText(m)
  {
    hide HeaderFields.FieldText, ToDecimal, HeaderFields.Block;
    var agent := if "user-agent" in m.fields then [] else [HeaderFields.FieldText("User-Agent", "Asio/RoutineHttp")];
    var length := if m.body == None then []
                  else [HeaderFields.FieldText("Content-Length", ToDecimal(|m.body.value|))];
    HeaderFields.BlockAppend(agent, length);
    NoBlock();
    AgentBlock();
    if m.body.Some? {
      LengthBlock(ToDecimal(|m.body.value|));
    }
  }

  lemma NoBlock()
    ensures HeaderFields.Block([]) == ""
  {
  }
}
