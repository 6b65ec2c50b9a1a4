/** Printing a request and parsing its text restore each other. */
module RequestLaws {
  import opened Outcomes
  import opened Text
  import opened Numerals
  import opened HeaderFields
  import opened Requests

  // ---------------------------------------------------------------------------------------------
  // What may be sent
  // ---------------------------------------------------------------------------------------------

  predicate Printable(s: string) {
    ' ' !in s && '\n' !in s
  }

  /** Nothing in the target ends the path, the target or the line too early. */
  predicate TargetSafe(m: Outgoing)
    requires m.path != "" || m.params != map[]
  {
    && Printable(PathText(m.path, m.params)) && '?' !in PathText(m.path, m.params)
    && QuerySafe(m.query)
    && forall k :: k in m.query ==> Printable(k) && Printable(m.query[k])
  }

  predicate Sendable(m: Outgoing) {
    (m.path != "" || m.params != map[]) && TargetSafe(m) && FieldsSafe(m.fields)
  }

  /** The fields announce the body that there is: no other length, and no body that is not there. */
  predicate BodySafe(m: Outgoing) {
    if m.body == None then
      "content-length" !in m.fields
      && ("transfer-encoding" in m.fields ==> m.fields["transfer-encoding"] != "chunked")
    else
      "content-length" in m.fields ==> StoUll(m.fields["content-length"]) == Ok(|m.body.value|)
  }

  /** The fields that the receiver sees: those of the request and the two defaults. */
  function SentFields(m: Outgoing): Fields {
    var agent := Emplace(m.fields, "user-agent", "Asio/RoutineHttp");
    if m.body == None then agent else Emplace(agent, "content-length", ToDecimal(|m.body.value|))
  }

  /** Field by field: nothing of the request is replaced, and only two fields are ever added. */
  lemma SentFieldByField(m: Outgoing)
    requires m.body.Some? ==> |m.body.value| <= 0xFFFF_FFFF_FFFF_FFFF
    ensures var sent := SentFields(m);
            && (forall k :: k in m.fields ==> k in sent && sent[k] == m.fields[k])
            && (forall k :: k in sent && k !in m.fields ==> k == "user-agent" || (k == "content-length" && m.body.Some?))
            && "user-agent" in sent && ("user-agent" !in m.fields ==> sent["user-agent"] == "Asio/RoutineHttp")
            && (m.body.Some? ==> "content-length" in sent)
            && (m.body.Some? && "content-length" !in m.fields ==>
                  StoUll(sent["content-length"]) == Ok(|m.body.value|))
  {
    hide StoUll, ToDecimal;
    if m.body.Some? {
      DecimalRoundTrip(|m.body.value|);
    }
  }

  // ---------------------------------------------------------------------------------------------
  // The first line
  // ---------------------------------------------------------------------------------------------

  lemma MethodRoundTrip(verb: Method)
    ensures MethodFrom(MethodText(verb)) == verb && Printable(MethodText(verb)) && MethodText(verb) != ""
  {
  }

  /** The nine names of methods; any other text is no method. */
  lemma MethodNames(s: string)
    ensures MethodFrom("GET") == Get && MethodFrom("POST") == Post && MethodFrom("PUT") == Put
    ensures MethodFrom("DELETE") == Delete && MethodFrom("PATCH") == Patch && MethodFrom("HEAD") == Head
    ensures MethodFrom("OPTIONS") == Options && MethodFrom("CONNECT") == Connect && MethodFrom("TRACE") == Trace
    ensures MethodFrom(s) == NoMethod <==>
            s !in ["GET", "POST", "PUT", "DELETE", "PATCH", "HEAD", "OPTIONS", "CONNECT", "TRACE"]
  {
  }

  /** A version is recognised by how its text starts, whatever follows. */
  lemma VersionNames(s: string, rest: string)
    ensures VersionFrom("HTTP/1.0" + rest) == Http10 && VersionFrom("HTTP/1.1" + rest) == Http11
    ensures VersionFrom("HTTP/2" + rest) == Http2 && VersionFrom("HTTP/3" + rest) == Http3
    ensures VersionFrom(s) == NoVersion <==>
            !("HTTP/1.0" <= s) && !("HTTP/1.1" <= s) && !("HTTP/2" <= s) && !("HTTP/3" <= s)
  {
    PartsAt("HTTP/1.0", "HTTP/1.1", rest, 7);
    PartsAt("HTTP/1.0", "HTTP/2", rest, 5);
    PartsAt("HTTP/1.1", "HTTP/2", rest, 5);
    PartsAt("HTTP/1.0", "HTTP/3", rest, 5);
    PartsAt("HTTP/1.1", "HTTP/3", rest, 5);
    PartsAt("HTTP/2", "HTTP/3", rest, 5);
  }

  lemma PartsAt(a: string, b: string, rest: string, i: nat)
    requires i < |a| && i < |b| && a[i] != b[i]
    ensures !(a <= b + rest) && b <= b + rest
  {
    assert (b + rest)[i] == b[i];
  }

  lemma ThreeTokens(a: string, b: string, c: string)
    requires a != "" && b != "" && c != "" && ' ' !in a && ' ' !in b && ' ' !in c
    ensures SplitLimit(a + [' '] + (b + [' '] + c), ' ', 3) == [a, b, c]
  {
    TokensCons(a, ' ', b + [' '] + c);
    TokensCons(b, ' ', c);
    assert Tokens(c, ' ') == [c];
    assert [a] + ([b] + [c]) == [a, b, c];
    NonEmptyOfThree(a, b, c);
  }

  lemma NonEmptyOfThree(a: string, b: string, c: string)
    requires a != "" && b != "" && c != ""
    ensures NonEmpty([a, b, c]) == [a, b, c]
  {
    assert [a, b, c][1..] == [b, c] && [b, c][1..] == [c] && [c][1..] == [];
    assert NonEmpty([c]) == [c];
  }

  /** A request line of two parts, or of three with two spaces together, lacks a part. */
  lemma FewParts(a: string, b: string, c: string, rest: seq<string>)
    requires ' ' !in a && ' ' !in b
    ensures ParseLines([a + " " + b] + rest) == Err(MissingPart)
    ensures ParseLines([a + "  " + c] + rest) == Err(MissingPart)
  {
    hide SplitLimit;
    LimitCountsEmptyTokens(a, ' ', b, 2);
    LimitCountsEmptyTokens(b, ' ', "", 1);
    LimitCountsEmptyTokens(a, ' ', " " + c, 2);
    LimitCountsEmptyTokens("", ' ', c, 1);
    AtMost(c);
    assert a + "  " + c == a + [' '] + (" " + c) && "" + [' '] + c == " " + c;
    assert a + " " + b == a + [' '] + b;
  }

  lemma AtMost(c: string)
    ensures |SplitLimit(c, ' ', 1)| <= 1
  {
    hide Tokens;
    NonEmptyIsNoLonger(Take(Tokens(c, ' '), 1));
  }

  lemma FirstLineParses(verb: Method, target: string)
    requires target != "" && ' ' !in target
    ensures SplitLimit(MethodText(verb) + " " + target + " " + "HTTP/1.1" + "\r", ' ', 3)
         == [MethodText(verb), target, "HTTP/1.1\r"]
  {
    hide MethodText, SplitLimit;
    var name, version := MethodText(verb), "HTTP/1.1\r";
    MethodRoundTrip(verb);
    assert "HTTP/1.1" + "\r" == version;
    assert name + " " + target + " " + "HTTP/1.1" + "\r" == name + [' '] + (target + [' '] + version);
    ThreeTokens(name, target, version);
  }

  lemma JoinFree(parts: seq<string>, d: char, c: char)
    requires c != d && forall p :: p in parts ==> c !in p
    ensures c !in Join(parts, d)
  {
    if |parts| > 1 {
      JoinFree(parts[1..], d, c);
    }
  }

  lemma QueryTextPrintable(query: Params, order: seq<string>)
    requires forall k :: k in order ==> k in query
    requires forall k :: k in query ==> Printable(k) && Printable(query[k])
    ensures Printable(QueryText(query, order))
  {
    forall t | t in PairTexts(query, order)
      ensures Printable(t)
    {
      var i :| 0 <= i < |order| && t == PairText(order[i], query[order[i]]);
      assert order[i] in query;
    }
    JoinFree(PairTexts(query, order), '&', ' ');
    JoinFree(PairTexts(query, order), '&', '\n');
  }

  lemma SlashInFront(text: string)
    ensures Split("/" + text, '/') == Split(text, '/')
  {
    hide Tokens, NonEmpty;
    SplitConcat("", '/', text);
    NothingLeft('/');
    NonEmptyOfNothing();
    assert "" + ['/'] + text == "/" + text;
  }

  lemma QuestionMarkFound(before: string, behind: string)
    requires '?' !in before
    ensures var target := before + "?" + behind;
            && Find(target, '?', 0) == |before| < |target|
            && target[..|before|] == before && target[|before| + 1..] == behind
  {
    var target := before + "?" + behind;
    assert target[|before|] == '?';
    assert forall k :: 0 <= k < |before| ==> target[k] == before[k];
  }

  /**
    A target is cut at its first question mark, and the path in front is kept as it is spelled; with
    nothing in front the whole target becomes the path. Without a question mark the path is made canonical.
   */
  lemma TargetIsCut(path: string, query: string)
    requires '?' !in path
    ensures var (found, pairs) := ParseTarget(path + "?" + query);
            && found == (if path != "" then path else Canonical("?" + query))
            && pairs == ParsePairs(Split(query, '&'), map[])
    ensures ParseTarget(path) == (Canonical(path), map[])
  {
    hide Split, Canonical, ParsePairs;
    QuestionMarkFound(path, query);
    assert "" + "?" + query == "?" + query;
  }

  /** A target whose query is a list of bare names stores each name with an empty value. */
  lemma BareNamesOfTarget(path: string, names: seq<string>)
    requires '?' !in path && path != ""
    requires IsSegments(names, '&') && forall n :: n in names ==> '=' !in n
    ensures var r := ParseTarget(path + "?" + Join(names, '&')).1;
            forall n :: (n in r <==> n in names) && (n in r ==> r[n] == "")
  {
    hide Split, Join, ParsePairs, ParseTarget;
    TargetIsCut(path, Join(names, '&'));
    BareNames(names);
  }

  /** Without a query. */
  lemma PlainTargetParses(text: string)
    requires '?' !in text
    ensures var (path, query) := ParseTarget("/" + text);
            path == Canonical(text) && Split(path, '/') == Split(text, '/') && query == map[]
  {
    hide Split, Canonical;
    CanonicalKeepsSegments("/" + text);
    CanonicalForm("/" + text, text);
    SlashInFront(text);
  }

  /** With one. */
  lemma QueryTargetParses(text: string, query: Params, order: seq<string>)
    requires '?' !in text && QuerySafe(query) && Enumerates(order, query.Keys)
    ensures var (path, found) := ParseTarget("/" + text + "?" + Join(PairTexts(query, order), '&'));
            path == "/" + text && Split(path, '/') == Split(text, '/') && found == query
  {
    hide Split, Canonical, ParsePairs, PairTexts, Join, QuerySafe;
    var pairs := Join(PairTexts(query, order), '&');
    QuestionMarkFound("/" + text, pairs);
    SlashInFront(text);
    QueryRoundTrip(query, order);
  }

  /** The path that the receiver sees: canonical without a query, and as printed with one. */
  function SentPath(m: Outgoing): string
    requires m.path != "" || m.params != map[]
  {
    if m.query == map[] then Canonical(PathText(m.path, m.params)) else "/" + PathText(m.path, m.params)
  }

  lemma TargetParses(m: Outgoing, order: seq<string>)
    requires (m.path != "" || m.params != map[]) && TargetSafe(m) && Enumerates(order, m.query.Keys)
    ensures var (path, query) := ParseTarget(Target(m, order));
            path == SentPath(m) && Split(path, '/') == Split(PathText(m.path, m.params), '/') && query == m.query
  {
    hide PathText, Split, Canonical, ParseTarget, PairTexts, Join, QuerySafe;
    var text := PathText(m.path, m.params);
    if m.query == map[] {
      assert Target(m, order) == "/" + text;
      PlainTargetParses(text);
    } else {
      assert Target(m, order) == "/" + text + "?" + Join(PairTexts(m.query, order), '&');
      QueryTargetParses(text, m.query, order);
    }
  }

  // ---------------------------------------------------------------------------------------------
  // The fields
  // ---------------------------------------------------------------------------------------------

  lemma {:induction false} WithCrAppend(a: seq<string>, b: seq<string>)
    ensures WithCr(a + b) == WithCr(a) + WithCr(b)
  {
    if a == [] {
      assert a + b == b;
    } else {
      assert (a + b)[1..] == a[1..] + b;
      WithCrAppend(a[1..], b);
    }
  }

  lemma LowerAgent()
    ensures ToLower("User-Agent") == "user-agent" && KeyReadable("User-Agent")
  {
    assert ToLower("User-Agent") == "user-agent";
    assert "User-Agent"[2..] == "er-Agent";
  }

  lemma LowerLength()
    ensures ToLower("Content-Length") == "content-length" && KeyReadable("Content-Length")
  {
    assert ToLower("Content-Length") == "content-length";
    assert "Content-Length"[2..] == "ntent-Length";
  }

  lemma AgentParses(rest: seq<string>, found: Fields)
    ensures ParseFields([FieldText("User-Agent", "Asio/RoutineHttp") + "\r"] + rest, found)
         == ParseFields(rest, Emplace(found, "user-agent", "Asio/RoutineHttp"))
  {
    LowerAgent();
    ParseFieldsStep("User-Agent", "Asio/RoutineHttp", rest, found);
  }

  lemma LengthParses(n: nat, rest: seq<string>, found: Fields)
    ensures ParseFields([FieldText("Content-Length", ToDecimal(n)) + "\r"] + rest, found)
         == ParseFields(rest, Emplace(found, "content-length", ToDecimal(n)))
  {
    LowerLength();
    ParseFieldsStep("Content-Length", ToDecimal(n), rest, found);
  }

  lemma ExtrasParse(m: Outgoing)
    ensures ParseFields(WithCr(Extras(m)), m.fields) == Ok(SentFields(m))
  {
    hide FieldText, KeyReadable, ToDecimal;
    var agent := if "user-agent" in m.fields then [] else [FieldText("User-Agent", "Asio/RoutineHttp")];
    var length := if m.body == None then [] else [FieldText("Content-Length", ToDecimal(|m.body.value|))];
    WithCrAppend(agent, length);
    var found := Emplace(m.fields, "user-agent", "Asio/RoutineHttp");
    if "user-agent" in m.fields {
      assert WithCr(agent) + WithCr(length) == WithCr(length);
    } else {
      assert WithCr(agent) == [agent[0] + "\r"];
      AgentParses(WithCr(length), m.fields);
    }
    if m.body.Some? {
      assert WithCr(length) == [length[0] + "\r"] + [];
      LengthParses(|m.body.value|, [], found);
    }
  }

  lemma FieldsOfMessageParse(m: Outgoing, order: seq<string>)
    requires FieldsSafe(m.fields) && Enumerates(order, m.fields.Keys)
    ensures ParseFields(WithCr(FieldTexts(m.fields, order) + Extras(m)), map[]) == Ok(SentFields(m))
  {
    hide WithCr, FieldTexts, ParseFields, Extras;
    WithCrAppend(FieldTexts(m.fields, order), Extras(m));
    FieldsParse(m.fields, order, WithCr(Extras(m)), map[]);
    StoredAll(m.fields, order, map[]);
    assert Stored(m.fields, order, map[]) == m.fields;
    ExtrasParse(m);
  }

  // ---------------------------------------------------------------------------------------------
  // The whole head of the message
  // ---------------------------------------------------------------------------------------------

  lemma {:induction false} DecimalHasNoNewline(n: nat)
    ensures '\n' !in ToDecimal(n)
  {
    var s := ToDecimal(n);
    assert forall i :: 0 <= i < |s| ==> IsDigit(s[i]);
  }

  lemma ExtrasHaveNoNewline(m: Outgoing)
    ensures forall t :: t in Extras(m) ==> '\n' !in t && t != "" && t[0] != '\r'
  {
    if m.body.Some? {
      DecimalHasNoNewline(|m.body.value|);
    }
  }

  lemma LinesHaveNoNewline(m: Outgoing, fieldOrder: seq<string>, queryOrder: seq<string>)
    requires Sendable(m) && Enumerates(fieldOrder, m.fields.Keys) && Enumerates(queryOrder, m.query.Keys)
    ensures Printable(Target(m, queryOrder))
    ensures forall t :: t in Lines(m, fieldOrder, queryOrder) ==> '\n' !in t
  {
    hide FieldTexts, Extras, MethodText, QueryText, PathText;
    MethodRoundTrip(m.verb);
    QueryTextPrintable(m.query, queryOrder);
    FieldTextsHaveNoNewline(m.fields, fieldOrder);
    ExtrasHaveNoNewline(m);
  }

  /**
    The head of a printed request, whatever the order in which its hash tables were printed, parses
    to the same method, path segments, query and fields, with the two default fields added.
   */
  lemma HeadRoundTrip(m: Outgoing, fieldOrder: seq<string>, queryOrder: seq<string>)
    requires Sendable(m) && Enumerates(fieldOrder, m.fields.Keys) && Enumerates(queryOrder, m.query.Keys)
    ensures var r := ParseRequest(Block(Lines(m, fieldOrder, queryOrder)));
            && r.Ok? && r.value.verb == m.verb && r.value.version == Http11
            && r.value.path == SentPath(m) && Split(r.value.path, '/') == Split(PathText(m.path, m.params), '/')
            && r.value.query == m.query && r.value.fields == SentFields(m)
  {
    hide Tokens, Block, WithCr, ParseLines, MethodText, FieldTexts, Extras, PathText, Split, QueryText, SentFields,
         ParseTarget, ParseFields;
    var target := Target(m, queryOrder);
    var first := MethodText(m.verb) + " " + target + " " + "HTTP/1.1";
    var rest := FieldTexts(m.fields, fieldOrder) + Extras(m);
    LinesHaveNoNewline(m, fieldOrder, queryOrder);
    assert Lines(m, fieldOrder, queryOrder) == [first] + rest;
    BlockTokens(Lines(m, fieldOrder, queryOrder));
    WithCrCons(first, rest);
    HeadParses(m, target, WithCr(rest));
    TargetParses(m, queryOrder);
    FieldsOfMessageParse(m, fieldOrder);
  }

  lemma WithCrCons(first: string, rest: seq<string>)
    ensures WithCr([first] + rest) == [first + "\r"] + WithCr(rest)
  {
    assert ([first] + rest)[1..] == rest;
  }

  /** The text on the wire, for a canonical path and one query parameter and field of any content. */
  lemma WireText(path: string, name: string, value: string, key: string, text: string, body: string)
    requires path != "" && Canonical(path) == path && path[|path| - 1] != '/' && key != "user-agent"
    ensures PrintRequest(Outgoing(Post, path, map[], map[name := value], map[key := text], Some(body)), [key], [name]) ==
            "POST /" + path + "?" + name + "=" + value + " HTTP/1.1\r\n" + key + ": " + text + "\r\n"
            + "User-Agent: Asio/RoutineHttp\r\n" + "Content-Length: " + ToDecimal(|body|) + "\r\n" + "\r\n" + body
    ensures PrintRequest(Outgoing(Get, path, map[], map[], map[key := text], None), [key], []) ==
            "GET /" + path + " HTTP/1.1\r\n" + key + ": " + text + "\r\n" + "User-Agent: Asio/RoutineHttp\r\n" + "\r\n"
  {
    hide ToDecimal, PathText, QueryText, PrintRequest, Block, FieldTexts, Canonical;
    PrintedInPieces(Outgoing(Post, path, map[], map[name := value], map[key := text], Some(body)), [key], [name]);
    PrintedInPieces(Outgoing(Get, path, map[], map[], map[key := text], None), [key], []);
    CanonicalPathText(path);
    OneFieldText(key, text);
    OnePairText(name, value);
    RegroupPost(path, name, value, key, text, ToDecimal(|body|), body);
    RegroupGet(path, key, text);
  }

  lemma RegroupPost(path: string, name: string, value: string, key: string, text: string, n: string, body: string)
    ensures "POST" + " /" + path + ("?" + name + "=" + value) + " HTTP/1.1\r\n" + (key + ": " + text + "\r\n")
            + ("User-Agent: Asio/RoutineHttp\r\n" + ("Content-Length: " + n + "\r\n")) + "\r\n" + body
         == "POST /" + path + "?" + name + "=" + value + " HTTP/1.1\r\n" + key + ": " + text + "\r\n"
            + "User-Agent: Asio/RoutineHttp\r\n" + "Content-Length: " + n + "\r\n" + "\r\n" + body
  {
    assert "POST" + " /" == "POST /";
  }

  lemma RegroupGet(path: string, key: string, text: string)
    ensures "GET" + " /" + path + "" + " HTTP/1.1\r\n" + (key + ": " + text + "\r\n")
            + ("User-Agent: Asio/RoutineHttp\r\n" + "") + "\r\n" + ""
         == "GET /" + path + " HTTP/1.1\r\n" + key + ": " + text + "\r\n" + "User-Agent: Asio/RoutineHttp\r\n" + "\r\n"
  {
    assert "GET" + " /" == "GET /";
  }

  lemma CanonicalPathText(path: string)
    requires path != "" && Canonical(path) == path && path[|path| - 1] != '/'
    ensures PathText(path, map[]) == path
    ensures QueryText(map[], []) == ""
  {
    hide Canonical;
  }

  lemma OneFieldText(key: string, text: string)
    ensures Block(FieldTexts(map[key := text], [key])) == key + ": " + text + "\r\n"
  {
    assert [key][1..] == [];
    BlockOfOne(FieldText(key, text));
  }

  lemma OnePairText(name: string, value: string)
    ensures QueryText(map[name := value], [name]) == "?" + name + "=" + value
  {
    assert [name][1..] == [];
    assert name in map[name := value];
  }

  lemma HeadParses(m: Outgoing, target: string, lines: seq<string>)
    requires target != "" && ' ' !in target
    ensures var first := MethodText(m.verb) + " " + target + " " + "HTTP/1.1" + "\r";
            ParseLines([first] + lines) ==
            var (path, query) := ParseTarget(target);
            var fields := ParseFields(lines, map[]);
            if fields.Err? then Err(fields.error) else Ok(Message(m.verb, path, Http11, fields.value, query))
  {
    FirstLineParses(m.verb, target);
    MethodRoundTrip(m.verb);
    var first := MethodText(m.verb) + " " + target + " " + "HTTP/1.1" + "\r";
    assert ([first] + lines)[1..] == lines;
    assert "HTTP/1.1\r"[..8] == "HTTP/1.1";
    assert "HTTP/1.1\r"[..8][7] != "HTTP/1.0"[7];
    assert VersionFrom("HTTP/1.1\r") == Http11;
  }
}
