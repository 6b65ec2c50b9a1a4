/** Completing and printing responses: source/http/response.cpp. */
module Responses {
  import opened Outcomes
  import opened Text
  import opened Numerals
  import opened HeaderFields
  import opened Framing
  import Requests
  import RequestLaws

  /** The fields of a response once it has been prepared; only the length overrides what was there. */
  function CompleteFields(fields: Fields, date: string, body: Option<string>): Fields {
    var stamped := Emplace(Emplace(fields, "server", "RoutineHttpLibrary"), "date", date);
    if body == None then stamped["content-length" := "0"]
    else Emplace(stamped, "content-type", "text/plain")["content-length" := ToDecimal(|body.value|)]
  }

  /** `status` is the text of the status code, as in "404 Not Found". */
  function Lines(status: string, fields: Fields, order: seq<string>): seq<string>
    requires forall k :: k in order ==> k in fields
  {
    ["HTTP/1.1 " + status] + FieldTexts(fields, order)
  }

  function BodyText(body: Option<string>): string {
    if body == None then "" else body.value
  }

  function PrintResponse(status: string, fields: Fields, order: seq<string>, body: Option<string>): string
    requires forall k :: k in order ==> k in fields
  {
    Block(Lines(status, fields, order)) + "\r\n" + BodyText(body)
  }

  // ---------------------------------------------------------------------------------------------
  // Laws
  // ---------------------------------------------------------------------------------------------

  /** Preparing a response again changes nothing: it even keeps its first date. */
  lemma PreparedTwice(fields: Fields, first: string, second: string, body: Option<string>)
    ensures var once := CompleteFields(fields, first, body);
            CompleteFields(once, second, body) == once
  {
    var once := CompleteFields(fields, first, body);
    assert "server" in once && "date" in once && "content-length" in once;
    assert body.Some? ==> "content-type" in once;
    assert once["content-length" := once["content-length"]] == once;
  }

  /** The fields of a prepared response, one by one: defaults only where the handler set nothing. */
  lemma DefaultsAreThere(fields: Fields, date: string, body: Option<string>)
    ensures var complete := CompleteFields(fields, date, body);
            && "server" in complete && complete["server"] == OrElse(fields, "server", "RoutineHttpLibrary")
            && "date" in complete && complete["date"] == OrElse(fields, "date", date)
            && ("content-type" in complete <==> body.Some? || "content-type" in fields)
            && ("content-type" in complete ==> complete["content-type"] == OrElse(fields, "content-type", "text/plain"))
            && forall k :: k in complete && k !in fields ==> k in ["server", "date", "content-type", "content-length"]
  {
    hide ToDecimal;
  }

  function OrElse(fields: Fields, key: string, value: string): string {
    if key in fields then fields[key] else value
  }

  /** Whatever the handler put into the fields, the length is that of the body, and nothing else is replaced. */
  lemma LengthIsThatOfBody(fields: Fields, date: string, body: Option<string>)
    requires |BodyText(body)| < SIZE_LIMIT
    ensures var complete := CompleteFields(fields, date, body);
            && "content-length" in complete && StoUll(complete["content-length"]) == Ok(|BodyText(body)|)
            && forall k :: k in fields && k != "content-length" ==> k in complete && complete[k] == fields[k]
  {
    DecimalRoundTrip(|BodyText(body)|);
    assert ToDecimal(0) == "0";
  }

  lemma SafeWith(fields: Fields, key: string, value: string)
    requires FieldsSafe(fields) && FieldSafe(key, value)
    ensures FieldsSafe(Emplace(fields, key, value)) && FieldsSafe(fields[key := value])
  {
    hide FieldSafe;
  }

  predicate Plain(key: string) {
    |key| >= 2 && forall i :: 0 <= i < |key| ==> 'a' <= key[i] <= 'z' || key[i] == '-'
  }

  lemma PlainIsSafe(key: string, value: string)
    requires Plain(key) && '\n' !in value
    ensures FieldSafe(key, value)
  {
    assert forall i :: 0 <= i < |key| - 2 ==> key[2..][i] == key[i + 2];
    assert ToLower(key) == key;
  }

  lemma DefaultFieldsSafe(value: string)
    requires '\n' !in value
    ensures FieldSafe("date", value) && FieldSafe("content-length", value)
    ensures FieldSafe("server", "RoutineHttpLibrary") && FieldSafe("content-type", "text/plain")
  {
    hide FieldSafe;
    PlainIsSafe("date", value);
    PlainIsSafe("content-length", value);
    PlainIsSafe("server", "RoutineHttpLibrary");
    PlainIsSafe("content-type", "text/plain");
  }

  lemma LengthTextSafe(body: Option<string>)
    ensures '\n' !in "0" && (body.Some? ==> '\n' !in ToDecimal(|body.value|))
  {
    RequestLaws.DecimalHasNoNewline(|BodyText(body)|);
  }

  lemma CompleteFieldsSafe(fields: Fields, date: string, body: Option<string>)
    requires FieldsSafe(fields) && '\n' !in date
    ensures FieldsSafe(CompleteFields(fields, date, body))
  {
    hide FieldSafe, ToDecimal, Emplace, FieldsSafe;
    DefaultFieldsSafe(date);
    LengthTextSafe(body);
    var served := Emplace(fields, "server", "RoutineHttpLibrary");
    SafeWith(fields, "server", "RoutineHttpLibrary");
    var stamped := Emplace(served, "date", date);
    SafeWith(served, "date", date);
    if body == None {
      DefaultFieldsSafe("0");
      SafeWith(stamped, "content-length", "0");
    } else {
      var length := ToDecimal(|body.value|);
      DefaultFieldsSafe(length);
      SafeWith(stamped, "content-type", "text/plain");
      SafeWith(Emplace(stamped, "content-type", "text/plain"), "content-length", length);
    }
  }

  lemma LinesOfResponseAreSafe(status: string, fields: Fields, order: seq<string>)
    requires FieldsSafe(fields) && '\n' !in status && forall k :: k in order ==> k in fields
    ensures LinesSafe(Lines(status, fields, order))
  {
    hide FieldTexts, FieldsSafe, LinesSafe;
    FieldTextsHaveNoNewline(fields, order);
    FieldTextsStart(fields, order);
    SafeLines("HTTP/1.1 " + status, FieldTexts(fields, order), []);
    assert Lines(status, fields, order) + [] == Lines(status, fields, order);
  }

  /**
    A prepared response delimits itself: its first blank line is the one before the body, the lines
    above give back all its fields, and reading as many bytes as they announce, however the network
    cuts them, gives exactly the body. This holds for any fields the handler set, a wrong length included.
   */
  lemma ResponseFramed(status: string, fields: Fields, date: string, body: Option<string>, order: seq<string>, cut: nat)
    requires FieldsSafe(fields) && '\n' !in date && '\n' !in status
    requires Enumerates(order, CompleteFields(fields, date, body).Keys)
    requires |PrintResponse(status, CompleteFields(fields, date, body), order, body)| < SIZE_LIMIT
    requires IsCut(PrintResponse(status, CompleteFields(fields, date, body), order, body), cut)
    ensures var complete := CompleteFields(fields, date, body);
            var w := PrintResponse(status, complete, order, body);
            var b := FirstBlank(w, 0);
            && b < |w|
            && (var lines := Tokens(w[..b + 2], '\n');
                lines != [] && lines[0] == "HTTP/1.1 " + status + "\r" && ParseFields(lines[1..], map[]) == Ok(complete))
            && "content-length" in complete
            && var n := StoUll(complete["content-length"]);
               n.Ok? && ReadBody(n.value, w[b + 4..cut], w[cut..]) == Ok((BodyText(body), ""))
  {
    hide CompleteFields, Block, FirstBlank, StoUll, ReadBody, Tokens, ParseFields, FieldTexts, WithCr, LinesSafe,
         FieldsSafe, BodyText, PrintResponse;
    var complete := CompleteFields(fields, date, body);
    var lines := Lines(status, complete, order);
    var w := PrintResponse(status, complete, order, body);
    CompleteFieldsSafe(fields, date, body);
    LinesOfResponseAreSafe(status, complete, order);
    BlankLineComesFirst(lines, BodyText(body));
    ResponseEnd(status, complete, order, body);
    BlockEndsLine(lines);
    FieldsAbove(status, complete, order);
    LengthIsThatOfBody(fields, date, body);
    BodyOutcome(|BodyText(body)|, w, |Block(lines)| + 2, BodyText(body), "", cut);
  }

  lemma ResponseEnd(status: string, fields: Fields, order: seq<string>, body: Option<string>)
    requires forall k :: k in order ==> k in fields
    ensures var head, w := Block(Lines(status, fields, order)), PrintResponse(status, fields, order, body);
            w == head + "\r\n" + BodyText(body) && w[|head| + 2..] == BodyText(body) + ""
  {
    hide Block, Lines, BodyText;
  }

  /** The field lines of a response are those behind its first line. */
  lemma FieldsAbove(status: string, fields: Fields, order: seq<string>)
    requires FieldsSafe(fields) && '\n' !in status && Enumerates(order, fields.Keys)
    ensures var lines := Tokens(Block(Lines(status, fields, order)), '\n');
            lines != [] && lines[0] == "HTTP/1.1 " + status + "\r" && ParseFields(lines[1..], map[]) == Ok(fields)
  {
    hide Block, Tokens, ParseFields, FieldTexts, WithCr, FieldsSafe;
    var texts := FieldTexts(fields, order);
    FieldTextsHaveNoNewline(fields, order);
    BlockTokens(Lines(status, fields, order));
    BlockTokens(texts);
    FirstLineApart("HTTP/1.1 " + status, texts);
    BlockRoundTrip(fields, order);
  }

  lemma FirstLineApart(first: string, texts: seq<string>)
    ensures WithCr([first] + texts) != [] && WithCr([first] + texts)[0] == first + "\r"
    ensures WithCr([first] + texts)[1..] == WithCr(texts)
  {
    assert ([first] + texts)[1..] == texts;
  }

  /** The text on the wire, for one field of any content. */
  lemma WireText(status: string, key: string, value: string, body: Option<string>)
    ensures PrintResponse(status, map[key := value], [key], body) ==
            "HTTP/1.1 " + status + "\r\n" + key + ": " + value + "\r\n" + "\r\n" + BodyText(body)
  {
    hide Block, FieldTexts, PrintResponse;
    PrintedInPieces(status, map[key := value], [key], body);
    RequestLaws.OneFieldText(key, value);
  }

  // ---------------------------------------------------------------------------------------------
  // The object
  // ---------------------------------------------------------------------------------------------

  class Response {
    const status: string
    const headers: Headers
    const body: Option<string>

    constructor (status: string, headers: Headers, body: Option<string>)
      ensures this.status == status && this.headers == headers && this.body == body
    {
      this.status, this.headers, this.body := status, headers, body;
    }

    /** The date is that of the clock. */
    method PrepareResponse(date: string) returns (text: string, ghost order: seq<string>)
      modifies headers
      ensures headers.fields == CompleteFields(old(headers.fields), date, body)
      ensures Enumerates(order, headers.fields.Keys)
      ensures text == PrintResponse(status, headers.fields, order, body)
    {
      hide CompleteFields, Block, FieldTexts, PrintResponse;
      Complete(date);
      var lines;
      lines, order := Requests.Request.PrintFields(headers.fields);
      text := "HTTP/1.1 " + status + "\r\n" + lines + "\r\n" + (if body.Some? then body.value else "");
      PrintedInPieces(status, headers.fields, order, body);
    }

    method Complete(date: string)
      modifies headers
      ensures headers.fields == CompleteFields(old(headers.fields), date, body)
    {
      hide ToDecimal;
      ghost var fields := headers.fields;
      if !headers.Contains("server") {
        headers.Insert("server", "RoutineHttpLibrary");
      }
      assert headers.fields == Emplace(fields, "server", "RoutineHttpLibrary");
      headers.Insert("date", date);
      ghost var stamped := Emplace(Emplace(fields, "server", "RoutineHttpLibrary"), "date", date);
      assert headers.fields == stamped;
      if body.Some? {
        if !headers.Contains("content-type") {
          headers.Insert("content-type", "text/plain");
        }
        assert headers.fields == Emplace(stamped, "content-type", "text/plain");
      }
      headers.Assign("content-length", if body.Some? then ToDecimal(|body.value|) else "0");
    }
  }

  lemma PrintedInPieces(status: string, fields: Fields, order: seq<string>, body: Option<string>)
    requires forall k :: k in order ==> k in fields
    ensures PrintResponse(status, fields, order, body) ==
            "HTTP/1.1 " + status + "\r\n" + Block(FieldTexts(fields, order)) + "\r\n"
            + (if body.Some? then body.value else "")
  {
    hide Block, FieldTexts;
    BlockAppend(["HTTP/1.1 " + status], FieldTexts(fields, order));
    Requests.BlockOfOne("HTTP/1.1 " + status);
  }
}
