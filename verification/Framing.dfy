/**
  How a request is cut out of the bytes of a connection: do_read_headers and do_read_body of
  source/net/http_session.cpp.
 */
module Framing {
  import opened Outcomes
  import opened Text
  import opened Numerals
  import opened HeaderFields
  import opened Requests
  import opened RequestLaws

  predicate BlankAt(w: string, i: nat) {
    i + 4 <= |w| && w[i] == '\r' && w[i + 1] == '\n' && w[i + 2] == '\r' && w[i + 3] == '\n'
  }

  /** Where the first CRLFCRLF at or after i begins, or |w|. */
  function FirstBlank(w: string, i: nat): (b: nat)
    requires i <= |w|
    ensures i <= b <= |w|
    ensures b < |w| ==> BlankAt(w, b)
    ensures forall j :: i <= j < b ==> !BlankAt(w, j)
    decreases |w| - i
  {
    if i == |w| || BlankAt(w, i) then i else FirstBlank(w, i + 1)
  }

  /** A read that ends at the first CRLFCRLF may have taken any number of bytes behind it along. */
  predicate IsCut(w: string, cut: nat) {
    var b := FirstBlank(w, 0);
    cut <= |w| && (b < |w| ==> b + 4 <= cut)
  }

  /** A request, and what is left on the connection for the next read. */
  datatype Received = Received(message: Message, body: Option<string>, left: string)

  /**
    do_read_body: `buffered` is the part of the body that is in the buffer, `rest` has not been read yet.
    The answer is the body and what is left of the rest.
   */
  function ReadBody(n: nat, buffered: string, rest: string): Result<(string, string)> {
    var missing := (n - |buffered|) % SIZE_LIMIT; // size_t arithmetic
    if missing > |rest| then Err(EndOfStream) else Ok((buffered + rest[..missing], rest[missing..]))
  }

  /** What follows the head of a message. Without a body the buffer is dropped with all that is in it. */
  function ReceiveBody(message: Message, buffered: string, rest: string): Result<Received> {
    if "content-length" in message.fields then
      var n := StoUll(message.fields["content-length"]);
      if n.Err? then Err(n.error)
      else
        var body := ReadBody(n.value, buffered, rest);
        if body.Err? then Err(body.error) else Ok(Received(message, Some(body.value.0), body.value.1))
    else if "transfer-encoding" in message.fields && message.fields["transfer-encoding"] == "chunked" then
      Err(NotSupported)
    else Ok(Received(message, None, rest))
  }

  /** Reading one request from the bytes w, when the first read took `cut` of them. */
  function Receive(w: string, cut: nat): Result<Received>
    requires IsCut(w, cut)
  {
    var b := FirstBlank(w, 0);
    if b == |w| then Err(EndOfStream)
    else
      var message := ParseRequest(w[..b + 2]);
      if message.Err? then Err(message.error) else ReceiveBody(message.value, w[b + 4..cut], w[cut..])
  }

  // ---------------------------------------------------------------------------------------------
  // The first blank line
  // ---------------------------------------------------------------------------------------------

  /** Lines that hold no newline, and of which only the first may be empty or start with CR. */
  predicate LinesSafe(texts: seq<string>) {
    && (forall i :: 0 <= i < |texts| ==> '\n' !in texts[i])
    && (forall i :: 1 <= i < |texts| ==> texts[i] != "" && texts[i][0] != '\r')
  }

  lemma {:induction false} NewlineIsNotFollowedByCr(texts: seq<string>, j: nat)
    requires LinesSafe(texts) && j + 1 < |Block(texts)| && Block(texts)[j] == '\n'
    ensures Block(texts)[j + 1] != '\r'
  {
    var n := |texts[0]| + 2;
    var tail := Block(texts[1..]);
    assert Block(texts) == texts[0] + "\r\n" + tail;
    assert forall k :: 0 <= k < n - 2 ==> Block(texts)[k] == texts[0][k];
    if j == n - 1 {
      assert texts[1..] != [];
      assert Block(texts)[n] == tail[0] == texts[1][0];
    } else if j >= n {
      assert Block(texts)[j] == tail[j - n] && Block(texts)[j + 1] == tail[j + 1 - n];
      NewlineIsNotFollowedByCr(texts[1..], j - n);
    }
  }

  lemma {:induction false} BlockEndsLine(texts: seq<string>)
    requires texts != []
    ensures |Block(texts)| >= 2
    ensures Block(texts)[|Block(texts)| - 2..] == "\r\n"
  {
    if |texts| == 1 {
      assert texts[1..] == [];
    } else {
      BlockEndsLine(texts[1..]);
    }
  }

  /** The first CRLFCRLF of a message is its blank line, whatever bytes the body holds. */
  lemma BlankLineComesFirst(texts: seq<string>, body: string)
    requires texts != [] && LinesSafe(texts)
    ensures var w := Block(texts) + "\r\n" + body;
            FirstBlank(w, 0) == |Block(texts)| - 2 && w[..|Block(texts)|] == Block(texts)
  {
    var head := Block(texts);
    var w := head + "\r\n" + body;
    var n := |head|;
    BlockEndsLine(texts);
    assert w[n - 2] == head[n - 2..][0] && w[n - 1] == head[n - 2..][1];
    assert BlankAt(w, n - 2);
    forall i | 0 <= i < n - 2
      ensures !BlankAt(w, i)
    {
      assert w[i + 1] == head[i + 1] && w[i + 2] == head[i + 2];
      if head[i + 1] == '\n' {
        NewlineIsNotFollowedByCr(texts, i + 1);
      }
    }
  }

  /** Neither empty nor the beginning of a blank line. */
  predicate Starts(text: string) {
    text != "" && text[0] != '\r'
  }

  lemma FieldTextsStart(fields: Fields, order: seq<string>)
    requires FieldsSafe(fields) && forall k :: k in order ==> k in fields
    ensures forall i :: 0 <= i < |order| ==> Starts(FieldTexts(fields, order)[i])
  {
    forall i | 0 <= i < |order|
      ensures Starts(FieldTexts(fields, order)[i])
    {
      var key := order[i];
      assert FieldSafe(key, fields[key]);
      assert FieldText(key, fields[key])[0] == key[0];
    }
  }

  lemma SafeLines(first: string, texts: seq<string>, others: seq<string>)
    requires forall i :: 0 <= i < |texts| ==> Starts(texts[i])
    requires forall i :: 0 <= i < |others| ==> Starts(others[i])
    requires forall t :: t in [first] + texts + others ==> '\n' !in t
    ensures LinesSafe([first] + texts + others)
  {
    var lines := [first] + texts + others;
    forall i | 1 <= i < |lines|
      ensures Starts(lines[i])
    {
      assert lines[i] == if i <= |texts| then texts[i - 1] else others[i - 1 - |texts|];
    }
  }

  lemma LinesOfRequestAreSafe(m: Outgoing, fieldOrder: seq<string>, queryOrder: seq<string>)
    requires Sendable(m) && Enumerates(fieldOrder, m.fields.Keys) && Enumerates(queryOrder, m.query.Keys)
    ensures LinesSafe(Lines(m, fieldOrder, queryOrder))
  {
    hide Extras, FieldTexts, FieldsSafe, TargetSafe, Target, MethodText, LinesSafe;
    LinesHaveNoNewline(m, fieldOrder, queryOrder);
    ExtrasHaveNoNewline(m);
    FieldTextsStart(m.fields, fieldOrder);
    assert forall i :: 0 <= i < |Extras(m)| ==> Extras(m)[i] in Extras(m);
    SafeLines(MethodText(m.verb) + " " + Target(m, queryOrder) + " " + "HTTP/1.1", FieldTexts(m.fields, fieldOrder),
              Extras(m));
  }

  // ---------------------------------------------------------------------------------------------
  // The body
  // ---------------------------------------------------------------------------------------------

  /**
    The body read succeeds if and only if the first read took no more than the body along and the
    connection delivers all of it, and then it yields exactly the announced bytes and leaves the
    others. One buffered byte too many makes the unsigned difference wrap and the read wait for bytes
    that never come.
   */
  lemma BodyReadExactly(n: nat, buffered: string, rest: string)
    requires n < SIZE_LIMIT && |buffered| + |rest| < SIZE_LIMIT
    ensures ReadBody(n, buffered, rest) ==
            if |buffered| <= n <= |buffered| + |rest| then Ok(((buffered + rest)[..n], (buffered + rest)[n..]))
            else Err(EndOfStream)
  {
    if |buffered| <= n {
      WrapNot(n - |buffered|);
      if n <= |buffered| + |rest| {
        CutBehind(buffered, rest, n);
      }
    } else {
      WrapOnce(n - |buffered|);
    }
  }

  lemma CutBehind(a: string, b: string, n: nat)
    requires |a| <= n <= |a| + |b|
    ensures (a + b)[..n] == a + b[..n - |a|] && (a + b)[n..] == b[n - |a|..]
  {
  }

  lemma WrapNot(d: nat)
    requires d < SIZE_LIMIT
    ensures d % SIZE_LIMIT == d
  {
  }

  lemma WrapOnce(d: int)
    requires -(SIZE_LIMIT as int) <= d < 0
    ensures d % SIZE_LIMIT == d + SIZE_LIMIT
  {
  }

  /** The first read took bytes along that lie behind the announced body. */
  predicate Overread(message: Message, buffered: nat) {
    "content-length" in message.fields
    && var n := StoUll(message.fields["content-length"]);
       n.Ok? && n.value < buffered
  }

  /** The same outcome, except that bytes dropped behind a request without a body may differ. */
  predicate Agree(r: Result<Received>, s: Result<Received>) {
    if r.Err? then r == s
    else s.Ok? && r.value.message == s.value.message && r.value.body == s.value.body
         && (r.value.body.Some? ==> r.value.left == s.value.left)
  }

  /**
    Where the first read stops makes no difference, in success and in failure, as long as it does not
    reach past the body; and if it does, the request is not received.
   */
  lemma CutDoesNotMatter(w: string, c1: nat, c2: nat)
    requires |w| < SIZE_LIMIT && IsCut(w, c1) && IsCut(w, c2)
    ensures var b := FirstBlank(w, 0);
            b < |w| && ParseRequest(w[..b + 2]).Ok? ==>
              var message := ParseRequest(w[..b + 2]).value;
              && (Overread(message, c1 - b - 4) ==> Receive(w, c1) == Err(EndOfStream))
              && (!Overread(message, c1 - b - 4) && !Overread(message, c2 - b - 4) ==>
                    Agree(Receive(w, c1), Receive(w, c2)))
    ensures var b := FirstBlank(w, 0);
            b == |w| || ParseRequest(w[..b + 2]).Err? ==> Receive(w, c1) == Receive(w, c2)
  {
    hide FirstBlank, ParseRequest, ReceiveBody, Overread, Agree;
    var b := FirstBlank(w, 0);
    if b < |w| && ParseRequest(w[..b + 2]).Ok? {
      CutsAgree(ParseRequest(w[..b + 2]).value, w, b + 4, c1, c2);
    }
  }

  lemma CutsAgree(message: Message, w: string, start: nat, c1: nat, c2: nat)
    requires start <= c1 <= |w| < SIZE_LIMIT && start <= c2 <= |w|
    ensures var r := ReceiveBody(message, w[start..c1], w[c1..]);
            var s := ReceiveBody(message, w[start..c2], w[c2..]);
            && (Overread(message, c1 - start) ==> r == Err(EndOfStream))
            && (!Overread(message, c1 - start) && !Overread(message, c2 - start) ==> Agree(r, s))
  {
    hide StoUll, ReadBody;
    if "content-length" in message.fields && StoUll(message.fields["content-length"]).Ok? {
      var n := StoUll(message.fields["content-length"]).value;
      BodyReadExactly(n, w[start..c1], w[c1..]);
      BodyReadExactly(n, w[start..c2], w[c2..]);
      assert w[start..c1] + w[c1..] == w[start..] == w[start..c2] + w[c2..];
    }
  }

  // ---------------------------------------------------------------------------------------------
  // Framed round trip
  // ---------------------------------------------------------------------------------------------

  /** What arrived says what was sent, with the default fields. */
  predicate SameHead(m: Outgoing, message: Message)
    requires m.path != "" || m.params != map[]
  {
    && message.verb == m.verb && message.version == Http11
    && message.path == SentPath(m) && Split(message.path, '/') == Split(PathText(m.path, m.params), '/')
    && message.query == m.query && message.fields == SentFields(m)
  }

  /**
    What prepare_request prints, in any iteration order, however the network splits it between the
    first and the second read and whatever the client sends behind it, is received, if at all, with the
    same method, path segments, query and fields (and the defaults). It is received with the same body
    and leaves on the connection exactly what was sent behind it if and only if the first read stopped
    no later than the request and the fields that the caller set do not announce another body: they win
    over the length that is printed after them.
   */
  lemma FramedRoundTrip(m: Outgoing, fieldOrder: seq<string>, queryOrder: seq<string>, behind: string, cut: nat)
    requires Sendable(m) && Enumerates(fieldOrder, m.fields.Keys) && Enumerates(queryOrder, m.query.Keys)
    requires IsCut(PrintRequest(m, fieldOrder, queryOrder) + behind, cut)
    requires |PrintRequest(m, fieldOrder, queryOrder)| + |behind| < SIZE_LIMIT
    ensures var sent := PrintRequest(m, fieldOrder, queryOrder);
            var r := Receive(sent + behind, cut);
            && (r.Ok? ==> SameHead(m, r.value.message))
            && (r.Ok? && r.value.body == m.body ==> BodySafe(m))
            && (r.Ok? && r.value.body == m.body && r.value.left == behind <==> BodySafe(m) && cut <= |sent|)
  {
    hide PathText, Block, FirstBlank, ParseRequest, Split, Lines, BodySafe, SentFields, ReceiveBody, BodyText;
    var lines := Lines(m, fieldOrder, queryOrder);
    var head, body := Block(lines), BodyText(m);
    var sent := PrintRequest(m, fieldOrder, queryOrder);
    LinesOfRequestAreSafe(m, fieldOrder, queryOrder);
    LinesNotEmpty(m, fieldOrder, queryOrder);
    PrintedEnd(m, fieldOrder, queryOrder, behind);
    BlankLineComesFirst(lines, body + behind);
    HeadRoundTrip(m, fieldOrder, queryOrder);
    BodyReceived(m, ParseRequest(head).value, sent + behind, |head| + 2, behind, cut);
  }

  /**
    Printed requests that are refused: a chunked one without a length, one whose length is no number or
    too large, and one that announces more than the connection delivers.
   */
  lemma RefusedRequests(m: Outgoing, fieldOrder: seq<string>, queryOrder: seq<string>, behind: string, cut: nat)
    requires Sendable(m) && Enumerates(fieldOrder, m.fields.Keys) && Enumerates(queryOrder, m.query.Keys)
    requires IsCut(PrintRequest(m, fieldOrder, queryOrder) + behind, cut)
    requires |PrintRequest(m, fieldOrder, queryOrder)| + |behind| < SIZE_LIMIT
    ensures var r := Receive(PrintRequest(m, fieldOrder, queryOrder) + behind, cut);
            if "content-length" !in m.fields then
              m.body == None && "transfer-encoding" in m.fields && m.fields["transfer-encoding"] == "chunked" ==>
                r == Err(NotSupported)
            else
              var n := StoUll(m.fields["content-length"]);
              if n.Err? then r == Err(n.error)
              else n.value > |BodyText(m)| + |behind| ==> r == Err(EndOfStream)
  {
    hide PathText, Block, FirstBlank, ParseRequest, Split, Lines, ReceiveBody, BodyText, StoUll, SentFields;
    var lines := Lines(m, fieldOrder, queryOrder);
    var head := Block(lines);
    LinesOfRequestAreSafe(m, fieldOrder, queryOrder);
    LinesNotEmpty(m, fieldOrder, queryOrder);
    PrintedEnd(m, fieldOrder, queryOrder, behind);
    BlankLineComesFirst(lines, BodyText(m) + behind);
    HeadRoundTrip(m, fieldOrder, queryOrder);
    BodyRefused(m, ParseRequest(head).value, PrintRequest(m, fieldOrder, queryOrder) + behind, |head| + 2, cut);
  }

  lemma BodyRefused(m: Outgoing, message: Message, w: string, start: nat, cut: nat)
    requires start <= cut <= |w| < SIZE_LIMIT && message.fields == SentFields(m)
    ensures var r := ReceiveBody(message, w[start..cut], w[cut..]);
            if "content-length" !in m.fields then
              m.body == None && "transfer-encoding" in m.fields && m.fields["transfer-encoding"] == "chunked" ==>
                r == Err(NotSupported)
            else
              var n := StoUll(m.fields["content-length"]);
              if n.Err? then r == Err(n.error) else n.value > |w| - start ==> r == Err(EndOfStream)
  {
    hide StoUll, ReadBody, ToDecimal;
    if "content-length" in m.fields && StoUll(m.fields["content-length"]).Ok? {
      BodyReadExactly(StoUll(m.fields["content-length"]).value, w[start..cut], w[cut..]);
    }
  }

  /** Without CRLFCRLF there is no request, and no byte is left to read. */
  lemma NoRequest(w: string, cut: nat)
    requires IsCut(w, cut)
    ensures (forall i: nat :: !BlankAt(w, i)) ==> Receive(w, cut) == Err(EndOfStream)
  {
  }

  /** The first read ends at a CRLFCRLF, the first there is. */
  lemma BlankFound(a: string, b: string)
    ensures FirstBlank(a + "\r\n\r\n" + b, 0) <= |a|
  {
    BlankBetween(a, b);
  }

  lemma BlankBetween(a: string, b: string)
    ensures BlankAt(a + "\r\n\r\n" + b, |a|)
  {
    var w, blank := a + "\r\n\r\n" + b, "\r\n\r\n";
    assert forall k :: 0 <= k < 4 ==> w[|a| + k] == blank[k];
    assert blank[0] == '\r' && blank[1] == '\n' && blank[2] == '\r' && blank[3] == '\n';
    assert w[|a| + 0] == blank[0] && w[|a| + 1] == blank[1] && w[|a| + 2] == blank[2] && w[|a| + 3] == blank[3];
  }

  /** It may take any number of the bytes behind it along. */
  lemma AnyCut(w: string, extra: nat)
    requires FirstBlank(w, 0) + 4 + extra <= |w|
    ensures IsCut(w, FirstBlank(w, 0) + 4 + extra)
  {
  }

  function BodyText(m: Outgoing): string {
    if m.body == None then "" else m.body.value
  }

  lemma PrintedEnd(m: Outgoing, fieldOrder: seq<string>, queryOrder: seq<string>, behind: string)
    requires m.path != "" || m.params != map[]
    requires forall k :: k in fieldOrder ==> k in m.fields
    requires forall k :: k in queryOrder ==> k in m.query
    ensures var head, w := Block(Lines(m, fieldOrder, queryOrder)), PrintRequest(m, fieldOrder, queryOrder) + behind;
            && w == head + "\r\n" + (BodyText(m) + behind) && w[|head| + 2..] == BodyText(m) + behind
            && |PrintRequest(m, fieldOrder, queryOrder)| == |head| + 2 + |BodyText(m)|
  {
    hide Block, Lines;
  }

  /** The part of the round trip that begins when the head has been parsed. */
  lemma BodyReceived(m: Outgoing, message: Message, w: string, start: nat, behind: string, cut: nat)
    requires start <= cut <= |w| < SIZE_LIMIT && message.fields == SentFields(m)
    requires w[start..] == BodyText(m) + behind
    ensures var r := ReceiveBody(message, w[start..cut], w[cut..]);
            && (r.Ok? ==> r.value.message == message)
            && (r.Ok? && r.value.body == m.body ==> BodySafe(m))
            && (r.Ok? && r.value.body == m.body && r.value.left == behind <==>
                BodySafe(m) && cut <= start + |BodyText(m)|)
  {
    hide StoUll, ReadBody, SentFields, BodySafe;
    SentLength(m);
    if "content-length" in message.fields {
      if StoUll(message.fields["content-length"]).Ok? {
        BodyOutcome(StoUll(message.fields["content-length"]).value, w, start, BodyText(m), behind, cut);
      }
    } else {
      assert |w[cut..]| == |w[start..]| - (cut - start);
    }
  }

  /** What the sent fields say about the body. */
  lemma SentLength(m: Outgoing)
    requires m.body.Some? ==> |m.body.value| < SIZE_LIMIT
    ensures var fields := SentFields(m);
            if "content-length" in fields then
              BodySafe(m) <==> m.body.Some? && StoUll(fields["content-length"]) == Ok(|m.body.value|)
            else
              m.body == None
              && (BodySafe(m) <==> !("transfer-encoding" in fields && fields["transfer-encoding"] == "chunked"))
  {
    hide StoUll, ToDecimal;
    if m.body.Some? {
      DecimalRoundTrip(|m.body.value|);
    }
  }

  lemma BodyOutcome(n: nat, w: string, start: nat, body: string, behind: string, cut: nat)
    requires n < SIZE_LIMIT && start <= cut <= |w| < SIZE_LIMIT && w[start..] == body + behind
    ensures var r := ReadBody(n, w[start..cut], w[cut..]);
            && (r.Ok? && r.value.0 == body <==> n == |body| && cut <= start + |body|)
            && (r.Ok? && r.value.0 == body ==> r.value.1 == behind)
  {
    hide ReadBody;
    BodyReadExactly(n, w[start..cut], w[cut..]);
    assert w[start..cut] + w[cut..] == w[start..];
    assert (body + behind)[..|body|] == body && (body + behind)[|body|..] == behind;
  }

  lemma LinesNotEmpty(m: Outgoing, fieldOrder: seq<string>, queryOrder: seq<string>)
    requires m.path != "" || m.params != map[]
    requires forall k :: k in fieldOrder ==> k in m.fields
    requires forall k :: k in queryOrder ==> k in m.query
    ensures Lines(m, fieldOrder, queryOrder) != []
  {
  }

  // ---------------------------------------------------------------------------------------------
  // One request after the other
  // ---------------------------------------------------------------------------------------------

  /** The first read takes `extra` bytes along behind the blank line, if there are so many. */
  function Cut(w: string, extra: nat): (cut: nat)
    ensures IsCut(w, cut)
  {
    var b := FirstBlank(w, 0);
    if b + 4 + extra <= |w| then b + 4 + extra else |w|
  }

  /** A connection on which the next text arrives only when the request before it has been received. */
  function ReceiveAll(left: string, texts: seq<string>, extras: seq<nat>): Result<seq<Received>>
    requires |extras| == |texts|
    decreases |texts|
  {
    if texts == [] then Ok([])
    else
      var w := left + texts[0];
      var first := Receive(w, Cut(w, extras[0]));
      if first.Err? then Err(first.error)
      else
        var others := ReceiveAll(first.value.left, texts[1..], extras[1..]);
        if others.Err? then others else Ok([first.value] + others.value)
  }

  /** A request and the order in which its hash tables are printed. */
  datatype Sending = Sending(m: Outgoing, fieldOrder: seq<string>, queryOrder: seq<string>) {
    ghost predicate Fit() {
      && Sendable(m) && BodySafe(m)
      && Enumerates(fieldOrder, m.fields.Keys) && Enumerates(queryOrder, m.query.Keys)
      && |PrintRequest(m, fieldOrder, queryOrder)| < SIZE_LIMIT
    }

    ghost function Text(): string
      requires Fit()
    {
      PrintRequest(m, fieldOrder, queryOrder)
    }

    ghost predicate Arrived(r: Received)
      requires Fit()
    {
      SameHead(m, r.message) && r.body == m.body && r.left == ""
    }
  }

  ghost predicate AllFit(sendings: seq<Sending>) {
    forall i :: 0 <= i < |sendings| ==> sendings[i].Fit()
  }

  ghost predicate AllArrived(sendings: seq<Sending>, rs: seq<Received>)
    requires AllFit(sendings)
  {
    |rs| == |sendings| && forall i :: 0 <= i < |sendings| ==> sendings[i].Arrived(rs[i])
  }

  ghost function Texts(sendings: seq<Sending>): (texts: seq<string>)
    requires AllFit(sendings)
    ensures |texts| == |sendings|
    ensures forall i :: 0 <= i < |sendings| ==> texts[i] == sendings[i].Text()
  {
    seq(|sendings|, i requires 0 <= i < |sendings| => sendings[i].Text())
  }

  lemma OneArrives(s: Sending, extra: nat)
    requires s.Fit()
    ensures var r := Receive(s.Text(), Cut(s.Text(), extra)); r.Ok? && s.Arrived(r.value)
  {
    hide Receive, Sendable, PrintRequest, BodySafe, Cut, SameHead, FirstBlank;
    assert s.Text() + "" == s.Text();
    FramedRoundTrip(s.m, s.fieldOrder, s.queryOrder, "", Cut(s.Text(), extra));
  }

  lemma ReceiveFirst(texts: seq<string>, extras: seq<nat>, first: Received)
    requires |extras| == |texts| > 0
    ensures Receive(texts[0], Cut(texts[0], extras[0])) == Ok(first) && first.left == "" ==>
              var others := ReceiveAll("", texts[1..], extras[1..]);
              others.Ok? ==> ReceiveAll("", texts, extras) == Ok([first] + others.value)
  {
    hide Receive, Cut;
    assert "" + texts[0] == texts[0];
  }

  lemma SplitFirst(sendings: seq<Sending>)
    requires sendings != [] && AllFit(sendings)
    ensures sendings[0].Fit() && AllFit(sendings[1..])
    ensures Texts(sendings)[0] == sendings[0].Text() && Texts(sendings)[1..] == Texts(sendings[1..])
  {
    hide Sending.Fit, Sending.Text;
  }

  lemma JoinFirst(sendings: seq<Sending>, first: Received, others: seq<Received>)
    requires sendings != [] && AllFit(sendings)
    ensures AllFit(sendings[1..])
    ensures sendings[0].Arrived(first) && AllArrived(sendings[1..], others) ==> AllArrived(sendings, [first] + others)
  {
    hide Sending.Fit, Sending.Arrived;
    forall i | 1 <= i < |sendings| && AllArrived(sendings[1..], others)
      ensures sendings[i].Arrived(([first] + others)[i])
    {
      assert sendings[i] == sendings[1..][i - 1];
    }
  }

  /** On a kept-alive connection every request arrives as it was sent, however each of them is cut. */
  lemma {:induction false} KeepAliveRoundTrip(sendings: seq<Sending>, extras: seq<nat>)
    requires |extras| == |sendings| && AllFit(sendings)
    ensures var r := ReceiveAll("", Texts(sendings), extras);
            r.Ok? && AllArrived(sendings, r.value)
  {
    if sendings != [] {
      hide Receive, ReceiveAll, Texts, Cut, Sending.Fit, Sending.Arrived, Sending.Text, AllFit, AllArrived;
      var text := sendings[0].Text();
      SplitFirst(sendings);
      OneArrives(sendings[0], extras[0]);
      var first := Receive(text, Cut(text, extras[0])).value;
      LeavesNothing(sendings[0], first);
      KeepAliveRoundTrip(sendings[1..], extras[1..]);
      ReceiveFirst(Texts(sendings), extras, first);
      JoinFirst(sendings, first, ReceiveAll("", Texts(sendings[1..]), extras[1..]).value);
    }
  }

  lemma LeavesNothing(s: Sending, r: Received)
    requires s.Fit() && s.Arrived(r)
    ensures r.left == ""
  {
    hide SameHead;
  }

  // ---------------------------------------------------------------------------------------------
  // The object
  // ---------------------------------------------------------------------------------------------

  /** The reading side of a session: the socket and the stream buffer of the current read. */
  class Reader {
    var incoming: string // sent by the peer, not read yet
    var buffer: string

    constructor (wire: string)
      ensures incoming == wire
    {
      incoming, buffer := wire, "";
    }

    /** asio::async_read_until for CRLFCRLF into a new buffer; `bytes` ends with the delimiter. */
    method ReadUntilBlank() returns (bytes: Result<nat>, ghost cut: nat)
      modifies this
      ensures var b := FirstBlank(old(incoming), 0);
              && IsCut(old(incoming), cut)
              && buffer == old(incoming)[..cut] && incoming == old(incoming)[cut..]
              && bytes == if b == |old(incoming)| then Err(EndOfStream) else Ok(b + 4)
    {
      var b := FirstBlank(incoming, 0);
      var taken := |incoming|;
      bytes := Err(EndOfStream);
      if b < |incoming| {
        taken :| b + 4 <= taken <= |incoming|; // what the network happened to deliver together
        bytes := Ok(b + 4);
      }
      cut := taken;
      buffer, incoming := incoming[..taken], incoming[taken..];
    }

    /** do_read_headers, with the body when one is announced. */
    method ReadRequest() returns (r: Result<Request>, ghost cut: nat)
      modifies this
      ensures IsCut(old(incoming), cut)
      ensures r.Err? ==> Receive(old(incoming), cut) == Err(r.error)
      ensures r.Ok? ==> fresh(r.value) && fresh(r.value.headers)
      ensures r.Ok? ==> Receive(old(incoming), cut) == Ok(Received(r.value.Content(), r.value.body, incoming))
    {
      hide FirstBlank, ParseRequest, StoUll, ReadBody;
      ghost var w := incoming;
      ghost var b := FirstBlank(w, 0);
      var bytes;
      bytes, cut := ReadUntilBlank();
      if bytes.Err? {
        return Err(bytes.error), cut;
      }
      var text := buffer[..bytes.value - 2];
      buffer := buffer[bytes.value..];
      CutPieces(w, b, cut);
      var request := new Request();
      var parsed := request.Parse(text);
      if parsed.Err? {
        return Err(parsed.error), cut;
      }
      if request.headers.Contains("content-length") {
        var read := ReadBodyOf(request);
        r := if read.Err? then Err(read.error) else Ok(request);
      } else {
        if request.headers.Contains("transfer-encoding") {
          var coding := request.headers.At("transfer-encoding");
          if coding == "chunked" {
            return Err(NotSupported), cut;
          }
        }
        r := Ok(request);
      }
    }

    /** do_read_body: fetches the bytes that the buffer lacks and moves all of them to the body. */
    method ReadBodyOf(message: Request) returns (r: Result<()>)
      requires "content-length" in message.headers.fields
      modifies this, message`body
      ensures var n := StoUll(message.headers.fields["content-length"]);
              if n.Err? then r == Err(n.error) && message.body == old(message.body)
              else
                var body := ReadBody(n.value, old(buffer), old(incoming));
                if body.Err? then r == Err(body.error) && message.body == old(message.body)
                else r == Ok(()) && message.body == Some(body.value.0) && incoming == body.value.1
    {
      hide StoUll;
      var n := StoUll(message.headers.fields["content-length"]);
      if n.Err? {
        return Err(n.error);
      }
      var missing := (n.value - |buffer|) % SIZE_LIMIT;
      if missing > 0 {
        if missing > |incoming| {
          return Err(EndOfStream);
        }
        buffer, incoming := buffer + incoming[..missing], incoming[missing..];
      }
      Delivered(old(buffer), old(incoming), missing);
      message.body := Some(buffer);
      buffer := "";
      r := Ok(());
    }
  }

  lemma Delivered(buffered: string, rest: string, n: nat)
    requires n <= |rest|
    ensures n == 0 ==> buffered + rest[..n] == buffered && rest[n..] == rest
    ensures buffered + rest == buffered + rest[..n] + rest[n..]
  {
  }

  lemma CutPieces(w: string, b: nat, cut: nat)
    requires b + 4 <= cut <= |w|
    ensures w[..cut][..b + 2] == w[..b + 2] && w[..cut][b + 4..] == w[b + 4..cut]
  {
  }
}
