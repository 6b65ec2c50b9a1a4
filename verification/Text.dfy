/** The string helpers of include/utils/utils.hpp. One `char` stands for one byte of a std::string. */
module Text {

  /** std::string::find(c, from): the first `c` at or after `from`, or |s| where C++ answers npos. */
  function Find(s: string, c: char, from: nat): (i: nat)
    requires from <= |s|
    ensures from <= i <= |s|
    ensures i < |s| ==> s[i] == c
    ensures forall k :: from <= k < i ==> s[k] != c
    decreases |s| - from
  {
    if from == |s| || s[from] == c then from else Find(s, c, from + 1)
  }

  /** The strings that repeated std::getline(stream, token, d) calls produce before the first failure. */
  function Tokens(s: string, d: char): seq<string>
    decreases |s|
  {
    if s == "" then []
    else
      var i := Find(s, d, 0);
      if i == |s| then [s] else [s[..i]] + Tokens(s[i + 1..], d)
  }

  function NonEmpty(tokens: seq<string>): seq<string> {
    if tokens == [] then []
    else (if tokens[0] == "" then [] else [tokens[0]]) + NonEmpty(tokens[1..])
  }

  function Split(s: string, d: char): seq<string> {
    NonEmpty(Tokens(s, d))
  }

  function Take(tokens: seq<string>, limit: nat): seq<string> {
    if |tokens| <= limit then tokens else tokens[..limit]
  }

  function SplitLimit(s: string, d: char, limit: nat): seq<string> {
    NonEmpty(Take(Tokens(s, d), limit))
  }

  function Join(parts: seq<string>, d: char): string {
    if |parts| == 0 then ""
    else if |parts| == 1 then parts[0]
    else parts[0] + [d] + Join(parts[1..], d)
  }

  /** The canonical text of a path: its segments with single slashes between them. */
  function Canonical(path: string): string {
    Join(Split(path, '/'), '/')
  }

  /** A list that splitting at `d` can produce. */
  predicate IsSegments(parts: seq<string>, d: char) {
    forall i :: 0 <= i < |parts| ==> parts[i] != "" && d !in parts[i]
  }

  /** The text behind the token that ends at i. */
  function Behind(s: string, i: nat): string
    requires i <= |s|
  {
    if i == |s| then "" else s[i + 1..]
  }

  lemma NotBefore(s: string, d: char)
    ensures d !in s[..Find(s, d, 0)]
  {
  }

  lemma CutOut(s: string, i: nat)
    requires i < |s|
    ensures s == s[..i] + [s[i]] + Behind(s, i)
  {
  }

  lemma FirstToken(s: string, d: char)
    requires s != ""
    ensures var i := Find(s, d, 0);
            && Tokens(s, d) == [s[..i]] + Tokens(Behind(s, i), d)
            && d !in s[..i]
            && s == if i == |s| then s[..i] else s[..i] + [d] + Behind(s, i)
  {
    var i := Find(s, d, 0);
    NotBefore(s, d);
    if i < |s| {
      CutOut(s, i);
    } else {
      assert s[..i] == s && [s] + [] == [s];
    }
  }

  lemma TokensCons(a: string, d: char, b: string)
    requires d !in a
    ensures Tokens(a + [d] + b, d) == [a] + Tokens(b, d)
  {
    var s := a + [d] + b;
    assert s[|a|] == d;
    assert forall k :: 0 <= k < |a| ==> s[k] == a[k];
    assert Find(s, d, 0) == |a|;
    assert s[..|a|] == a && s[|a| + 1..] == b;
  }

  lemma {:induction false} NonEmptyAppend(a: seq<string>, b: seq<string>)
    ensures NonEmpty(a + b) == NonEmpty(a) + NonEmpty(b)
  {
    if a == [] {
      assert a + b == b;
    } else {
      assert (a + b)[1..] == a[1..] + b;
      NonEmptyAppend(a[1..], b);
    }
  }

  /** Splitting distributes over a delimiter: empty pieces on either side vanish. */
  lemma {:induction false} SplitConcat(a: string, d: char, b: string)
    ensures Split(a + [d] + b, d) == Split(a, d) + Split(b, d)
    decreases |a|
  {
    hide Tokens, NonEmpty;
    var i := Find(a, d, 0);
    if a == "" {
      NothingLeft(d);
      NonEmptyOfNothing();
      TokensCons("", d, b);
      NonEmptyCons("", Tokens(b, d));
    } else {
      FirstToken(a, d);
      NonEmptyCons(a[..i], Tokens(Behind(a, i), d));
      if i == |a| {
        NothingLeft(d);
        NonEmptyOfNothing();
        TokensCons(a, d, b);
        NonEmptyCons(a, Tokens(b, d));
      } else {
        SplitConcatStep(a[..i], Behind(a, i), d, b);
        SplitConcat(Behind(a, i), d, b);
      }
    }
  }

  lemma SplitConcatStep(token: string, a: string, d: char, b: string)
    requires d !in token
    ensures Split(token + [d] + a + [d] + b, d)
         == if token == "" then Split(a + [d] + b, d) else [token] + Split(a + [d] + b, d)
  {
    hide Tokens, NonEmpty;
    assert token + [d] + a + [d] + b == token + [d] + (a + [d] + b);
    TokensCons(token, d, a + [d] + b);
    NonEmptyCons(token, Tokens(a + [d] + b, d));
  }

  lemma {:induction false} SplitSegments(s: string, d: char)
    ensures IsSegments(Split(s, d), d)
    decreases |s|
  {
    hide Tokens, NonEmpty;
    if s == "" {
      NothingLeft(d);
      NonEmptyOfNothing();
    } else {
      var i := Find(s, d, 0);
      FirstToken(s, d);
      NonEmptyCons(s[..i], Tokens(Behind(s, i), d));
      SplitSegments(Behind(s, i), d);
    }
  }

  lemma {:induction false} SplitJoin(parts: seq<string>, d: char)
    requires IsSegments(parts, d)
    ensures Split(Join(parts, d), d) == parts
  {
    if |parts| == 1 {
      assert Join(parts, d) == parts[0];
      assert Tokens(parts[0], d) == parts;
      assert NonEmpty(parts) == parts + NonEmpty([]);
    } else if |parts| > 1 {
      TokensCons(parts[0], d, Join(parts[1..], d));
      NonEmptyAppend([parts[0]], Tokens(Join(parts[1..], d), d));
      SplitJoin(parts[1..], d);
    }
  }

  lemma {:induction false} JoinSnoc(parts: seq<string>, part: string, d: char)
    ensures Join(parts + [part], d) == if parts == [] then part else Join(parts, d) + [d] + part
  {
    if |parts| == 1 {
      assert (parts + [part])[1..] == [part];
    } else if |parts| > 1 {
      assert (parts + [part])[1..] == parts[1..] + [part];
      JoinSnoc(parts[1..], part, d);
    }
  }

  /** format_path loses nothing but slashes: splitting its result is splitting the original. */
  lemma CanonicalKeepsSegments(path: string)
    ensures Split(Canonical(path), '/') == Split(path, '/')
  {
    SplitSegments(path, '/');
    SplitJoin(Split(path, '/'), '/');
  }

  /** format_path is a canonical form: idempotent, and equal exactly on equal segment lists. */
  lemma CanonicalForm(p: string, q: string)
    ensures Canonical(Canonical(p)) == Canonical(p)
    ensures Canonical(p) == Canonical(q) <==> Split(p, '/') == Split(q, '/')
  {
    CanonicalKeepsSegments(p);
    CanonicalKeepsSegments(q);
  }

  lemma {:induction false} NonEmptyIsNoLonger(tokens: seq<string>)
    ensures |NonEmpty(tokens)| <= |tokens|
  {
    if tokens != [] {
      NonEmptyIsNoLonger(tokens[1..]);
    }
  }

  lemma JoinCons(part: string, parts: seq<string>, d: char)
    ensures |Join([part] + parts, d)| <= |part| + 1 + |Join(parts, d)|
    ensures parts == [] ==> |Join([part] + parts, d)| == |part|
  {
    assert ([part] + parts)[1..] == parts;
  }

  lemma NonEmptyCons(token: string, rest: seq<string>)
    ensures NonEmpty([token] + rest) == if token == "" then NonEmpty(rest) else [token] + NonEmpty(rest)
  {
    assert ([token] + rest)[1..] == rest;
  }

  /** Making a path canonical never makes it longer. */
  lemma {:induction false} CanonicalIsNoLonger(path: string)
    ensures |Canonical(path)| <= |path|
    decreases |path|
  {
    hide Join, NonEmpty, Tokens;
    NothingJoined();
    if path != "" {
      var i := Find(path, '/', 0);
      var rest := Behind(path, i);
      FirstToken(path, '/');
      NonEmptyCons(path[..i], Tokens(rest, '/'));
      JoinCons(path[..i], Split(rest, '/'), '/');
      CanonicalIsNoLonger(rest);
    }
  }

  lemma NothingJoined()
    ensures Join([], '/') == "" && Canonical("") == "" && Split("", '/') == []
  {
  }

  /** A canonical path never starts with a slash. */
  lemma CanonicalHasNoLeadingSlash(path: string)
    ensures Canonical(path) != "" ==> Canonical(path)[0] != '/'
  {
    SplitSegments(path, '/');
    var parts := Split(path, '/');
    if |parts| > 0 {
      assert Canonical(path)[0] == parts[0][0];
    }
  }

  /** A std::istringstream that is only read by std::getline. */
  class InputStream {
    var rest: string

    constructor (text: string)
      ensures rest == text
    {
      rest := text;
    }

    /** std::getline(*this, token, delim); `ok` is the state of the stream afterwards. */
    method GetLine(delim: char) returns (ok: bool, token: string)
      modifies this
      ensures Tokens(old(rest), delim) == if ok then [token] + Tokens(rest, delim) else []
      ensures ok <==> old(rest) != ""
      ensures ok ==> delim !in token && |rest| < |old(rest)|
      ensures old(rest) == token + [delim] + rest || (old(rest) == token && rest == "")
    {
      hide Tokens;
      if rest == "" {
        NothingLeft(delim);
        return false, "";
      }
      FirstToken(rest, delim);
      var i := Find(rest, delim, 0);
      token, rest := rest[..i], Behind(rest, i);
      ok := true;
    }
  }

  lemma NothingLeft(d: char)
    ensures Tokens("", d) == []
  {
  }

  lemma NonEmptyStep(done: seq<string>, token: string, rest: seq<string>)
    ensures done + NonEmpty([token] + rest) == (if token == "" then done else done + [token]) + NonEmpty(rest)
  {
    assert ([token] + rest)[1..] == rest;
  }

  method SplitString(input: string, delim: char) returns (result: seq<string>)
    ensures result == Split(input, delim)
  {
    hide Tokens, NonEmpty;
    result := [];
    var ss := new InputStream(input);
    var ok, token := ss.GetLine(delim);
    ghost var all := NonEmpty(Tokens(input, delim));
    NonEmptyOfNothing();
    while ok
      invariant fresh(ss)
      invariant all == result + NonEmpty(if ok then [token] + Tokens(ss.rest, delim) else [])
      decreases ok, |ss.rest|
    {
      NonEmptyStep(result, token, Tokens(ss.rest, delim));
      if token != "" {
        result := result + [token];
      }
      ok, token := ss.GetLine(delim);
    }
  }

  lemma NonEmptyOfNothing()
    ensures NonEmpty([]) == []
  {
  }

  /** Reads at most `limit` tokens; an empty token is dropped but counts towards the limit. */
  method SplitStringLimit(input: string, delim: char, limit: nat) returns (result: seq<string>)
    ensures result == SplitLimit(input, delim, limit)
  {
    hide Tokens, NonEmpty, Take;
    result := [];
    var ss := new InputStream(input);
    var left := limit;
    ghost var all := SplitLimit(input, delim, limit);
    while left > 0
      invariant fresh(ss)
      invariant 0 <= left
      invariant all == result + NonEmpty(Take(Tokens(ss.rest, delim), left))
    {
      var ok, token := ss.GetLine(delim);
      if !ok {
        TakeStep("", [], left);
        NonEmptyOfNothing();
        return;
      }
      TakeStep(token, Tokens(ss.rest, delim), left);
      NonEmptyStep(result, token, Take(Tokens(ss.rest, delim), left - 1));
      if token != "" {
        result := result + [token];
      }
      left := left - 1;
    }
    TakeStep("", Tokens(ss.rest, delim), 1);
    NonEmptyOfNothing();
  }

  lemma TakeStep(token: string, rest: seq<string>, limit: nat)
    requires limit > 0
    ensures Take([token] + rest, limit) == [token] + Take(rest, limit - 1)
    ensures Take([], limit) == [] && Take(rest, 0) == []
  {
  }

  /** The first of at most limit tokens: an empty one is dropped but uses up its place. */
  lemma LimitCountsEmptyTokens(a: string, d: char, rest: string, limit: nat)
    requires d !in a
    ensures SplitLimit(a + [d] + rest, d, limit + 1) == (if a == "" then [] else [a]) + SplitLimit(rest, d, limit)
    ensures SplitLimit(rest, d, 0) == []
    ensures SplitLimit(a, d, limit + 1) == if a == "" then [] else [a]
  {
    hide Tokens, NonEmpty;
    TokensCons(a, d, rest);
    TakeStep(a, Tokens(rest, d), limit + 1);
    TakeStep(a, [], limit + 1);
    NonEmptyCons(a, Take(Tokens(rest, d), limit));
    NonEmptyCons(a, []);
    NonEmptyOfNothing();
    NothingLeft(d);
    if a != "" {
      FirstToken(a, d);
      NotBefore(a, d);
    }
  }

  /** One round of the fold: the text so far is empty only before the first segment. */
  lemma FormatStep(parts: seq<string>, i: nat)
    requires i < |parts| && IsSegments(parts, '/')
    ensures var done := Join(parts[..i], '/');
            Join(parts[..i + 1], '/') == if done == "" then parts[i] else done + "/" + parts[i]
  {
    assert parts[..i + 1] == parts[..i] + [parts[i]];
    JoinSnoc(parts[..i], parts[i], '/');
    if i > 0 {
      JoinedNotEmpty(parts[..i]);
    }
  }

  lemma JoinedNotEmpty(parts: seq<string>)
    requires parts != [] && parts[0] != ""
    ensures Join(parts, '/') != ""
  {
  }

  method FormatPath(path: string) returns (result: string)
    ensures result == Canonical(path)
  {
    hide Join, Split, IsSegments;
    var parts := SplitString(path, '/');
    SplitSegments(path, '/');
    result := "";
    NothingJoined();
    assert parts[..0] == [];
    var i := 0;
    while i < |parts|
      invariant 0 <= i <= |parts|
      invariant result == Join(parts[..i], '/')
    {
      FormatStep(parts, i);
      result := if result == "" then parts[i] else result + "/" + parts[i];
      i := i + 1;
    }
    assert parts[..i] == parts;
  }
}
