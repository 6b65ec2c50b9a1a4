/** The header block of source/http/headers.cpp and include/http/headers.hpp. */
module HeaderFields {
  import opened Outcomes
  import opened Text

  type Fields = map<string, string>

  function LowerChar(c: char): char {
    if 'A' <= c <= 'Z' then (c as int + 32) as char else c
  }

  function ToLower(s: string): (r: string)
    ensures |r| == |s|
    ensures forall i :: 0 <= i < |s| ==> r[i] == LowerChar(s[i])
  {
    seq(|s|, i requires 0 <= i < |s| => LowerChar(s[i]))
  }

  /** The set keeps the field that was there first. */
  function Emplace(fields: Fields, key: string, value: string): Fields {
    if key in fields then fields else fields[key := value]
  }

  // ---------------------------------------------------------------------------------------------
  // Reading
  // ---------------------------------------------------------------------------------------------

  datatype Line = EndOfBlock | Ignored | Malformed | Field(key: string, value: string)

  /** line.find(c, from), with |line| for npos; past the end nothing is found. */
  function FindFrom(line: string, c: char, from: nat): (i: nat)
    ensures i <= |line|
    ensures i < |line| ==> from <= i && line[i] == c
    ensures forall k :: from <= k < i ==> line[k] != c
  {
    if from <= |line| then Find(line, c, from) else |line|
  }

  /** One round of the loop of init_from_stream. A line that ends at its colon makes substr throw. */
  function ParseLine(line: string): Line {
    if line != "" && line[0] == '\r' then EndOfBlock
    else
      var n := FindFrom(line, ':', 2);
      if n == |line| then Ignored
      else if n + 1 == |line| then Malformed
      else Field(ToLower(line[..n]), if n + 2 == |line| then "" else line[n + 2..|line| - 1])
  }

  /** init_from_stream on the lines that are left of the stream. */
  function ParseFields(lines: seq<string>, fields: Fields): Result<Fields> {
    if lines == [] then Ok(fields)
    else
      match ParseLine(lines[0])
      case EndOfBlock => Ok(fields)
      case Ignored => ParseFields(lines[1..], fields)
      case Malformed => Err(OutOfRange)
      case Field(key, value) => ParseFields(lines[1..], Emplace(fields, key, value))
  }

  // ---------------------------------------------------------------------------------------------
  // Writing
  // ---------------------------------------------------------------------------------------------

  /** HeaderField::as_string */
  function FieldText(key: string, value: string): string {
    key + ": " + value
  }

  /** `order` lists every key once; an unordered_set may come in any such order. */
  ghost predicate Enumerates(order: seq<string>, keys: set<string>) {
    && (forall k :: k in order <==> k in keys)
    && (forall i, j :: 0 <= i < j < |order| ==> order[i] != order[j])
  }

  /** That is, any arrangement of the keys. */
  lemma AnyOrder(order: seq<string>, keys: set<string>)
    ensures Enumerates(order, keys) <==> multiset(order) == multiset(keys)
  {
    if Enumerates(order, keys) {
      OnceEach(order);
    }
    if multiset(order) == multiset(keys) {
      assert forall k :: k in order <==> k in multiset(order);
      forall i, j | 0 <= i < j < |order|
        ensures order[i] != order[j]
      {
        TwiceCounts(order, i, j);
      }
    }
  }

  lemma TwiceCounts(order: seq<string>, i: nat, j: nat)
    requires i < j < |order|
    ensures order[i] == order[j] ==> multiset(order)[order[i]] >= 2
  {
    assert order == order[..j] + order[j..];
    assert order[..j][i] in order[..j] && order[j..][0] in order[j..];
  }

  lemma {:induction false} OnceEach(order: seq<string>)
    requires forall i, j :: 0 <= i < j < |order| ==> order[i] != order[j]
    ensures forall k :: multiset(order)[k] == if k in order then 1 else 0
  {
    if order != [] {
      var n := |order| - 1;
      OnceEach(order[..n]);
      assert order == order[..n] + [order[n]];
    }
  }

  function FieldTexts(fields: Fields, order: seq<string>): (texts: seq<string>)
    requires forall k :: k in order ==> k in fields
    ensures |texts| == |order|
    ensures forall i :: 0 <= i < |order| ==> texts[i] == FieldText(order[i], fields[order[i]])
  {
    if order == [] then [] else [FieldText(order[0], fields[order[0]])] + FieldTexts(fields, order[1..])
  }

  /** The lines of a message, each ended by CRLF. */
  function Block(texts: seq<string>): string {
    if texts == [] then "" else texts[0] + "\r\n" + Block(texts[1..])
  }

  lemma {:induction false} BlockAppend(a: seq<string>, b: seq<string>)
    ensures Block(a + b) == Block(a) + Block(b)
  {
    if a == [] {
      assert a + b == b;
    } else {
      assert (a + b)[1..] == a[1..] + b;
      BlockAppend(a[1..], b);
    }
  }

  lemma NoFields(fields: Fields)
    ensures Block(FieldTexts(fields, [])) == ""
  {
  }

  lemma NextField(fields: Fields, order: seq<string>, key: string)
    requires key in fields && forall k :: k in order ==> k in fields
    ensures Block(FieldTexts(fields, order + [key]))
         == Block(FieldTexts(fields, order)) + FieldText(key, fields[key]) + "\r\n"
  {
    var text := FieldText(key, fields[key]);
    assert FieldTexts(fields, order + [key]) == FieldTexts(fields, order) + [text];
    BlockAppend(FieldTexts(fields, order), [text]);
    assert [text][1..] == [];
  }

  // ---------------------------------------------------------------------------------------------
  // Round trip
  // ---------------------------------------------------------------------------------------------

  /** A key whose line is read back as that key, up to case. */
  predicate KeyReadable(key: string) {
    |key| >= 2 && key[0] != '\r' && ':' !in key[2..]
  }

  /** A field that survives printing and parsing. */
  predicate FieldSafe(key: string, value: string) {
    KeyReadable(key) && ToLower(key) == key && '\n' !in key && '\n' !in value
  }

  predicate FieldsSafe(fields: Fields) {
    forall k :: k in fields ==> FieldSafe(k, fields[k])
  }

  lemma LineParses(key: string, value: string)
    requires KeyReadable(key)
    ensures ParseLine(FieldText(key, value) + "\r") == Field(ToLower(key), value)
  {
    var line := FieldText(key, value) + "\r";
    var n := FindFrom(line, ':', 2);
    assert line[|key|] == ':';
    forall k | 2 <= k < |key|
      ensures line[k] != ':'
    {
      assert line[k] == key[2..][k - 2];
    }
    assert n == |key|;
    assert line[..n] == key;
    assert line[n + 2..|line| - 1] == value;
  }

  /** The preconditions are exact: a line gives its key and value back if and only if they hold. */
  lemma LineParsesIff(key: string, value: string)
    ensures ParseLine(FieldText(key, value) + "\r") == Field(key, value)
       <==> KeyReadable(key) && ToLower(key) == key
  {
    var line := FieldText(key, value) + "\r";
    if KeyReadable(key) {
      LineParses(key, value);
    } else if |key| > 0 && key[0] == '\r' {
      assert line[0] == '\r';
    } else if |key| >= 2 {
      var k :| 0 <= k < |key[2..]| && key[2..][k] == ':';
      assert line[k + 2] == ':';
    }
  }

  /**
    Every line, not only a printed one: it ends the block if it starts with CR, is skipped if it has no
    colon from the third character on, throws if it ends at the first such colon, and otherwise gives
    what is in front of that colon in lower case, and, one character behind it, all but the last one.
   */
  lemma LineRead(key: string, c: char, value: string, last: char)
    requires KeyReadable(key)
    ensures ParseLine(key + ":" + [c] + value + [last]) == Field(ToLower(key), value)
    ensures ParseLine(key + ":" + [c]) == Field(ToLower(key), "")
    ensures ParseLine(key + ":") == Malformed
    ensures ParseLine(key) == Ignored
    ensures ParseLine("\r" + value) == EndOfBlock
  {
    ColonFound(key, [c] + value + [last]);
    ColonFound(key, [c]);
    ColonFound(key, "");
    assert key + ":" + ([c] + value + [last]) == key + ":" + [c] + value + [last];
    var line := key + ":" + [c] + value + [last];
    assert line[|key| + 2..|line| - 1] == value;
    assert key + ":" + "" == key + ":";
    assert forall k :: 2 <= k < |key| ==> key[k] == key[2..][k - 2];
  }

  lemma ColonFound(key: string, rest: string)
    requires KeyReadable(key)
    ensures var line := key + ":" + rest;
            FindFrom(line, ':', 2) == |key| && line[..|key|] == key && line[0] == key[0]
  {
    var line := key + ":" + rest;
    assert line[|key|] == ':';
    forall k | 2 <= k < |key|
      ensures line[k] != ':'
    {
      assert line[k] == key[k] == key[2..][k - 2];
    }
  }

  /** A line of fewer than two characters is skipped, too, unless it is a CR. */
  lemma ShortLineIgnored(line: string)
    requires |line| < 2 && line != "\r"
    ensures ParseLine(line) == Ignored
  {
  }

  /** A line that is skipped does not end the block, and nothing behind the blank line is read. */
  lemma LinesGoOn(line: string, rest: seq<string>, fields: Fields)
    requires line != "" ==> line[0] != '\r'
    requires forall k :: 2 <= k < |line| ==> line[k] != ':'
    ensures ParseFields([line] + rest, fields) == ParseFields(rest, fields)
    ensures ParseFields(["\r"] + rest, fields) == Ok(fields)
  {
    assert ([line] + rest)[1..] == rest;
  }

  const UPPER: string := "ABCDEFGHIJKLMNOPQRSTUVWXYZ"
  const LOWER: string := "abcdefghijklmnopqrstuvwxyz"

  /** ::tolower in the C locale, letter by letter; nothing else changes. */
  lemma LowerLetters(i: nat, c: char)
    ensures i < 26 ==> ToLower([UPPER[i]]) == [LOWER[i]]
    ensures c !in UPPER ==> ToLower([c]) == [c]
  {
    assert forall k :: 0 <= k < 26 ==> UPPER[k] as int == 'A' as int + k;
    assert forall k :: 0 <= k < 26 ==> LOWER[k] as int == 'a' as int + k;
    if 'A' <= c <= 'Z' {
      assert UPPER[c as int - 'A' as int] == c;
    }
  }

  /** A readable line is one more field, unless the key is there already. */
  lemma ParseFieldsStep(key: string, value: string, rest: seq<string>, fields: Fields)
    requires KeyReadable(key)
    ensures ParseFields([FieldText(key, value) + "\r"] + rest, fields)
         == ParseFields(rest, Emplace(fields, ToLower(key), value))
  {
    LineParses(key, value);
    assert ([FieldText(key, value) + "\r"] + rest)[1..] == rest;
  }

  function WithCr(texts: seq<string>): (lines: seq<string>)
    ensures |lines| == |texts|
  {
    if texts == [] then [] else [texts[0] + "\r"] + WithCr(texts[1..])
  }

  lemma {:induction false} BlockTokens(texts: seq<string>)
    requires forall t :: t in texts ==> '\n' !in t
    ensures Tokens(Block(texts), '\n') == WithCr(texts)
  {
    if texts != [] {
      BlockTokens(texts[1..]);
      assert Block(texts) == (texts[0] + "\r") + ['\n'] + Block(texts[1..]);
      TokensCons(texts[0] + "\r", '\n', Block(texts[1..]));
    }
  }

  /** The fields after those of `order` have been read. */
  function Stored(fields: Fields, order: seq<string>, found: Fields): Fields
    requires forall k :: k in order ==> k in fields
  {
    if order == [] then found else Stored(fields, order[1..], Emplace(found, order[0], fields[order[0]]))
  }

  lemma Regroup(line: string, lines: seq<string>, rest: seq<string>)
    ensures [line] + lines + rest == [line] + (lines + rest)
  {
  }

  lemma {:induction false} FieldsParse(fields: Fields, order: seq<string>, rest: seq<string>, found: Fields)
    requires FieldsSafe(fields) && forall k :: k in order ==> k in fields
    ensures ParseFields(WithCr(FieldTexts(fields, order)) + rest, found)
         == ParseFields(rest, Stored(fields, order, found))
  {
    hide ParseFields, FieldText, Emplace;
    if order == [] {
      assert [] + rest == rest;
    } else {
      var key, lines := order[0], WithCr(FieldTexts(fields, order[1..]));
      assert FieldSafe(key, fields[key]);
      Regroup(FieldText(key, fields[key]) + "\r", lines, rest);
      ParseFieldsStep(key, fields[key], lines + rest, found);
      FieldsParse(fields, order[1..], rest, Emplace(found, key, fields[key]));
    }
  }

  /** The fields read last do not depend on the order, as keys are distinct. */
  lemma {:induction false} StoredAll(fields: Fields, order: seq<string>, found: Fields)
    requires forall k :: k in order ==> k in fields
    ensures forall k :: k in Stored(fields, order, found) <==> k in found || k in order
    ensures forall k :: k in Stored(fields, order, found) ==>
              Stored(fields, order, found)[k] == if k in found then found[k] else fields[k]
  {
    if order != [] {
      assert forall k :: k in order <==> k == order[0] || k in order[1..];
      StoredAll(fields, order[1..], Emplace(found, order[0], fields[order[0]]));
    }
  }

  /** Printed in any order, a block of safe fields parses back to the same fields. */
  lemma BlockRoundTrip(fields: Fields, order: seq<string>)
    requires FieldsSafe(fields) && Enumerates(order, fields.Keys)
    ensures ParseFields(Tokens(Block(FieldTexts(fields, order)), '\n'), map[]) == Ok(fields)
  {
    hide Tokens, Block, WithCr, FieldTexts, ParseFields, Stored, FieldsSafe;
    FieldTextsHaveNoNewline(fields, order);
    BlockTokens(FieldTexts(fields, order));
    NothingToParse(fields);
    FieldsParse(fields, order, [], map[]);
    assert WithCr(FieldTexts(fields, order)) + [] == WithCr(FieldTexts(fields, order));
    StoredAll(fields, order, map[]);
    assert Stored(fields, order, map[]) == fields;
  }

  lemma NothingToParse(fields: Fields)
    ensures ParseFields([], fields) == Ok(fields)
  {
  }

  lemma FieldTextsHaveNoNewline(fields: Fields, order: seq<string>)
    requires FieldsSafe(fields) && forall k :: k in order ==> k in fields
    ensures forall t :: t in FieldTexts(fields, order) ==> '\n' !in t
  {
    forall t | t in FieldTexts(fields, order)
      ensures '\n' !in t
    {
      var i :| 0 <= i < |order| && t == FieldText(order[i], fields[order[i]]);
      assert FieldSafe(order[i], fields[order[i]]);
    }
  }

  // ---------------------------------------------------------------------------------------------
  // The object
  // ---------------------------------------------------------------------------------------------

  class Headers {
    var fields: Fields

    constructor ()
      ensures fields == map[]
    {
      fields := map[];
    }

    /** Reads lines up to the one that starts with CR. A throw leaves what was read before it. */
    method InitFromStream(stream: InputStream) returns (r: Result<()>)
      modifies `fields, stream
      ensures var parsed := ParseFields(Tokens(old(stream.rest), '\n'), old(fields));
              && (r.Ok? ==> parsed == Ok(fields))
              && (r.Err? ==> parsed == Err(r.error))
    {
      hide Tokens, ParseLine;
      ghost var parsed := ParseFields(Tokens(stream.rest, '\n'), fields);
      var ok, line := stream.GetLine('\n');
      while ok
        invariant parsed == ParseFields(if ok then [line] + Tokens(stream.rest, '\n') else [], fields)
        decreases ok, |stream.rest|
      {
        ParseFieldsUnfold(line, Tokens(stream.rest, '\n'), fields);
        var kind := ParseLine(line);
        if kind.EndOfBlock? {
          return Ok(());
        }
        if kind.Malformed? {
          return Err(OutOfRange);
        }
        if kind.Field? {
          fields := Emplace(fields, kind.key, kind.value);
        }
        ok, line := stream.GetLine('\n');
      }
      r := Ok(());
    }

    predicate Contains(key: string)
      reads `fields
    {
      key in fields
    }

    /** insert: the first field of a key stays. */
    method Insert(key: string, value: string)
      modifies `fields
      ensures key in fields && fields[key] == if key in old(fields) then old(fields)[key] else value
      ensures forall k :: k != key ==> (k in fields <==> k in old(fields))
      ensures forall k :: k != key && k in fields ==> fields[k] == old(fields)[k]
    {
      fields := Emplace(fields, key, value);
    }

    /** operator[] on a non-const object: makes an empty field when there is none. */
    method At(key: string) returns (value: string)
      modifies `fields
      ensures key in fields && value == fields[key]
      ensures fields == if key in old(fields) then old(fields) else old(fields)[key := ""]
    {
      fields := Emplace(fields, key, "");
      value := fields[key];
    }

    /** headers_[key] = value */
    method Assign(key: string, value: string)
      modifies `fields
      ensures fields == old(fields)[key := value]
    {
      var current := At(key);
      fields := fields[key := value];
    }
  }

  lemma ParseFieldsUnfold(line: string, rest: seq<string>, fields: Fields)
    ensures ParseFields([line] + rest, fields) ==
            var l := ParseLine(line);
            if l.EndOfBlock? then Ok(fields)
            else if l.Malformed? then Err(OutOfRange)
            else ParseFields(rest, if l.Field? then Emplace(fields, l.key, l.value) else fields)
  {
    assert ([line] + rest)[1..] == rest;
  }
}
