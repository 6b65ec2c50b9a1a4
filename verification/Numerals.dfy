/** Content-Length numerals: std::to_string for a size_t and std::stoull for reading one back. */
module Numerals {
  import opened Outcomes

  const SIZE_LIMIT: nat := 0x1_0000_0000_0000_0000 // one more than the largest 64-bit size_t

  predicate IsDigit(c: char) {
    '0' <= c <= '9'
  }

  predicate IsSpace(c: char) {
    c == ' ' || '\t' <= c <= '\r'
  }

  function DigitValue(c: char): (d: nat)
    requires IsDigit(c)
    ensures d < 10
  {
    c as int - '0' as int
  }

  function Digit(d: nat): (c: char)
    requires d < 10
    ensures IsDigit(c) && DigitValue(c) == d
  {
    ('0' as int + d) as char
  }

  predicate AllDigits(s: string) {
    forall i :: 0 <= i < |s| ==> IsDigit(s[i])
  }

  /** operator<< for a size_t. */
  function ToDecimal(n: nat): (s: string)
    ensures s != "" && AllDigits(s)
  {
    if n < 10 then [Digit(n)] else ToDecimal(n / 10) + [Digit(n % 10)]
  }

  function Value(digits: string): nat
    requires AllDigits(digits)
  {
    if digits == "" then 0
    else Value(digits[..|digits| - 1]) * 10 + DigitValue(digits[|digits| - 1])
  }

  function SkipSpaces(s: string, i: nat): (j: nat)
    requires i <= |s|
    ensures i <= j <= |s|
    decreases |s| - i
  {
    if i < |s| && IsSpace(s[i]) then SkipSpaces(s, i + 1) else i
  }

  function DigitsEnd(s: string, i: nat): (j: nat)
    requires i <= |s|
    ensures i <= j <= |s| && AllDigits(s[i..j])
    decreases |s| - i
  {
    if i < |s| && IsDigit(s[i]) then
      var j := DigitsEnd(s, i + 1);
      assert s[i..j] == [s[i]] + s[i + 1..j];
      j
    else i
  }

  /**
    std::stoull(s): leading spaces, an optional sign, digits, and anything behind them. A minus sign
    negates the value modulo 2^64.
   */
  function StoUll(s: string): (r: Result<nat>)
    ensures r.Ok? ==> r.value < SIZE_LIMIT
  {
    var i := SkipSpaces(s, 0);
    var signed := i < |s| && (s[i] == '-' || s[i] == '+');
    var j := if signed then i + 1 else i;
    var k := DigitsEnd(s, j);
    if k == j then Err(NotANumber)
    else
      var v := Value(s[j..k]);
      if v >= SIZE_LIMIT then Err(OutOfRange)
      else if signed && s[i] == '-' && v > 0 then Ok(SIZE_LIMIT - v)
      else Ok(v)
  }

  lemma {:induction false} DecimalValue(n: nat)
    ensures Value(ToDecimal(n)) == n
  {
    if n >= 10 {
      DecimalValue(n / 10);
      var s := ToDecimal(n);
      assert s[..|s| - 1] == ToDecimal(n / 10);
    }
  }

  lemma {:induction false} DigitsEndAll(s: string, i: nat)
    requires i <= |s| && AllDigits(s)
    ensures DigitsEnd(s, i) == |s|
    decreases |s| - i
  {
    if i < |s| {
      DigitsEndAll(s, i + 1);
    }
  }

  predicate AllSpaces(s: string) {
    forall i :: 0 <= i < |s| ==> s[i] in [' ', '\t', '\n', 11 as char, 12 as char, '\r']
  }

  /** Text that no numeral begins or goes on with. */
  predicate NoDigitFirst(s: string) {
    s == "" || !('0' <= s[0] <= '9')
  }

  lemma {:induction false} SpacesSkipped(spaces: string, text: string, i: nat)
    requires AllSpaces(spaces) && i <= |spaces| && (text == "" || !IsSpace(text[0]))
    ensures SkipSpaces(spaces + text, i) == |spaces|
    decreases |spaces| - i
  {
    var s := spaces + text;
    if i < |spaces| {
      assert s[i] == spaces[i];
      SpacesSkipped(spaces, text, i + 1);
    } else if text != "" {
      assert s[i] == text[0];
    }
  }

  lemma {:induction false} DigitsRead(before: string, digits: string, behind: string, i: nat)
    requires AllDigits(digits) && NoDigitFirst(behind) && i <= |digits|
    ensures var s := before + digits + behind; DigitsEnd(s, |before| + i) == |before| + |digits|
    decreases |digits| - i
  {
    var s := before + digits + behind;
    if i < |digits| {
      assert s[|before| + i] == digits[i];
      DigitsRead(before, digits, behind, i + 1);
    } else if behind != "" {
      assert s[|before| + i] == behind[0];
    }
  }

  /**
    What std::stoull accepts: spaces, a sign and digits, whatever follows them. A value of 2^64 or more
    is out of range, and a minus sign negates modulo 2^64.
   */
  lemma NumeralRead(spaces: string, sign: string, digits: string, behind: string)
    requires AllSpaces(spaces) && sign in ["", "+", "-"] && digits != "" && AllDigits(digits) && NoDigitFirst(behind)
    ensures StoUll(spaces + sign + digits + behind) ==
            if Value(digits) > 0xFFFF_FFFF_FFFF_FFFF then Err(OutOfRange)
            else if sign == "-" then Ok((0x1_0000_0000_0000_0000 - Value(digits)) % 0x1_0000_0000_0000_0000)
            else Ok(Value(digits))
  {
    hide SkipSpaces, DigitsEnd, Value, AllSpaces, AllDigits, NoDigitFirst;
    var s, text := spaces + sign + digits + behind, sign + (digits + behind);
    FirstDigit(digits);
    FirstOf(sign, digits + behind);
    SpacesSkipped(spaces, text, 0);
    DigitsRead(spaces + sign, digits, behind, 0);
    Pieces(spaces, sign, digits, behind);
  }

  lemma FirstDigit(digits: string)
    requires AllDigits(digits) && digits != ""
    ensures IsDigit(digits[0])
  {
  }

  lemma Pieces(a: string, b: string, c: string, d: string)
    requires c != ""
    ensures var s := a + b + c + d;
            && s == a + (b + (c + d)) && s[|a|] == (b + (c + d))[0]
            && s[|a| + |b|..|a| + |b| + |c|] == c
  {
  }

  /** Without a digit behind the spaces and the sign there is no number. */
  lemma NoNumeral(spaces: string, sign: string, behind: string)
    requires AllSpaces(spaces) && sign in ["", "+", "-"] && NoDigitFirst(behind)
    requires sign == "" ==> behind == "" || (!IsSpace(behind[0]) && behind[0] !in ['+', '-'])
    ensures StoUll(spaces + sign + behind) == Err(NotANumber)
  {
    hide SkipSpaces, DigitsEnd, Value, AllSpaces;
    var s, text := spaces + sign + behind, sign + behind;
    assert s == spaces + text && spaces + sign + "" + behind == s;
    FirstOf(sign, behind);
    SpacesSkipped(spaces, text, 0);
    DigitsRead(spaces + sign, "", behind, 0);
    assert text != "" ==> s[|spaces|] == text[0];
  }

  lemma FirstOf(sign: string, behind: string)
    requires sign in ["", "+", "-"]
    ensures sign + behind != "" ==> (sign + behind)[0] == if sign == "" then behind[0] else sign[0]
  {
  }

  /** Decimal notation: a digit behind counts one, and all in front ten times what they did. */
  lemma ValueSnoc(digits: string, d: char)
    requires AllDigits(digits) && IsDigit(d)
    ensures Value(digits + [d]) == 10 * Value(digits) + (d as int - '0' as int)
  {
    var s := digits + [d];
    assert s[..|s| - 1] == digits;
  }

  /** No leading zero, so there is one way only to print a number. */
  lemma {:induction false} NoLeadingZero(n: nat)
    ensures n > 0 ==> ToDecimal(n)[0] != '0'
    ensures ToDecimal(0) == "0"
  {
    if n >= 10 {
      NoLeadingZero(n / 10);
      assert ToDecimal(n)[0] == ToDecimal(n / 10)[0];
    }
  }

  /** A printed size reads back as itself, up to the largest one of 64 bits. */
  lemma DecimalRoundTrip(n: nat)
    ensures StoUll(ToDecimal(n)) == if n <= 0xFFFF_FFFF_FFFF_FFFF then Ok(n) else Err(OutOfRange)
  {
    var s := ToDecimal(n);
    assert IsDigit(s[0]);
    DigitsEndAll(s, 0);
    DecimalValue(n);
    assert s[0..|s|] == s;
  }
}
