/** Strings as the backend and the frontend handle them: code-point order,
    decimal rendering of integers (Python's `str(int)` inside f-strings),
    JavaScript's `parseInt` on decimal text, and `String.prototype.split` /
    `Array.prototype.join` on a one-character separator. */
module Strings {
  import opened Wrappers
  import Order

  predicate CharLt(x: char, y: char) {
    x < y
  }

  /** Strict code-point lexicographic order on strings. */
  predicate StrLt(a: string, b: string) {
    Order.LexLt(a, b, CharLt)
  }

  lemma StrLtStrictTotal()
    ensures forall a: string :: !StrLt(a, a)
    ensures forall a: string, b: string, c: string :: StrLt(a, b) && StrLt(b, c) ==> StrLt(a, c)
    ensures forall a: string, b: string :: a != b ==> StrLt(a, b) || StrLt(b, a)
  {
    Order.LexStrictTotal(CharLt);
  }

  // ---------------------------------------------------------------- decimal

  predicate IsDigit(c: char) {
    '0' <= c <= '9'
  }

  predicate AllDigits(s: string) {
    forall i :: 0 <= i < |s| ==> IsDigit(s[i])
  }

  function DigitChar(d: nat): (c: char)
    requires d < 10
    ensures IsDigit(c) && c as int - '0' as int == d
  {
    ['0', '1', '2', '3', '4', '5', '6', '7', '8', '9'][d]
  }

  /** Decimal digits of `n`, most significant first, no leading zeros. */
  function NatToDecimal(n: nat): (s: string)
    ensures |s| > 0 && AllDigits(s)
    ensures |s| > 1 ==> s[0] != '0'
    decreases n
  {
    if n < 10 then [DigitChar(n)] else NatToDecimal(n / 10) + [DigitChar(n % 10)]
  }

  /** Python's `str(i)` / `f"{i}"` for an integer. */
  function IntToDecimal(i: int): string {
    if i < 0 then "-" + NatToDecimal(-i) else NatToDecimal(i)
  }

  /** The value of a string of decimal digits. */
  function DigitsValue(d: string): nat
    requires AllDigits(d)
  {
    if |d| == 0 then 0
    else DigitsValue(d[..|d| - 1]) * 10 + (d[|d| - 1] as int - '0' as int)
  }

  lemma {:induction false} DigitsValueOfDecimal(n: nat)
    ensures DigitsValue(NatToDecimal(n)) == n
    decreases n
  {
    if n >= 10 {
      var s := NatToDecimal(n / 10);
      assert (s + [DigitChar(n % 10)])[..|s|] == s;
      DigitsValueOfDecimal(n / 10);
    }
  }

  /** Length of the longest prefix of `s` made of decimal digits. */
  function DigitPrefixLength(s: string): (k: nat)
    ensures k <= |s| && AllDigits(s[..k])
    ensures k < |s| ==> !IsDigit(s[k])
  {
    if |s| == 0 || !IsDigit(s[0]) then 0
    else
      var k := 1 + DigitPrefixLength(s[1..]);
      assert s[..k] == [s[0]] + s[1..][..k - 1];
      k
  }

  /** ECMAScript's WhiteSpace and LineTerminator characters (the Zs category
      spelled out), which `parseInt` skips at the start. */
  predicate IsJsWhiteSpace(c: char) {
    || c == '\t' || c == '\n' || c == '\U{000B}' || c == '\U{000C}' || c == '\r'
    || c == ' ' || c == '\U{00A0}' || c == '\U{1680}'
    || ('\U{2000}' <= c <= '\U{200A}')
    || c == '\U{2028}' || c == '\U{2029}' || c == '\U{202F}' || c == '\U{205F}'
    || c == '\U{3000}' || c == '\U{FEFF}'
  }

  function TrimStart(s: string): (t: string)
    ensures |t| <= |s| && t == s[|s| - |t|..]
    ensures |t| > 0 ==> !IsJsWhiteSpace(t[0])
  {
    if |s| > 0 && IsJsWhiteSpace(s[0]) then TrimStart(s[1..]) else s
  }

  /** The value of the longest digit prefix of `b`, `None` when there is none. */
  function ParseDigits(b: string): Option<nat> {
    var k := DigitPrefixLength(b);
    if k == 0 then None else Some(DigitsValue(b[..k]))
  }

  /** `parseInt` after the leading white space: an optional sign, then digits. */
  function ParseSigned(t: string): Option<int> {
    if |t| > 0 && t[0] == '-' then
      match ParseDigits(t[1..])
      case None => None
      case Some(v) => Some(-(v as int))
    else if |t| > 0 && t[0] == '+' then
      match ParseDigits(t[1..])
      case None => None
      case Some(v) => Some(v as int)
    else
      match ParseDigits(t)
      case None => None
      case Some(v) => Some(v as int)
  }

  /** `parseInt(s)` with no radix, on decimal text: `None` stands for `NaN`
      (which JSON serialises as `null`). */
  function ParseIntJs(s: string): Option<int> {
    ParseSigned(TrimStart(s))
  }

  /** A non-empty string of digits is read whole. */
  lemma ParseDigitsAll(d: string)
    requires |d| > 0 && AllDigits(d)
    ensures ParseDigits(d) == Some(DigitsValue(d))
  {
    DigitPrefixAll(d);
    assert d[..|d|] == d;
  }

  /** Text that does not start with white space is not trimmed. */
  lemma TrimStartKeeps(t: string)
    requires |t| > 0 && !IsJsWhiteSpace(t[0])
    ensures TrimStart(t) == t
  {
  }

  /** A non-empty string of digits parses to its value. */
  lemma ParseIntOfDigits(d: string)
    requires |d| > 0 && AllDigits(d)
    ensures ParseIntJs(d) == Some(DigitsValue(d) as int)
  {
    assert IsDigit(d[0]);
    TrimStartKeeps(d);
    ParseDigitsAll(d);
  }

  /** A minus sign followed by a non-empty string of digits is read as the
      negated value. */
  lemma ParseSignedNegated(t: string, d: string)
    requires |t| > 0 && t[0] == '-' && t[1..] == d
    requires |d| > 0 && AllDigits(d)
    ensures ParseSigned(t) == Some(-(DigitsValue(d) as int))
  {
    ParseDigitsAll(d);
  }

  /** A minus sign followed by a non-empty string of digits parses to the
      negated value. */
  lemma ParseIntOfNegatedDigits(d: string)
    requires |d| > 0 && AllDigits(d)
    ensures ParseIntJs("-" + d) == Some(-(DigitsValue(d) as int))
  {
    var t := "-" + d;
    assert t[0] == '-' && t[1..] == d;
    TrimStartKeeps(t);
    ParseSignedNegated(t, d);
  }

  /** Rendering an integer as text and parsing it back gives the integer:
      this is how a numeric id travels through an HTML `<option value>`. */
  lemma ParseIntOfDecimal(i: int)
    ensures ParseIntJs(IntToDecimal(i)) == Some(i)
  {
    var n: nat := if i < 0 then -i else i;
    DigitsValueOfDecimal(n);
    if i < 0 {
      ParseIntOfNegatedDigits(NatToDecimal(n));
    } else {
      ParseIntOfDigits(NatToDecimal(n));
    }
  }

  lemma {:induction false} DigitPrefixAll(s: string)
    requires AllDigits(s)
    ensures DigitPrefixLength(s) == |s|
  {
    if |s| > 0 {
      DigitPrefixAll(s[1..]);
    }
  }

  // ---------------------------------------------------------- split and join

  /** `s.split(sep)` for a one-character separator: the fields between
      separators, always at least one. */
  function Split(s: string, sep: char): (parts: seq<string>)
    ensures |parts| >= 1
    ensures forall i :: 0 <= i < |parts| ==> sep !in parts[i]
  {
    if |s| == 0 then [""]
    else
      var rest := Split(s[1..], sep);
      if s[0] == sep then [""] + rest
      else [[s[0]] + rest[0]] + rest[1..]
  }

  /** `parts.join(sep)` for a one-character separator. */
  function Join(parts: seq<string>, sep: char): string {
    if |parts| == 0 then ""
    else if |parts| == 1 then parts[0]
    else parts[0] + [sep] + Join(parts[1..], sep)
  }

  lemma {:induction false} SplitAppend(p: string, t: string, sep: char)
    requires sep !in p
    ensures Split(p + t, sep) == [p + Split(t, sep)[0]] + Split(t, sep)[1..]
  {
    if |p| > 0 {
      var r := Split(t, sep);
      assert (p + t)[0] == p[0] != sep;
      assert (p + t)[1..] == p[1..] + t;
      SplitAppend(p[1..], t, sep);
      var rest := Split(p[1..] + t, sep);
      assert rest[0] == p[1..] + r[0] && rest[1..] == r[1..];
      assert Split(p + t, sep) == [[p[0]] + rest[0]] + rest[1..];
      assert [p[0]] + (p[1..] + r[0]) == p + r[0];
    } else {
      var r := Split(t, sep);
      assert p + t == t;
      assert r == [r[0]] + r[1..];
      assert p + r[0] == r[0];
    }
  }

  /** Splitting a join of separator-free fields gives back the fields. */
  lemma {:induction false} SplitJoin(parts: seq<string>, sep: char)
    requires |parts| >= 1
    requires forall i :: 0 <= i < |parts| ==> sep !in parts[i]
    ensures Split(Join(parts, sep), sep) == parts
  {
    if |parts| == 1 {
      SplitAppend(parts[0], "", sep);
      assert parts[0] + "" == parts[0];
    } else {
      var tail := Join(parts[1..], sep);
      SplitJoin(parts[1..], sep);
      assert Join(parts, sep) == parts[0] + ([sep] + tail);
      SplitAppend(parts[0], [sep] + tail, sep);
      assert ([sep] + tail)[0] == sep && ([sep] + tail)[1..] == tail;
      assert Split([sep] + tail, sep) == [""] + parts[1..];
      assert parts[0] + "" == parts[0];
      assert parts == [parts[0]] + parts[1..];
    }
  }
}
