/**
 * The slice of JavaScript's string semantics the components rely on:
 * `trim`, `split` on one character, `join`, `padStart`, number-to-string,
 * `String.prototype.length` (UTF-16 code units) and the `\s` class.
 */
module JsStrings {
  import opened Wrappers

  /** JavaScript's WhiteSpace and LineTerminator code points: what `trim` strips and `\s` matches. */
  predicate IsWhitespace(c: char) {
    || c == '\t' || c == '\n' || c == '\U{B}' || c == '\U{C}' || c == '\r' || c == ' '
    || c == '\U{A0}' || c == '\U{1680}' || ('\U{2000}' <= c <= '\U{200A}')
    || c == '\U{2028}' || c == '\U{2029}' || c == '\U{202F}' || c == '\U{205F}'
    || c == '\U{3000}' || c == '\U{FEFF}'
  }

  /** `s.length`: code points above U+FFFF take two UTF-16 code units. */
  function JsLength(s: string): (n: nat)
    ensures n >= |s|
  {
    if s == [] then 0 else (if s[0] as int > 0xFFFF then 2 else 1) + JsLength(s[1..])
  }

  /** Every character of `s` is in the Basic Multilingual Plane, one UTF-16 code unit each. */
  predicate InBmp(s: string) {
    forall i :: 0 <= i < |s| ==> s[i] as int <= 0xFFFF
  }

  /** Without astral characters `s.length` is the number of characters. */
  lemma {:induction false} JsLengthOfBmp(s: string)
    requires InBmp(s)
    ensures JsLength(s) == |s|
  {
    if s != [] {
      assert InBmp(s[1..]) by {
        forall i | 0 <= i < |s[1..]| ensures s[1..][i] as int <= 0xFFFF {
          assert s[1..][i] == s[i + 1];
        }
      }
      JsLengthOfBmp(s[1..]);
    }
  }

  /** One astral character in `s` makes `s.length` exceed the number of characters. */
  lemma {:induction false} JsLengthOfAstral(s: string, k: nat)
    requires k < |s| && s[k] as int > 0xFFFF
    ensures JsLength(s) > |s|
  {
    if k > 0 {
      JsLengthOfAstral(s[1..], k - 1);
    }
  }

  /** Index of the first occurrence of `c` in `s`. */
  function IndexOf(s: string, c: char): (r: Option<nat>)
    ensures r.None? <==> c !in s
    ensures r.Some? ==> r.value < |s| && s[r.value] == c && c !in s[..r.value]
  {
    if s == [] then None
    else if s[0] == c then Some(0)
    else match IndexOf(s[1..], c)
      case None => None
      case Some(i) => Some(i + 1)
  }

  /** The first `c` of `a + b`, when `a` has none, is the first `c` of `b`. */
  lemma {:induction false} IndexOfAfterPrefix(a: string, b: string, c: char)
    requires c !in a
    ensures IndexOf(a + b, c) == match IndexOf(b, c) case Some(i) => Some(|a| + i) case None => None
  {
    if a == [] {
      assert a + b == b;
    } else {
      var t := a + b;
      assert t[0] == a[0] != c;
      assert t[1..] == a[1..] + b;
      assert c !in a[1..];
      IndexOfAfterPrefix(a[1..], b, c);
      assert IndexOf(t, c) == match IndexOf(t[1..], c) case Some(i) => Some(i + 1) case None => None;
    }
  }

  /** How many whitespace characters `s` starts with. */
  function LeadingWhitespace(s: string): (n: nat)
    ensures n <= |s|
    ensures forall i :: 0 <= i < n ==> IsWhitespace(s[i])
    ensures n == |s| || !IsWhitespace(s[n])
  {
    if s != [] && IsWhitespace(s[0]) then 1 + LeadingWhitespace(s[1..]) else 0
  }

  /** How many whitespace characters `s` ends with. */
  function TrailingWhitespace(s: string): (n: nat)
    ensures n <= |s|
    ensures forall i :: |s| - n <= i < |s| ==> IsWhitespace(s[i])
    ensures n == |s| || !IsWhitespace(s[|s| - n - 1])
  {
    if s != [] && IsWhitespace(s[|s| - 1]) then 1 + TrailingWhitespace(s[..|s| - 1]) else 0
  }

  /** `s.trimStart()`. */
  function TrimStart(s: string): string {
    s[LeadingWhitespace(s)..]
  }

  /** `s.trimEnd()`. */
  function TrimEnd(s: string): string {
    s[..|s| - TrailingWhitespace(s)]
  }

  /** `s.trim()`. */
  function Trim(s: string): string {
    TrimEnd(TrimStart(s))
  }

  /** Neither end of `s` is whitespace, so `trim` leaves it alone. */
  predicate IsTrimmed(s: string) {
    s == [] || (!IsWhitespace(s[0]) && !IsWhitespace(s[|s| - 1]))
  }

  lemma TrimOfTrimmed(s: string)
    requires IsTrimmed(s)
    ensures Trim(s) == s
  {
  }

  /** `s` is `head + Trim(s) + tail` with only whitespace in `head` and `tail`. */
  predicate StripsOnlyOuterWhitespace(s: string, i: int, j: int, t: string) {
    && 0 <= i <= j <= |s| && t == s[i..j]
    && (forall k :: 0 <= k < i ==> IsWhitespace(s[k]))
    && (forall k :: j <= k < |s| ==> IsWhitespace(s[k]))
  }

  /**
   * `trim` removes whitespace at the two ends and nothing else: its result is a
   * slice of `s` that neither starts nor ends with whitespace, and everything
   * cut off on either side is whitespace.
   */
  lemma TrimResult(s: string)
    ensures IsTrimmed(Trim(s))
    ensures exists i, j :: StripsOnlyOuterWhitespace(s, i, j, Trim(s))
    ensures IsTrimmed(s) ==> Trim(s) == s
  {
    var t := TrimStart(s);
    var r := TrimEnd(t);
    var i, j := |s| - |t|, |s| - |t| + |r|;
    if r != [] {
      assert r[0] == t[0];
    }
    assert r == s[i..][..|r|] == s[i..j];
    forall k | j <= k < |s| ensures IsWhitespace(s[k]) {
      assert s[k] == t[k - i];
    }
    assert StripsOnlyOuterWhitespace(s, i, j, r);
  }

  /** `parts.join(sep)`. */
  function Join(parts: seq<string>, sep: char): string {
    if |parts| == 0 then ""
    else if |parts| == 1 then parts[0]
    else parts[0] + [sep] + Join(parts[1..], sep)
  }

  /** `s.split(sep)` for a one-character separator: `"".split(",")` is `[""]`. */
  function Split(s: string, sep: char): (parts: seq<string>)
    ensures |parts| >= 1
    ensures forall k :: 0 <= k < |parts| ==> sep !in parts[k]
    ensures Join(parts, sep) == s
    decreases |s|
  {
    match IndexOf(s, sep)
    case None => [s]
    case Some(i) =>
      var rest := Split(s[i + 1..], sep);
      assert s == s[..i] + [sep] + s[i + 1..];
      [s[..i]] + rest
  }

  /** Splitting a join of separator-free parts gives the parts back. */
  lemma {:induction false} SplitJoin(parts: seq<string>, sep: char)
    requires |parts| >= 1
    requires forall k :: 0 <= k < |parts| ==> sep !in parts[k]
    ensures Split(Join(parts, sep), sep) == parts
  {
    if |parts| > 1 {
      var s := Join(parts, sep);
      var tail := Join(parts[1..], sep);
      assert s == parts[0] + [sep] + tail;
      assert s[..|parts[0]|] == parts[0];
      assert s[|parts[0]| + 1..] == tail;
      assert IndexOf(s, sep) == Some(|parts[0]|);
      SplitJoin(parts[1..], sep);
    } else {
      assert IndexOf(parts[0], sep).None?;
    }
  }

  function DigitChar(d: nat): char
    requires d < 10
  {
    "0123456789"[d]
  }

  predicate IsDigit(c: char) {
    '0' <= c <= '9'
  }

  predicate AllDigits(s: string) {
    forall i :: 0 <= i < |s| ==> IsDigit(s[i])
  }

  /** The value of a string of decimal digits, most significant first. */
  function DigitsValue(s: string): nat
    requires AllDigits(s)
  {
    if s == [] then 0 else DigitsValue(s[..|s| - 1]) * 10 + (s[|s| - 1] as int - '0' as int)
  }

  /** `n.toString()` for a non-negative integer. */
  function NatToString(n: nat): (r: string)
    ensures r != [] && AllDigits(r)
    ensures r == "0" <==> n == 0
    ensures r[0] == '0' ==> r == "0"
    ensures ':' !in r && ',' !in r && IsTrimmed(r)
  {
    if n < 10 then [DigitChar(n)] else NatToString(n / 10) + [DigitChar(n % 10)]
  }

  /** `n.toString()` (and `${n}`) for any integer. */
  function IntToString(n: int): string {
    if n < 0 then "-" + NatToString(-n) else NatToString(n)
  }

  /** Reading back what `NatToString` writes gives the number. */
  lemma {:induction false} DigitsValueOfNatToString(n: nat)
    ensures DigitsValue(NatToString(n)) == n
  {
    if n >= 10 {
      var s := NatToString(n);
      assert s[..|s| - 1] == NatToString(n / 10);
      DigitsValueOfNatToString(n / 10);
    }
  }

  /** `s.padStart(width, '0')` for a string of BMP characters. */
  function PadStartZero(s: string, width: nat): (r: string)
    ensures |r| == if |s| >= width then |s| else width
    ensures r[|r| - |s|..] == s
    ensures forall i :: 0 <= i < |r| - |s| ==> r[i] == '0'
  {
    if |s| >= width then s else Zeros(width - |s|) + s
  }

  /** `n` zero digits. */
  function Zeros(n: nat): (z: string)
    ensures |z| == n && forall i :: 0 <= i < n ==> z[i] == '0'
  {
    seq(n, _ => '0')
  }

  /** Leading zeros do not change a decimal value. */
  lemma {:induction false} DigitsValueLeadingZero(s: string)
    requires AllDigits(s)
    ensures AllDigits("0" + s) && DigitsValue("0" + s) == DigitsValue(s)
  {
    if s != [] {
      assert ("0" + s)[..|"0" + s| - 1] == "0" + s[..|s| - 1];
      DigitsValueLeadingZero(s[..|s| - 1]);
    }
  }

  /** Zero padding keeps the characters digits and the value unchanged. */
  lemma PadStartZeroValue(s: string, width: nat)
    requires AllDigits(s)
    ensures AllDigits(PadStartZero(s, width))
    ensures DigitsValue(PadStartZero(s, width)) == DigitsValue(s)
  {
    if |s| < width {
      ZerosPrefixValue(width - |s|, s);
    }
  }

  /** Any number of leading zeros keeps the characters digits and the value unchanged. */
  lemma {:induction false} ZerosPrefixValue(k: nat, s: string)
    requires AllDigits(s)
    ensures AllDigits(Zeros(k) + s) && DigitsValue(Zeros(k) + s) == DigitsValue(s)
  {
    if k > 0 {
      ZerosPrefixValue(k - 1, s);
      assert Zeros(k) + s == "0" + (Zeros(k - 1) + s);
      DigitsValueLeadingZero(Zeros(k - 1) + s);
    } else {
      assert Zeros(k) + s == s;
    }
  }

  function ToLowerAscii(c: char): char {
    if 'A' <= c <= 'Z' then (c as int + 32) as char else c
  }

  /** `s` ends with `suffix`, comparing ASCII letters without regard to case (a regular expression's `i` flag). */
  predicate EndsWithIgnoreCase(s: string, suffix: string) {
    |suffix| <= |s| &&
    forall i :: 0 <= i < |suffix| ==> ToLowerAscii(s[|s| - |suffix| + i]) == ToLowerAscii(suffix[i])
  }

  /** A JavaScript number as far as `Number.isFinite`, the comparisons and the arithmetic here can tell: its real value when finite. */
  datatype JsNumber = Finite(value: real) | NaN | PosInfinity | NegInfinity
  {
    predicate IsInfinite() {
      PosInfinity? || NegInfinity?
    }
  }

  /**
   * `Number(text)` on the texts read here. Blank text is 0; `Infinity` with an
   * optional sign is an infinity; a decimal integer with an optional sign is its
   * value; anything else is `NaN`.
   */
  function ToNumber(text: string): JsNumber {
    NumberOfTrimmed(Trim(text))
  }

  /** `Number` on text with no surrounding whitespace. */
  function NumberOfTrimmed(t: string): JsNumber {
    if t == "" then Finite(0.0)
    else if t == "Infinity" || t == "+Infinity" then PosInfinity
    else if t == "-Infinity" then NegInfinity
    else if t[0] == '-' && |t| > 1 && AllDigits(t[1..]) then Finite(0.0 - DigitsValue(t[1..]) as real)
    else if t[0] == '+' && |t| > 1 && AllDigits(t[1..]) then Finite(DigitsValue(t[1..]) as real)
    else if AllDigits(t) then Finite(DigitsValue(t) as real)
    else NaN
  }

  /** `Number` reads the three spellings of infinity, with surrounding whitespace ignored. */
  lemma ToNumberOfInfinity(text: string)
    ensures Trim(text) == "Infinity" || Trim(text) == "+Infinity" ==> ToNumber(text) == PosInfinity
    ensures Trim(text) == "-Infinity" ==> ToNumber(text) == NegInfinity
  {
  }

  /** A non-empty string of decimal digits reads as its value. */
  lemma ToNumberOfDigits(text: string)
    requires text != "" && AllDigits(text)
    ensures ToNumber(text) == Finite(DigitsValue(text) as real)
  {
    DigitsAreTrimmed(text);
    TrimOfTrimmed(text);
    assert !IsDigit('-') && !IsDigit('+') && !IsDigit('I');
  }

  /** Blank text reads as 0. */
  lemma ToNumberOfBlank(text: string)
    requires Trim(text) == ""
    ensures ToNumber(text) == Finite(0.0)
  {
  }

  lemma DigitsAreTrimmed(s: string)
    requires AllDigits(s)
    ensures IsTrimmed(s)
  {
    if s != [] {
      assert IsDigit(s[0]) && IsDigit(s[|s| - 1]);
    }
  }
}
