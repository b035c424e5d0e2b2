/** Character classes and string operations shared by the PHP helpers and
    the browser code. Strings are sequences of characters; the operations
    below only ever inspect ASCII characters. */
module Text {

  predicate IsDigit(c: char) { '0' <= c <= '9' }

  predicate AllDigits(s: string) {
    forall i :: 0 <= i < |s| ==> IsDigit(s[i])
  }

  predicate StartsWith(s: string, prefix: string) {
    |prefix| <= |s| && s[..|prefix|] == prefix
  }

  /** The digits of `s`, in order: PHP `preg_replace('/\D+/', '', s)` and
      JavaScript `s.replace(/\D/g, '')`. */
  function Digits(s: string): (r: string)
    ensures AllDigits(r) && |r| <= |s|
  {
    if s == [] then [] else (if IsDigit(s[0]) then [s[0]] else []) + Digits(s[1..])
  }

  lemma {:induction false} DigitsOfDigits(s: string)
    requires AllDigits(s)
    ensures Digits(s) == s
  {
    if s != [] {
      DigitsOfDigits(s[1..]);
    }
  }

  lemma {:induction false} DigitsAppend(a: string, b: string)
    ensures Digits(a + b) == Digits(a) + Digits(b)
  {
    if a == [] {
      assert a + b == b;
    } else {
      assert (a + b)[1..] == a[1..] + b;
      DigitsAppend(a[1..], b);
    }
  }

  /** Removing characters that are not digits leaves the digits alone. */
  lemma {:induction false} DigitsOfNonDigits(s: string)
    requires forall i :: 0 <= i < |s| ==> !IsDigit(s[i])
    ensures Digits(s) == []
  {
    if s != [] {
      DigitsOfNonDigits(s[1..]);
    }
  }

  // ---------------------------------------------------------------------
  // Trimming

  /** The characters PHP's `trim` removes by default. */
  predicate IsPhpTrimChar(c: char) {
    c == ' ' || c == '\t' || c == '\n' || c == '\r' || c == '\0' || c == '\U{B}'
  }

  /** The characters JavaScript's `String.prototype.trim` removes
      (WhiteSpace and LineTerminator of ECMA-262). */
  predicate IsJsWhitespace(c: char) {
    c == '\t' || c == '\n' || c == '\U{B}' || c == '\U{C}' || c == '\r' || c == ' '
    || c == '\U{A0}' || c == '\U{1680}' || ('\U{2000}' <= c <= '\U{200A}')
    || c == '\U{2028}' || c == '\U{2029}' || c == '\U{202F}' || c == '\U{205F}'
    || c == '\U{3000}' || c == '\U{FEFF}'
  }

  /** `s` without its leading characters satisfying `ws`. */
  function TrimStart(s: string, ws: char -> bool): string {
    if s != [] && ws(s[0]) then TrimStart(s[1..], ws) else s
  }

  /** `s` without its trailing characters satisfying `ws`. */
  function TrimEnd(s: string, ws: char -> bool): string {
    if s != [] && ws(s[|s| - 1]) then TrimEnd(s[..|s| - 1], ws) else s
  }

  /** TrimStart removes a prefix of `ws` characters, and no more. */
  lemma {:induction false} TrimStartShape(s: string, ws: char -> bool)
    ensures var r := TrimStart(s, ws);
      && |r| <= |s| && r == s[|s| - |r|..]
      && (forall i :: 0 <= i < |s| - |r| ==> ws(s[i]))
      && (r != [] ==> !ws(r[0]))
  {
    if s != [] && ws(s[0]) {
      TrimStartShape(s[1..], ws);
      var r := TrimStart(s, ws);
      assert r == TrimStart(s[1..], ws);
      forall i | 0 <= i < |s| - |r| ensures ws(s[i]) {
        if i > 0 { assert s[i] == s[1..][i - 1]; }
      }
    }
  }

  /** TrimEnd removes a suffix of `ws` characters, and no more. */
  lemma {:induction false} TrimEndShape(s: string, ws: char -> bool)
    ensures var r := TrimEnd(s, ws);
      && |r| <= |s| && r == s[..|r|]
      && (forall i :: |r| <= i < |s| ==> ws(s[i]))
      && (r != [] ==> !ws(r[|r| - 1]))
  {
    if s != [] && ws(s[|s| - 1]) {
      var init := s[..|s| - 1];
      TrimEndShape(init, ws);
      var r := TrimEnd(s, ws);
      assert r == TrimEnd(init, ws);
      forall i | |r| <= i < |s| ensures ws(s[i]) {
        if i < |s| - 1 { assert s[i] == init[i]; }
      }
    }
  }

  /** `s` with the leading and trailing characters satisfying `ws` removed. */
  function Trim(s: string, ws: char -> bool): (r: string)
  {
    TrimEnd(TrimStart(s, ws), ws)
  }

  /** A string whose first and last characters are not `ws` is its own trim. */
  lemma TrimIdentity(s: string, ws: char -> bool)
    requires s != [] ==> !ws(s[0]) && !ws(s[|s| - 1])
    ensures Trim(s, ws) == s
  {
  }

  /** Trimming whitespace that is never a digit keeps every digit. */
  lemma DigitsOfTrim(s: string, ws: char -> bool)
    requires forall c :: ws(c) ==> !IsDigit(c)
    ensures Digits(Trim(s, ws)) == Digits(s)
  {
    TrimStartShape(s, ws);
    var t := TrimStart(s, ws);
    TrimEndShape(t, ws);
    var head := s[..|s| - |t|];
    assert s == head + t;
    forall i | 0 <= i < |head| ensures !IsDigit(head[i]) {
      assert ws(s[i]);
    }
    DigitsOfNonDigits(head);
    DigitsAppend(head, t);
    var r := TrimEnd(t, ws);
    var tail := t[|r|..];
    assert t == r + tail;
    forall i | 0 <= i < |tail| ensures !IsDigit(tail[i]) {
      assert ws(t[|r| + i]);
    }
    DigitsOfNonDigits(tail);
    DigitsAppend(r, tail);
  }

  function PhpTrim(s: string): string { Trim(s, IsPhpTrimChar) }

  function JsTrim(s: string): string { Trim(s, IsJsWhitespace) }

  // ---------------------------------------------------------------------
  // ASCII case mapping (PHP 8 `strtolower`; the ASCII part of JavaScript
  // `toUpperCase`)

  function ToLowerChar(c: char): (d: char)
    ensures 'A' <= c <= 'Z' ==> d as int == c as int + 32
    ensures !('A' <= c <= 'Z') ==> d == c
  {
    if 'A' <= c <= 'Z' then (c as int + 32) as char else c
  }

  function ToUpperChar(c: char): (d: char)
    ensures 'a' <= c <= 'z' ==> d as int == c as int - 32
    ensures !('a' <= c <= 'z') ==> d == c
  {
    if 'a' <= c <= 'z' then (c as int - 32) as char else c
  }

  function ToLower(s: string): (r: string)
    ensures |r| == |s| && forall i :: 0 <= i < |s| ==> r[i] == ToLowerChar(s[i])
  {
    seq(|s|, i requires 0 <= i < |s| => ToLowerChar(s[i]))
  }

  function ToUpper(s: string): (r: string)
    ensures |r| == |s| && forall i :: 0 <= i < |s| ==> r[i] == ToUpperChar(s[i])
  {
    seq(|s|, i requires 0 <= i < |s| => ToUpperChar(s[i]))
  }

  // ---------------------------------------------------------------------
  // Decimal rendering of numbers (PHP `%d`, JavaScript template strings)

  function DigitChar(d: nat): (c: char)
    requires d < 10
    ensures IsDigit(c) && c as int - '0' as int == d
  {
    ('0' as int + d) as char
  }

  /** The decimal digits of `v`, without leading zeros. */
  function NatToString(v: nat): (r: string)
    ensures r != [] && AllDigits(r)
    ensures (r[0] == '0') <==> v == 0
    ensures v < 10 <==> |r| == 1
  {
    if v < 10 then [DigitChar(v)] else NatToString(v / 10) + [DigitChar(v % 10)]
  }

  /** The value denoted by a string of decimal digits. */
  function DecimalValue(s: string): nat
    requires AllDigits(s)
  {
    if s == [] then 0 else 10 * DecimalValue(s[..|s| - 1]) + (s[|s| - 1] as int - '0' as int)
  }

  /** Rendering is faithful: reading the digits back gives the number. */
  lemma {:induction false} NatToStringValue(v: nat)
    ensures DecimalValue(NatToString(v)) == v
  {
    if v >= 10 {
      NatToStringValue(v / 10);
      var s := NatToString(v);
      assert s[..|s| - 1] == NatToString(v / 10);
    }
  }
}
