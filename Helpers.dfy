/** The pure string helpers of backend/helpers.php: phone normalisation,
    E.164 validation, request-path routing and boolean request fields. */
module Helpers {
  import opened Wrappers
  import opened Text

  /** A canonical phone: `+` followed only by ASCII digits. */
  predicate IsCanonical(p: string) {
    |p| >= 1 && p[0] == '+' && AllDigits(p[1..])
  }

  /** The branches `normalizePhone` applies after trimming. The browser's
      `normalizePhone` applies the same branches after its own trim. */
  function NormalizeTrimmed(t: string): (r: string)
    ensures IsCanonical(r)
  {
    if StartsWith(t, "+") then "+" + Digits(t[1..])
    else if StartsWith(t, "00") then "+" + Digits(t[2..])
    else
      var d := Digits(t);
      // Pakistan: an 11-digit local number 03xx yyyyyyy becomes +92 3xx yyyyyyy
      if |d| == 11 && StartsWith(d, "03") then "+92" + d[1..]
      else "+" + d
  }

  /** `normalizePhone` of backend/helpers.php. */
  function NormalizePhone(phone: string): (r: string)
    ensures IsCanonical(r)
  {
    NormalizeTrimmed(PhpTrim(phone))
  }

  lemma PhpTrimKeepsDigits(s: string)
    ensures Digits(PhpTrim(s)) == Digits(s)
  {
    DigitsOfTrim(s, IsPhpTrimChar);
  }

  // What each branch does to the digits of the input: they are kept after
  // a leading `+`, lose the two zeros of a `00` prefix, have the Pakistani
  // trunk `0` replaced by `92`, and are otherwise kept.

  lemma DigitsAfterPrefix(t: string, prefix: string)
    requires StartsWith(t, prefix)
    ensures Digits(t) == Digits(prefix) + Digits(t[|prefix|..])
  {
    assert t == prefix + t[|prefix|..];
    DigitsAppend(prefix, t[|prefix|..]);
  }

  lemma DigitsAfterPlus(phone: string)
    requires StartsWith(PhpTrim(phone), "+")
    ensures Digits(PhpTrim(phone)[1..]) == Digits(phone)
  {
    DigitsAfterPrefix(PhpTrim(phone), "+");
    PhpTrimKeepsDigits(phone);
  }

  lemma DigitsAfterDoubleZero(phone: string)
    requires StartsWith(PhpTrim(phone), "00")
    ensures "00" + Digits(PhpTrim(phone)[2..]) == Digits(phone)
  {
    DigitsAfterPrefix(PhpTrim(phone), "00");
    PhpTrimKeepsDigits(phone);
  }

  lemma NormalizePlus(phone: string)
    requires StartsWith(PhpTrim(phone), "+")
    ensures NormalizePhone(phone) == "+" + Digits(phone)
  {
    DigitsAfterPlus(phone);
  }

  lemma NormalizeDoubleZero(phone: string)
    requires !StartsWith(PhpTrim(phone), "+") && StartsWith(PhpTrim(phone), "00")
    ensures Digits(phone) == "00" + NormalizePhone(phone)[1..]
  {
    DigitsAfterDoubleZero(phone);
  }

  lemma NormalizePakistan(phone: string)
    requires !StartsWith(PhpTrim(phone), "+") && !StartsWith(PhpTrim(phone), "00")
    requires |Digits(phone)| == 11 && StartsWith(Digits(phone), "03")
    ensures NormalizePhone(phone) == "+92" + Digits(phone)[1..]
  {
    PhpTrimKeepsDigits(phone);
  }

  lemma NormalizeOther(phone: string)
    requires !StartsWith(PhpTrim(phone), "+") && !StartsWith(PhpTrim(phone), "00")
    requires !(|Digits(phone)| == 11 && StartsWith(Digits(phone), "03"))
    ensures NormalizePhone(phone) == "+" + Digits(phone)
  {
    PhpTrimKeepsDigits(phone);
  }

  /** Normalising a canonical phone returns it unchanged. */
  lemma NormalizeTrimmedCanonical(p: string)
    requires IsCanonical(p)
    ensures NormalizeTrimmed(p) == p
  {
    assert StartsWith(p, "+");
    DigitsOfDigits(p[1..]);
    assert "+" + p[1..] == p;
  }

  /** A canonical phone has nothing for PHP's `trim` to remove. */
  lemma PhpTrimCanonical(p: string)
    requires IsCanonical(p)
    ensures PhpTrim(p) == p
  {
    assert !IsPhpTrimChar(p[0]);
    assert |p| > 1 ==> IsDigit(p[1..][|p| - 2]);
    TrimIdentity(p, IsPhpTrimChar);
  }

  /** `normalizePhone` is idempotent. */
  lemma NormalizePhoneIdempotent(phone: string)
    ensures NormalizePhone(NormalizePhone(phone)) == NormalizePhone(phone)
  {
    var r := NormalizePhone(phone);
    PhpTrimCanonical(r);
    NormalizeTrimmedCanonical(r);
  }

  // ---------------------------------------------------------------------
  // isValidE164: preg_match('/^\+[1-9]\d{7,14}$/', phone)

  /** `+`, a digit 1-9, then 7 to 14 digits. */
  predicate IsE164Number(s: string) {
    9 <= |s| <= 16 && s[0] == '+' && '1' <= s[1] <= '9' && AllDigits(s[2..])
  }

  /** The pattern has no D modifier, so its `$` also matches just before a
      final newline: the number may be followed by one "\n". */
  predicate IsValidE164(s: string) {
    IsE164Number(s) || (|s| > 0 && s[|s| - 1] == '\n' && IsE164Number(s[..|s| - 1]))
  }

  /** A normalised phone is valid exactly when it has 8 to 15 digits, the
      first of which is not 0. */
  lemma NormalizedValidity(phone: string)
    ensures var r := NormalizePhone(phone);
      IsValidE164(r) <==> (9 <= |r| <= 16 && r[1] != '0')
  {
    var r := NormalizePhone(phone);
    assert |r| > 1 ==> IsDigit(r[1..][|r| - 2]);
    if 9 <= |r| <= 16 && r[1] != '0' {
      assert IsDigit(r[1..][0]);
      assert r[2..] == r[1..][1..];
    }
  }

  /** The trailing-newline case the regex admits. */
  lemma ValidE164AcceptsTrailingNewline()
    ensures IsValidE164("+12345678\n") && !IsE164Number("+12345678\n")
  {
    assert "+12345678\n"[..9] == "+12345678";
  }

  // ---------------------------------------------------------------------
  // routePath, with the server variables as parameters

  predicate IsSlash(c: char) { c == '/' }

  /** `parse_url(REQUEST_URI, PHP_URL_PATH) ?: '/'`: the parse itself is
      PHP's; `?:` replaces every falsy result (null, false, "" and "0"). */
  function UriPath(parsed: Option<string>): (r: string)
    ensures r != ""
  {
    match parsed
    case None => "/"
    case Some(p) => if p == "" || p == "0" then "/" else p
  }

  /** `routePath`, given PATH_INFO, the parsed REQUEST_URI path and
      SCRIPT_NAME (None when the server omits them). */
  function RoutePath(pathInfo: Option<string>, parsedUriPath: Option<string>,
                     scriptName: Option<string>): (r: string)
    ensures r != ""
    ensures pathInfo.Some? && pathInfo.value != "" ==>
      var p := pathInfo.value;
      && r[0] == '/' && (|r| > 1 ==> r[1] != '/')
      && |r| - 1 <= |p| && p[|p| - (|r| - 1)..] == r[1..]
      && (forall i :: 0 <= i < |p| - (|r| - 1) ==> p[i] == '/')
    ensures !(pathInfo.Some? && pathInfo.value != "") ==>
      var uri := UriPath(parsedUriPath); var script := scriptName.GetOr("");
      && (script != "" && StartsWith(uri, script) ==>
            if |uri| == |script| then r == "/" else r == uri[|script|..])
      && (!(script != "" && StartsWith(uri, script)) ==> r == uri)
  {
    if pathInfo.Some? && pathInfo.value != "" then
      TrimStartShape(pathInfo.value, IsSlash);
      "/" + TrimStart(pathInfo.value, IsSlash)
    else
      var uri := UriPath(parsedUriPath);
      var script := scriptName.GetOr("");
      if script != "" && StartsWith(uri, script) then
        var rest := uri[|script|..];
        if rest == "" then "/" else rest
      else if uri == "" then "/" else uri
  }

  // ---------------------------------------------------------------------
  // boolField

  /** `boolField`: the default when the key is absent or its value does not
      parse; otherwise the parsed value. `parse` stands for PHP's
      `filter_var(..., FILTER_VALIDATE_BOOL, FILTER_NULL_ON_FAILURE)`. */
  function BoolField<V>(input: map<string, V>, key: string, default: bool,
                        parse: V -> Option<bool>): (r: bool)
    ensures key !in input ==> r == default
    ensures key in input ==> r == parse(input[key]).GetOr(default)
  {
    if key !in input then default else parse(input[key]).GetOr(default)
  }
}
