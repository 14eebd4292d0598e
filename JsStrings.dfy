/**
 * The JavaScript string operations the search engine relies on:
 * `toUpperCase`, `toLowerCase`, `trim`, `includes`, `replace(/\D/g, '')`,
 * `padStart` and `slice(0, n)`, and the truthiness of a `string | null`.
 *
 * Case folding is ASCII only (an approximation of the Unicode mapping);
 * `trim` strips exactly the characters ECMAScript calls WhiteSpace and
 * LineTerminator; `\D` is ASCII in ECMAScript regular expressions, so the
 * digit filter is exact.
 */
module JsStrings {
  import opened Wrappers

  /** `!!s` for a `string | null`: false for `null` and for `""`. */
  predicate Truthy(s: Option<string>) {
    s.Some? && s.value != ""
  }

  // ---------------------------------------------------------------- case

  function UpperChar(c: char): char {
    if 'a' <= c <= 'z' then (c as int - 32) as char else c
  }

  function LowerChar(c: char): char {
    if 'A' <= c <= 'Z' then (c as int + 32) as char else c
  }

  /** `s.toUpperCase()`, restricted to ASCII letters. */
  function Upper(s: string): string {
    seq(|s|, i requires 0 <= i < |s| => UpperChar(s[i]))
  }

  /** `s.toLowerCase()`, restricted to ASCII letters. */
  function Lower(s: string): string {
    seq(|s|, i requires 0 <= i < |s| => LowerChar(s[i]))
  }

  /** Lower-casing forgets whether the text was upper-cased first. */
  lemma LowerOfUpper(s: string)
    ensures Lower(Upper(s)) == Lower(s)
  {
  }

  /** Upper-casing forgets whether the text was lower-cased first. */
  lemma UpperOfLower(s: string)
    ensures Upper(Lower(s)) == Upper(s)
  {
  }

  /** Case folding commutes with taking a slice. */
  lemma LowerSlice(s: string, i: nat, j: nat)
    requires i <= j <= |s|
    ensures Lower(s)[i..j] == Lower(s[i..j])
  {
  }

  // ---------------------------------------------------------------- trim

  /** ECMAScript WhiteSpace (including every space separator) and LineTerminator. */
  predicate IsJsWhitespace(c: char) {
    c == '\t' || c == '\n' || c == '\U{000B}' || c == '\U{000C}' || c == '\r' || c == ' '
    || c == '\U{00A0}' || c == '\U{1680}' || ('\U{2000}' <= c <= '\U{200A}')
    || c == '\U{2028}' || c == '\U{2029}' || c == '\U{202F}' || c == '\U{205F}'
    || c == '\U{3000}' || c == '\U{FEFF}'
  }

  function TrimStart(s: string): string {
    if |s| > 0 && IsJsWhitespace(s[0]) then TrimStart(s[1..]) else s
  }

  function TrimEnd(s: string): string {
    if |s| > 0 && IsJsWhitespace(s[|s| - 1]) then TrimEnd(s[..|s| - 1]) else s
  }

  /** `s.trim()`. */
  function Trim(s: string): string {
    TrimEnd(TrimStart(s))
  }

  lemma {:induction false} TrimStartIsSuffix(s: string)
    ensures |TrimStart(s)| <= |s| && TrimStart(s) == s[|s| - |TrimStart(s)|..]
  {
    if |s| > 0 && IsJsWhitespace(s[0]) {
      TrimStartIsSuffix(s[1..]);
    }
  }

  lemma {:induction false} TrimEndIsPrefix(s: string)
    ensures |TrimEnd(s)| <= |s| && TrimEnd(s) == s[..|TrimEnd(s)|]
  {
    if |s| > 0 && IsJsWhitespace(s[|s| - 1]) {
      TrimEndIsPrefix(s[..|s| - 1]);
    }
  }

  /** A character that is not whitespace survives trimming. */
  lemma {:induction false} TrimStartKeepsNonWhite(s: string, i: nat)
    requires i < |s| && !IsJsWhitespace(s[i])
    ensures TrimStart(s) != []
  {
    if IsJsWhitespace(s[0]) {
      TrimStartKeepsNonWhite(s[1..], i - 1);
    }
  }

  lemma {:induction false} TrimEndKeepsNonWhite(s: string, i: nat)
    requires i < |s| && !IsJsWhitespace(s[i])
    ensures TrimEnd(s) != []
  {
    if IsJsWhitespace(s[|s| - 1]) {
      TrimEndKeepsNonWhite(s[..|s| - 1], i);
    }
  }

  /** Trimming leaves the text empty only when every character is whitespace. */
  lemma TrimKeepsNonWhite(s: string, i: nat)
    requires i < |s| && !IsJsWhitespace(s[i])
    ensures Trim(s) != ""
  {
    TrimStartKeepsNonWhite(s, i);
    TrimStartIsSuffix(s);
    var t := TrimStart(s);
    var k := |s| - |t|;
    if i < k {
      // every character before the kept suffix is whitespace
      TrimStartDropsOnlyWhite(s, i);
    }
    assert t[i - k] == s[i];
    TrimEndKeepsNonWhite(t, i - k);
  }

  lemma {:induction false} TrimStartDropsOnlyWhite(s: string, i: nat)
    requires i < |s| - |TrimStart(s)|
    ensures IsJsWhitespace(s[i])
  {
    if |s| > 0 && IsJsWhitespace(s[0]) {
      if i > 0 {
        TrimStartDropsOnlyWhite(s[1..], i - 1);
      }
    }
  }

  // ------------------------------------------------------------ includes

  predicate InfixAt(hay: string, needle: string, i: nat) {
    i + |needle| <= |hay| && hay[i..i + |needle|] == needle
  }

  /** `hay.includes(needle)`; every text includes the empty text. */
  predicate Includes(hay: string, needle: string) {
    exists i: nat | i <= |hay| :: InfixAt(hay, needle, i)
  }

  /** The result of trimming occurs inside the original text. */
  lemma IncludesTrim(s: string)
    ensures Includes(s, Trim(s))
  {
    TrimStartIsSuffix(s);
    var t := TrimStart(s);
    TrimEndIsPrefix(t);
    var k := |s| - |t|;
    assert s[k..][..|Trim(s)|] == s[k..k + |Trim(s)|];
    assert InfixAt(s, Trim(s), k);
  }

  /** Inclusion is transitive. */
  lemma IncludesTransitive(a: string, b: string, c: string)
    requires Includes(a, b) && Includes(b, c)
    ensures Includes(a, c)
  {
    var i: nat :| i <= |a| && InfixAt(a, b, i);
    var j: nat :| j <= |b| && InfixAt(b, c, j);
    assert i + |b| <= |a| && a[i..i + |b|] == b;
    assert j + |c| <= |b| && b[j..j + |c|] == c;
    forall k | 0 <= k < |c| ensures a[i + j + k] == c[k] {
      assert c[k] == b[j + k] == a[i + j + k];
    }
    assert a[i + j..i + j + |c|] == c;
    assert InfixAt(a, c, i + j);
  }

  /** Lower-casing both sides preserves inclusion. */
  lemma IncludesLower(a: string, b: string)
    requires Includes(a, b)
    ensures Includes(Lower(a), Lower(b))
  {
    var i: nat :| i <= |a| && InfixAt(a, b, i);
    assert i + |b| <= |a| && a[i..i + |b|] == b;
    LowerSlice(a, i, i + |b|);
    assert InfixAt(Lower(a), Lower(b), i);
  }

  // -------------------------------------------------------------- digits

  predicate IsDigit(c: char) {
    '0' <= c <= '9'
  }

  predicate AllDigits(s: string) {
    forall i :: 0 <= i < |s| ==> IsDigit(s[i])
  }

  predicate HasDigit(s: string) {
    exists i :: 0 <= i < |s| && IsDigit(s[i])
  }

  /** `s.replace(/\D/g, '')`: the digits of `s`, in order. */
  function Digits(s: string): (r: string)
    ensures |r| <= |s| && AllDigits(r)
  {
    if s == [] then []
    else (if IsDigit(s[0]) then [s[0]] else []) + Digits(s[1..])
  }

  /** The digit filter comes back empty exactly when the text has no digit. */
  lemma {:induction false} DigitsEmptyIff(s: string)
    ensures Digits(s) == [] <==> !HasDigit(s)
  {
    if s != [] {
      DigitsEmptyIff(s[1..]);
      if HasDigit(s[1..]) {
        var i :| 0 <= i < |s[1..]| && IsDigit(s[1..][i]);
        assert IsDigit(s[i + 1]);
      }
      if HasDigit(s) && !IsDigit(s[0]) {
        var i :| 0 <= i < |s| && IsDigit(s[i]);
        assert IsDigit(s[1..][i - 1]);
      }
    }
  }

  /** A text made only of digits passes the digit filter unchanged. */
  lemma {:induction false} DigitsOfDigits(s: string)
    requires AllDigits(s)
    ensures Digits(s) == s
  {
    if s != [] {
      DigitsOfDigits(s[1..]);
    }
  }

  // ------------------------------------------------------ padStart, slice

  /** `s.padStart(n, fill)` for a one-character fill. */
  function PadStart(s: string, n: nat, fill: char): (r: string)
    ensures |r| == if |s| >= n then |s| else n
  {
    if |s| >= n then s else seq(n - |s|, _ => fill) + s
  }

  /** `s.slice(0, n)`. */
  function SliceTo(s: string, n: nat): (r: string)
    ensures |r| == if |s| <= n then |s| else n
  {
    if |s| <= n then s else s[..n]
  }
}
