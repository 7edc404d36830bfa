/**
 * The two string operations the conversation store relies on:
 * JavaScript's `String.prototype.trim` (used as the blank-input guard) and
 * `substring(0, n)` (used by the sidebar preview).
 */
module JsText {

  /** The characters `trim` strips: ECMAScript WhiteSpace (tab, vertical tab,
      form feed, space, no-break space, byte order mark and every Unicode
      space separator) and LineTerminator (LF, CR, LS, PS). */
  predicate IsJsWhitespace(c: char) {
    || c == '\t' || c == '\U{000B}' || c == '\U{000C}' || c == ' '
    || c == '\U{00A0}' || c == '\U{FEFF}'
    || c == '\U{1680}' || ('\U{2000}' <= c <= '\U{200A}')
    || c == '\U{202F}' || c == '\U{205F}' || c == '\U{3000}'
    || c == '\n' || c == '\r' || c == '\U{2028}' || c == '\U{2029}'
  }

  /** A string made of whitespace only (the empty string included). */
  ghost predicate IsBlank(s: string) {
    forall i :: 0 <= i < |s| ==> IsJsWhitespace(s[i])
  }

  /** Drops the leading whitespace. */
  function TrimStart(s: string): (r: string)
    ensures |r| <= |s| && r == s[|s| - |r|..]
    ensures IsBlank(s[..|s| - |r|])
    ensures |r| > 0 ==> !IsJsWhitespace(r[0])
  {
    if |s| > 0 && IsJsWhitespace(s[0]) then TrimStart(s[1..]) else s
  }

  /** Drops the trailing whitespace. */
  function TrimEnd(s: string): (r: string)
    ensures |r| <= |s| && r == s[..|r|]
    ensures IsBlank(s[|r|..])
    ensures |r| > 0 ==> !IsJsWhitespace(r[|r| - 1])
  {
    if |s| > 0 && IsJsWhitespace(s[|s| - 1]) then TrimEnd(s[..|s| - 1]) else s
  }

  /** `s.trim()`: the longest slice of `s` that neither starts nor ends with
      whitespace, with only whitespace cut away on either side. In
      particular it is empty exactly when `s` is blank, which is what the
      store's `!input.trim()` guard tests. */
  function Trim(s: string): (r: string)
    ensures r == [] <==> IsBlank(s)
    ensures |r| > 0 ==> !IsJsWhitespace(r[0]) && !IsJsWhitespace(r[|r| - 1])
    ensures exists lo :: 0 <= lo <= |s| - |r|
              && r == s[lo..lo + |r|]
              && IsBlank(s[..lo]) && IsBlank(s[lo + |r|..])
  {
    var t := TrimStart(s);
    var r := TrimEnd(t);
    var lo := |s| - |t|;
    assert s[lo..] == t;
    assert s[lo + |r|..] == t[|r|..];
    BlankIffEmptyCore(s, lo, r);
    SliceWitness(s, lo, r);
    r
  }

  /** A slice of `s` with only whitespace cut away on either side, and
      starting with a non-whitespace character when non-empty, is empty
      exactly when `s` is blank. */
  lemma BlankIffEmptyCore(s: string, lo: nat, r: string)
    requires lo + |r| <= |s| && r == s[lo..lo + |r|]
    requires IsBlank(s[..lo]) && IsBlank(s[lo + |r|..])
    requires |r| > 0 ==> !IsJsWhitespace(r[0])
    ensures r == [] <==> IsBlank(s)
  {
    if r == [] {
      BlankConcat(s, lo);
    } else {
      assert !IsJsWhitespace(s[lo]) by { assert r[0] == s[lo]; }
    }
  }

  /** `lo` witnesses that `r` is `s` with blank ends cut away. */
  lemma SliceWitness(s: string, lo: nat, r: string)
    requires lo + |r| <= |s| && r == s[lo..lo + |r|]
    requires IsBlank(s[..lo]) && IsBlank(s[lo + |r|..])
    ensures exists lo :: 0 <= lo <= |s| - |r|
              && r == s[lo..lo + |r|]
              && IsBlank(s[..lo]) && IsBlank(s[lo + |r|..])
  {
  }

  /** Two blank halves make a blank whole. */
  lemma BlankConcat(s: string, k: nat)
    requires k <= |s| && IsBlank(s[..k]) && IsBlank(s[k..])
    ensures IsBlank(s)
  {
    forall i | 0 <= i < |s| ensures IsJsWhitespace(s[i]) {
      if i < k {
        assert s[i] == s[..k][i];
      } else {
        assert s[i] == s[k..][i - k];
      }
    }
  }

  function Min(a: int, b: int): int {
    if a <= b then a else b
  }

  /** `s.substring(0, n)` for `n >= 0`: the first `n` characters, or all of
      `s` when it is shorter. */
  function Substring(s: string, n: nat): (r: string)
    ensures r <= s
    ensures |r| == Min(n, |s|)
  {
    if n <= |s| then s[..n] else s
  }
}
