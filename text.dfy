/**
 * `String.prototype.trim`, which the rename provider applies to the new name
 * before anything else (index.ts:35). ECMAScript trims the WhiteSpace and
 * LineTerminator code points; both sets are listed out here.
 */
module Text {

  /** ECMAScript WhiteSpace (tab, vertical tab, form feed, the space separators, BOM) and LineTerminator. */
  predicate IsWhitespace(c: char)
  {
    || c == '\t' || c == '\n' || c == '\U{000B}' || c == '\U{000C}' || c == '\r'
    || c == ' ' || c == '\U{00A0}' || c == '\U{1680}'
    || ('\U{2000}' <= c <= '\U{200A}')
    || c == '\U{2028}' || c == '\U{2029}' || c == '\U{202F}' || c == '\U{205F}'
    || c == '\U{3000}' || c == '\U{FEFF}'
  }

  /** The index of the first non-whitespace character of `s` at or after `from`, or `|s|` if there is none. */
  function SkipWhitespace(s: string, from: nat): (n: nat)
    requires from <= |s|
    ensures from <= n <= |s|
    ensures forall k :: from <= k < n ==> IsWhitespace(s[k])
    ensures n == |s| || !IsWhitespace(s[n])
    decreases |s| - from
  {
    if from < |s| && IsWhitespace(s[from]) then SkipWhitespace(s, from + 1) else from
  }

  /** The index just past the last non-whitespace character of `s` before `to`, or 0 if there is none. */
  function SkipWhitespaceBack(s: string, to: nat): (n: nat)
    requires to <= |s|
    ensures n <= to
    ensures forall k :: n <= k < to ==> IsWhitespace(s[k])
    ensures n == 0 || !IsWhitespace(s[n - 1])
  {
    if to > 0 && IsWhitespace(s[to - 1]) then SkipWhitespaceBack(s, to - 1) else to
  }

  /** Drops the leading whitespace: the result is the suffix that starts at the first non-whitespace character. */
  function TrimStart(s: string): (r: string)
    ensures |r| <= |s| && r == s[|s| - |r|..]
    ensures forall k :: 0 <= k < |s| - |r| ==> IsWhitespace(s[k])
    ensures r == [] || !IsWhitespace(r[0])
  {
    s[SkipWhitespace(s, 0)..]
  }

  /** Drops the trailing whitespace: the result is the prefix that ends at the last non-whitespace character. */
  function TrimEnd(s: string): (r: string)
    ensures |r| <= |s| && r == s[..|r|]
    ensures forall k :: |r| <= k < |s| ==> IsWhitespace(s[k])
    ensures r == [] || !IsWhitespace(r[|r| - 1])
  {
    s[..SkipWhitespaceBack(s, |s|)]
  }

  /** `s.trim()`. */
  function Trim(s: string): string
  {
    TrimEnd(TrimStart(s))
  }

  /**
   * What `trim` promises: the result is the contiguous piece of the input that
   * starts at offset `i`, all that is cut away on either side is whitespace,
   * and the result neither starts nor ends with whitespace.
   */
  lemma TrimIsWhitespaceStripped(s: string)
    ensures var r, i := Trim(s), |s| - |TrimStart(s)|;
      && 0 <= i <= |s| - |r| && r == s[i..i + |r|]
      && (forall k :: 0 <= k < i ==> IsWhitespace(s[k]))
      && (forall k :: i + |r| <= k < |s| ==> IsWhitespace(s[k]))
      && (r == [] || (!IsWhitespace(r[0]) && !IsWhitespace(r[|r| - 1])))
  {
  }

  /** Trimming twice is trimming once. */
  lemma TrimIdempotent(s: string)
    ensures Trim(Trim(s)) == Trim(s)
  {
    var r := Trim(s);
    TrimIsWhitespaceStripped(s);
    if r != [] {
      assert [] + r + [] == r;
      TrimRemovesPadding([], r, []);
    }
  }

  /** Whitespace before a text that does not start with whitespace is exactly what `TrimStart` drops. */
  lemma TrimStartDropsPadding(before: string, rest: string)
    requires forall k :: 0 <= k < |before| ==> IsWhitespace(before[k])
    requires rest == [] || !IsWhitespace(rest[0])
    ensures TrimStart(before + rest) == rest
  {
    var x := before + rest;
    assert forall k :: 0 <= k < |before| ==> x[k] == before[k];
    if rest != [] {
      assert x[|before|] == rest[0];
    }
    assert SkipWhitespace(x, 0) == |before|;
    assert x[|before|..] == rest;
  }

  /** Whitespace after a text that does not end with whitespace is exactly what `TrimEnd` drops. */
  lemma TrimEndDropsPadding(rest: string, after: string)
    requires forall k :: 0 <= k < |after| ==> IsWhitespace(after[k])
    requires rest == [] || !IsWhitespace(rest[|rest| - 1])
    ensures TrimEnd(rest + after) == rest
  {
    var x := rest + after;
    assert forall k :: |rest| <= k < |x| ==> x[k] == after[k - |rest|];
    if rest != [] {
      assert x[|rest| - 1] == rest[|rest| - 1];
    }
    assert SkipWhitespaceBack(x, |x|) == |rest|;
    assert x[..|rest|] == rest;
  }

  /** Whitespace padding around a text that neither starts nor ends with whitespace is exactly what `trim` removes. */
  lemma TrimRemovesPadding(before: string, core: string, after: string)
    requires forall k :: 0 <= k < |before| ==> IsWhitespace(before[k])
    requires forall k :: 0 <= k < |after| ==> IsWhitespace(after[k])
    requires core != [] && !IsWhitespace(core[0]) && !IsWhitespace(core[|core| - 1])
    ensures Trim(before + core + after) == core
  {
    assert before + core + after == before + (core + after);
    assert (core + after)[0] == core[0];
    TrimStartDropsPadding(before, core + after);
    TrimEndDropsPadding(core, after);
  }
}
