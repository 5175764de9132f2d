/**
 * The JavaScript string built-ins the completion pipeline relies on, over `seq<char>`:
 * `indexOf`, prefix and suffix tests, and `String.prototype.replace` called with a
 * string pattern and a string replacement (ECMA-262, sections 22.1.3.19 and
 * 22.1.3.19.1, GetSubstitution).
 */
module JsStrings {
  import opened Wrappers

  /** `pat` occurs in `s` starting at index `i`. */
  predicate OccursAt(s: string, pat: string, i: nat)
  {
    i + |pat| <= |s| && s[i..i + |pat|] == pat
  }

  /** `pat` occurs somewhere in `s`. */
  predicate Contains(s: string, pat: string)
  {
    exists i: nat | i <= |s| :: OccursAt(s, pat, i)
  }

  predicate StartsWith(s: string, prefix: string)
  {
    |prefix| <= |s| && s[..|prefix|] == prefix
  }

  predicate EndsWith(s: string, suffix: string)
  {
    |suffix| <= |s| && s[|s| - |suffix|..] == suffix
  }

  /** An occurrence at or after `m` is an occurrence in the suffix from `m`, shifted by `m`. */
  lemma OccursAtSuffix(s: string, m: nat, pat: string, j: nat)
    requires m <= j && m <= |s|
    ensures OccursAt(s, pat, j) <==> OccursAt(s[m..], pat, j - m)
  {
    if j + |pat| <= |s| {
      assert s[m..][j - m..j - m + |pat|] == s[j..j + |pat|];
    }
  }

  /** `s.indexOf(pat, from)`, with JavaScript's -1 written as `None`. */
  function IndexOf(s: string, pat: string, from: nat): (r: Option<nat>)
    ensures r.Some? ==> from <= r.value && OccursAt(s, pat, r.value)
    ensures r.Some? ==> forall j: nat :: from <= j < r.value ==> !OccursAt(s, pat, j)
    ensures r.None? ==> forall j: nat :: from <= j ==> !OccursAt(s, pat, j)
    decreases |s| - from
  {
    if from + |pat| > |s| then None
    else if OccursAt(s, pat, from) then Some(from)
    else IndexOf(s, pat, from + 1)
  }

  /**
   * GetSubstitution for a match without capture groups: the replacement text is scanned
   * left to right; `$$` gives `$`, `$&` the matched text, `` $` `` the text before the
   * match and `$'` the text after it. Every other `$` (a `$` before a digit or `<`
   * included, since there are no captures) stays literal.
   */
  function Expand(replacement: string, before: string, matched: string, after: string): string
    decreases |replacement|
  {
    if replacement == [] then []
    else if |replacement| >= 2 && replacement[0] == '$' && replacement[1] == '$' then
      "$" + Expand(replacement[2..], before, matched, after)
    else if |replacement| >= 2 && replacement[0] == '$' && replacement[1] == '&' then
      matched + Expand(replacement[2..], before, matched, after)
    else if |replacement| >= 2 && replacement[0] == '$' && replacement[1] == '`' then
      before + Expand(replacement[2..], before, matched, after)
    else if |replacement| >= 2 && replacement[0] == '$' && replacement[1] == '\'' then
      after + Expand(replacement[2..], before, matched, after)
    else
      [replacement[0]] + Expand(replacement[1..], before, matched, after)
  }

  /** `s.replace(pat, replacement)` with a string pattern: only the first occurrence is replaced. */
  function ReplaceFirst(s: string, pat: string, replacement: string): string
  {
    match IndexOf(s, pat, 0)
    case None => s
    case Some(i) =>
      s[..i] + Expand(replacement, s[..i], pat, s[i + |pat|..]) + s[i + |pat|..]
  }

  /**
   * A replacement text in which no `$` is followed by `$`, `&`, `` ` `` or `'`: GetSubstitution
   * finds no pattern in it to expand.
   */
  predicate PlainReplacement(replacement: string)
  {
    forall k :: 0 <= k < |replacement| - 1 && replacement[k] == '$' ==> replacement[k + 1] !in "$&`'"
  }

  /** A replacement text without an expandable `$` pattern is inserted exactly as it is. */
  lemma {:induction false} ExpandPlain(replacement: string, before: string, matched: string, after: string)
    requires PlainReplacement(replacement)
    ensures Expand(replacement, before, matched, after) == replacement
    decreases |replacement|
  {
    if replacement != [] {
      assert |replacement| >= 2 && replacement[0] == '$' ==> replacement[1] !in "$&`'";
      assert PlainReplacement(replacement[1..]) by {
        forall k | 0 <= k < |replacement[1..]| - 1 && replacement[1..][k] == '$'
          ensures replacement[1..][k + 1] !in "$&`'"
        {
          assert replacement[1..][k] == replacement[k + 1];
          assert replacement[1..][k + 1] == replacement[k + 2];
        }
      }
      ExpandPlain(replacement[1..], before, matched, after);
      assert [replacement[0]] + replacement[1..] == replacement;
    }
  }

  /** Without an occurrence of the pattern, `replace` returns its input unchanged. */
  lemma ReplaceFirstAbsent(s: string, pat: string, replacement: string)
    requires !Contains(s, pat)
    ensures ReplaceFirst(s, pat, replacement) == s
  {
  }

  /** `i` is where `pat` first occurs in `s`. */
  predicate FirstOccurrenceAt(s: string, pat: string, i: nat)
  {
    OccursAt(s, pat, i) && forall j: nat :: j < i ==> !OccursAt(s, pat, j)
  }

  /** `indexOf` from the start finds exactly the first occurrence. */
  lemma FirstOccurrenceIsIndexOf(s: string, pat: string, i: nat)
    requires FirstOccurrenceAt(s, pat, i)
    ensures IndexOf(s, pat, 0) == Some(i)
  {
  }

  /**
   * With a first occurrence at `i`, `replace` keeps the text before it and the text after
   * it, and only that one occurrence is replaced by the expanded replacement text.
   */
  lemma ReplaceFirstSplices(s: string, pat: string, replacement: string, i: nat)
    requires FirstOccurrenceAt(s, pat, i)
    ensures var r := ReplaceFirst(s, pat, replacement);
      var e := Expand(replacement, s[..i], pat, s[i + |pat|..]);
      |r| == |s| - |pat| + |e| &&
      r[..i] == s[..i] && r[i..i + |e|] == e && r[i + |e|..] == s[i + |pat|..]
  {
    FirstOccurrenceIsIndexOf(s, pat, i);
    var r := ReplaceFirst(s, pat, replacement);
    var e := Expand(replacement, s[..i], pat, s[i + |pat|..]);
    assert r == s[..i] + e + s[i + |pat|..];
  }
}
