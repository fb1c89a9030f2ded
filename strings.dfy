/**
 * The string operations of ECMA-262 that the build script relies on:
 * StringIndexOf (section 6.1.4.1), GetSubstitution (section 22.1.3.19.1)
 * and String.prototype.replaceAll (section 22.1.3.20), for a string
 * search value and a string replacement value.
 */
module Strings {
  import opened Wrappers

  /** `tok` occurs in `s` starting at index `k`. */
  predicate OccursAt(s: string, tok: string, k: nat)
  {
    k + |tok| <= |s| && forall i :: 0 <= i < |tok| ==> s[k + i] == tok[i]
  }

  /** StringIndexOf: the least index at or after `from` where `tok` occurs (-1 in ECMA-262 is None here). */
  function IndexOf(s: string, tok: string, from: nat): (r: Option<nat>)
    decreases |s| - from
    ensures r.Some? ==> from <= r.value && OccursAt(s, tok, r.value)
  {
    if from + |tok| > |s| then None
    else if OccursAt(s, tok, from) then Some(from)
    else IndexOf(s, tok, from + 1)
  }

  /** An occurrence at or after `from` is found: the search stops there or at an earlier occurrence. */
  lemma {:induction false} IndexOfIsLeast(s: string, tok: string, from: nat, k: nat)
    requires from <= k && OccursAt(s, tok, k)
    ensures IndexOf(s, tok, from).Some? && IndexOf(s, tok, from).value <= k
    decreases k - from
  {
    if from != k {
      IndexOfIsLeast(s, tok, from + 1, k);
    }
  }

  /** String.prototype.includes. */
  predicate Contains(s: string, sub: string)
  {
    IndexOf(s, sub, 0).Some?
  }

  /**
   * A replacement template in which no `$` starts one of the patterns
   * `$$`, `$&`, `` $` `` or `$'`; GetSubstitution copies such a template verbatim.
   */
  predicate NoPatterns(v: string)
    decreases |v|
  {
    |v| < 2 || (!(v[0] == '$' && IsPatternChar(v[1])) && NoPatterns(v[1..]))
  }

  /** A slice of `s` is contained in `s`. */
  lemma SliceContained(s: string, sub: string, k: nat)
    requires k + |sub| <= |s| && s[k..k + |sub|] == sub
    ensures Contains(s, sub)
  {
    assert forall i :: 0 <= i < |sub| ==> sub[i] == s[k + i];
    assert OccursAt(s, sub, k);
    IndexOfIsLeast(s, sub, 0, k);
  }

  /** `v` is contained in `a + v + b`. */
  lemma MiddleContained(a: string, v: string, b: string)
    ensures Contains(a + v + b, v)
  {
    assert (a + v + b)[|a|..|a| + |v|] == v;
    SliceContained(a + v + b, v, |a|);
  }

  /** A value without any `$` has no patterns. */
  lemma {:induction false} NoDollarNoPatterns(v: string)
    requires forall i :: 0 <= i < |v| ==> v[i] != '$'
    ensures NoPatterns(v)
    decreases |v|
  {
    if |v| >= 2 {
      assert forall i :: 0 <= i < |v[1..]| ==> v[1..][i] == v[i + 1];
      NoDollarNoPatterns(v[1..]);
    }
  }

  /** The characters that make `$` special in a replacement template. */
  predicate IsPatternChar(c: char)
  {
    c == '$' || c == '&' || c == '`' || c == '\''
  }

  /**
   * GetSubstitution for a string search: `matched` was found in `str` at
   * `position`, there are no captures and no named captures. `$$` becomes
   * `$`, `$&` the matched text, `` $` `` the text before the match and `$'`
   * the text after it. With no captures, `$n`, `$nn` and `$<` are copied as
   * they stand, which is what copying one character at a time does too.
   */
  function GetSubstitution(matched: string, str: string, position: nat, template: string): string
    requires position + |matched| <= |str|
    decreases |template|
  {
    if template == [] then []
    else if |template| >= 2 && template[0] == '$' && IsPatternChar(template[1]) then
      Expansion(template[1], matched, str, position) + GetSubstitution(matched, str, position, template[2..])
    else
      [template[0]] + GetSubstitution(matched, str, position, template[1..])
  }

  /** What `$` followed by the pattern character `c` stands for. */
  function Expansion(c: char, matched: string, str: string, position: nat): string
    requires IsPatternChar(c) && position + |matched| <= |str|
  {
    if c == '$' then "$"
    else if c == '&' then matched
    else if c == '`' then str[..position]
    else str[position + |matched|..]
  }

  /** A template without `$`-patterns is substituted literally, whatever was matched. */
  lemma {:induction false} GetSubstitutionLiteral(matched: string, str: string, position: nat, v: string)
    requires position + |matched| <= |str|
    requires NoPatterns(v)
    ensures GetSubstitution(matched, str, position, v) == v
    decreases |v|
  {
    if v != [] {
      GetSubstitutionLiteral(matched, str, position, v[1..]);
    }
  }

  /**
   * Steps 10 to 16 of replaceAll from the end of the last match `from`:
   * the text up to the next match is preserved, the match is replaced by
   * GetSubstitution, and the search resumes after the match.
   */
  function ReplaceFrom(s: string, tok: string, v: string, from: nat): string
    requires |tok| > 0 && from <= |s|
    decreases |s| - from
  {
    match IndexOf(s, tok, from)
    case None => s[from..]
    case Some(p) => s[from..p] + GetSubstitution(tok, s, p, v) + ReplaceFrom(s, tok, v, p + |tok|)
  }

  /**
   * `s.replaceAll(tok, v)` for a non-empty string `tok` and a string `v`:
   * the text before the first occurrence is kept, and a string without
   * an occurrence is returned unchanged.
   */
  function ReplaceAll(s: string, tok: string, v: string): (r: string)
    requires |tok| > 0
    ensures IndexOf(s, tok, 0).None? ==> r == s
    ensures IndexOf(s, tok, 0).Some? ==> s[..IndexOf(s, tok, 0).value] <= r
  {
    ReplaceFrom(s, tok, v, 0)
  }
}
