/**
 * What String.prototype.replaceAll does with the occurrences of the token,
 * proved from the ECMA-262 definition in module Strings: for a value
 * without `$`-patterns it is the literal, left-to-right, non-overlapping
 * substitution of every occurrence.
 */
module ReplaceFacts {
  import opened Wrappers
  import opened Strings

  /**
   * Literal substitution of every occurrence of `tok` at or after `from`,
   * left to right and without overlap: the text up to the next occurrence,
   * then `v`, then the same after that occurrence.
   */
  function LiteralFrom(s: string, tok: string, v: string, from: nat): string
    requires |tok| > 0 && from <= |s|
    decreases |s| - from
  {
    match IndexOf(s, tok, from)
    case None => s[from..]
    case Some(p) => s[from..p] + v + LiteralFrom(s, tok, v, p + |tok|)
  }

  /** Literal substitution of every occurrence of `tok` in `s`. */
  function ReplaceLiteral(s: string, tok: string, v: string): string
    requires |tok| > 0
  {
    LiteralFrom(s, tok, v, 0)
  }

  /** For a value without `$`-patterns, replaceAll is the literal substitution. */
  lemma ReplaceAllIsLiteral(s: string, tok: string, v: string)
    requires |tok| > 0 && NoPatterns(v)
    ensures ReplaceAll(s, tok, v) == ReplaceLiteral(s, tok, v)
  {
    ReplaceFromIsLiteral(s, tok, v, 0);
  }

  lemma {:induction false} ReplaceFromIsLiteral(s: string, tok: string, v: string, from: nat)
    requires |tok| > 0 && from <= |s| && NoPatterns(v)
    ensures ReplaceFrom(s, tok, v, from) == LiteralFrom(s, tok, v, from)
    decreases |s| - from
  {
    match IndexOf(s, tok, from)
    case None =>
    case Some(p) =>
      ReplaceFromIsLiteral(s, tok, v, p + |tok|);
      LiteralMatch(s, tok, v, from, p);
  }

  /** One step of ReplaceFrom at the next match `p`, for a value without `$`-patterns. */
  lemma LiteralMatch(s: string, tok: string, v: string, from: nat, p: nat)
    requires |tok| > 0 && from <= |s| && NoPatterns(v)
    requires IndexOf(s, tok, from) == Some(p)
    ensures ReplaceFrom(s, tok, v, from) == s[from..p] + v + ReplaceFrom(s, tok, v, p + |tok|)
  {
    GetSubstitutionLiteral(tok, s, p, v);
  }

  /**
   * For a value without `$`-patterns, replaceAll keeps the text before the
   * first occurrence, writes the value there and carries on after it.
   */
  lemma FirstOccurrenceReplaced(s: string, tok: string, v: string, p: nat)
    requires |tok| > 0 && NoPatterns(v)
    requires IndexOf(s, tok, 0) == Some(p)
    ensures ReplaceAll(s, tok, v) == s[..p] + v + LiteralFrom(s, tok, v, p + |tok|)
  {
    ReplaceAllIsLiteral(s, tok, v);
    assert s[0..p] == s[..p];
  }

  /** A string that is exactly the token becomes the value. */
  lemma ReplaceWhole(tok: string, v: string)
    requires |tok| > 0 && NoPatterns(v)
    ensures ReplaceAll(tok, tok, v) == v
  {
    assert OccursAt(tok, tok, 0);
    assert IndexOf(tok, tok, 0) == Some(0);
    assert IndexOf(tok, tok, |tok|).None?;
    assert LiteralFrom(tok, tok, v, |tok|) == [];
    assert tok[0..0] + v + [] == v;
    ReplaceAllIsLiteral(tok, tok, v);
  }

  /** Replacing each occurrence of a token without `$`-patterns by itself changes nothing. */
  lemma ReplaceBySelf(s: string, tok: string)
    requires |tok| > 0 && NoPatterns(tok)
    ensures ReplaceAll(s, tok, tok) == s
  {
    ReplaceAllIsLiteral(s, tok, tok);
    LiteralBySelf(s, tok, 0);
  }

  lemma {:induction false} LiteralBySelf(s: string, tok: string, from: nat)
    requires |tok| > 0 && from <= |s|
    ensures LiteralFrom(s, tok, tok, from) == s[from..]
    decreases |s| - from
  {
    match IndexOf(s, tok, from)
    case None =>
    case Some(p) =>
      LiteralBySelf(s, tok, p + |tok|);
      assert s[p..p + |tok|] == tok;
      assert s[from..p] + s[p..p + |tok|] + s[p + |tok|..] == s[from..];
  }

  /** `$$` in a replacement value collapses to one `$`: replaceAll is not a literal substitution. */
  lemma DollarPairCollapses()
    ensures ReplaceAll("$post", "$post", "a$$b") == "a$b"
    ensures ReplaceLiteral("$post", "$post", "a$$b") == "a$$b"
  {
    var s, tok := "$post", "$post";
    assert OccursAt(s, tok, 0);
    assert IndexOf(s, tok, 5).None?;
    assert GetSubstitution(tok, s, 0, "b") == "b";
    assert GetSubstitution(tok, s, 0, "$$b") == "$b";
    assert GetSubstitution(tok, s, 0, "a$$b") == "a$b";
  }

  /**
   * A value that contains no occurrence of the token can still leave one
   * behind: "$a" before the match and "b" from the value spell "$ab" again.
   */
  lemma ReplacementCanRecreateToken()
    ensures Contains(ReplaceAll("$a$ab", "$ab", "b"), "$ab")
    ensures !Contains("b", "$ab")
  {
    var s, tok := "$a$ab", "$ab";
    assert s[0..3][2] != tok[2];
    assert s[1..4][0] != tok[0];
    assert OccursAt(s, tok, 2);
    assert IndexOf(s, tok, 0) == Some(2);
    assert IndexOf(s, tok, 5).None?;
    assert GetSubstitution(tok, s, 2, "b") == "b";
    assert ReplaceAll(s, tok, "b") == "$ab";
    assert OccursAt("$ab", tok, 0);
  }
}
