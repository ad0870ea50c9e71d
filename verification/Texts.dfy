/** Texts at positions. */
module Texts {

  /** The character at a position; behind a C string there is its terminator. */
  function At(text: string, pos: nat): char { if pos < |text| then text[pos] else '\0' }

  /** The text at a position starts with a string. */
  predicate Holds(text: string, pos: nat, s: string) {
    pos + |s| <= |text| && text[pos..pos + |s|] == s
  }

  predicate Free(s: string, stops: string) { forall i :: 0 <= i < |s| ==> s[i] !in stops }

  lemma HoldsParts(text: string, pos: nat, s: string, t: string)
    requires Holds(text, pos, s + t)
    ensures Holds(text, pos, s) && Holds(text, pos + |s|, t)
  {
    assert text[pos..pos + |s|] == text[pos..pos + |s + t|][..|s|];
    assert text[pos + |s|..pos + |s| + |t|] == text[pos..pos + |s + t|][|s|..];
  }

  lemma HoldsFirst(text: string, pos: nat, c: char)
    requires Holds(text, pos, [c])
    ensures pos < |text| && text[pos] == c && At(text, pos) == c
  {
    assert text[pos] == text[pos..pos + 1][0];
  }

  lemma HoldsChar(text: string, pos: nat, s: string, i: nat)
    requires Holds(text, pos, s) && i < |s|
    ensures pos + i < |text| && text[pos + i] == s[i]
  {
    assert text[pos..pos + |s|][i] == s[i];
  }

  lemma HoldsSlice(text: string, pos: nat, s: string)
    requires Holds(text, pos, s)
    ensures pos + |s| <= |text| && text[pos..pos + |s|] == s
  {
  }

  lemma HoldsWhole(text: string)
    ensures Holds(text, 0, text)
  {
    assert text[0..0 + |text|] == text;
  }
}
