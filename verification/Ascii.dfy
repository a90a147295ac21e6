/** Letter case in the C locale. */
module Ascii {
  function Lower(c: char): char {
    if 'A' <= c <= 'Z' then c + 32 as char else c
  }

  function LowerAll(s: string): (r: string)
    ensures |r| == |s|
  {
    seq(|s|, i requires 0 <= i < |s| => Lower(s[i]))
  }

  predicate LowerCase(w: string) {
    forall i :: 0 <= i < |w| ==> !('A' <= w[i] <= 'Z')
  }

  /** `s` is `word` with some of its small letters written as capitals. */
  predicate Spells(s: string, word: string) {
    && |s| == |word|
    && forall i :: 0 <= i < |s| ==> s[i] == word[i] || ('A' <= s[i] <= 'Z' && word[i] as int == s[i] as int + 32)
  }

  /** A string in small letters is the one word without capitals that it spells. */
  lemma LowerSpells(s: string, word: string)
    ensures LowerAll(s) == word <==> LowerCase(word) && Spells(s, word)
  {
    assert forall i :: 0 <= i < |s| ==> LowerAll(s)[i] == Lower(s[i]);
    if LowerCase(word) && Spells(s, word) { assert LowerAll(s) == word; }
  }
}
