/** Tokenizer.cpp: runs of letters and digits, in lower case, without stop words. */
module Tokens {
  import opened Ascii

  const STOPWORDS: set<string> := {
    "a", "an", "and", "the", "of", "is", "to", "in", "that", "it",
    "on", "for", "with", "as", "by", "at", "from", "this", "be", "or"}

  predicate IsAlnum(c: char) {
    '0' <= c <= '9' || 'a' <= c <= 'z' || 'A' <= c <= 'Z'
  }

  /** Digits and small letters. */
  predicate LowerWord(w: string) {
    forall i :: 0 <= i < |w| ==> '0' <= w[i] <= '9' || 'a' <= w[i] <= 'z'
  }

  /** A word that counts. */
  predicate IsToken(w: string) {
    w != "" && w !in STOPWORDS && LowerWord(w)
  }

  function Kept(w: string): seq<string> {
    if w != "" && w !in STOPWORDS then [w] else []
  }

  /** The tokens of `text` when the letters `temp` stand before it. */
  function TokensAfter(temp: string, text: string): seq<string>
    decreases |text|
  {
    if text == "" then Kept(temp)
    else if IsAlnum(text[0]) then TokensAfter(temp + [Lower(text[0])], text[1..])
    else Kept(temp) + TokensAfter("", text[1..])
  }

  function TokensOf(text: string): seq<string> {
    TokensAfter("", text)
  }

  /** getstrs */
  method GetStrs(text: string) returns (tokens: seq<string>)
    ensures tokens == TokensOf(text)
  {
    var temp := "";
    tokens := [];
    for i := 0 to |text|
      invariant tokens + TokensAfter(temp, text[i..]) == TokensOf(text)
    {
      assert text[i..][0] == text[i] && text[i..][1..] == text[i + 1..];
      if IsAlnum(text[i]) {
        temp := temp + [Lower(text[i])];
      } else {
        if temp !in STOPWORDS && temp != "" { tokens := tokens + [temp]; }
        temp := "";
      }
    }
    if temp !in STOPWORDS && temp != "" { tokens := tokens + [temp]; }
  }

  /** Only tokens come out. */
  lemma {:induction false} OnlyTokens(temp: string, text: string)
    requires LowerWord(temp)
    ensures forall i :: 0 <= i < |TokensAfter(temp, text)| ==> IsToken(TokensAfter(temp, text)[i])
    decreases |text|
  {
    if text != "" {
      if IsAlnum(text[0]) { OnlyTokens(temp + [Lower(text[0])], text[1..]); } else { OnlyTokens("", text[1..]); }
    }
  }

  /** A separator splits the text in two. */
  lemma {:induction false} Separated(temp: string, a: string, c: char, b: string)
    requires !IsAlnum(c)
    ensures TokensAfter(temp, a + [c] + b) == TokensAfter(temp, a) + TokensOf(b)
    decreases |a|
  {
    var text := a + [c] + b;
    if a == "" {
      assert text[1..] == b;
    } else {
      assert text[1..] == a[1..] + [c] + b;
      Separated(if IsAlnum(a[0]) then temp + [Lower(a[0])] else "", a[1..], c, b);
    }
  }

  lemma {:induction false} WordAlone(temp: string, w: string)
    requires LowerWord(w)
    ensures TokensAfter(temp, w) == Kept(temp + w)
    decreases |w|
  {
    if w == "" {
      assert temp + w == temp;
    } else {
      WordAlone(temp + [Lower(w[0])], w[1..]);
      assert temp + [Lower(w[0])] + w[1..] == temp + w;
    }
  }

  function JoinWords(words: seq<string>): string {
    if words == [] then "" else words[0] + " " + JoinWords(words[1..])
  }

  /** Tokens survive being written out and read again. */
  lemma {:induction false} Retokenized(words: seq<string>)
    requires forall i :: 0 <= i < |words| ==> IsToken(words[i])
    ensures TokensOf(JoinWords(words)) == words
  {
    if words != [] {
      Retokenized(words[1..]);
      Separated("", words[0], ' ', JoinWords(words[1..]));
      WordAlone("", words[0]);
      assert "" + words[0] == words[0];
      assert words == [words[0]] + words[1..];
    }
  }

  // ----- where tokens come from -----

  /** Characters i to j - 1 of the text are a longest run of digits and letters. */
  ghost predicate Run(text: string, i: int, j: int) {
    && 0 <= i < j <= |text| && (forall k :: i <= k < j ==> WordChar(text[k]))
    && (i > 0 ==> !WordChar(text[i - 1])) && (j < |text| ==> !WordChar(text[j]))
  }

  predicate WordChar(c: char) {
    '0' <= c <= '9' || 'a' <= c <= 'z' || 'A' <= c <= 'Z'
  }

  /** The token is the run in small letters. */
  ghost predicate From(text: string, span: (int, int), w: string) {
    Run(text, span.0, span.1) && Spells(text[span.0..span.1], w) && LowerCase(w)
  }

  ghost predicate Ordered(spans: seq<(int, int)>) {
    forall a, b :: 0 <= a < b < |spans| ==> spans[a].1 < spans[b].0
  }

  /** The tokens are the runs at these places, all from `from` on. */
  ghost predicate Placed(text: string, from: int, spans: seq<(int, int)>, tokens: seq<string>) {
    && |spans| == |tokens| && Ordered(spans)
    && (forall a :: 0 <= a < |spans| ==> spans[a].0 >= from && From(text, spans[a], tokens[a]))
  }

  ghost predicate SpellsStop(text: string, i: int, j: int) {
    0 <= i <= j <= |text| && exists w :: w in STOPWORDS && Spells(text[i..j], w)
  }

  /** No other run from `from` on but stop words. */
  ghost predicate NoneLeftOut(text: string, from: int, spans: seq<(int, int)>) {
    forall i, j :: Run(text, i, j) && i >= from ==> (i, j) in spans || SpellsStop(text, i, j)
  }

  ghost predicate Covers(text: string, from: int, spans: seq<(int, int)>, tokens: seq<string>) {
    Placed(text, from, spans, tokens) && NoneLeftOut(text, from, spans)
  }

  /** The tokens of a text are its longest runs of letters and digits, in small letters, one for
      one and in order, without the stop words. */
  lemma TokensAreRuns(text: string) returns (spans: seq<(int, int)>)
    ensures Covers(text, 0, spans, TokensOf(text))
  {
    assert text[0..] == text && text[0..0] == "";
    spans := RunsFrom(text, 0, 0, "");
  }

  /** Inside a run that began at `b`: its small letters so far. */
  ghost predicate Within(text: string, b: nat, p: nat, temp: string) {
    && b <= p <= |text| && (forall k :: b <= k < p ==> WordChar(text[k])) && (b > 0 ==> !WordChar(text[b - 1]))
    && temp == LowerAll(text[b..p])
  }

  lemma {:induction false} RunsFrom(text: string, b: nat, p: nat, temp: string) returns (spans: seq<(int, int)>)
    requires Within(text, b, p, temp)
    ensures Covers(text, b, spans, TokensAfter(temp, text[p..]))
    decreases |text| - p
  {
    hide Covers, LowerAll;
    if p == |text| {
      NoRuns(text);
      spans := RunEnds(text, b, p, temp, [], []);
      assert Kept(temp) + [] == Kept(temp);
    } else {
      assert text[p..][0] == text[p] && text[p..][1..] == text[p + 1..];
      if IsAlnum(text[p]) {
        OneFurther(text, b, p, temp);
        spans := RunsFrom(text, b, p + 1, temp + [Lower(text[p])]);
      } else {
        NextRun(text, p + 1);
        var more := RunsFrom(text, p + 1, p + 1, "");
        spans := RunEnds(text, b, p, temp, more, TokensAfter("", text[p + 1..]));
      }
    }
  }

  lemma NoRuns(text: string)
    ensures Covers(text, |text| + 1, [], [])
  {}

  lemma NextRun(text: string, p: nat)
    requires 0 < p <= |text| && !WordChar(text[p - 1])
    ensures Within(text, p, p, "")
  {
    assert text[p..p] == "";
  }

  lemma OneFurther(text: string, b: nat, p: nat, temp: string)
    requires p < |text| && Within(text, b, p, temp) && WordChar(text[p])
    ensures Within(text, b, p + 1, temp + [Lower(text[p])])
  {
    assert text[b..p + 1] == text[b..p] + [text[p]];
    assert LowerAll(text[b..p + 1]) == LowerAll(text[b..p]) + [Lower(text[p])];
  }

  /** The run ends before `p`, and further runs follow. */
  lemma RunEnds(text: string, b: nat, p: nat, temp: string, more: seq<(int, int)>, tokens: seq<string>)
    returns (spans: seq<(int, int)>)
    requires Within(text, b, p, temp) && (p < |text| ==> !WordChar(text[p])) && Covers(text, p + 1, more, tokens)
    ensures Covers(text, b, spans, Kept(temp) + tokens)
  {
    hide From, Run, LowerAll, WordChar, Spells, Ordered;
    spans := more;
    if b == p {
      NoneMore(text, b, p, temp, more);
    } else if temp in STOPWORDS {
      StopWord(text, b, p, temp, more);
    } else {
      spans := [(b, p)] + more;
      OneMore(text, b, p, temp, more, tokens);
    }
  }

  lemma WithinRun(text: string, b: nat, p: nat, temp: string)
    requires Within(text, b, p, temp) && b < p && (p < |text| ==> !WordChar(text[p]))
    ensures From(text, (b, p), temp)
  {
    LowerSpells(text[b..p], temp);
    hide LowerAll;
  }

  lemma NoneMore(text: string, b: nat, p: nat, temp: string, more: seq<(int, int)>)
    requires Within(text, b, p, temp) && (p < |text| ==> !WordChar(text[p])) && NoneLeftOut(text, p + 1, more) && b == p
    ensures NoneLeftOut(text, b, more)
  {
    hide WordChar, LowerAll, Spells;
    forall i, j | Run(text, i, j) && i >= b ensures i >= p + 1 { EitherRun(text, b, p, temp, i, j); }
  }

  lemma StopWord(text: string, b: nat, p: nat, temp: string, more: seq<(int, int)>)
    requires Within(text, b, p, temp) && (p < |text| ==> !WordChar(text[p])) && NoneLeftOut(text, p + 1, more)
    requires b < p && temp in STOPWORDS
    ensures NoneLeftOut(text, b, more)
  {
    WithinRun(text, b, p, temp);
    hide WordChar, LowerAll, Spells, Within, Run;
    forall i, j | Run(text, i, j) && i >= b ensures (i, j) in more || SpellsStop(text, i, j) {
      EitherRun(text, b, p, temp, i, j);
    }
  }

  lemma OneMore(text: string, b: nat, p: nat, temp: string, more: seq<(int, int)>, tokens: seq<string>)
    requires Within(text, b, p, temp) && (p < |text| ==> !WordChar(text[p])) && Covers(text, p + 1, more, tokens)
    requires b < p
    ensures Covers(text, b, [(b, p)] + more, [temp] + tokens)
  {
    hide WordChar, LowerAll, Spells, Within, Run, Placed, NoneLeftOut, From;
    WithinRun(text, b, p, temp);
    OnePlaced(text, b, p, temp, more, tokens);
    OneNotLeftOut(text, b, p, temp, more);
  }

  lemma OnePlaced(text: string, b: nat, p: nat, temp: string, more: seq<(int, int)>, tokens: seq<string>)
    requires From(text, (b, p), temp) && Placed(text, p + 1, more, tokens) && b < p
    ensures Placed(text, b, [(b, p)] + more, [temp] + tokens)
  {
    hide From;
    var spans, all := [(b, p)] + more, [temp] + tokens;
    assert spans[0] == (b, p);
    assert forall a :: 0 < a < |spans| ==> spans[a] == more[a - 1] && all[a] == tokens[a - 1];
  }

  lemma OneNotLeftOut(text: string, b: nat, p: nat, temp: string, more: seq<(int, int)>)
    requires Within(text, b, p, temp) && (p < |text| ==> !WordChar(text[p])) && NoneLeftOut(text, p + 1, more)
    ensures NoneLeftOut(text, b, [(b, p)] + more)
  {
    hide WordChar, LowerAll, Spells, Within, Run;
    var spans := [(b, p)] + more;
    assert spans[0] == (b, p) && forall x :: x in more ==> x in spans;
    forall i, j | Run(text, i, j) && i >= b ensures (i, j) in spans || SpellsStop(text, i, j) {
      EitherRun(text, b, p, temp, i, j);
    }
  }

  lemma EitherRun(text: string, b: nat, p: nat, temp: string, i: int, j: int)
    requires Within(text, b, p, temp) && (p < |text| ==> !WordChar(text[p])) && Run(text, i, j) && i >= b
    ensures (i == b < p && j == p) || i >= p + 1
  {
    hide LowerAll, WordChar;
    if i <= p { assert WordChar(text[i]); }
  }

  /** Case does not matter. */
  lemma {:induction false} CaseBlind(temp: string, text: string)
    ensures TokensAfter(temp, LowerAll(text)) == TokensAfter(temp, text)
    decreases |text|
  {
    if text != "" {
      assert LowerAll(text)[1..] == LowerAll(text[1..]);
      CaseBlind(if IsAlnum(text[0]) then temp + [Lower(text[0])] else "", text[1..]);
    }
  }
}
