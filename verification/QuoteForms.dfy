/** Every way to write an argument that sdssplitargs of hiredis/sds.c understands: bare, in single
    and in double quotes, with any escapes and any blanks between the arguments. */
module QuoteForms {
  import opened Options
  import opened Quote

  /** A character between double quotes: itself, behind a backslash, or in hexadecimal. */
  datatype Glyph = Plain(c: char) | Slash(c: char) | Hex(high: char, low: char)

  predicate GoodGlyph(g: Glyph) {
    match g
    case Plain(c) => c as int != 0 && c != '\\' && c != '"'
    case Slash(c) => c as int != 0 && c != 'x'
    case Hex(h, l) => IsHexDigit(h) && IsHexDigit(l)
  }

  predicate IsHexDigit(c: char) {
    48 <= c as int <= 57 || 65 <= c as int <= 70 || 97 <= c as int <= 102
  }

  function DigitOf(c: char): (v: nat)
    requires IsHexDigit(c)
    ensures v < 16
  {
    c as int - (if c as int <= 57 then 48 else if c as int <= 70 then 55 else 87)
  }

  function Glyphs(gs: seq<Glyph>): string {
    if gs == [] then "" else Written(gs[0]) + Glyphs(gs[1..])
  }

  function Written(g: Glyph): string {
    match g
    case Plain(c) => [c]
    case Slash(c) => ['\\', c]
    case Hex(h, l) => ['\\', 'x', h, l]
  }

  function Meant(g: Glyph): char
    requires GoodGlyph(g)
  {
    match g
    case Plain(c) => c
    case Slash(c) =>
      (match c case 'n' => 10 case 'r' => 13 case 't' => 9 case 'b' => 8 case 'a' => 7 case _ => c as int) as char
    case Hex(h, l) => (16 * DigitOf(h) + DigitOf(l)) as char
  }

  ghost predicate GoodGlyphs(gs: seq<Glyph>) {
    forall i :: 0 <= i < |gs| ==> GoodGlyph(gs[i])
  }

  function MeantBy(gs: seq<Glyph>): string
    requires GoodGlyphs(gs)
  {
    if gs == [] then "" else [Meant(gs[0])] + MeantBy(gs[1..])
  }

  /** Between single quotes only a quote needs a backslash. */
  function SingleQuoted(s: string): string {
    if s == "" then "" else (if s[0] == '\'' then "\\'" else [s[0]]) + SingleQuoted(s[1..])
  }

  /** Characters outside quotes, and then what is in quotes. */
  datatype Word =
    | Unquoted(bare: string)
    | InDouble(bare: string, glyphs: seq<Glyph>)
    | InSingle(bare: string, text: string)

  predicate BareChar(c: char) {
    c as int != 0 && c !in " \t\n\r\"'"
  }

  /** What an argument may be made of. A text in single quotes cannot end with a backslash. */
  ghost predicate GoodWord(w: Word) {
    && (forall i :: 0 <= i < |w.bare| ==> BareChar(w.bare[i]))
    && (w.bare != "" ==> w.bare[0] as int != 11 && w.bare[0] as int != 12)
    && match w
       case Unquoted(bare) => bare != ""
       case InDouble(_, gs) => GoodGlyphs(gs)
       case InSingle(_, text) =>
         (forall i :: 0 <= i < |text| ==> text[i] as int != 0) && (text != "" ==> text[|text| - 1] != '\\')
  }

  function Spelling(w: Word): string {
    match w
    case Unquoted(bare) => bare
    case InDouble(bare, gs) => bare + ("\"" + (Glyphs(gs) + "\""))
    case InSingle(bare, text) => bare + ("'" + (SingleQuoted(text) + "'"))
  }

  function Argument(w: Word): string
    requires GoodWord(w)
  {
    match w
    case Unquoted(bare) => bare
    case InDouble(bare, gs) => bare + MeantBy(gs)
    case InSingle(bare, text) => bare + text
  }

  predicate Blanks(s: string) {
    forall i :: 0 <= i < |s| ==> s[i] in " \t\n\r"
  }

  /** Words, each with the blanks behind it; only the last word needs none. */
  function LineOf(words: seq<Word>, gaps: seq<string>): string
    requires |gaps| == |words|
  {
    if words == [] then "" else Spelling(words[0]) + (gaps[0] + LineOf(words[1..], gaps[1..]))
  }

  ghost predicate GoodLine(words: seq<Word>, gaps: seq<string>) {
    && |gaps| == |words| && (forall i :: 0 <= i < |words| ==> GoodWord(words[i]) && Blanks(gaps[i]))
    && forall i :: 0 <= i < |words| - 1 ==> gaps[i] != ""
  }

  function Arguments(words: seq<Word>): (args: seq<string>)
    requires forall i :: 0 <= i < |words| ==> GoodWord(words[i])
    ensures |args| == |words|
  {
    seq(|words|, i requires 0 <= i < |words| => Argument(words[i]))
  }

  // ----- one character -----

  lemma GlyphTurn(pre: string, g: Glyph, rest: string)
    requires GoodGlyph(g)
    ensures TurnAt(pre + Written(g) + rest, |pre|, Double) == More(Double, [Meant(g)], |pre| + |Written(g)|)
  {
    var e := Written(g);
    var line := pre + e + rest;
    assert forall i :: 0 <= i < |e| ==> At(line, |pre| + i) == e[i];
  }

  lemma SingleTurn(pre: string, c: char, rest: string)
    requires c as int != 0 && (c == '\\' ==> rest != "" && rest[0] != '\'')
    ensures var e := if c == '\'' then "\\'" else [c];
            TurnAt(pre + e + rest, |pre|, Single) == More(Single, [c], |pre| + |e|)
  {
    var e := if c == '\'' then "\\'" else [c];
    var line := pre + e + rest;
    assert forall i :: 0 <= i < |e| ==> At(line, |pre| + i) == e[i];
    assert c == '\\' ==> At(line, |pre| + 1) == rest[0];
  }

  lemma BareTurn(pre: string, c: char, rest: string)
    requires BareChar(c)
    ensures TurnAt(pre + [c] + rest, |pre|, Bare) == More(Bare, [c], |pre| + 1)
  {
    assert At(pre + [c] + rest, |pre|) == c;
  }

  /** What a turn adds comes in front of the rest of the token. */
  lemma TokenOn(line: string, p: nat, mode: Mode, current: string, add: string, mode': Mode, next: nat)
    requires TurnAt(line, p, mode) == More(mode', add, next)
    ensures Token(line, p, mode, current) == Token(line, next, mode', current + add)
  {
    TurnAdvances(line, p, mode);
  }

  // ----- one word -----

  lemma Assoc(a: string, b: string, c: string)
    ensures a + b + c == a + (b + c)
  {}

  /** `part` stands in the line from position `p` on, and `rest` behind it. */
  ghost predicate Holds(line: string, p: nat, part: string, rest: string) {
    p + |part| <= |line| && line == line[..p] + part + rest
  }

  lemma HoldsFirst(line: string, p: nat, a: string, b: string, rest: string)
    requires Holds(line, p, a + b, rest)
    ensures Holds(line, p, a, b + rest) && Holds(line, p + |a|, b, rest)
  {
    var pre := line[..p];
    Assoc(pre, a, b);
    Assoc(pre + a, b, rest);
    assert line == pre + a + (b + rest);
    assert line[..p + |a|] == pre + a;
  }

  lemma {:induction false} GlyphsToken(line: string, p: nat, gs: seq<Glyph>, rest: string, current: string)
    requires GoodGlyphs(gs) && Holds(line, p, Glyphs(gs), rest)
    ensures Token(line, p, Double, current) == Token(line, p + |Glyphs(gs)|, Double, current + MeantBy(gs))
    decreases |gs|
  {
    hide Token, TurnAt, Holds, Written, Meant;
    if gs == [] {
      assert current + "" == current;
    } else {
      var e, c := Written(gs[0]), Meant(gs[0]);
      HoldsFirst(line, p, e, Glyphs(gs[1..]), rest);
      HoldsIs(line, p, e, Glyphs(gs[1..]) + rest);
      GlyphTurn(line[..p], gs[0], Glyphs(gs[1..]) + rest);
      TokenOn(line, p, Double, current, [c], Double, p + |e|);
      GlyphsToken(line, p + |e|, gs[1..], rest, current + [c]);
      Assoc(current, [c], MeantBy(gs[1..]));
    }
  }

  lemma HoldsIs(line: string, p: nat, part: string, rest: string)
    requires Holds(line, p, part, rest)
    ensures p + |part| <= |line| && |line[..p]| == p && line == line[..p] + part + rest && line[p + |part|..] == rest
  {}

  /** A backslash at the end must not meet a quote. */
  ghost predicate SingleText(s: string, rest: string) {
    && (forall i :: 0 <= i < |s| ==> s[i] as int != 0)
    && (s != "" && s[|s| - 1] == '\\' ==> rest != "" && rest[0] != '\'')
  }

  lemma {:induction false} SingleToken(line: string, p: nat, s: string, rest: string, current: string)
    requires SingleText(s, rest) && Holds(line, p, SingleQuoted(s), rest)
    ensures Token(line, p, Single, current) == Token(line, p + |SingleQuoted(s)|, Single, current + s)
    decreases |s|
  {
    hide Token, TurnAt, Holds;
    if s == "" {
      assert current + "" == current;
    } else {
      var e, t := if s[0] == '\'' then "\\'" else [s[0]], SingleQuoted(s[1..]);
      HoldsFirst(line, p, e, t, rest);
      HoldsIs(line, p, e, t + rest);
      if s[0] == '\\' && |s| > 1 { assert t[0] != '\''; }
      SingleTurn(line[..p], s[0], t + rest);
      TokenOn(line, p, Single, current, [s[0]], Single, p + |e|);
      SingleToken(line, p + |e|, s[1..], rest, current + [s[0]]);
      assert s == [s[0]] + s[1..];
      Assoc(current, [s[0]], s[1..]);
    }
  }

  ghost predicate BareText(s: string) {
    forall i :: 0 <= i < |s| ==> BareChar(s[i])
  }

  lemma {:induction false} BareToken(line: string, p: nat, s: string, rest: string, current: string)
    requires BareText(s) && Holds(line, p, s, rest)
    ensures Token(line, p, Bare, current) == Token(line, p + |s|, Bare, current + s)
    decreases |s|
  {
    hide Token, TurnAt, Holds, BareChar;
    if s == "" {
      assert current + "" == current;
    } else {
      assert s == [s[0]] + s[1..];
      HoldsFirst(line, p, [s[0]], s[1..], rest);
      HoldsIs(line, p, [s[0]], s[1..] + rest);
      BareTurn(line[..p], s[0], s[1..] + rest);
      TokenOn(line, p, Bare, current, [s[0]], Bare, p + 1);
      BareToken(line, p + 1, s[1..], rest, current + [s[0]]);
      Assoc(current, [s[0]], s[1..]);
    }
  }

  /** What stands before the closing quote. */
  function Opened(w: Word): string {
    match w
    case Unquoted(bare) => bare
    case InDouble(bare, gs) => bare + ("\"" + Glyphs(gs))
    case InSingle(bare, text) => bare + ("'" + SingleQuoted(text))
  }

  function ModeOf(w: Word): Mode {
    match w case Unquoted(_) => Bare case InDouble(_, _) => Double case InSingle(_, _) => Single
  }

  /** A quote turns the mode. */
  lemma QuoteTurn(line: string, p: nat, bare: string, more: string, rest: string, current: string)
    requires more != "" && (more[0] == '"' || more[0] == '\'') && BareText(bare) && Holds(line, p, bare + more, rest)
    ensures Holds(line, p + |bare| + 1, more[1..], rest)
    ensures var mode := if more[0] == '"' then Double else Single;
            Token(line, p, Bare, current) == Token(line, p + |bare| + 1, mode, current + bare)
  {
    hide Token, BareChar, Holds, TurnAt;
    var q, mode := p + |bare|, if more[0] == '"' then Double else Single;
    HoldsFirst(line, p, bare, more, rest);
    BareToken(line, p, bare, more + rest, current);
    assert more == more[..1] + more[1..];
    HoldsFirst(line, q, more[..1], more[1..], rest);
    HoldsHead(line, q, more[..1], more[1..] + rest);
    ModeTurn(line, q);
    TokenOn(line, q, Bare, current + bare, "", mode, q + 1);
    assert current + bare + "" == current + bare;
  }

  lemma HoldsHead(line: string, p: nat, part: string, rest: string)
    requires Holds(line, p, part, rest) && part != ""
    ensures p < |line| && line[p] == part[0]
  {}

  lemma ModeTurn(line: string, q: nat)
    requires q < |line| && (line[q] == '"' || line[q] == '\'')
    ensures TurnAt(line, q, Bare) == More(if line[q] == '"' then Double else Single, "", q + 1)
  {}

  /** The token up to the closing quote. */
  lemma OpenedToken(line: string, p: nat, w: Word, rest: string)
    requires GoodWord(w) && Holds(line, p, Opened(w), rest)
    ensures Token(line, p, Bare, "") == Token(line, p + |Opened(w)|, ModeOf(w), Argument(w))
  {
    hide Token, Holds, BareChar, GoodGlyphs, TurnAt, Glyphs, MeantBy, SingleQuoted;
    assert "" + w.bare == w.bare;
    match w
    case Unquoted(bare) => BareToken(line, p, bare, rest, "");
    case InDouble(bare, gs) =>
      var more := "\"" + Glyphs(gs);
      QuoteTurn(line, p, bare, more, rest, "");
      assert more[1..] == Glyphs(gs);
      GlyphsToken(line, p + |bare| + 1, gs, rest, bare);
    case InSingle(bare, text) =>
      var more := "'" + SingleQuoted(text);
      QuoteTurn(line, p, bare, more, rest, "");
      assert more[1..] == SingleQuoted(text);
      SingleToken(line, p + |bare| + 1, text, rest, bare);
  }

  // ----- the end of a word -----

  function Closing(w: Word): string {
    match w case Unquoted(_) => "" case InDouble(_, _) => "\"" case InSingle(_, _) => "'"
  }

  lemma SpellingEnds(w: Word)
    ensures Spelling(w) == Opened(w) + Closing(w)
  {
    match w
    case Unquoted(bare) =>
    case InDouble(bare, gs) =>
      Assoc("\"", Glyphs(gs), "\"");
      Assoc(bare, "\"" + Glyphs(gs), "\"");
    case InSingle(bare, text) =>
      Assoc("'", SingleQuoted(text), "'");
      Assoc(bare, "'" + SingleQuoted(text), "'");
  }

  /** A word ends at a blank or with the line. */
  lemma EndTurn(line: string, p: nat, w: Word, rest: string)
    requires Holds(line, p, Closing(w), rest) && (rest == "" || rest[0] in " \t\n\r")
    ensures TurnAt(line, p, ModeOf(w)) == Done(p + if w.Unquoted? && rest == "" then 0 else 1)
  {
    var c := Closing(w);
    assert rest != "" ==> line[p + |c|] == rest[0];
    assert |line| == p + |c| + |rest|;
    if c != "" { assert line[p] == c[0]; }
  }

  lemma TokenEnds(line: string, p: nat, mode: Mode, current: string, next: nat)
    requires TurnAt(line, p, mode) == Done(next)
    ensures Token(line, p, mode, current) == Some((current, next))
  {}

  /** A word is read as its argument, up to the closing quote or one blank further. */
  lemma WordToken(line: string, p: nat, w: Word, rest: string)
    requires GoodWord(w) && Holds(line, p, Spelling(w), rest) && (rest == "" || rest[0] in " \t\n\r")
    ensures var n := p + |Spelling(w)| + if w.Unquoted? && rest != "" then 1 else 0;
            Token(line, p, Bare, "") == Some((Argument(w), n))
  {
    hide Token, Holds, TurnAt, GoodWord, Opened, Argument;
    SpellingEnds(w);
    hide Spelling;
    HoldsFirst(line, p, Opened(w), Closing(w), rest);
    OpenedToken(line, p, w, Closing(w) + rest);
    EndTurn(line, p + |Opened(w)|, w, rest);
    TokenEnds(line, p + |Opened(w)|, ModeOf(w), Argument(w),
              p + |Opened(w)| + if w.Unquoted? && rest == "" then 0 else 1);
  }

  lemma WordBegins(line: string, p: nat, w: Word, rest: string)
    requires GoodWord(w) && Holds(line, p, Opened(w), rest)
    ensures Opened(w) != "" && At(line, p) != NUL && !IsSpace(At(line, p))
  {
    var e := Opened(w);
    assert e != "" && line[p] == e[0];
    if w.bare != "" { assert e[0] == w.bare[0] && BareChar(w.bare[0]); }
  }

  // ----- whole lines -----

  lemma {:induction false} GapSkipped(line: string, p: nat, q: nat)
    requires p <= q <= |line| && forall i :: p <= i < q ==> IsSpace(line[i])
    ensures SplitFrom(line, p) == SplitFrom(line, q)
    decreases q - p
  {
    if p < q {
      BlankFirst(line, p);
      GapSkipped(line, p + 1, q);
    }
  }

  lemma SplitToken(line: string, p: nat)
    requires At(line, p) != NUL && !IsSpace(At(line, p))
    ensures var t := Token(line, p, Bare, "");
            SplitFrom(line, p) == if t.None? then None else Prefixed([t.value.0], SplitFrom(line, t.value.1))
  {
    hide Token;
    assert SkipBlanks(line, p) == p;
  }

  /** One argument, with the blanks behind it. */
  lemma SplitWord(line: string, p: nat, w: Word, gap: string, rest: string)
    requires GoodWord(w) && Blanks(gap) && Holds(line, p, Spelling(w) + gap, rest) && (rest == "" || gap != "")
    ensures SplitFrom(line, p) == Prefixed([Argument(w)], SplitFrom(line, p + |Spelling(w)| + |gap|))
  {
    hide Token, Holds, GoodWord, Opened, Closing, Argument, SplitFrom, Spelling, At, IsSpace;
    var q := p + |Spelling(w)|;
    GapStarts(gap, rest);
    HoldsFirst(line, p, Spelling(w), gap, rest);
    SpellingEnds(w);
    HoldsFirst(line, p, Opened(w), Closing(w), gap + rest);
    WordBegins(line, p, w, Closing(w) + (gap + rest));
    WordToken(line, p, w, gap + rest);
    SplitToken(line, p);
    GapHeld(line, q, gap, rest);
    GapSkipped(line, q, q + |gap|);
    if w.Unquoted? && gap != "" { GapSkipped(line, q + 1, q + |gap|); }
    hide Prefixed, Blanks;
  }

  lemma GapStarts(gap: string, rest: string)
    requires Blanks(gap) && (rest == "" || gap != "")
    ensures gap + rest == "" || (gap + rest)[0] in " \t\n\r"
    ensures gap + rest == "" <==> gap == ""
  {}

  lemma GapHeld(line: string, q: nat, gap: string, rest: string)
    requires Holds(line, q, gap, rest) && Blanks(gap)
    ensures q + |gap| <= |line| && forall i :: q <= i < q + |gap| ==> IsSpace(line[i])
  {
    assert forall i :: q <= i < q + |gap| ==> line[i] == gap[i - q];
  }

  /** The words of a line, whatever follows them. */
  lemma {:induction false} SplitWords(line: string, p: nat, words: seq<Word>, gaps: seq<string>, rest: string)
    requires GoodLine(words, gaps) && Holds(line, p, LineOf(words, gaps), rest)
    requires rest == "" || words == [] || gaps[|gaps| - 1] != ""
    ensures SplitFrom(line, p) == Prefixed(Arguments(words), SplitFrom(line, p + |LineOf(words, gaps)|))
    decreases |words|
  {
    hide SplitFrom, GoodWord, Argument, Spelling, Holds, Blanks;
    if words == [] {
      PrefixedNone(SplitFrom(line, p));
    } else {
      var w, g, more := words[0], gaps[0], LineOf(words[1..], gaps[1..]);
      Assoc(Spelling(w), g, more);
      HoldsFirst(line, p, Spelling(w) + g, more, rest);
      FirstGap(words, gaps, rest);
      SplitWord(line, p, w, g, more + rest);
      SplitWords(line, p + |Spelling(w) + g|, words[1..], gaps[1..], rest);
      assert Arguments(words) == [Argument(w)] + Arguments(words[1..]);
      Prefixing(Argument(w), Arguments(words[1..]), SplitFrom(line, p + |LineOf(words, gaps)|));
    }
  }

  lemma Prefixing(a: string, args: seq<string>, rest: Option<seq<string>>)
    ensures Prefixed([a], Prefixed(args, rest)) == Prefixed([a] + args, rest)
  {
    if rest.Some? { assert [a] + (args + rest.value) == [a] + args + rest.value; }
  }

  lemma FirstGap(words: seq<Word>, gaps: seq<string>, rest: string)
    requires words != [] && GoodLine(words, gaps) && (rest == "" || gaps[|gaps| - 1] != "")
    ensures GoodWord(words[0]) && Blanks(gaps[0]) && GoodLine(words[1..], gaps[1..])
    ensures LineOf(words[1..], gaps[1..]) + rest == "" || gaps[0] != ""
  {
    hide GoodWord, Blanks;
    if |words| == 1 { assert words[1..] == []; }
  }

  /** However its words are written, a line is split into their arguments, the blanks at its start
      and end left out. */
  lemma FormsRoundTrip(lead: string, words: seq<Word>, gaps: seq<string>)
    requires Blanks(lead) && GoodLine(words, gaps)
    ensures SplitFrom(lead + LineOf(words, gaps), 0) == Some(Arguments(words))
  {
    hide SplitFrom, GoodWord, LineOf, Blanks;
    var line := lead + LineOf(words, gaps);
    LeadSkipped(lead, LineOf(words, gaps));
    assert line == line[..|lead|] + LineOf(words, gaps) + "";
    SplitWords(line, |lead|, words, gaps, "");
    SplitEnd(line, |line|);
    assert Arguments(words) + [] == Arguments(words);
  }

  lemma LeadSkipped(lead: string, rest: string)
    requires Blanks(lead)
    ensures SplitFrom(lead + rest, 0) == SplitFrom(lead + rest, |lead|)
  {
    hide SplitFrom;
    GapSkipped(lead + rest, 0, |lead|);
  }

  /** A quote that is never closed, or closed in front of something else than a blank. */
  predicate Broken(w: Word, tail: string) {
    && !w.Unquoted?
    && (tail == "" || (tail[0] == Closing(w)[0] && |tail| > 1 && tail[1] as int != 0 && !IsSpace(tail[1])))
  }

  lemma BrokenToken(line: string, p: nat, w: Word, tail: string)
    requires GoodWord(w) && Broken(w, tail) && Holds(line, p, Opened(w), tail)
    ensures Token(line, p, Bare, "") == None
  {
    hide Token, Holds, GoodWord, Opened, Argument, TurnAt;
    OpenedToken(line, p, w, tail);
    HoldsIs(line, p, Opened(w), tail);
    FailsAt(line, p + |Opened(w)|, w, tail);
    TokenFails(line, p + |Opened(w)|, ModeOf(w), Argument(w));
  }

  lemma FailsAt(line: string, q: nat, w: Word, tail: string)
    requires q <= |line| && line[q..] == tail && Broken(w, tail)
    ensures TurnAt(line, q, ModeOf(w)) == Fail
  {
    assert |line| == q + |tail| && forall i :: 0 <= i < |tail| ==> line[q + i] == line[q..][i];
  }

  lemma TokenFails(line: string, p: nat, mode: Mode, current: string)
    requires TurnAt(line, p, mode) == Fail
    ensures Token(line, p, mode, current) == None
  {}

  /** Then there is no result, whatever stands before. */
  lemma BrokenLine(lead: string, words: seq<Word>, gaps: seq<string>, w: Word, tail: string)
    requires Blanks(lead) && GoodLine(words, gaps) && (words != [] ==> gaps[|gaps| - 1] != "")
    requires GoodWord(w) && Broken(w, tail)
    ensures SplitFrom(lead + LineOf(words, gaps) + (Opened(w) + tail), 0) == None
  {
    hide SplitFrom, GoodWord, LineOf, Blanks, Broken, Opened, Token;
    var front, last := LineOf(words, gaps), Opened(w) + tail;
    var line := lead + front + last;
    Assoc(lead, front, last);
    LeadSkipped(lead, front + last);
    assert line == line[..|lead|] + front + last;
    SplitWords(line, |lead|, words, gaps, last);
    var p := |lead| + |front|;
    assert line == line[..p] + Opened(w) + tail;
    BrokenToken(line, p, w, tail);
    WordBegins(line, p, w, tail);
    SplitToken(line, p);
  }

  /** A text that ends with a backslash cannot be put in single quotes: the quote behind it does not
      close. */
  lemma BackslashAtEnd(text: string)
    requires forall i :: 0 <= i < |text| ==> text[i] as int != 0
    ensures SplitFrom("'" + (SingleQuoted(text) + "'"), 0)
         == if text != "" && text[|text| - 1] == '\\' then None else Some([text])
  {
    hide SplitFrom, SingleQuoted;
    if text != "" && text[|text| - 1] == '\\' {
      var t := text[..|text| - 1];
      assert text == t + "\\";
      SingleSnoc(t);
      NotClosed(t, "'" + (SingleQuoted(text) + "'"));
    } else {
      Closed(text);
    }
  }

  lemma NotClosed(t: string, line: string)
    requires forall i :: 0 <= i < |t| ==> t[i] as int != 0
    requires line == "'" + (SingleQuoted(t) + "\\" + "'")
    ensures SplitFrom(line, 0) == None
  {
    hide SplitFrom, Token, TurnAt, SingleQuoted, Holds, BareChar;
    var more, rest := "'" + SingleQuoted(t), "\\'";
    var q := |more|;
    IsHeld("", more, rest);
    assert "" + more == more;
    assert line == more + rest;
    QuoteTurn(line, 0, "", more, rest, "");
    assert more[1..] == SingleQuoted(t);
    SingleToken(line, 1, t, rest, "");
    assert "" + "" + t == "" + t;
    EndsSo(line, more);
    EscapedEnd(line, q, "" + t);
    SplitToken(line, 0);
  }

  lemma IsHeld(pre: string, part: string, rest: string)
    ensures Holds(pre + part + rest, |pre|, part, rest)
  {}

  lemma EndsSo(line: string, more: string)
    requires line == more + "\\'" && more != "" && more[0] == '\''
    ensures line[|more|] == '\\' && line[|more| + 1] == '\'' && |line| == |more| + 2
    ensures At(line, 0) != NUL && !IsSpace(At(line, 0))
  {}

  lemma Closed(text: string)
    requires (forall i :: 0 <= i < |text| ==> text[i] as int != 0) && (text != "" ==> text[|text| - 1] != '\\')
    ensures SplitFrom("'" + (SingleQuoted(text) + "'"), 0) == Some([text])
  {
    hide SplitFrom, GoodWord, GoodLine, LineOf, Spelling, Argument, Blanks, SingleQuoted;
    var w := InSingle("", text);
    JustSingle(text);
    OneSpelling(w);
    FormsRoundTrip("", [w], [""]);
    assert Arguments([w]) == [text];
    assert "" + Spelling(w) == Spelling(w);
  }

  lemma JustSingle(text: string)
    requires (forall i :: 0 <= i < |text| ==> text[i] as int != 0) && (text != "" ==> text[|text| - 1] != '\\')
    ensures var w := InSingle("", text);
            GoodWord(w) && Argument(w) == text && Spelling(w) == "'" + (SingleQuoted(text) + "'")
  {
    hide SingleQuoted, BareChar, GoodGlyphs, Glyphs, MeantBy;
    NothingBefore(text);
    NothingBefore("'" + (SingleQuoted(text) + "'"));
  }

  lemma NothingBefore(s: string)
    ensures "" + s == s
  {}

  lemma OneSpelling(w: Word)
    requires GoodWord(w)
    ensures GoodLine([w], [""]) && Blanks("") && LineOf([w], [""]) == Spelling(w)
  {
    hide GoodWord, Spelling;
    assert [w][1..] == [] && [""][1..] == [];
    assert Spelling(w) + ("" + "") == Spelling(w);
  }

  lemma {:induction false} SingleSnoc(t: string)
    ensures SingleQuoted(t + "\\") == SingleQuoted(t) + "\\"
  {
    if t != "" {
      assert (t + "\\")[1..] == t[1..] + "\\";
      SingleSnoc(t[1..]);
    }
  }

  /** The last quote was taken for a character, and the line ends inside the quotes. */
  lemma EscapedEnd(line: string, q: nat, current: string)
    requires |line| == q + 2 && line[q] == '\\' && line[q + 1] == '\''
    ensures Token(line, q, Single, current) == None
  {
    TokenOn(line, q, Single, current, "'", Single, q + 2);
    assert TurnAt(line, q + 2, Single) == Fail;
  }
}
