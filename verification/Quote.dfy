/** Quoting and splitting of command lines: sdscatrepr and sdssplitargs of hiredis/sds.c. */
module Quote {
  import opened Options

  const NUL := '\0'
  const BELL := 7 as char
  const BACKSPACE := 8 as char

  predicate IsByte(c: char) {
    c as int < 256
  }

  predicate IsPrint(c: char) {
    ' ' <= c <= '~'
  }

  /** isspace in the C locale. */
  predicate IsSpace(c: char) {
    c == ' ' || 9 <= c as int <= 13
  }

  predicate IsHex(c: char) {
    '0' <= c <= '9' || 'a' <= c <= 'f' || 'A' <= c <= 'F'
  }

  /** hex_digit_to_int */
  function HexValue(c: char): (v: nat)
    ensures v < 16
  {
    if '0' <= c <= '9' then c as int - '0' as int
    else if 'a' <= c <= 'f' then c as int - 'a' as int + 10
    else if 'A' <= c <= 'F' then c as int - 'A' as int + 10
    else 0
  }

  function HexDigit(v: nat): (c: char)
    requires v < 16
    ensures IsHex(c) && HexValue(c) == v
  {
    if v < 10 then ('0' as int + v) as char else ('a' as int + v - 10) as char
  }

  // ----- sdscatrepr -----

  function EscapeChar(c: char): string
    requires IsByte(c)
  {
    if c == '\\' || c == '"' then ['\\', c]
    else if c == '\n' then "\\n"
    else if c == '\r' then "\\r"
    else if c == '\t' then "\\t"
    else if c == BELL then "\\a"
    else if c == BACKSPACE then "\\b"
    else if IsPrint(c) then [c]
    else ['\\', 'x', HexDigit(c as int / 16), HexDigit(c as int % 16)]
  }

  ghost predicate Bytes(s: string) {
    forall i :: 0 <= i < |s| ==> IsByte(s[i])
  }

  function Escape(s: string): string
    requires Bytes(s)
  {
    if s == "" then "" else EscapeChar(s[0]) + Escape(s[1..])
  }

  function Repr(s: string): string
    requires Bytes(s)
  {
    "\"" + Escape(s) + "\""
  }

  lemma {:induction false} EscapePush(s: string, c: char)
    requires Bytes(s) && IsByte(c)
    ensures Bytes(s + [c]) && Escape(s + [c]) == Escape(s) + EscapeChar(c)
    decreases |s|
  {
    if s == "" {
      assert s + [c] == [c];
      assert [c][1..] == "";
    } else {
      EscapePush(s[1..], c);
      assert (s + [c])[1..] == s[1..] + [c];
    }
  }

  /** sdscatrepr */
  method CatRepr(s: string, p: string) returns (r: string)
    requires Bytes(p)
    ensures r == s + Repr(p)
  {
    r := s + "\"";
    for i := 0 to |p|
      invariant r == s + "\"" + Escape(p[..i])
    {
      assert p[..i + 1] == p[..i] + [p[i]];
      EscapePush(p[..i], p[i]);
      hide Escape, EscapeChar;
      r := CatEscaped(r, p[i]);
    }
    assert p[..|p|] == p;
    r := r + "\"";
  }

  /** Its switch. */
  method CatEscaped(s: string, c: char) returns (r: string)
    requires IsByte(c)
    ensures r == s + EscapeChar(c)
  {
    if c == '\\' || c == '"' {
      r := s + ['\\', c];
    } else if c == '\n' {
      r := s + "\\n";
    } else if c == '\r' {
      r := s + "\\r";
    } else if c == '\t' {
      r := s + "\\t";
    } else if c == BELL {
      r := s + "\\a";
    } else if c == BACKSPACE {
      r := s + "\\b";
    } else if IsPrint(c) {
      r := s + [c];
    } else {
      r := s + ['\\', 'x', HexDigit(c as int / 16), HexDigit(c as int % 16)];
    }
  }

  // ----- sdssplitargs -----

  /** The character at position `p` of a C string. */
  function At(line: string, p: nat): char {
    if p < |line| then line[p] else NUL
  }

  function Unescape(c: char): char {
    if c == 'n' then '\n' else if c == 'r' then '\r' else if c == 't' then '\t'
    else if c == 'b' then BACKSPACE else if c == 'a' then BELL else c
  }

  datatype Mode = Bare | Double | Single

  /** One turn of the inner loop: an error, the end of the token, or on it goes. */
  datatype Turn = Fail | Done(next: nat) | More(mode: Mode, add: string, next: nat)

  /** A closing quote must be followed by a space or nothing at all. */
  function Close(line: string, p: nat): Turn {
    if At(line, p + 1) != NUL && !IsSpace(At(line, p + 1)) then Fail else Done(p + 1)
  }

  function TurnAt(line: string, p: nat, mode: Mode): Turn {
    var c := At(line, p);
    match mode
    case Double =>
      if c == '\\' && At(line, p + 1) == 'x' && IsHex(At(line, p + 2)) && IsHex(At(line, p + 3)) then
        More(Double, [(HexValue(At(line, p + 2)) * 16 + HexValue(At(line, p + 3))) as char], p + 4)
      else if c == '\\' && At(line, p + 1) != NUL then More(Double, [Unescape(At(line, p + 1))], p + 2)
      else if c == '"' then Close(line, p)
      else if c == NUL then Fail
      else More(Double, [c], p + 1)
    case Single =>
      if c == '\\' && At(line, p + 1) == '\'' then More(Single, "'", p + 2)
      else if c == '\'' then Close(line, p)
      else if c == NUL then Fail
      else More(Single, [c], p + 1)
    case Bare =>
      if c == NUL then Done(p)
      else if c == ' ' || c == '\n' || c == '\r' || c == '\t' then Done(p + 1)
      else if c == '"' then More(Double, "", p + 1)
      else if c == '\'' then More(Single, "", p + 1)
      else More(Bare, [c], p + 1)
  }

  lemma TurnAdvances(line: string, p: nat, mode: Mode)
    ensures TurnAt(line, p, mode).More? ==> p < TurnAt(line, p, mode).next <= |line|
    ensures TurnAt(line, p, mode).Done? && (p < |line| || mode != Bare) ==> TurnAt(line, p, mode).next <= |line|
    ensures TurnAt(line, p, mode).Done? ==> TurnAt(line, p, mode).next >= p
  {}

  /** The rest of a token, and the position behind it. */
  function Token(line: string, p: nat, mode: Mode, current: string): Option<(string, nat)>
    decreases |line| - p
  {
    TurnAdvances(line, p, mode);
    match TurnAt(line, p, mode)
    case Fail => None
    case Done(next) => Some((current, next))
    case More(mode', add, next) => Token(line, next, mode', current + add)
  }

  function SkipBlanks(line: string, p: nat): (r: nat)
    ensures p <= r && !IsSpace(At(line, r))
    decreases |line| - p
  {
    if p < |line| && IsSpace(line[p]) then SkipBlanks(line, p + 1) else p
  }

  lemma {:induction false} TokenAdvances(line: string, p: nat, mode: Mode, current: string)
    requires p < |line| && (mode == Bare ==> At(line, p) != NUL && !IsSpace(At(line, p)))
    ensures var t := Token(line, p, mode, current); t.Some? ==> p < t.value.1
    decreases |line| - p
  {
    TurnAdvances(line, p, mode);
    if TurnAt(line, p, mode).More? {
      var n := TurnAt(line, p, mode).next;
      TokenNext(line, n, TurnAt(line, p, mode).mode, current + TurnAt(line, p, mode).add);
    }
  }

  lemma {:induction false} TokenNext(line: string, p: nat, mode: Mode, current: string)
    ensures var t := Token(line, p, mode, current); t.Some? ==> p <= t.value.1
    decreases |line| - p
  {
    TurnAdvances(line, p, mode);
    if TurnAt(line, p, mode).More? {
      TokenNext(line, TurnAt(line, p, mode).next, TurnAt(line, p, mode).mode, current + TurnAt(line, p, mode).add);
    }
  }

  /** All arguments from position `p` on. */
  function SplitFrom(line: string, p: nat): Option<seq<string>>
    decreases |line| - p
  {
    var q := SkipBlanks(line, p);
    if At(line, q) == NUL then Some([])
    else
      TokenAdvances(line, q, Bare, "");
      match Token(line, q, Bare, "")
      case None => None
      case Some(t) =>
        match SplitFrom(line, t.1)
        case None => None
        case Some(rest) => Some([t.0] + rest)
  }

  /** sdssplitargs */
  method SplitArgs(line: string) returns (r: Option<seq<string>>)
    ensures r == SplitFrom(line, 0)
  {
    var p, vector := 0, [];
    PrefixedNone(SplitFrom(line, 0));
    while true
      invariant Prefixed(vector, SplitFrom(line, p)) == SplitFrom(line, 0)
      decreases |line| - p
    {
      ghost var p0 := p;
      while At(line, p) != NUL && IsSpace(At(line, p))
        invariant p0 <= p && SkipBlanks(line, p) == SkipBlanks(line, p0)
        decreases |line| - p
      {
        p := p + 1;
      }
      if At(line, p) == NUL {
        assert vector + [] == vector;
        return Some(vector);
      }
      TokenAdvances(line, p, Bare, "");
      var token := NextToken(line, p);
      if token.None? { return None; }
      PrefixedPush(vector, token.value.0, SplitFrom(line, token.value.1));
      vector, p := vector + [token.value.0], token.value.1;
    }
  }

  /** Its loop over one token. */
  method NextToken(line: string, start: nat) returns (r: Option<(string, nat)>)
    requires start < |line|
    ensures r == Token(line, start, Bare, "")
  {
    var p, inq, insq, done, current := start, false, false, false, "";
    while !done
      invariant !(inq && insq)
      invariant Token(line, start, Bare, "")
             == if done then Some((current, p))
                else Token(line, p, if inq then Double else if insq then Single else Bare, current)
      decreases if done then 0 else 1, |line| - p
    {
      ghost var turn := TurnAt(line, p, if inq then Double else if insq then Single else Bare);
      TurnAdvances(line, p, if inq then Double else if insq then Single else Bare);
      if inq {
        if At(line, p) == '\\' && At(line, p + 1) == 'x' && IsHex(At(line, p + 2)) && IsHex(At(line, p + 3)) {
          current := current + [(HexValue(At(line, p + 2)) * 16 + HexValue(At(line, p + 3))) as char];
          p := p + 3;
        } else if At(line, p) == '\\' && At(line, p + 1) != NUL {
          p := p + 1;
          current := current + [Unescape(At(line, p))];
        } else if At(line, p) == '"' {
          if At(line, p + 1) != NUL && !IsSpace(At(line, p + 1)) { return None; }
          done := true;
        } else if At(line, p) == NUL {
          return None;
        } else {
          current := current + [At(line, p)];
        }
      } else if insq {
        if At(line, p) == '\\' && At(line, p + 1) == '\'' {
          p := p + 1;
          current := current + "'";
        } else if At(line, p) == '\'' {
          if At(line, p + 1) != NUL && !IsSpace(At(line, p + 1)) { return None; }
          done := true;
        } else if At(line, p) == NUL {
          return None;
        } else {
          current := current + [At(line, p)];
        }
      } else {
        var c := At(line, p);
        if c == ' ' || c == '\n' || c == '\r' || c == '\t' || c == NUL {
          done := true;
        } else if c == '"' {
          inq := true;
        } else if c == '\'' {
          insq := true;
        } else {
          current := current + [c];
        }
      }
      if At(line, p) != NUL { p := p + 1; }
      assert turn.More? ==> current + "" == current;
    }
    return Some((current, p));
  }

  function Prefixed(vector: seq<string>, rest: Option<seq<string>>): Option<seq<string>> {
    if rest.None? then None else Some(vector + rest.value)
  }

  lemma PrefixedNone(rest: Option<seq<string>>)
    ensures Prefixed([], rest) == rest
  {
    if rest.Some? { assert [] + rest.value == rest.value; }
  }

  lemma PrefixedPush(vector: seq<string>, s: string, rest: Option<seq<string>>)
    ensures Prefixed(vector + [s], rest) == Prefixed(vector, Prefixed([s], rest))
  {
    if rest.Some? { assert vector + [s] + rest.value == vector + ([s] + rest.value); }
  }

  // ----- they undo each other -----

  ghost predicate AllBytes(args: seq<string>) {
    forall i :: 0 <= i < |args| ==> Bytes(args[i])
  }

  function Joined(args: seq<string>): string
    requires AllBytes(args)
  {
    if args == [] then "" else if |args| == 1 then Repr(args[0]) else Repr(args[0]) + " " + Joined(args[1..])
  }

  lemma EscapedTurn(pre: string, c: char, rest: string)
    requires IsByte(c)
    ensures TurnAt(pre + EscapeChar(c) + rest, |pre|, Double) == More(Double, [c], |pre| + |EscapeChar(c)|)
  {
    var e := EscapeChar(c);
    var line := pre + e + rest;
    assert forall i :: 0 <= i < |e| ==> At(line, |pre| + i) == e[i];
  }

  lemma {:induction false} QuotedToken(pre: string, s: string, rest: string, current: string)
    requires Bytes(s) && (rest == "" || IsSpace(rest[0]))
    ensures Token(pre + Escape(s) + "\"" + rest, |pre|, Double, current) == Some((current + s, |pre| + |Escape(s)| + 1))
    decreases |s|
  {
    hide Token, EscapeChar;
    if s == "" {
      QuotedEmpty(pre, rest, current);
    } else {
      QuotedToken(pre + EscapeChar(s[0]), s[1..], rest, current + [s[0]]);
      QuotedMore(pre, s[0], s[1..], rest, current);
      FirstBack(current, s);
      assert s == [s[0]] + s[1..];
    }
  }

  lemma QuotedEmpty(pre: string, rest: string, current: string)
    requires rest == "" || IsSpace(rest[0])
    ensures Escape("") == ""
    ensures Token(pre + "" + "\"" + rest, |pre|, Double, current) == Some((current + "", |pre| + 1))
  {
    ClosingQuote(pre, rest, pre + "" + "\"" + rest);
    assert current + "" == current;
  }

  lemma QuotedMore(pre: string, c: char, t: string, rest: string, current: string)
    requires IsByte(c) && Bytes(t)
    requires Token(pre + EscapeChar(c) + Escape(t) + "\"" + rest, |pre + EscapeChar(c)|, Double, current + [c])
          == Some((current + [c] + t, |pre + EscapeChar(c)| + |Escape(t)| + 1))
    ensures Token(pre + (EscapeChar(c) + Escape(t)) + "\"" + rest, |pre|, Double, current)
         == Some((current + [c] + t, |pre| + |EscapeChar(c) + Escape(t)| + 1))
  {
    hide *;
    var line := pre + (EscapeChar(c) + Escape(t)) + "\"" + rest;
    Regrouped(pre, EscapeChar(c), Escape(t), rest, line);
    EscapedTurn(pre, c, Escape(t) + "\"" + rest);
    TokenMore(line, |pre|, Double, current, [c], |pre| + |EscapeChar(c)|);
  }

  lemma FirstBack(current: string, s: string)
    requires s != ""
    ensures current + [s[0]] + s[1..] == current + s
  {}

  lemma QuotesApart(pre: string, e: string, rest: string, line: string)
    requires line == pre + ("\"" + e + "\"" + rest)
    ensures line == pre + "\"" + e + "\"" + rest && At(line, |pre|) == '"' && |pre + "\""| == |pre| + 1
  {}

  lemma TokenMore(line: string, p: nat, mode: Mode, current: string, add: string, next: nat)
    requires TurnAt(line, p, mode) == More(Double, add, next)
    ensures Token(line, p, mode, current) == Token(line, next, Double, current + add)
  {
    TurnAdvances(line, p, mode);
  }

  lemma ClosingQuote(pre: string, rest: string, line: string)
    requires line == pre + "" + "\"" + rest && (rest == "" || IsSpace(rest[0]))
    ensures TurnAt(line, |pre|, Double) == Done(|pre| + 1)
  {
    assert At(line, |pre|) == '"' && At(line, |pre| + 1) == At(rest, 0);
  }

  lemma Regrouped(pre: string, e: string, t: string, rest: string, line: string)
    requires line == pre + (e + t) + "\"" + rest
    ensures line == pre + e + (t + "\"" + rest) && line == pre + e + t + "\"" + rest
  {}

  lemma {:induction false} SplitJoined(pre: string, args: seq<string>)
    requires AllBytes(args)
    ensures SplitFrom(pre + Joined(args), |pre|) == Some(args)
    decreases |args|
  {
    hide Token, TurnAt, Escape, Repr, SplitFrom;
    var line := pre + Joined(args);
    if args != [] {
      var a, n, rest := args[0], |pre| + |Repr(args[0])|, if |args| == 1 then "" else " " + Joined(args[1..]);
      assert Joined(args) == Repr(a) + rest;
      FirstToken(pre, a, rest, line);
      SplitOne(line, |pre|, a, n);
      if |args| > 1 {
        SplitJoined(pre + Repr(a) + " ", args[1..]);
        JoinedParts(pre, Repr(a), Joined(args[1..]), line);
        BlankFirst(line, n);
      } else {
        SplitEnd(line, n);
      }
      assert args == [a] + args[1..];
    } else {
      SplitEnd(line, |pre|);
    }
  }

  lemma SplitEnd(line: string, n: nat)
    requires n >= |line|
    ensures SplitFrom(line, n) == Some([])
  {}

  lemma JoinedParts(pre: string, r: string, more: string, line: string)
    requires line == pre + (r + " " + more)
    ensures line == pre + r + " " + more && |pre + r + " "| == |pre| + |r| + 1 && |pre| + |r| < |line|
    ensures line[|pre| + |r|] == ' '
  {}

  lemma SplitOne(line: string, p: nat, a: string, n: nat)
    requires At(line, p) == '"' && Token(line, p, Bare, "") == Some((a, n))
    ensures SplitFrom(line, p) == Prefixed([a], SplitFrom(line, n))
  {}

  /** A quoted argument is read as one token. */
  lemma FirstToken(pre: string, a: string, rest: string, line: string)
    requires Bytes(a) && (rest == "" || IsSpace(rest[0])) && line == pre + (Repr(a) + rest)
    ensures At(line, |pre|) == '"' && Token(line, |pre|, Bare, "") == Some((a, |pre| + |Repr(a)|))
  {
    QuotesApart(pre, Escape(a), rest, line);
    hide Escape;
    assert TurnAt(line, |pre|, Bare) == More(Double, "", |pre| + 1);
    hide TurnAt, Escape, Token;
    TokenMore(line, |pre|, Bare, "", "", |pre| + 1);
    QuotedToken(pre + "\"", a, rest, "");
    assert "" + "" == "" && "" + a == a;
  }

  lemma BlankFirst(line: string, p: nat)
    requires p < |line| && IsSpace(line[p])
    ensures SplitFrom(line, p) == SplitFrom(line, p + 1)
  {}

  /** For every list of byte strings, quoting them, joining with spaces and splitting again
      gives the list back, NULs and backslashes included. */
  lemma QuoteRoundTrip(args: seq<string>)
    requires AllBytes(args)
    ensures SplitFrom(Joined(args), 0) == Some(args)
  {
    SplitJoined("", args);
    assert "" + Joined(args) == Joined(args);
  }
}
