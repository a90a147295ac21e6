/** The input iterator of gumbo-parser/src/utf8.c and the string buffer of
    gumbo-parser/src/string_buffer.c. */
module Utf8Stream {
  import opened Arithmetic
  import opened Utf8

  const LF := 10
  const CR := 13
  const TAB := 9
  const REPLACEMENT := 0xFFFD

  /** utf8_is_invalid_code_point */
  predicate Invalid(c: nat) {
    || 0x1 <= c <= 0x8 || c == 0xB || 0xE <= c <= 0x1F || 0x7F <= c <= 0x9F || 0xFDD0 <= c <= 0xFDEF
    || c % 0x10000 == 0xFFFE || c % 0x10000 == 0xFFFF
  }

  /** A character number that passes through unchanged. */
  predicate Plain(c: nat) {
    Scalar(c) && c != CR && !Invalid(c)
  }

  ghost predicate CharAt(s: seq<byte>, n: nat) {
    n <= |s| && WellFormed(s[..n])
  }

  /** What reading at the front of `s` gives: `skip` octets dropped before it (the CR of a
      CR LF pair), its width, and the character (-1 at the end). Malformed input gives one
      replacement character for as many octets as could still start a character, at least one. */
  ghost predicate ReadsAs(s: seq<byte>, skip: nat, width: nat, current: int) {
    if s == [] then skip == 0 && width == 0 && current == -1
    else if exists n: nat :: CharAt(s, n) then
      var n: nat :| CharAt(s, n);
      var c := CodePoint(s[..n]);
      && width == n
      && skip == (if c == CR && |s| > 1 && s[1] == LF then 1 else 0)
      && current == (if c == CR then LF else if Invalid(c) then REPLACEMENT else c)
    else
      && skip == 0 && current == REPLACEMENT && 1 <= width <= |s|
      && (if Viable(s[..1]) then Viable(s[..width]) && (width < |s| ==> !Viable(s[..width + 1])) else width == 1)
  }

  /** Characters are prefix-free. */
  lemma OneWidth(s: seq<byte>, m: nat, n: nat)
    requires CharAt(s, m) && CharAt(s, n)
    ensures m == n
  {
    assert s[..m][0] == s[..n][0];
  }

  lemma ViableShorter(s: seq<byte>, m: nat, n: nat)
    requires m <= n <= |s| && Viable(s[..n])
    ensures Viable(s[..m])
  {
    var t :| WellFormed(s[..n] + t);
    assert s[..m] + (s[m..n] + t) == s[..n] + t;
  }

  lemma ReadsOnce(s: seq<byte>, skip: nat, width: nat, current: int, skip': nat, width': nat, current': int)
    requires ReadsAs(s, skip, width, current) && ReadsAs(s, skip', width', current')
    ensures skip == skip' && width == width' && current == current'
  {
    if s != [] && !(exists n: nat :: CharAt(s, n)) {
      if width < width' { ViableShorter(s, width + 1, width'); }
      if width' < width { ViableShorter(s, width' + 1, width); }
    }
  }

  /** Every step consumes input, stays inside it, and delivers a character fit for HTML. */
  lemma Progress(s: seq<byte>, skip: nat, width: nat, current: int)
    requires ReadsAs(s, skip, width, current)
    ensures skip + width <= |s| && (s != [] ==> width >= 1)
    ensures current == -1 <==> s == []
    ensures current != -1 ==> current >= 0 && Plain(current)
  {
    if s != [] && exists n: nat :: CharAt(s, n) {
      var n: nat :| CharAt(s, n);
      OneWidth(s, n, width);
      EncodeCodePoint(s[..n]);
      OneOctet(s[..n]);
    }
  }

  lemma OneOctet(s: seq<byte>)
    requires WellFormed(s)
    ensures |s| > 0 && (CodePoint(s) <= 0x7F ==> |s| == 1)
  {
    EncodeCodePoint(s);
  }

  lemma ReadsChar(s: seq<byte>, n: nat)
    requires CharAt(s, n)
    ensures var c := CodePoint(s[..n]);
            ReadsAs(s, if c == CR && |s| > 1 && s[1] == LF then 1 else 0, n,
                    if c == CR then LF else if Invalid(c) then REPLACEMENT else c)
  {
    assert s != [];
    forall m: nat | CharAt(s, m) ensures m == n { OneWidth(s, m, n); }
  }

  /** Decoding an encoded character number gives it back exactly if it is a scalar value,
      not CR, and not one that HTML forbids. */
  lemma EncodeThenRead(c: nat, rest: seq<byte>)
    requires c < 0x20_0000
    ensures ReadsAs(Encode(c) + rest, 0, |Encode(c)|, c) <==> Plain(c)
  {
    var e, s := Encode(c), Encode(c) + rest;
    EncodeWellFormed(c);
    assert s[..|e|] == e;
    if Scalar(c) {
      ReadsChar(s, |e|);
      if !Plain(c) && ReadsAs(s, 0, |e|, c) {
        ReadsOnce(s, 0, |e|, c, if c == CR && |s| > 1 && s[1] == LF then 1 else 0, |e|,
                  if c == CR then LF else REPLACEMENT);
      }
    } else if ReadsAs(s, 0, |e|, c) {
      Progress(s, 0, |e|, c);
    }
  }

  /** U+FFFE and the same in each further plane. */
  function PlaneEnd(p: nat): nat {
    p * 0x1_0000 + 0xFFFE
  }

  /** What HTML does not allow in a text: C0 controls other than NUL, TAB, LF, FF and CR, DEL and
      the C1 controls, and the noncharacters. */
  ghost predicate Forbidden(c: nat) {
    || (0x1 <= c <= 0x1F && c != 0x9 && c != 0xA && c != 0xC && c != 0xD)
    || 0x7F <= c <= 0x9F
    || 0xFDD0 <= c <= 0xFDEF
    || exists p: nat :: p <= 16 && (c == PlaneEnd(p) || c == PlaneEnd(p) + 1)
  }

  lemma ForbiddenIsInvalid(c: nat)
    requires c <= 0x10_FFFF
    ensures Forbidden(c) <==> Invalid(c)
  {
    var p := c / 0x1_0000;
    assert c == p * 0x1_0000 + c % 0x1_0000 && p <= 16;
    if c % 0x1_0000 == 0xFFFE { assert c == PlaneEnd(p); }
    if c % 0x1_0000 == 0xFFFF { assert c == PlaneEnd(p) + 1; }
  }

  /** How a Unicode character is read: CR, and CR LF, as LF; one that is not allowed as U+FFFD; any
      other as it is. */
  lemma ScalarRead(c: nat, rest: seq<byte>)
    requires c <= 0xD7FF || 0xE000 <= c <= 0x10_FFFF
    ensures ReadsAs(Encode(c) + rest, if c == 0xD && rest != [] && rest[0] == 0xA then 1 else 0, |Encode(c)|,
                    if c == 0xD then 0xA else if Forbidden(c) then 0xFFFD else c)
  {
    var e, s := Encode(c), Encode(c) + rest;
    EncodeWellFormed(c);
    ForbiddenIsInvalid(c);
    assert s[..|e|] == e;
    ReadsChar(s, |e|);
    hide ReadsAs, Forbidden, Invalid;
  }

  datatype Position = Position(line: nat, column: nat, offset: nat)

  /** update_position */
  function Moved(p: Position, width: nat, current: int, tabStop: nat): Position
    requires tabStop > 0
  {
    if current == LF then Position(p.line + 1, 1, p.offset + width)
    else if current == TAB then Position(p.line, (p.column / tabStop + 1) * tabStop, p.offset + width)
    else if current != -1 then Position(p.line, p.column + 1, p.offset + width)
    else Position(p.line, p.column, p.offset + width)
  }

  /** After a line feed the next line begins at column 1; a tab goes to the next column that is a
      multiple of the tab stop; any other character takes one column; the end takes none. */
  lemma Moves(p: Position, width: nat, current: int, tabStop: nat)
    requires tabStop > 0
    ensures var q := Moved(p, width, current, tabStop);
            && q.offset == p.offset + width && q.line == p.line + (if current == 0xA then 1 else 0)
            && (current == 0xA ==> q.column == 1)
            && (current == 0x9 ==> q.column % tabStop == 0 && p.column < q.column <= p.column + tabStop)
            && (current == -1 ==> q.column == p.column)
            && (current !in {0xA, 0x9, -1} ==> q.column == p.column + 1)
  {
    if current == 0x9 {
      var k := p.column / tabStop;
      assert p.column == k * tabStop + p.column % tabStop && (k + 1) * tabStop == k * tabStop + tabStop;
      MultipleOf(k + 1, tabStop);
    }
  }

  function LineFeeds(cs: seq<int>): nat {
    if cs == [] then 0 else LineFeeds(cs[..|cs| - 1]) + if cs[|cs| - 1] == 0xA then 1 else 0
  }

  /** The characters behind the last line feed. */
  function OnLine(cs: seq<int>): nat {
    if cs == [] || cs[|cs| - 1] == 0xA then 0 else OnLine(cs[..|cs| - 1]) + 1
  }

  /** The place behind the characters `cs`. */
  ghost predicate PlaceAfter(p: Position, cs: seq<int>) {
    p.line == 1 + LineFeeds(cs) && (0x9 !in cs ==> p.column == 1 + OnLine(cs))
  }

  lemma PlaceMoves(p: Position, cs: seq<int>, width: nat, c: int, tabStop: nat)
    requires tabStop > 0 && PlaceAfter(p, cs) && c != -1
    ensures PlaceAfter(Moved(p, width, c, tabStop), cs + [c])
  {
    var all := cs + [c];
    assert all[..|cs|] == cs && all[|cs|] == c;
    if 0x9 !in all { assert 0x9 !in cs; }
    Moves(p, width, c, tabStop);
    hide Moved;
  }

  class Utf8Iterator {
    const source: seq<byte>
    const tabStop: nat
    var start: nat
    var width: nat
    var current: int
    var pos: Position
    var mark: nat
    var markPos: Position
    ghost var markWidth: nat
    ghost var markCurrent: int

    /** The iterator stands on a character it has read, and knows its offset; reading there
        again gives the same. */
    ghost predicate Valid()
      reads this
    {
      && tabStop > 0 && start <= |source| && pos.offset == start
      && ReadsAs(source[start..], 0, width, current)
    }

    ghost predicate Marked()
      reads this
    {
      mark <= |source| && markPos.offset == mark && ReadsAs(source[mark..], 0, markWidth, markCurrent)
    }

    /** utf8iterator_init */
    constructor (source: seq<byte>, tabStop: nat)
      requires tabStop > 0
      ensures Valid() && this.source == source && this.tabStop == tabStop
      ensures ReadsAs(source, start, width, current) && pos == Position(1, 1, start)
    {
      this.source, this.tabStop := source, tabStop;
      start, width, current := 0, 0, -1;
      pos, markPos := Position(1, 1, 0), Position(1, 1, 0);
      mark, markWidth, markCurrent := 0, 0, -1;
      new;
      assert source[0..] == source;
      ReadChar();
    }

    /** read_char */
    method ReadChar()
      requires start <= |source| && pos.offset == start && tabStop > 0
      modifies this`start, this`width, this`current, this`pos
      ensures old(start) <= start && ReadsAs(source[old(start)..], start - old(start), width, current)
      ensures Valid() && pos == old(pos).(offset := start)
    {
      if start >= |source| {
        current, width := -1, 0;
        return;
      }
      hide ReadsAs, Scanning, CharAt, CodePoint, Transition, Class, Bits, LowBits;
      ghost var s := source[start..];
      ScanStart(s);
      var state: nat, codePoint: nat, c := ACCEPT, 0, start;
      while c < |source|
        invariant start <= c <= |source| && start == old(start) && pos == old(pos) && IsState(state)
        invariant Scanning(s, c - start, state, codePoint)
      {
        ScanOne(s, c - start, state, codePoint);
        state, codePoint := Decode(state, codePoint, source[c]);
        if state == ACCEPT {
          width := c - start + 1;
          Accepted(codePoint);
          return;
        } else if state == REJECT {
          width := c - start + if c == start then 1 else 0;
          current := REPLACEMENT;
          return;
        }
        c := c + 1;
      }
      ScanEnd(s, state, codePoint);
      current := REPLACEMENT;
      width := |source| - start;
    }

    /** The branch of read_char that has a whole character of `width` octets. */
    method Accepted(codePoint: nat)
      requires start < |source| && pos.offset == start && tabStop > 0
      requires CharAt(source[start..], width) && CodePoint(source[start..][..width]) == codePoint
      modifies this`start, this`current, this`pos
      ensures old(start) <= start && ReadsAs(source[old(start)..], start - old(start), width, current)
      ensures Valid() && pos == old(pos).(offset := start)
    {
      ghost var s := source[start..];
      ReadsChar(s, width);
      OneOctet(s[..width]);
      var cp := codePoint;
      if codePoint == CR {
        assert width == 1;
        if start + 1 < |source| && source[start + 1] == LF {
          assert source[start + 1..] == s[1..];
          ReadsChar(s[1..], 1) by { assert s[1..][..1] == [LF]; }
          start := start + 1;
          pos := pos.(offset := pos.offset + 1);
        }
        cp := LF;
      }
      current := if Invalid(cp) then REPLACEMENT else cp;
    }

    /** utf8iterator_next: it moves on unless the input is at its end, where it stays. */
    method Next()
      requires Valid()
      modifies this`start, this`width, this`current, this`pos
      ensures Valid() && old(start) + old(width) <= start
      ensures ReadsAs(source[old(start) + old(width)..], start - old(start) - old(width), width, current)
      ensures pos == Moved(old(pos), old(width), old(current), tabStop).(offset := start)
      ensures if old(current) == -1 then start == old(start) && current == -1 else old(start) < start
    {
      Progress(source[start..], 0, width, current);
      pos := Moved(pos, width, current, tabStop);
      start := start + width;
      ReadChar();
      if old(current) == -1 { Progress(source[old(start)..], start - old(start), width, current); }
    }

    /** utf8iterator_mark */
    method Mark()
      requires Valid()
      modifies this`mark, this`markPos, this`markWidth, this`markCurrent
      ensures Marked() && mark == start && markPos == pos && markWidth == width && markCurrent == current
    {
      mark, markPos := start, pos;
      markWidth, markCurrent := width, current;
    }

    /** utf8iterator_reset: everything is as it was when the mark was set. */
    method Reset()
      requires Marked() && tabStop > 0
      modifies this`start, this`width, this`current, this`pos
      ensures Valid() && start == mark && pos == markPos && width == markWidth && current == markCurrent
    {
      start, pos := mark, markPos;
      ReadChar();
      ReadsOnce(source[mark..], 0, markWidth, markCurrent, start - mark, width, current);
    }
  }

  /** One more octet. */
  lemma Octet(s: seq<byte>, k: nat, state: nat, codep: nat)
    requires k < |s| && IsState(state)
    requires if k == 0 then state == ACCEPT else Tracks(s[..k], state, codep) && state != ACCEPT
    ensures Tracks(s[..k + 1], Transition(state, Class(s[k])),
                   if state != ACCEPT then codep * 64 + Bits(s[k], 64) else LowBits(Class(s[k]), s[k]))
  {
    assert s[..k + 1] == s[..k] + [s[k]];
    if k == 0 {
      assert s[..1] == [s[0]];
      FirstOctet(s[0]);
    } else {
      NextOctet(s[..k], state, codep, s[k]);
    }
  }

  /** What one more octet tells. */
  lemma OctetRead(s: seq<byte>, k: nat, state: nat, codep: nat)
    requires k < |s| && IsState(state)
    requires if k == 0 then state == ACCEPT else Tracks(s[..k], state, codep) && state != ACCEPT
    ensures var st := Transition(state, Class(s[k]));
            var cp := if state != ACCEPT then codep * 64 + Bits(s[k], 64) else LowBits(Class(s[k]), s[k]);
            && Tracks(s[..k + 1], st, cp) && IsState(st)
            && (Viable(s[..k + 1]) <==> st != REJECT)
            && (WellFormed(s[..k + 1]) <==> st == ACCEPT) && (CharAt(s, k + 1) <==> st == ACCEPT)
            && (st == ACCEPT ==> CodePoint(s[..k + 1]) == cp)
  {
    hide Tracks, Viable, WellFormed, CodePoint, Bits, LowBits, CharAt;
    var st := Transition(state, Class(s[k]));
    var cp := if state != ACCEPT then codep * 64 + Bits(s[k], 64) else LowBits(Class(s[k]), s[k]);
    Octet(s, k, state, codep);
    TransitionState(state, s[k]);
    hide Transition, Class;
    TracksViable(s[..k + 1], st, cp);
    IsChar(s, k + 1);
  }

  lemma TransitionState(state: nat, b: byte)
    requires IsState(state)
    ensures IsState(Transition(state, Class(b)))
  {}

  lemma IsChar(s: seq<byte>, k: nat)
    requires k <= |s|
    ensures CharAt(s, k) <==> WellFormed(s[..k])
  {}

  /** The loop of read_char after `k` octets of `s`, none of which ends a character. */
  ghost predicate Scanning(s: seq<byte>, k: int, state: nat, codep: nat) {
    && 0 <= k <= |s| && IsState(state) && state != REJECT
    && (if k == 0 then state == ACCEPT else Tracks(s[..k], state, codep) && Viable(s[..k]) && state != ACCEPT)
    && forall m :: 0 <= m <= k ==> !CharAt(s, m)
  }

  lemma ScanStart(s: seq<byte>)
    ensures Scanning(s, 0, ACCEPT, 0)
  {}

  /** One more octet: a character ends, none can come any more, or the loop goes on. */
  lemma ScanOne(s: seq<byte>, k: nat, state: nat, codep: nat)
    requires k < |s| && IsState(state) && Scanning(s, k, state, codep)
    ensures var st := Transition(state, Class(s[k]));
            var cp := if state != ACCEPT then codep * 64 + Bits(s[k], 64) else LowBits(Class(s[k]), s[k]);
            && IsState(st)
            && if st == ACCEPT then CharAt(s, k + 1) && CodePoint(s[..k + 1]) == cp
               else if st == REJECT then ReadsAs(s, 0, k + if k == 0 then 1 else 0, REPLACEMENT)
               else Scanning(s, k + 1, st, cp)
  {
    hide Tracks, Viable, WellFormed, CodePoint, Bits, LowBits, CharAt, ReadsAs, Class, Transition;
    OctetRead(s, k, state, codep);
    if Transition(state, Class(s[k])) == REJECT { Rejected(s, k); }
  }

  lemma ScanEnd(s: seq<byte>, state: nat, codep: nat)
    requires s != [] && Scanning(s, |s|, state, codep)
    ensures ReadsAs(s, 0, |s|, REPLACEMENT)
  {
    assert s[..|s|] == s;
    hide Tracks, Viable, CharAt, ReadsAs;
    Truncated(s);
  }

  /** Octet `k` is the first that no character continues with. */
  lemma Rejected(s: seq<byte>, k: nat)
    requires k < |s| && !Viable(s[..k + 1]) && (k > 0 ==> Viable(s[..k]))
    requires forall m :: 0 <= m <= k ==> !CharAt(s, m)
    ensures ReadsAs(s, 0, k + if k == 0 then 1 else 0, REPLACEMENT)
  {
    forall n: nat ensures !CharAt(s, n) {
      if n > k && CharAt(s, n) { CharViable(s, n, k + 1); }
    }
    if k > 0 { ViableShorter(s, 1, k); }
  }

  lemma CharViable(s: seq<byte>, n: nat, m: nat)
    requires CharAt(s, n) && m <= n
    ensures Viable(s[..m])
  {
    assert s[..m] + s[m..n] == s[..n];
  }

  /** The input ends inside a character. */
  lemma Truncated(s: seq<byte>)
    requires s != [] && Viable(s) && forall m :: 0 <= m <= |s| ==> !CharAt(s, m)
    ensures ReadsAs(s, 0, |s|, REPLACEMENT)
  {
    assert s[..|s|] == s;
    ViableShorter(s, 1, |s|);
  }

  // ----- whole inputs -----

  /** `s` decodes to the characters `cs`. */
  ghost predicate Decodes(s: seq<byte>, cs: seq<int>)
    decreases |cs|, 1
  {
    if cs == [] then s == [] else s != [] && exists skip: nat, width: nat :: Leads(s, skip, width, cs)
  }

  /** Its first character takes `skip + width` octets. */
  ghost predicate Leads(s: seq<byte>, skip: nat, width: nat, cs: seq<int>)
    decreases |cs|, 0
  {
    cs != [] && ReadsAs(s, skip, width, cs[0]) && skip + width <= |s| && Decodes(s[skip + width..], cs[1..])
  }

  /** It does so in one way only. */
  lemma {:induction false} DecodesOnce(s: seq<byte>, cs: seq<int>, ds: seq<int>)
    requires Decodes(s, cs) && Decodes(s, ds)
    ensures cs == ds
    decreases |cs|
  {
    if s != [] {
      hide ReadsAs;
      var k: nat, w: nat :| Leads(s, k, w, cs);
      var k': nat, w': nat :| Leads(s, k', w', ds);
      ReadsOnce(s, k, w, cs[0], k', w', ds[0]);
      DecodesOnce(s[k + w..], cs[1..], ds[1..]);
      assert cs == [cs[0]] + cs[1..] && ds == [ds[0]] + ds[1..];
    }
  }

  /** One more character in front. */
  lemma DecodesFrom(s: seq<byte>, from: nat, skip: nat, width: nat, c: int, ds: seq<int>)
    requires from < |s| && ReadsAs(s[from..], skip, width, c) && from + skip + width <= |s|
    requires Decodes(s[from + skip + width..], ds)
    ensures Decodes(s[from..], [c] + ds)
  {
    assert ([c] + ds)[1..] == ds;
    assert s[from..][skip + width..] == s[from + skip + width..];
    assert Leads(s[from..], skip, width, [c] + ds);
  }

  /** The octets of a text. */
  function EncodeAll(cs: seq<nat>): seq<byte>
    requires forall i :: 0 <= i < |cs| ==> cs[i] < 0x20_0000
  {
    if cs == [] then [] else Encode(cs[0]) + EncodeAll(cs[1..])
  }

  /** A text of plain characters survives encoding and decoding. */
  lemma {:induction false} TextRoundTrip(cs: seq<nat>)
    requires forall i :: 0 <= i < |cs| ==> cs[i] < 0x20_0000 && Plain(cs[i])
    ensures Decodes(EncodeAll(cs), cs)
  {
    if cs != [] {
      TextRoundTrip(cs[1..]);
      var e, rest := Encode(cs[0]), EncodeAll(cs[1..]);
      EncodeThenRead(cs[0], rest);
      assert (e + rest)[0 + |e|..] == rest;
      assert Leads(e + rest, 0, |e|, cs);
    }
  }

  /** Running the iterator to the end of its input. */
  method ReadAll(source: seq<byte>, tabStop: nat) returns (chars: seq<int>, end: Position)
    requires tabStop > 0
    ensures Decodes(source, chars) && PlaceAfter(end, chars) && end.offset == |source|
    ensures |chars| <= |source| && forall i :: 0 <= i < |chars| ==> chars[i] >= 0 && Plain(chars[i])
  {
    hide Decodes, ReadsAs, Plain, PlaceAfter, Moved;
    var iter := new Utf8Iterator(source, tabStop);
    chars := [];
    ghost var at, skip := 0, iter.start;
    assert source[0..] == source;
    Progress(source, iter.start, iter.width, iter.current);
    ReadNone(source);
    PlaceAtStart(iter.pos);
    while iter.current != -1
      invariant iter.Valid() && fresh(iter) && iter.source == source && iter.tabStop == tabStop
      invariant at <= iter.start && skip == iter.start - at && ReadsAs(source[at..], skip, iter.width, iter.current)
      invariant |chars| <= at <= |source| && forall i :: 0 <= i < |chars| ==> chars[i] >= 0 && Plain(chars[i])
      invariant Behind(source, at, chars) && PlaceAfter(iter.pos, chars)
      decreases |source| - at
    {
      Progress(source[at..], skip, iter.width, iter.current);
      ReadOne(source, at, chars, skip, iter.width, iter.current);
      PlaceMoves(iter.pos, chars, iter.width, iter.current, tabStop);
      chars := chars + [iter.current];
      at := iter.start + iter.width;
      ghost var moved := Moved(iter.pos, iter.width, iter.current, tabStop);
      iter.Next();
      SamePlace(moved, iter.pos, chars);
      skip := iter.start - at;
    }
    end := iter.pos;
    Progress(source[at..], skip, iter.width, iter.current);
    ReadToEnd(source, at, chars);
  }

  /** The octets before `at` decode to `chars`. */
  ghost predicate Behind(s: seq<byte>, at: nat, chars: seq<int>)
    requires at <= |s|
  {
    forall ds :: Decodes(s[at..], ds) ==> Decodes(s, chars + ds)
  }

  lemma ReadNone(s: seq<byte>)
    ensures Behind(s, 0, [])
  {
    assert s[0..] == s;
    forall ds | Decodes(s[0..], ds) ensures Decodes(s, [] + ds) { assert [] + ds == ds; }
  }

  lemma PlaceAtStart(p: Position)
    requires p.line == 1 && p.column == 1
    ensures PlaceAfter(p, [])
  {}

  lemma SamePlace(p: Position, q: Position, cs: seq<int>)
    requires PlaceAfter(p, cs) && q.line == p.line && q.column == p.column
    ensures PlaceAfter(q, cs)
  {}

  lemma ReadToEnd(s: seq<byte>, at: nat, chars: seq<int>)
    requires at <= |s| && s[at..] == [] && Behind(s, at, chars)
    ensures Decodes(s, chars)
  {
    assert Decodes(s[at..], []);
    assert chars + [] == chars;
  }

  lemma ReadOne(s: seq<byte>, at: nat, chars: seq<int>, skip: nat, width: nat, c: int)
    requires at < |s| && ReadsAs(s[at..], skip, width, c) && at + skip + width <= |s|
    requires Behind(s, at, chars)
    ensures Behind(s, at + skip + width, chars + [c])
  {
    forall ds | Decodes(s[at + skip + width..], ds) ensures Decodes(s, chars + [c] + ds) {
      DecodesFrom(s, at, skip, width, c, ds);
      assert chars + [c] + ds == chars + ([c] + ds);
    }
  }

  // ----- the string buffer -----

  class StringBuffer {
    var data: array<byte>
    var length: nat
    var capacity: nat

    ghost predicate Valid()
      reads this
    {
      length <= capacity == data.Length && capacity > 0
    }

    ghost function Contents(): seq<byte>
      reads this, data
      requires Valid()
    {
      data[..length]
    }

    /** gumbo_string_buffer_init */
    constructor ()
      ensures Valid() && fresh(data) && Contents() == []
    {
      data, length, capacity := new byte[5](_ => 0), 0, 5;
    }

    /** maybe_resize_string_buffer: the capacity doubles until there is room. */
    method MaybeResize(additional: nat)
      requires Valid()
      modifies this
      ensures Valid() && Contents() == old(Contents()) && length == old(length) && length + additional <= capacity
      ensures data == old(data) || fresh(data)
    {
      var newLength, newCapacity := length + additional, capacity;
      while newCapacity < newLength
        invariant newCapacity >= capacity
        decreases newLength - newCapacity
      {
        newCapacity := newCapacity * 2;
      }
      if newCapacity != capacity {
        var newData := new byte[newCapacity](i requires 0 <= i < newCapacity reads this, data =>
          if i < length && i < data.Length then data[i] else 0);
        data, capacity := newData, newCapacity;
      }
    }

    method Put(b: byte)
      requires Valid() && length < capacity
      modifies this`length, data
      ensures Valid() && Contents() == old(Contents()) + [b] && length == old(length) + 1
    {
      data[length] := b;
      length := length + 1;
    }

    /** gumbo_string_buffer_append_codepoint */
    method AppendCodepoint(c: nat)
      requires Valid() && c < 0x20_0000
      modifies this, data
      ensures Valid() && Contents() == old(Contents()) + Encode(c) && (data == old(data) || fresh(data))
    {
      hide Encode, Shift;
      var numBytes, prefix := 3, 0xF0;
      if c <= 0x7F {
        numBytes, prefix := 0, 0;
      } else if c <= 0x7FF {
        numBytes, prefix := 1, 0xC0;
      } else if c <= 0xFFFF {
        numBytes, prefix := 2, 0xE0;
      }
      MaybeResize(numBytes + 1);
      ghost var before := Contents();
      LeadFits(c, numBytes, prefix);
      Put(prefix + c / Shift(numBytes));
      var i := numBytes - 1;
      while i >= 0
        invariant -1 <= i < numBytes && Valid() && i + 1 + length <= capacity && (data == old(data) || fresh(data))
        invariant Contents() == before + Encode(c)[..numBytes - i]
      {
        NextDigit(c, numBytes, i);
        Put(0x80 + c / Shift(i) % 64);
        i := i - 1;
      }
      assert Encode(c)[..numBytes + 1] == Encode(c);
    }
  }

  /** Shifting right by 6 * n bits divides by this. */
  function Shift(n: nat): (r: nat)
    ensures r > 0
  {
    if n == 0 then 1 else 64 * Shift(n - 1)
  }

  ghost predicate Head(c: nat, numBytes: nat, prefix: nat) {
    && numBytes == (if c <= 0x7F then 0 else if c <= 0x7FF then 1 else if c <= 0xFFFF then 2 else 3)
    && prefix == (if c <= 0x7F then 0 else if c <= 0x7FF then 0xC0 else if c <= 0xFFFF then 0xE0 else 0xF0)
  }

  lemma LeadFits(c: nat, numBytes: nat, prefix: nat)
    requires c < 0x20_0000 && Head(c, numBytes, prefix)
    ensures 0 <= prefix + c / Shift(numBytes) < 256 && |Encode(c)| == numBytes + 1
    ensures Encode(c)[..1] == [prefix + c / Shift(numBytes)]
  {
    assert Shift(0) == 1 && Shift(1) == 64 && Shift(2) == 4096 && Shift(3) == 262144;
  }

  lemma NextDigit(c: nat, numBytes: nat, i: nat)
    requires c < 0x20_0000 && |Encode(c)| == numBytes + 1 && i < numBytes
    ensures Encode(c)[..numBytes - i + 1] == Encode(c)[..numBytes - i] + [0x80 + c / Shift(i) % 64]
  {
    assert Shift(0) == 1 && Shift(1) == 64 && Shift(2) == 4096;
  }
}
