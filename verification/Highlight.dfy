/** SnippetGenerator::highlight of SnippetGenerator.cpp: find the query terms, merge the
    intervals, insert the tags from the back. */
module Highlight {
  import opened Ascii
  import opened Options

  const OPEN := "<b>"
  const CLOSE := "</b>"

  /** Positions a to b - 1. */
  datatype Interval = Interval(a: nat, b: nat)

  ghost predicate Covered(v: seq<Interval>, i: nat) {
    exists k :: 0 <= k < |v| && v[k].a <= i < v[k].b
  }

  // ----- hits -----

  predicate OccursAt(text: string, term: string, p: nat) {
    p + |term| <= |text| && text[p..p + |term|] == term
  }

  /** string::find */
  method Find(text: string, term: string, from: nat) returns (p: Option<nat>)
    ensures p.Some? ==> from <= p.value && OccursAt(text, term, p.value)
    ensures forall q :: from <= q < (if p.Some? then p.value else |text| + 1) ==> !OccursAt(text, term, q)
  {
    var q := from;
    while q + |term| <= |text|
      invariant from <= q && forall r :: from <= r < q ==> !OccursAt(text, term, r)
      decreases |text| - q
    {
      if text[q..q + |term|] == term { return Some(q); }
      q := q + 1;
    }
    return None;
  }

  /** What the search for one term finds: occurrences, and the start of every occurrence is
      inside one of them. */
  ghost predicate HitsOf(text: string, term: string, hits: seq<Interval>) {
    && (forall k :: 0 <= k < |hits| ==> OccursAt(text, term, hits[k].a) && hits[k].b == hits[k].a + |term|)
    && (forall p :: OccursAt(text, term, p) ==> Covered(hits, p))
  }

  method FindHits(text: string, term: string) returns (hits: seq<Interval>)
    requires term != ""
    ensures HitsOf(text, term, hits)
  {
    hits := [];
    var pos := Find(text, term, 0);
    ghost var at: nat := 0;
    while pos.Some?
      invariant forall k :: 0 <= k < |hits| ==> OccursAt(text, term, hits[k].a) && hits[k].b == hits[k].a + |term|
      invariant forall p :: 0 <= p < at && OccursAt(text, term, p) ==> Covered(hits, p)
      invariant pos.Some? ==> at <= pos.value && OccursAt(text, term, pos.value)
      invariant forall q :: at <= q < (if pos.Some? then pos.value else |text| + 1) ==> !OccursAt(text, term, q)
      decreases if pos.Some? then |text| - pos.value else -1
    {
      var hit := Interval(pos.value, pos.value + |term|);
      forall p: nat | p < hit.b && OccursAt(text, term, p) ensures Covered(hits + [hit], p) {
        if p < at { CoveredMore(hits, hit, p); } else { assert (hits + [hit])[|hits|] == hit; }
      }
      hits := hits + [hit];
      at := hit.b;
      pos := Find(text, term, hit.b);
    }
  }

  lemma CoveredMore(v: seq<Interval>, x: Interval, i: nat)
    ensures Covered(v + [x], i) <==> Covered(v, i) || x.a <= i < x.b
  {
    var u := v + [x];
    if Covered(v, i) {
      var k :| 0 <= k < |v| && v[k].a <= i < v[k].b;
      assert u[k].a <= i < u[k].b;
    }
    if x.a <= i < x.b { assert u[|v|].a <= i < u[|v|].b; }
  }

  lemma CoveredBoth(v: seq<Interval>, w: seq<Interval>, i: nat)
    ensures Covered(v + w, i) <==> Covered(v, i) || Covered(w, i)
  {
    var u := v + w;
    if Covered(v, i) {
      var k :| 0 <= k < |v| && v[k].a <= i < v[k].b;
      assert u[k].a <= i < u[k].b;
    }
    if Covered(w, i) {
      var k :| 0 <= k < |w| && w[k].a <= i < w[k].b;
      assert u[|v| + k].a <= i < u[|v| + k].b;
    }
  }

  // ----- sorting and merging -----

  predicate Sorted(v: seq<Interval>) {
    forall i, j :: 0 <= i < j < |v| ==> v[i].a <= v[j].a
  }

  ghost predicate SameUnion(v: seq<Interval>, w: seq<Interval>) {
    forall i: nat :: Covered(v, i) <==> Covered(w, i)
  }

  predicate Inside(v: seq<Interval>, n: nat) {
    forall k :: 0 <= k < |v| ==> v[k].a < v[k].b <= n
  }

  lemma InsertedUnion(s: seq<Interval>, k: nat, x: Interval, v: seq<Interval>)
    requires k <= |s| && SameUnion(s, v)
    ensures SameUnion(s[..k] + [x] + s[k..], v + [x])
  {
    forall i: nat ensures Covered(s[..k] + [x] + s[k..], i) <==> Covered(v + [x], i) {
      assert s == s[..k] + s[k..];
      CoveredBoth(s[..k], s[k..], i);
      CoveredMore(s[..k], x, i);
      CoveredBoth(s[..k] + [x], s[k..], i);
      CoveredMore(v, x, i);
    }
  }

  /** std::sort */
  method Sort(v: seq<Interval>, n: nat) returns (s: seq<Interval>)
    requires Inside(v, n)
    ensures Sorted(s) && |s| == |v| && SameUnion(s, v) && Inside(s, n)
  {
    s := [];
    for i := 0 to |v|
      invariant Sorted(s) && |s| == i && SameUnion(s, v[..i]) && Inside(s, n)
    {
      var k := 0;
      while k < |s| && s[k].a <= v[i].a
        invariant 0 <= k <= |s| && forall j :: 0 <= j < k ==> s[j].a <= v[i].a
      {
        k := k + 1;
      }
      assert v[..i + 1] == v[..i] + [v[i]];
      InsertedUnion(s, k, v[i], v[..i]);
      s := s[..k] + [v[i]] + s[k..];
    }
    assert v[..|v|] == v;
  }

  /** Sorted and apart: each interval ends before the next begins. */
  predicate Separated(v: seq<Interval>) {
    forall i, j :: 0 <= i < j < |v| ==> v[i].b < v[j].a
  }

  /** The merging loop. */
  method Merge(hits: seq<Interval>, n: nat) returns (merged: seq<Interval>)
    requires hits != [] && Sorted(hits) && Inside(hits, n)
    ensures Separated(merged) && SameUnion(merged, hits) && Inside(merged, n)
  {
    merged := [hits[0]];
    assert hits[..1] == [hits[0]];
    for i := 1 to |hits|
      invariant merged != [] && Separated(merged) && SameUnion(merged, hits[..i]) && Inside(merged, n)
      invariant merged[|merged| - 1].a <= hits[i - 1].a
    {
      assert hits[..i + 1] == hits[..i] + [hits[i]];
      var last := merged[|merged| - 1];
      if hits[i].a <= last.b {
        var wider := last.(b := if last.b < hits[i].b then hits[i].b else last.b);
        Widened(merged, hits[..i], hits[i], wider);
        merged := merged[|merged| - 1 := wider];
      } else {
        forall x: nat ensures Covered(merged + [hits[i]], x) <==> Covered(hits[..i + 1], x) {
          CoveredMore(merged, hits[i], x);
          CoveredMore(hits[..i], hits[i], x);
        }
        merged := merged + [hits[i]];
      }
    }
    assert hits[..|hits|] == hits;
  }

  /** Two intervals that touch cover together what the wider one covers. */
  lemma Widened(merged: seq<Interval>, before: seq<Interval>, hit: Interval, wider: Interval)
    requires merged != [] && SameUnion(merged, before)
    requires var last := merged[|merged| - 1];
             last.a <= hit.a <= last.b && last.a < last.b && hit.a < hit.b
             && wider == last.(b := if last.b < hit.b then hit.b else last.b)
    ensures SameUnion(merged[|merged| - 1 := wider], before + [hit])
  {
    var n := |merged| - 1;
    var front, last := merged[..n], merged[n];
    assert merged == front + [last] && merged[n := wider] == front + [wider];
    forall x: nat ensures Covered(merged[n := wider], x) <==> Covered(before + [hit], x) {
      CoveredMore(front, last, x);
      CoveredMore(front, wider, x);
      CoveredMore(before, hit, x);
    }
  }

  // ----- inserting the tags -----

  datatype Piece = Plain(text: string) | Opening | Closing

  /** How the text from position `from` on is laid out. */
  function Layout(s: string, v: seq<Interval>, from: nat): seq<Piece>
    requires from <= |s| && InOrder(v, from, |s|)
    decreases |v|
  {
    if v == [] then [Plain(s[from..])]
    else [Plain(s[from..v[0].a]), Opening, Plain(s[v[0].a..v[0].b]), Closing] + Layout(s, v[1..], v[0].b)
  }

  predicate InOrder(v: seq<Interval>, from: nat, n: nat) {
    Separated(v) && Inside(v, n) && (v != [] ==> from <= v[0].a)
  }

  /** The text with its tags. */
  function Render(p: seq<Piece>): string {
    if p == [] then ""
    else (match p[0] case Plain(t) => t case Opening => "<b>" case Closing => "</b>") + Render(p[1..])
  }

  /** The text without the inserted tags. */
  function Strip(p: seq<Piece>): string {
    if p == [] then "" else (if p[0].Plain? then p[0].text else "") + Strip(p[1..])
  }

  /** Every tag that opens is closed before the next opens. */
  predicate Balanced(p: seq<Piece>, inside: bool)
    decreases |p|
  {
    if p == [] then !inside
    else match p[0]
      case Plain(_) => Balanced(p[1..], inside)
      case Opening => !inside && Balanced(p[1..], true)
      case Closing => inside && Balanced(p[1..], false)
  }

  /** For each character of the text, whether it stands between tags. */
  function Bold(p: seq<Piece>, inside: bool): seq<bool>
    decreases |p|
  {
    if p == [] then []
    else match p[0]
      case Plain(t) => seq(|t|, i => inside) + Bold(p[1..], inside)
      case Opening => Bold(p[1..], true)
      case Closing => Bold(p[1..], false)
  }

  lemma FourPieces(x: string, y: string, rest: seq<Piece>)
    ensures var p := [Plain(x), Opening, Plain(y), Closing] + rest;
            && Render(p) == x + "<b>" + y + "</b>" + Render(rest)
            && Strip(p) == x + y + Strip(rest)
            && (Balanced(p, false) <==> Balanced(rest, false))
            && Bold(p, false) == seq(|x|, i => false) + seq(|y|, i => true) + Bold(rest, false)
  {
    var p3 := [Closing] + rest;
    var p2 := [Plain(y)] + p3;
    var p1 := [Opening] + p2;
    assert [Plain(x)] + p1 == [Plain(x), Opening, Plain(y), Closing] + rest;
    hide Render, Strip, Balanced, Bold;
    OnePiece(Closing, rest, true);
    OnePiece(Plain(y), p3, true);
    OnePiece(Opening, p2, false);
    OnePiece(Plain(x), p1, false);
    Grouped(x, y, Render(rest), Strip(rest));
    assert seq(|x|, i => false) + (seq(|y|, i => true) + Bold(rest, false))
        == seq(|x|, i => false) + seq(|y|, i => true) + Bold(rest, false);
  }

  lemma Grouped(x: string, y: string, r: string, s: string)
    ensures x + ("<b>" + (y + ("</b>" + r))) == x + "<b>" + y + "</b>" + r && x + ("" + (y + ("" + s))) == x + y + s
  {}

  lemma OnePiece(x: Piece, rest: seq<Piece>, b: bool)
    ensures var p := [x] + rest;
            && Render(p) == (match x case Plain(t) => t case Opening => "<b>" case Closing => "</b>") + Render(rest)
            && Strip(p) == (if x.Plain? then x.text else "") + Strip(rest)
            && (Balanced(p, b) <==>
                  if x.Plain? then Balanced(rest, b)
                  else if x.Opening? then !b && Balanced(rest, true)
                  else b && Balanced(rest, false))
            && Bold(p, b) == if x.Plain? then seq(|x.text|, i => b) + Bold(rest, b) else Bold(rest, x.Opening?)
  {
    assert ([x] + rest)[1..] == rest;
  }

  // ----- tags and text in the resulting string -----

  /** The string without any "<b>" and "</b>" in it. */
  function Untagged(s: string): string {
    if s == "" then ""
    else if "<b>" <= s then Untagged(s[3..])
    else if "</b>" <= s then Untagged(s[4..])
    else [s[0]] + Untagged(s[1..])
  }

  lemma {:induction false} UntaggedText(t: string, rest: string)
    requires '<' !in t
    ensures Untagged(t + rest) == t + Untagged(rest)
  {
    if t == "" {
      assert t + rest == rest;
    } else {
      var s, u := t + rest, t[1..];
      assert t[0] in t && s[0] == t[0] && s[1..] == u + rest;
      assert forall i :: 0 <= i < |u| ==> u[i] == t[i + 1];
      UntaggedText(u, rest);
    }
  }

  lemma UntaggedTag(rest: string)
    ensures Untagged("<b>" + rest) == Untagged(rest) && Untagged("</b>" + rest) == Untagged(rest)
  {
    assert ("<b>" + rest)[3..] == rest && ("</b>" + rest)[4..] == rest;
    assert ("</b>" + rest)[1] == '/';
  }

  /** Where the text has no '<', nothing but the inserted tags looks like one. */
  lemma {:induction false} UntaggedRender(p: seq<Piece>)
    requires '<' !in Strip(p)
    ensures Untagged(Render(p)) == Strip(p)
  {
    if p != [] {
      var t, rest := if p[0].Plain? then p[0].text else "", p[1..];
      assert Strip(p) == t + Strip(rest);
      UntaggedRender(rest);
      if p[0].Plain? { UntaggedText(t, Render(rest)); } else { UntaggedTag(Render(rest)); }
    }
  }

  /** The layout is the text, balanced, with tags around exactly the covered characters. */
  lemma {:induction false} LayoutFacts(s: string, v: seq<Interval>, from: nat)
    requires from <= |s| && InOrder(v, from, |s|)
    ensures var p := Layout(s, v, from);
            && Strip(p) == s[from..] && Balanced(p, false)
            && |Bold(p, false)| == |s| - from
            && forall i :: from <= i < |s| ==> (Bold(p, false)[i - from] <==> Covered(v, i))
    decreases |v|
  {
    var p := Layout(s, v, from);
    if v == [] {
      assert p[1..] == [];
      assert Bold(p, false) == seq(|s| - from, i => false) + [];
    } else {
      var a, b, t := v[0].a, v[0].b, v[1..];
      TailInOrder(v, |s|);
      LayoutFacts(s, t, b);
      FourPieces(s[from..a], s[a..b], Layout(s, t, b));
      assert s[from..a] + s[a..b] + s[b..] == s[from..];
      assert v == [v[0]] + t;
      forall i | from <= i < |s| ensures Bold(p, false)[i - from] <==> Covered(v, i) {
        CoveredBoth([v[0]], t, i);
        assert Covered([v[0]], i) <==> a <= i < b by { if a <= i < b { assert [v[0]][0].a <= i; } }
        if i < b { NotCovered(t, i, b, |s|); }
      }
    }
  }

  lemma TailInOrder(v: seq<Interval>, n: nat)
    requires v != [] && Separated(v) && Inside(v, n)
    ensures InOrder(v[1..], v[0].b, n)
  {}

  lemma NotCovered(v: seq<Interval>, i: nat, from: nat, n: nat)
    requires InOrder(v, from, n) && i < from
    ensures !Covered(v, i)
  {
    forall k | 0 <= k < |v| ensures v[k].a > i {}
  }

  /** A layout may be cut before its first interval. */
  lemma RenderFrom(s: string, v: seq<Interval>, from: nat, to: nat)
    requires from <= to <= |s| && InOrder(v, to, |s|)
    ensures Render(Layout(s, v, from)) == s[from..to] + Render(Layout(s, v, to))
  {
    if v == [] {
      assert Layout(s, v, from)[1..] == [] && Layout(s, v, to)[1..] == [];
      assert s[from..] == s[from..to] + s[to..];
    } else {
      var a, b := v[0].a, v[0].b;
      var rest := Layout(s, v[1..], b);
      FourPieces(s[from..a], s[a..b], rest);
      FourPieces(s[to..a], s[a..b], rest);
      hide Render, Strip, Balanced, Bold;
      Cut(s[from..a], s[from..to], s[to..a], s[a..b], Render(rest));
    }
  }

  lemma Cut(fa: string, ft: string, ta: string, ab: string, rest: string)
    requires fa == ft + ta
    ensures fa + OPEN + ab + CLOSE + rest == ft + (ta + OPEN + ab + CLOSE + rest)
  {}

  function InsertText(s: string, at: nat, t: string): string
    requires at <= |s|
  {
    s[..at] + t + s[at..]
  }

  /** Inserting the tags of one more interval in front. */
  lemma InsertTags(s: string, x: Interval, v: seq<Interval>, cur: string)
    requires x.a < x.b <= |s| && InOrder(v, x.b, |s|) && InOrder([x] + v, 0, |s|)
    requires cur == Render(Layout(s, v, 0))
    ensures x.b <= |cur| && InsertText(InsertText(cur, x.b, CLOSE), x.a, OPEN) == Render(Layout(s, [x] + v, 0))
  {
    var more := Render(Layout(s, v, x.b));
    RenderFrom(s, v, 0, x.b);
    assert ([x] + v)[1..] == v;
    FourPieces(s[0..x.a], s[x.a..x.b], Layout(s, v, x.b));
    TwoInserts(s, x.a, x.b, more, cur);
  }

  lemma TwoInserts(s: string, a: nat, b: nat, more: string, cur: string)
    requires a < b <= |s| && cur == s[0..b] + more
    ensures b <= |cur| && InsertText(InsertText(cur, b, CLOSE), a, OPEN) == s[0..a] + OPEN + s[a..b] + CLOSE + more
  {
    var one := InsertText(cur, b, CLOSE);
    assert one == s[0..b] + CLOSE + more;
    assert one[..a] == s[0..a];
    assert one[a..] == s[a..b] + CLOSE + more;
  }

  /** The last loop, from the back so that earlier positions stay valid. */
  method Insert(snippet: string, merged: seq<Interval>) returns (out: string)
    requires InOrder(merged, 0, |snippet|)
    ensures out == Render(Layout(snippet, merged, 0))
  {
    out := snippet;
    var k := |merged|;
    NoTags(snippet, merged[k..]);
    hide Render, Layout, InOrder;
    while k > 0
      invariant 0 <= k <= |merged| && InOrder(merged[k..], 0, |snippet|)
      invariant out == Render(Layout(snippet, merged[k..], 0))
    {
      StepBack(merged, k - 1, |snippet|);
      k := k - 1;
      var it := merged[k];
      InsertTags(snippet, it, merged[k + 1..], out);
      out := InsertText(out, it.b, CLOSE);
      out := InsertText(out, it.a, OPEN);
    }
    assert merged[0..] == merged;
  }

  lemma NoTags(s: string, v: seq<Interval>)
    requires v == []
    ensures InOrder(v, 0, |s|) && Render(Layout(s, v, 0)) == s
  {
    assert Layout(s, v, 0)[1..] == [] && s[0..] == s;
  }

  lemma StepBack(v: seq<Interval>, k: nat, n: nat)
    requires InOrder(v, 0, n) && k < |v|
    ensures [v[k]] + v[k + 1..] == v[k..] && InOrder(v[k..], 0, n) && InOrder([v[k]] + v[k + 1..], 0, n)
    ensures v[k].a < v[k].b <= n && InOrder(v[k + 1..], v[k].b, n)
  {}

  /** The hits of all terms. */
  ghost predicate AllHits(text: string, terms: seq<string>, hits: seq<Interval>) {
    && (forall k :: 0 <= k < |hits| ==> HitsOne(text, terms, hits[k]))
    && (forall j, p :: 0 <= j < |terms| && OccursAt(text, terms[j], p) ==> Covered(hits, p))
  }

  ghost predicate HitsOne(text: string, terms: seq<string>, hit: Interval) {
    exists j :: 0 <= j < |terms| && IsHit(text, terms[j], hit)
  }

  predicate IsHit(text: string, term: string, hit: Interval) {
    OccursAt(text, term, hit.a) && hit.b == hit.a + |term|
  }

  method FindAllHits(text: string, terms: seq<string>) returns (hits: seq<Interval>)
    requires forall j :: 0 <= j < |terms| ==> terms[j] != ""
    ensures AllHits(text, terms, hits) && Inside(hits, |text|)
  {
    hits := [];
    for j := 0 to |terms|
      invariant AllHits(text, terms[..j], hits) && Inside(hits, |text|)
    {
      var more := FindHits(text, terms[j]);
      assert terms[..j + 1] == terms[..j] + [terms[j]];
      MoreHits(text, terms[..j], hits, terms[j], more);
      hits := hits + more;
    }
    assert terms[..|terms|] == terms;
  }

  lemma MoreHits(text: string, terms: seq<string>, hits: seq<Interval>, term: string, more: seq<Interval>)
    requires AllHits(text, terms, hits) && HitsOf(text, term, more) && term != ""
    ensures AllHits(text, terms + [term], hits + more)
    ensures Inside(more, |text|)
  {
    var ts, hs := terms + [term], hits + more;
    forall k | 0 <= k < |hs| ensures HitsOne(text, ts, hs[k]) {
      if k < |hits| {
        assert HitsOne(text, terms, hits[k]);
        var j :| 0 <= j < |terms| && IsHit(text, terms[j], hits[k]);
        assert IsHit(text, ts[j], hs[k]);
      } else {
        assert IsHit(text, ts[|terms|], hs[k]);
      }
    }
    forall j, p | 0 <= j < |ts| && OccursAt(text, ts[j], p) ensures Covered(hs, p) {
      CoveredBoth(hits, more, p);
    }
  }

  /** `out` is the text with tags: deleting the tags restores the text, they are balanced and
      not nested, and a character stands between tags exactly if a hit covers it. */
  ghost predicate Shows(text: string, hits: seq<Interval>, out: string, p: seq<Piece>) {
    && out == Render(p) && Strip(p) == text && Balanced(p, false)
    && |Bold(p, false)| == |text| && forall i :: 0 <= i < |text| ==> (Bold(p, false)[i] <==> Covered(hits, i))
  }

  ghost predicate Highlighted(text: string, terms: seq<string>, out: string) {
    exists hits, p :: AllHits(LowerAll(text), terms, hits) && Shows(text, hits, out, p)
  }

  /** Terms are found in any mix of cases. */
  lemma FoundSpelt(text: string, term: string, p: nat)
    requires LowerCase(term)
    ensures OccursAt(LowerAll(text), term, p) <==> p + |term| <= |text| && Spells(text[p..p + |term|], term)
  {
    if p + |term| <= |text| {
      var part := text[p..p + |term|];
      LowerSpells(part, term);
      assert LowerAll(text)[p..p + |term|] == LowerAll(part);
    }
  }

  /** highlight */
  method HighlightTerms(snippet: string, terms: seq<string>) returns (out: string)
    requires forall j :: 0 <= j < |terms| ==> terms[j] != ""
    ensures Highlighted(snippet, terms, out)
    ensures '<' !in snippet ==> Untagged(out) == snippet
  {
    var hits := FindAllHits(LowerAll(snippet), terms);
    if hits == [] {
      LayoutFacts(snippet, [], 0);
      ghost var p := Layout(snippet, [], 0);
      NoTags(snippet, []);
      assert snippet[0..] == snippet;
      assert Shows(snippet, hits, snippet, p);
      if '<' !in snippet { UntaggedRender(p); }
      return snippet;
    }
    var sorted := Sort(hits, |snippet|);
    var merged := Merge(sorted, |snippet|);
    out := Insert(snippet, merged);
    LayoutFacts(snippet, merged, 0);
    assert snippet[0..] == snippet;
    assert Shows(snippet, hits, out, Layout(snippet, merged, 0));
    if '<' !in snippet { UntaggedRender(Layout(snippet, merged, 0)); }
  }

  // ----- escaping comes first -----

  function Escape(c: char): string {
    if c == '&' then "&amp;" else if c == '<' then "&lt;" else if c == '>' then "&gt;"
    else if c == '"' then "&quot;" else if c == '\'' then "&#39;" else [c]
  }

  function Escaped(s: string): string {
    if s == "" then "" else Escaped(s[..|s| - 1]) + Escape(s[|s| - 1])
  }

  /** escapeHTML */
  method EscapeHTML(s: string) returns (out: string)
    ensures out == Escaped(s) && '<' !in out && '>' !in out && Unescaped(out) == s
  {
    hide Unescaped, Escape;
    out := "";
    for i := 0 to |s|
      invariant out == Escaped(s[..i]) && '<' !in out && '>' !in out
    {
      assert s[..i + 1][..i] == s[..i];
      EscapeClean(s[i]);
      out := out + Escape(s[i]);
    }
    assert s[..|s|] == s;
    UnescapeAll(s);
  }

  lemma EscapeClean(c: char)
    ensures '<' !in Escape(c) && '>' !in Escape(c)
  {}

  lemma UnescapeAll(s: string)
    ensures Unescaped(Escaped(s)) == s
  {
    UnescapeEscaped(s, "");
    hide Escaped;
    assert Escaped(s) + "" == Escaped(s) && s + "" == s;
  }

  /** What a browser shows for the escaped text. */
  function Unescaped(s: string): string {
    if s == "" then ""
    else if "&amp;" <= s then "&" + Unescaped(s[5..])
    else if "&lt;" <= s then "<" + Unescaped(s[4..])
    else if "&gt;" <= s then ">" + Unescaped(s[4..])
    else if "&quot;" <= s then "\"" + Unescaped(s[6..])
    else if "&#39;" <= s then "'" + Unescaped(s[5..])
    else [s[0]] + Unescaped(s[1..])
  }

  lemma UnescapeOne(c: char, rest: string)
    ensures Unescaped(Escape(c) + rest) == [c] + Unescaped(rest)
  {
    var e := Escape(c);
    var s := e + rest;
    assert s[|e|..] == rest && s[..|e|] == e && s[0] == e[0];
    if |e| > 1 { assert s[1] == e[1] && (c == '<' || c == '>' ==> s[2] == 't'); }
  }

  lemma {:induction false} UnescapeEscaped(s: string, rest: string)
    ensures Unescaped(Escaped(s) + rest) == s + Unescaped(rest)
    decreases |s|
  {
    if s == "" {
      assert "" + rest == rest;
    } else {
      var t, c := s[..|s| - 1], s[|s| - 1];
      assert Escaped(s) == Escaped(t) + Escape(c);
      UnescapeEscaped(t, Escape(c) + rest);
      UnescapeOne(c, rest);
      hide *;
      Assoc(Escaped(t), Escape(c), rest);
      Assoc(t, [c], Unescaped(rest));
      assert s == t + [c];
    }
  }

  lemma Assoc(a: string, b: string, c: string)
    ensures a + b + c == a + (b + c)
  {}

  /** The end of generateSnippet: escape, then highlight. Any text survives: without its tags
      and unescaped, what is shown is the text. */
  method Present(text: string, terms: seq<string>) returns (out: string)
    requires forall j :: 0 <= j < |terms| ==> terms[j] != ""
    ensures Highlighted(Escaped(text), terms, out) && Unescaped(Untagged(out)) == text
  {
    var snippet := EscapeHTML(text);
    out := HighlightTerms(snippet, terms);
  }
}
