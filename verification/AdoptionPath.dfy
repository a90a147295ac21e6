/** How the stack of open elements lies in the tree (gumbo-parser/src/parser.c), before and
    after a pass of the adoption agency algorithm. */
module AdoptionPath {
  import opened Sequences
  import opened Dom
  import opened AdoptionSurgery
  import opened AdoptionWalk
  import opened AdoptionOrder
  import opened AdoptionPass

  datatype ParserState = ParserState(d: Arena, open: seq<int>, list: seq<int>)

  /** The stack and the list name nodes, and no node twice; -1 in the list is a marker. */
  ghost predicate Lists(n: nat, open: seq<int>, list: seq<int>) {
    && (forall i :: 0 <= i < |open| ==> 0 <= open[i] < n) && NoRepeat(open)
    && (forall i :: 0 <= i < |list| ==> -1 <= list[i] < n) && DistinctEntries(list)
  }

  predicate TagIn(c: Label, tags: set<(int, int)>) {
    c.Element? && (c.ns, c.tag) in tags
  }

  /** An open element; formatting elements and special elements are on the path. */
  ghost predicate Strand(d: Arena, x: int, list: seq<int>, path: seq<int>, special: set<(int, int)>) {
    Attached(d, x) && (x in list || TagIn(d[x].content, special) ==> x in path)
  }

  /** From stack position `from` a path leads to the current node, always to the last child,
      and open elements that are on it are in its order. The path may hold elements that are
      not open (a form closed inside), and open elements may be off it (see AdoptionDrift). */
  ghost predicate Threaded(s: ParserState, path: seq<int>, from: int, special: set<(int, int)>) {
    && 0 <= from < |s.open| && |path| > 0 && Chain(s.d, path)
    && path[0] == s.open[from] && path[|path| - 1] == s.open[|s.open| - 1]
    && Agrees(s.open[from..], path, -1)
    && forall p :: from < p < |s.open| ==> Strand(s.d, s.open[p], s.list, path, special)
  }

  ghost predicate NoneSpecial(d: Arena, list: seq<int>, special: set<(int, int)>) {
    forall i :: 0 <= i < |list| && list[i] != -1 ==> 0 <= list[i] < |d| && !TagIn(d[list[i]].content, special)
  }

  /** What the tree constructor keeps: a tree, a stack that lies in it along a path, and a list
      of formatting elements in stack order. */
  ghost predicate Orderly(s: ParserState, rank: seq<int>, path: seq<int>, from: int, special: set<(int, int)>) {
    && Linked(s.d) && Ranked(s.d, rank) && Lists(|s.d|, s.open, s.list)
    && Threaded(s, path, from, special) && Agrees(s.open, s.list, from) && NoneSpecial(s.d, s.list, special)
  }

  /** The list may lose entries, and gain the current node. */
  lemma Relisted(s: ParserState, path: seq<int>, from: int, special: set<(int, int)>, list: seq<int>)
    requires Threaded(s, path, from, special) && NoneSpecial(s.d, s.list, special)
    requires forall y :: y in list && y != -1 ==>
              y in s.list || (y == s.open[|s.open| - 1] && !TagIn(s.d[y].content, special))
    ensures Threaded(s.(list := list), path, from, special) && NoneSpecial(s.d, list, special)
  {
    var x := s.open[|s.open| - 1];
    assert path[|path| - 1] == x && 0 <= x < |s.d|;
    forall p | from < p < |s.open| ensures Strand(s.d, s.open[p], list, path, special) {
      assert Strand(s.d, s.open[p], s.list, path, special) && s.open[p] != -1;
    }
    hide Chain, TagIn, Agrees, Strand;
    forall i | 0 <= i < |list| && list[i] != -1 ensures 0 <= list[i] < |s.d| && !TagIn(s.d[list[i]].content, special) {
      assert list[i] in list;
      if list[i] in s.list {
        var j := IndexOf(s.list, list[i]);
        assert s.list[j] == list[i];
      }
    }
  }

  // ----- agreement of sequences -----

  lemma AgreesAt(a: seq<int>, u: seq<int>, p: nat, q: nat)
    requires Agrees(a, u, -1) && p < q < |a| && a[p] in u && a[q] in u
    ensures IndexOf(u, a[p]) < IndexOf(u, a[q])
  {}

  lemma IndexInPart(u: seq<int>, g: nat, h: nat, y: int)
    requires NoRepeat(u) && g <= h <= |u| && y in u[g..h]
    ensures y in u && IndexOf(u[g..h], y) == IndexOf(u, y) - g && g <= IndexOf(u, y) < h
  {
    var i := IndexOf(u[g..h], y);
    assert u[g + i] == y;
  }

  lemma AgreesPart(a: seq<int>, u: seq<int>, i: nat, j: nat, g: nat, h: nat)
    requires Agrees(a, u, -1) && NoRepeat(u) && i <= j <= |a| && g <= h <= |u|
    ensures Agrees(a[i..j], u[g..h], -1)
  {
    var b, v := a[i..j], u[g..h];
    forall p, q | -1 < p < q < |b| && 0 <= p && b[p] in v && b[q] in v ensures IndexOf(v, b[p]) < IndexOf(v, b[q]) {
      IndexInPart(u, g, h, b[p]);
      IndexInPart(u, g, h, b[q]);
      AgreesAt(a, u, i + p, i + q);
    }
  }

  lemma IndexJoined(u: seq<int>, v: seq<int>, y: int)
    ensures y in u ==> IndexOf(u + v, y) == IndexOf(u, y) < |u|
    ensures y !in u && y in v ==> IndexOf(u + v, y) == |u| + IndexOf(v, y)
  {
    if y in u {
      var i := IndexOf(u, y);
      assert (u + v)[i] == y && forall j :: 0 <= j < i ==> (u + v)[j] == u[j];
    } else if y in v {
      var i := IndexOf(v, y);
      assert (u + v)[|u| + i] == y;
      assert forall j :: 0 <= j < |u| + i ==> (u + v)[j] == if j < |u| then u[j] else v[j - |u|];
    }
  }

  ghost predicate Apart(a: seq<int>, v: seq<int>) {
    forall i :: 0 <= i < |a| ==> a[i] !in v
  }

  lemma AgreesJoin(a: seq<int>, b: seq<int>, u: seq<int>, v: seq<int>)
    requires Agrees(a, u, -1) && Agrees(b, v, -1) && Apart(a, v) && Apart(b, u)
    ensures Agrees(a + b, u + v, -1)
  {
    var c, w := a + b, u + v;
    forall p, q | -1 < p < q < |c| && 0 <= p && c[p] in w && c[q] in w ensures IndexOf(w, c[p]) < IndexOf(w, c[q]) {
      IndexJoined(u, v, c[p]);
      IndexJoined(u, v, c[q]);
      if q < |a| { AgreesAt(a, u, p, q); } else if p >= |a| { AgreesAt(b, v, p - |a|, q - |a|); }
    }
  }

  // ----- chains -----

  lemma ChainDistinct(d: Arena, rank: seq<int>, path: seq<int>)
    requires Linked(d) && Ranked(d, rank) && Chain(d, path)
    ensures NoRepeat(path)
  {
    forall i, j | 0 <= i < j < |path| ensures path[i] != path[j] { ChainRanks(d, rank, path, i, j); }
  }

  lemma ChainJoin(e: Arena, a: seq<int>, b: seq<int>)
    requires Chain(e, a) && Chain(e, b) && |a| > 0 && |b| > 0 && LastChild(e, a[|a| - 1], b[0])
    ensures Chain(e, a + b)
  {
    var c := a + b;
    forall i | 0 <= i < |c| - 1 ensures Step(e, c, i) {
      if i < |a| - 1 { assert Step(e, a, i); } else if i >= |a| { assert Step(e, b, i - |a|); }
    }
  }

  ghost predicate Clear(s: Site, clones: seq<Label>) {
    s.fb != s.ca && s.fb != s.q && s.ca != s.q && forall i :: 0 <= i < |clones| ==> !clones[i].Text?
  }

  /** The path down to the common ancestor is untouched. */
  lemma FrontChain(d: Arena, s: Site, clones: seq<Label>, f: Label, e: Arena, front: seq<int>)
    requires 0 <= s.ca < |d| && 0 <= s.q < |d| && 0 <= s.fb < |d| && |d[s.q].children| > 0 && Clear(s, clones)
    requires e == Surgery(d, s, clones, f) && Chain(d, front) && |front| > 0 && front[|front| - 1] == s.ca
    requires forall i :: 0 <= i < |front| - 1 ==> front[i] !in [s.ca, s.q, s.fb]
    ensures Chain(e, front)
    ensures LastChild(e, s.ca, if |clones| > 0 then |d| + |clones| - 1 else s.fb)
  {
    assert e[s.ca] == SurgeryNode(d, s, clones, f, s.ca);
    forall i | 0 <= i < |front| ensures 0 <= front[i] < |e| && !e[front[i]].content.Text? {
      assert e[front[i]] == SurgeryNode(d, s, clones, f, front[i]);
    }
    forall i | 0 <= i < |front| - 1 ensures Step(e, front, i) {
      assert Step(d, front, i);
      assert e[front[i]] == SurgeryNode(d, s, clones, f, front[i]);
    }
  }

  /** The clones hang below each other, down to the furthest block. */
  lemma CloneChain(d: Arena, s: Site, clones: seq<Label>, f: Label, e: Arena, mid: seq<int>)
    requires 0 <= s.ca < |d| && 0 <= s.q < |d| && 0 <= s.fb < |d| && |d[s.q].children| > 0 && Clear(s, clones)
    requires e == Surgery(d, s, clones, f) && mid == Numbers(|d|, |clones|)
    ensures Chain(e, mid)
    ensures |mid| > 0 ==> LastChild(e, mid[|mid| - 1], s.fb)
  {
    forall i | 0 <= i < |mid| ensures !e[mid[i]].content.Text? {
      assert e[mid[i]] == SurgeryNode(d, s, clones, f, mid[i]);
    }
    forall i | 0 <= i < |mid| - 1 ensures Step(e, mid, i) {
      assert e[mid[i]] == SurgeryNode(d, s, clones, f, mid[i]);
    }
    if |mid| > 0 { assert e[mid[|mid| - 1]] == SurgeryNode(d, s, clones, f, mid[|mid| - 1]); }
  }

  /** The tree below the furthest block after a pass. */
  lemma BelowBlock(d: Arena, s: Site, clones: seq<Label>, f: Label, t: int)
    requires 0 <= s.ca < |d| && 0 <= s.q < |d| && 0 <= s.fb < |d| && |d[s.q].children| > 0 && s.fb != s.ca
    requires s.fb != s.q
    ensures var e, x := Surgery(d, s, clones, f), |d| + |clones|;
            && e[s.fb].children == [x] && e[s.fb].content == d[s.fb].content
            && e[x].children == d[s.fb].children && e[x].content == f
            && (0 <= t < |d| && t != s.ca && t != s.q && t != s.fb ==>
                  e[t].children == d[t].children && e[t].content == d[t].content)
  {
    var e, x := Surgery(d, s, clones, f), |d| + |clones|;
    assert e[s.fb] == SurgeryNode(d, s, clones, f, s.fb);
    assert e[x] == SurgeryNode(d, s, clones, f, x);
    if 0 <= t < |d| { assert e[t] == SurgeryNode(d, s, clones, f, t); }
  }

  lemma ChainAfter(d: Arena, e: Arena, s: Site, clones: seq<Label>, f: Label, back: seq<int>)
    requires 0 <= s.ca < |d| && 0 <= s.q < |d| && 0 <= s.fb < |d| && |d[s.q].children| > 0 && s.fb != s.ca
    requires s.fb != s.q
    requires s.ca !in back && s.q !in back && s.fb !in back && Chain(d, [s.fb] + back) && !f.Text?
    requires e == Surgery(d, s, clones, f)
    ensures Chain(e, [s.fb, |d| + |clones|] + back)
  {
    var x, was := |d| + |clones|, [s.fb] + back;
    var c := [s.fb, x] + back;
    forall i | 0 <= i < |c| ensures 0 <= c[i] < |e| && !e[c[i]].content.Text? {
      BelowBlock(d, s, clones, f, c[i]);
      if i >= 2 { assert c[i] == was[i - 1] == back[i - 2]; } else if i == 0 { assert c[0] == was[0]; }
    }
    forall i | 0 <= i < |c| - 1 ensures Step(e, c, i) {
      BelowBlock(d, s, clones, f, c[i]);
      if i > 0 {
        assert Step(d, was, i - 1);
        if i > 1 { assert c[i] == was[i - 1] == back[i - 2]; }
        assert c[i + 1] == was[i] == back[i - 1];
      }
    }
  }

  lemma Joined(e: Arena, a: seq<int>, m: seq<int>, b: seq<int>, fb: int)
    requires Chain(e, a) && Chain(e, m) && Chain(e, b) && |a| > 0 && |b| > 0 && b[0] == fb
    requires LastChild(e, a[|a| - 1], if |m| > 0 then m[0] else fb)
    requires |m| > 0 ==> LastChild(e, m[|m| - 1], fb)
    ensures Chain(e, a + m + b)
  {
    if |m| == 0 {
      assert a + m + b == a + b;
      ChainJoin(e, a, b);
    } else {
      ChainJoin(e, a, m);
      ChainJoin(e, a + m, b);
    }
  }

  // ----- the path after a pass -----

  /** The clones, the last one first. */
  function Numbers(n: nat, m: nat): (r: seq<int>)
    ensures |r| == m
  {
    seq(m, i requires 0 <= i < m => n + m - 1 - i)
  }

  /** The common ancestor is at `a` of the path and the furthest block at `b`; `m` clones come
      between them, and the clone of the formatting element behind. */
  function NewPath(n: nat, m: nat, path: seq<int>, a: int, b: int): seq<int>
    requires 0 <= a < b < |path|
  {
    path[..a + 1] + Numbers(n, m) + ([path[b], n + m] + path[b + 1..])
  }

  lemma SiteOnPath(d: Arena, rank: seq<int>, path: seq<int>, a: int, b: int)
    requires Linked(d) && Ranked(d, rank) && Chain(d, path) && 0 <= a && a + 2 <= b < |path|
    ensures GoodSite(d, rank, Site(path[a], path[b - 1], path[b])) && d[path[b]].parent == path[b - 1]
    ensures Chain(d, path[a..b + 1]) && SiteOf(path[a..b + 1]) == Site(path[a], path[b - 1], path[b])
  {
    SubChain(d, path, a, b + 1);
    ChainSite(d, rank, path[a..b + 1]);
    ChainRanks(d, rank, path, a, b);
  }

  lemma NewPathChain(d: Arena, rank: seq<int>, path: seq<int>, a: int, b: int, clones: seq<Label>, f: Label, e: Arena)
    requires Linked(d) && Ranked(d, rank) && Chain(d, path) && 0 <= a && a + 2 <= b < |path|
    requires !f.Text? && forall i :: 0 <= i < |clones| ==> !clones[i].Text?
    requires GoodSite(d, rank, Site(path[a], path[b - 1], path[b]))
    requires e == Surgery(d, Site(path[a], path[b - 1], path[b]), clones, f)
    ensures Chain(e, NewPath(|d|, |clones|, path, a, b))
  {
    hide *;
    var s, back := Site(path[a], path[b - 1], path[b]), path[b + 1..];
    SiteBounds(d, rank, s);
    ChainDistinct(d, rank, path);
    SubChain(d, path, 0, a + 1);
    SubChain(d, path, b, |path|);
    PathParts(path, a, b);
    IsClear(s, clones);
    assert path[0..a + 1] == path[..a + 1];
    FrontChain(d, s, clones, f, e, path[..a + 1]);
    CloneChain(d, s, clones, f, e, Numbers(|d|, |clones|));
    ChainAfter(d, e, s, clones, f, back);
    CloneOrder(|d|, |clones|);
    Joined(e, path[..a + 1], Numbers(|d|, |clones|), [s.fb, |d| + |clones|] + back, s.fb);
    NewPathOf(|d|, |clones|, path, a, b);
  }

  lemma IsClear(s: Site, clones: seq<Label>)
    requires s.fb != s.ca && s.fb != s.q && s.ca != s.q && forall i :: 0 <= i < |clones| ==> !clones[i].Text?
    ensures Clear(s, clones)
  {}

  lemma NewPathOf(n: nat, m: nat, path: seq<int>, a: int, b: int)
    requires 0 <= a < b < |path|
    ensures NewPath(n, m, path, a, b) == path[..a + 1] + Numbers(n, m) + ([path[b], n + m] + path[b + 1..])
  {}

  lemma SiteBounds(d: Arena, rank: seq<int>, s: Site)
    requires GoodSite(d, rank, s)
    ensures 0 <= s.ca < |d| && 0 <= s.q < |d| && 0 <= s.fb < |d| && |d[s.q].children| > 0
  {
    hide Linked, Ranked;
  }

  lemma CloneOrder(n: nat, m: nat)
    ensures m > 0 ==> Numbers(n, m)[0] == n + m - 1
  {}

  lemma PathParts(path: seq<int>, a: int, b: int)
    requires NoRepeat(path) && 0 <= a && a + 2 <= b < |path|
    ensures path[a] != path[b] && path[b - 1] != path[b] && path[a] != path[b - 1]
    ensures var front := path[..a + 1]; forall i :: 0 <= i < a ==> front[i] !in [path[a], path[b - 1], path[b]]
    ensures path[a] !in path[b + 1..] && path[b - 1] !in path[b + 1..] && path[b] !in path[b + 1..]
    ensures path[b..|path|] == [path[b]] + path[b + 1..]
  {}

  /** Where open elements are on the path, seen from the stretch the pass works on. */
  ghost predicate Sited(w: Walk, path: seq<int>, from: int, a: int, b: int) {
    && w.Valid() && 0 <= from < w.fi && 0 <= a && a + 2 <= b < |path| && NoRepeat(path)
    && path[a] == w.open[w.fi - 1] && path[b] == w.open[w.k]
    && Agrees(w.open[from..], path, -1)
    && (forall i :: 0 <= i < |path| ==> 0 <= path[i] < w.n)
    && (forall t :: w.fi <= t < w.k && w.open[t] in w.list ==> w.open[t] in path)
  }

  lemma SitedAt(w: Walk, path: seq<int>, from: int, a: int, b: int, t: int)
    requires Sited(w, path, from, a, b) && from <= t < |w.open| && w.open[t] in path
    ensures t < w.fi ==> IndexOf(path, w.open[t]) <= a
    ensures w.fi <= t < w.k ==> a < IndexOf(path, w.open[t]) < b
    ensures t > w.k ==> b < IndexOf(path, w.open[t])
  {
    var v := w.open[from..];
    IndexOfDistinct(path, a);
    IndexOfDistinct(path, b);
    if t < w.fi - 1 { AgreesAt(v, path, t - from, w.fi - 1 - from); }
    if w.fi <= t { AgreesAt(v, path, w.fi - 1 - from, t - from); }
    if t < w.k { AgreesAt(v, path, t - from, w.k - from); }
    if w.k < t { AgreesAt(v, path, w.k - from, t - from); }
  }

  lemma InFront(path: seq<int>, a: int, y: int)
    requires 0 <= a < |path|
    ensures y in path[..a + 1] <==> y in path && IndexOf(path, y) <= a
  {
    if y in path[..a + 1] {
      var i := IndexOf(path[..a + 1], y);
      assert path[i] == y;
    }
    if y in path && IndexOf(path, y) <= a { assert path[..a + 1][IndexOf(path, y)] == y; }
  }

  lemma InBack(path: seq<int>, b: int, y: int)
    requires 0 <= b < |path| && NoRepeat(path)
    ensures y in path[b + 1..] <==> y in path && IndexOf(path, y) > b
  {
    if y in path[b + 1..] {
      var i := IndexOf(path[b + 1..], y);
      assert path[b + 1 + i] == y;
      IndexOfDistinct(path, b + 1 + i);
    }
    if y in path && IndexOf(path, y) > b { assert path[b + 1..][IndexOf(path, y) - b - 1] == y; }
  }

  /** What the new path keeps of the old elements: all but those between common ancestor and
      furthest block. */
  lemma StillOnPath(w: Walk, path: seq<int>, from: int, a: int, b: int, m: nat, y: int)
    requires Sited(w, path, from, a, b) && y < w.n
    ensures var i := IndexOf(path, y);
            y in NewPath(w.n, m, path, a, b) <==> y in path && !(a < i < b)
  {
    IndexOfDistinct(path, b);
    InFront(path, a, y);
    InBack(path, b, y);
    assert y !in Numbers(w.n, m);
    hide Sited, Numbers, IndexOf;
    Member(path[..a + 1], Numbers(w.n, m), [path[b], w.n + m] + path[b + 1..], y);
    Member([path[b]], [w.n + m], path[b + 1..], y);
    assert [path[b]] + [w.n + m] + path[b + 1..] == [path[b], w.n + m] + path[b + 1..];
  }

  lemma Member(u: seq<int>, v: seq<int>, w: seq<int>, y: int)
    ensures y in u + v + w <==> y in u || y in v || y in w
  {}

  lemma NewOnPath(n: nat, m: nat, path: seq<int>, a: int, b: int, y: int)
    requires 0 <= a < b < |path| && n <= y <= n + m
    ensures y in NewPath(n, m, path, a, b)
  {
    if y < n + m { assert Numbers(n, m)[n + m - 1 - y] == y; }
    hide Numbers;
    Member(path[..a + 1], Numbers(n, m), [path[b], n + m] + path[b + 1..], y);
  }

  lemma NumberJoins(n: nat, m: nat, mid: seq<int>)
    requires Agrees(mid, Numbers(n, m), -1) && n + m !in mid
    ensures Agrees([n + m] + mid, Numbers(n, m + 1), -1)
  {
    assert Numbers(n, m + 1) == [n + m] + Numbers(n, m);
    AgreesJoin([n + m], mid, [n + m], Numbers(n, m));
  }

  lemma OldJoins(n: nat, m: nat, e: int, mid: seq<int>)
    requires Agrees(mid, Numbers(n, m), -1) && e < n
    ensures Agrees([e] + mid, Numbers(n, m), -1)
  {
    assert Numbers(n, m) == [] + Numbers(n, m);
    AgreesJoin([e], mid, [], Numbers(n, m));
  }

  /** The clones on the stack are in the order of the path. */
  lemma {:induction false} MidOnPath(w: Walk, s: nat)
    requires w.Valid() && w.fi < s <= w.k
    ensures Agrees(w.Mid(s), Numbers(w.n, |w.Cloned(s)|), -1)
    decreases w.k - s
  {
    if s < w.k {
      MidOnPath(w, s + 1);
      MidEntries(w, s + 1);
      var m, mid := |w.Cloned(s + 1)|, w.Mid(s + 1);
      assert w.open[s] < w.n && w.n + m !in mid;
      hide Walk.Valid, Agrees, NoRepeat;
      if w.Clones(s) { NumberJoins(w.n, m, mid); } else if w.Keeps(s) { OldJoins(w.n, m, w.open[s], mid); }
    }
  }

  // ----- the stack along the new path -----

  lemma FinalParts(w: Walk, from: int)
    requires w.Valid() && 0 <= from < w.fi
    ensures var x := NewFormatting(w);
            FinalOpen(w, x)[from..] == w.open[from..w.fi] + w.Mid(w.fi + 1) + ([w.open[w.k], x] + w.open[w.k + 1..])
  {}

  lemma BelowApart(w: Walk, path: seq<int>, from: int, a: int, b: int)
    requires Sited(w, path, from, a, b)
    ensures Apart(w.open[from..w.fi], Numbers(w.n, |w.Cloned(w.fi + 1)|))
    ensures Apart(w.open[from..w.fi], [path[b], NewFormatting(w)] + path[b + 1..])
  {
    var v := w.open[from..w.fi];
    forall i | 0 <= i < |v|
      ensures v[i] !in Numbers(w.n, |w.Cloned(w.fi + 1)|) && v[i] !in [path[b], NewFormatting(w)] + path[b + 1..]
    {
      assert v[i] == w.open[from + i] < w.n && v[i] != w.open[w.k];
      if v[i] in path { SitedAt(w, path, from, a, b, from + i); }
      InBack(path, b, v[i]);
    }
  }

  lemma BetweenApart(w: Walk, path: seq<int>, from: int, a: int, b: int)
    requires Sited(w, path, from, a, b)
    ensures Apart(w.Mid(w.fi + 1), path[..a + 1])
    ensures Apart(w.Mid(w.fi + 1), [path[b], NewFormatting(w)] + path[b + 1..])
  {
    var m := w.Mid(w.fi + 1);
    forall i | 0 <= i < |m| ensures m[i] !in path[..a + 1] && m[i] !in [path[b], NewFormatting(w)] + path[b + 1..] {
      MidOffPath(w, path, from, a, b, m[i]);
      InFront(path, a, m[i]);
      InBack(path, b, m[i]);
    }
  }

  lemma MidOffPath(w: Walk, path: seq<int>, from: int, a: int, b: int, y: int)
    requires Sited(w, path, from, a, b) && y in w.Mid(w.fi + 1)
    ensures y != NewFormatting(w) && y != path[b] && (y in path ==> a < IndexOf(path, y) < b)
  {
    MidEntries(w, w.fi + 1);
    hide Walk.Mid;
    if y < w.n {
      var v := w.open[w.fi + 1..w.k];
      var i :| 0 <= i < |v| && v[i] == y;
      assert w.open[w.fi + 1 + i] == y;
      if y in path { SitedAt(w, path, from, a, b, w.fi + 1 + i); }
    }
  }

  lemma AboveApart(w: Walk, path: seq<int>, from: int, a: int, b: int)
    requires Sited(w, path, from, a, b)
    ensures Apart(w.open[w.k + 1..], path[..a + 1]) && Apart(w.open[w.k + 1..], Numbers(w.n, |w.Cloned(w.fi + 1)|))
    ensures Apart(w.open[w.k + 1..], [path[b], NewFormatting(w)])
  {
    var v := w.open[w.k + 1..];
    forall i | 0 <= i < |v|
      ensures v[i] !in path[..a + 1] && v[i] !in Numbers(w.n, |w.Cloned(w.fi + 1)|)
      ensures v[i] !in [path[b], NewFormatting(w)]
    {
      assert v[i] == w.open[w.k + 1 + i] < w.n && v[i] != w.open[w.k];
      if v[i] in path { SitedAt(w, path, from, a, b, w.k + 1 + i); }
      InFront(path, a, v[i]);
    }
  }

  lemma BlockApart(w: Walk, path: seq<int>, from: int, a: int, b: int)
    requires Sited(w, path, from, a, b)
    ensures Apart([path[b], NewFormatting(w)], path[..a + 1])
    ensures Apart([path[b], NewFormatting(w)], Numbers(w.n, |w.Cloned(w.fi + 1)|))
    ensures Apart([path[b], NewFormatting(w)], path[b + 1..])
  {
    InBack(path, b, path[b]);
    InFront(path, a, path[b]);
    InBack(path, b, NewFormatting(w));
    InFront(path, a, NewFormatting(w));
    IndexOfDistinct(path, b);
  }

  lemma ApartMore(a: seq<int>, b: seq<int>, u: seq<int>, v: seq<int>)
    ensures Apart(a, u) && Apart(b, u) ==> Apart(a + b, u)
    ensures Apart(a, u) && Apart(a, v) ==> Apart(a, u + v)
  {}

  lemma PairAgrees(x: int, y: int)
    requires x != y
    ensures Agrees([x, y], [x, y], -1)
  {
    IndexOfDistinct([x, y], 0);
    IndexOfDistinct([x, y], 1);
  }

  lemma OldAgrees(open: seq<int>, path: seq<int>, from: int, fi: int, k: int, a: int, b: int)
    requires 0 <= from < fi < k < |open| && 0 <= a < b < |path| && Agrees(open[from..], path, -1) && NoRepeat(path)
    ensures Agrees(open[from..fi], path[..a + 1], -1) && Agrees(open[k + 1..], path[b + 1..], -1)
  {
    hide Agrees, NoRepeat;
    var v := open[from..];
    AgreesPart(v, path, k + 1 - from, |v|, b + 1, |path|);
    AgreesPart(v, path, 0, fi - from, 0, a + 1);
    assert v[k + 1 - from..|v|] == open[k + 1..] && path[b + 1..|path|] == path[b + 1..];
    assert v[0..fi - from] == open[from..fi] && path[0..a + 1] == path[..a + 1];
  }

  lemma AboveAgrees(w: Walk, path: seq<int>, from: int, a: int, b: int)
    requires Sited(w, path, from, a, b)
    ensures Agrees([path[b], NewFormatting(w)] + w.open[w.k + 1..], [path[b], NewFormatting(w)] + path[b + 1..], -1)
    ensures Agrees(w.open[from..w.fi], path[..a + 1], -1)
  {
    OldAgrees(w.open, path, from, w.fi, w.k, a, b);
    AboveApart(w, path, from, a, b);
    BlockApart(w, path, from, a, b);
    assert path[b] < NewFormatting(w);
    hide *;
    PairAgrees(path[b], NewFormatting(w));
    AgreesJoin([path[b], NewFormatting(w)], w.open[w.k + 1..], [path[b], NewFormatting(w)], path[b + 1..]);
  }

  /** Open elements that are on the new path are in its order. */
  lemma NewPathAgrees(w: Walk, path: seq<int>, from: int, a: int, b: int)
    requires Sited(w, path, from, a, b)
    ensures Agrees(FinalOpen(w, NewFormatting(w))[from..], NewPath(w.n, |w.Cloned(w.fi + 1)|, path, a, b), -1)
  {
    FinalParts(w, from);
    BelowApart(w, path, from, a, b);
    BetweenApart(w, path, from, a, b);
    AboveApart(w, path, from, a, b);
    BlockApart(w, path, from, a, b);
    AboveAgrees(w, path, from, a, b);
    MidOnPath(w, w.fi + 1);
    JoinedAgrees(w.open[from..w.fi], w.Mid(w.fi + 1), [path[b], NewFormatting(w)], w.open[w.k + 1..],
                 path[..a + 1], Numbers(w.n, |w.Cloned(w.fi + 1)|), path[b + 1..]);
    hide *;
    assert NewPath(w.n, |w.Cloned(w.fi + 1)|, path, a, b)
        == path[..a + 1] + Numbers(w.n, |w.Cloned(w.fi + 1)|) + ([path[b], NewFormatting(w)] + path[b + 1..]) by {
      NewPathIs(w, path, a, b);
    }
  }

  lemma NewPathIs(w: Walk, path: seq<int>, a: int, b: int)
    requires w.fi < w.k < |w.open| && 0 <= a < b < |path|
    ensures NewPath(w.n, |w.Cloned(w.fi + 1)|, path, a, b)
         == path[..a + 1] + Numbers(w.n, |w.Cloned(w.fi + 1)|) + ([path[b], NewFormatting(w)] + path[b + 1..])
  {}

  lemma JoinedAgrees(v: seq<int>, m: seq<int>, e: seq<int>, t: seq<int>, pv: seq<int>, pm: seq<int>, pt: seq<int>)
    requires Agrees(v, pv, -1) && Agrees(m, pm, -1) && Agrees(e + t, e + pt, -1)
    requires Apart(v, pm) && Apart(v, e + pt) && Apart(m, pv) && Apart(m, e + pt)
    requires Apart(e, pv) && Apart(e, pm) && Apart(t, pv) && Apart(t, pm)
    ensures Agrees(v + m + (e + t), pv + pm + (e + pt), -1)
  {
    ApartMore(v, m, e + pt, []);
    ApartMore(e, t, pv, []);
    ApartMore(e, t, pm, []);
    ApartMore(e + t, [], pv, pm);
    hide Agrees, Apart;
    AgreesJoin(v, m, pv, pm);
    AgreesJoin(v + m, e + t, pv + pm, e + pt);
  }

  // ----- a pass keeps all of it -----

  /** The pass `st` starts in state `s`, at the stretch of the path from `a` to `b`. */
  ghost predicate OnPath(s: ParserState, rank: seq<int>, path: seq<int>, from: int, special: set<(int, int)>,
                         st: Start, a: int, b: int)
  {
    && Orderly(s, rank, path, from, special)
    && st.d == s.d && st.rank == rank && st.w.n == |s.d| && st.w.open == s.open && st.w.list == s.list
    && st.Valid() && Sited(st.w, path, from, a, b)
    && TagIn(s.d[s.open[st.w.k]].content, special)
    && (forall j :: st.w.fi <= j < st.w.k ==> !TagIn(s.d[s.open[j]].content, special))
  }

  ghost function StateAfter(st: Start): ParserState
    requires st.Valid()
  {
    ParserState(st.Result(), FinalOpen(st.w, NewFormatting(st.w)), FinalList(st.w))
  }

  ghost function PathAfter(st: Start, path: seq<int>, a: int, b: int): seq<int>
    requires st.w.fi < st.w.k < |st.w.open| && 0 <= a < b < |path|
  {
    NewPath(st.w.n, |st.w.Cloned(st.w.fi + 1)|, path, a, b)
  }

  /** The clones are clones of listed elements. */
  lemma {:induction false} CloneLabelsAt(st: Start, s: nat, special: set<(int, int)>)
    requires st.Valid() && st.w.fi < s <= st.w.k && NoneSpecial(st.d, st.w.list, special)
    ensures forall i :: 0 <= i < |st.CloneLabels(s)| ==>
              st.CloneLabels(s)[i].Element? && !TagIn(st.CloneLabels(s)[i], special)
    decreases st.w.k - s
  {
    hide GoodSite, TagIn, NoRepeat, DistinctEntries;
    if s < st.w.k {
      CloneLabelsAt(st, s + 1, special);
      if st.w.Clones(s) {
        LabelsGrow(st, s);
        assert Attached(st.d, st.w.open[s]);
        var i := IndexOf(st.w.list, st.w.open[s]);
        assert st.w.list[i] == st.w.open[s];
      } else {
        LabelsStay(st, s);
      }
    }
  }

  lemma SurgeryNodes(d: Arena, rank: seq<int>, s: Site, clones: seq<Label>, f: Label, special: set<(int, int)>)
    requires GoodSite(d, rank, s) && f.Element? && !TagIn(f, special)
    requires forall i :: 0 <= i < |clones| ==> clones[i].Element? && !TagIn(clones[i], special)
    ensures Grew(d, Surgery(d, s, clones, f), special)
    ensures Surgery(d, s, clones, f)[|d| + |clones|].content == f
  {
    var e := Surgery(d, s, clones, f);
    SurgeryParents(d, rank, s, clones, f);
    hide GoodSite, TagIn;
    forall x | |d| <= x < |e| ensures e[x].content.Element? && !TagIn(e[x].content, special) {
      assert e[x] == SurgeryNode(d, s, clones, f, x);
    }
    assert e[|d| + |clones|] == SurgeryNode(d, s, clones, f, |d| + |clones|);
  }

  /** Old nodes keep content and attachment, new ones are attached elements. */
  ghost predicate Grew(d: Arena, e: Arena, special: set<(int, int)>) {
    && |d| <= |e|
    && (forall x :: 0 <= x < |d| ==> e[x].content == d[x].content && (e[x].parent == -1 <==> d[x].parent == -1))
    && (forall x :: |d| <= x < |e| ==> e[x].parent != -1 && e[x].content.Element? && !TagIn(e[x].content, special))
  }

  lemma FormattingLabel(st: Start, special: set<(int, int)>)
    requires st.Valid() && NoneSpecial(st.d, st.w.list, special)
    ensures var f := st.d[st.w.open[st.w.fi]].content; f.Element? && !TagIn(f, special)
  {
    hide GoodSite, TagIn;
    assert Attached(st.d, st.w.open[st.w.fi]);
    var i := IndexOf(st.w.list, st.w.open[st.w.fi]);
    assert st.w.list[i] == st.w.open[st.w.fi];
  }

  lemma NoText(st: Start)
    requires st.Valid()
    ensures !st.d[st.w.open[st.w.fi]].content.Text?
    ensures var clones := st.CloneLabels(st.w.fi + 1); forall i :: 0 <= i < |clones| ==> !clones[i].Text?
  {
    CloneLabelsAt(st, st.w.fi + 1, {});
    FormattingLabel(st, {});
  }

  /** What the new tree holds. */
  lemma ResultNodes(st: Start, special: set<(int, int)>)
    requires st.Valid() && NoneSpecial(st.d, st.w.list, special)
    ensures |st.Result()| == NewFormatting(st.w) + 1 && |st.d| == st.w.n <= NewFormatting(st.w)
    ensures Grew(st.d, st.Result(), special)
    ensures st.Result()[NewFormatting(st.w)].content == st.d[st.w.open[st.w.fi]].content
  {
    hide *;
    ResultSite(st);
    CloneLabelsAt(st, st.w.fi + 1, special);
    FormattingLabel(st, special);
    ResultIs(st);
    SurgeryNodes(st.d, st.rank, st.Place(), st.CloneLabels(st.w.fi + 1), st.d[st.w.open[st.w.fi]].content, special);
  }

  lemma ResultSite(st: Start)
    requires st.Valid()
    ensures 1 <= st.w.fi < st.w.k < |st.w.open| && 0 <= st.w.open[st.w.fi] < |st.d| && 0 <= st.w.open[st.w.k] < |st.d|
    ensures GoodSite(st.d, st.rank, st.Place()) && NewFormatting(st.w) == |st.d| + |st.CloneLabels(st.w.fi + 1)|
  {
    hide GoodSite;
  }

  lemma NoneSpecialAfter(st: Start, special: set<(int, int)>)
    requires st.Valid() && NoneSpecial(st.d, st.w.list, special) && Agrees(st.w.open, st.w.list, st.w.fi - 1)
    ensures NoneSpecial(st.Result(), FinalList(st.w), special)
  {
    var w, u, e := st.w, FinalList(st.w), st.Result();
    ResultNodes(st, special);
    hide GoodSite, Start.Result, FinalList, TagIn, Walk.Form, Walk.Mark, Agrees;
    assert Grew(st.d, e, special);
    forall i | 0 <= i < |u| && u[i] != -1 ensures 0 <= u[i] < |e| && !TagIn(e[u[i]].content, special) {
      FinalEntry(w, u[i]);
      if u[i] < w.n {
        var j := IndexOf(w.list, u[i]);
        assert w.list[j] == u[i];
      }
    }
  }

  /** An entry of the new list. */
  lemma FinalEntry(w: Walk, y: int)
    requires w.Valid() && Agrees(w.open, w.list, w.fi - 1) && y in FinalList(w)
    ensures -1 <= y <= NewFormatting(w) && (y < w.n ==> y in w.list)
  {
    hide FinalList, Agrees;
    if y != NewFormatting(w) {
      WasListed(w, y);
      InForm(w, y);
    }
  }

  lemma InForm(w: Walk, y: int)
    requires w.Valid() && y in w.Form(w.fi + 1)
    ensures -1 <= y < NewFormatting(w) && (y < w.n ==> y in w.list)
  {
    hide Walk.Form, Walk.Cloned, DistinctEntries, NoRepeat;
    FormEntries(w, w.fi + 1);
    if y in w.list { IsEntry(w, y); }
  }

  lemma IsEntry(w: Walk, y: int)
    requires w.Valid() && y in w.list
    ensures -1 <= y < w.n
  {
    hide NoRepeat, DistinctEntries;
    var i :| 0 <= i < |w.list| && w.list[i] == y;
  }

  lemma WasListed(w: Walk, y: int)
    requires w.Valid() && Agrees(w.open, w.list, w.fi - 1) && y in FinalList(w) && y != NewFormatting(w)
    ensures y in w.Form(w.fi + 1)
  {
    hide *;
    Landed(w);
  }

  lemma FinalEntries(w: Walk)
    requires w.Valid() && Agrees(w.open, w.list, w.fi - 1)
    ensures DistinctEntries(FinalList(w))
    ensures forall i :: 0 <= i < |FinalList(w)| ==> -1 <= FinalList(w)[i] < NewFormatting(w) + 1
  {
    hide Agrees, FinalList, NoRepeat, DistinctEntries, Walk.Form, Walk.Mark;
    Landed(w);
    forall i | 0 <= i < |FinalList(w)| ensures -1 <= FinalList(w)[i] < NewFormatting(w) + 1 {
      assert FinalList(w)[i] in FinalList(w);
      FinalEntry(w, FinalList(w)[i]);
    }
  }

  lemma ListsAfter(w: Walk)
    requires w.Valid() && Agrees(w.open, w.list, w.fi - 1)
    ensures Lists(NewFormatting(w) + 1, FinalOpen(w, NewFormatting(w)), FinalList(w))
  {
    hide Agrees, FinalList, NoRepeat, DistinctEntries, FinalOpen, Walk.Form, Walk.Mark, NewFormatting;
    StackDistinct(w);
    FinalEntries(w);
    var o := FinalOpen(w, NewFormatting(w));
    assert forall i :: 0 <= i < |o| ==> o[i] in o;
  }

  /** An element of the new stack is old and still there, or new. */
  lemma StackEntry(w: Walk, p: int)
    requires w.Valid() && 0 <= p < |FinalOpen(w, NewFormatting(w))|
    ensures var y := FinalOpen(w, NewFormatting(w))[p];
            w.n <= y <= NewFormatting(w) || exists t :: OldEntry(w, p, t, y)
  {
    if p == BlockPosition(w) + 1 {
      FinalStack(w, p);
    } else {
      HomeOf(w, p);
      var t := Home(w, p);
      hide FinalOpen, Homes, Home, Walk.Mid;
      OccupantOldOrNew(w, p, t);
    }
  }

  lemma OccupantOldOrNew(w: Walk, p: int, t: int)
    requires w.Valid() && 0 <= t < |w.open| && t != w.fi && (t < w.fi ==> t == p)
    ensures var y := Occupant(w, w.fi + 1, t); w.n <= y <= NewFormatting(w) || OldEntry(w, p, t, y)
  {
    FewerClones(w, w.fi + 1, t + 1);
    hide Walk.Valid;
  }

  ghost predicate OldEntry(w: Walk, p: int, t: int, y: int) {
    0 <= t < |w.open| && t != w.fi && y == w.open[t] && (t < w.fi ==> t == p)
  }

  lemma OnPathFacts(s: ParserState, rank: seq<int>, path: seq<int>, from: int, special: set<(int, int)>, st: Start,
                    a: int, b: int)
    requires OnPath(s, rank, path, from, special, st, a, b)
    ensures st.Valid() && st.d == s.d && st.w.open == s.open && st.w.list == s.list
    ensures NoneSpecial(st.d, st.w.list, special)
    ensures Sited(st.w, path, from, a, b) && st.w.Valid() && 0 <= from < st.w.fi && 0 <= a < b < |path|
    ensures |st.d| == st.w.n
    ensures st.w.fi < st.w.k < |s.open|
    ensures Agrees(st.w.open, st.w.list, from) && Agrees(st.w.open, st.w.list, st.w.fi - 1)
  {
    hide GoodSite, Linked, Ranked, Lists, TagIn, Strand, Chain;
  }

  /** Open elements above `from` are attached; those that are listed or special are on the new path. */
  lemma StrandAfter(s: ParserState, rank: seq<int>, path: seq<int>, from: int, special: set<(int, int)>, st: Start,
                    a: int, b: int, p: int)
    requires OnPath(s, rank, path, from, special, st, a, b) && from < p < |FinalOpen(st.w, NewFormatting(st.w))|
    ensures Strand(st.Result(), FinalOpen(st.w, NewFormatting(st.w))[p], FinalList(st.w), PathAfter(st, path, a, b),
              special)
  {
    OnPathFacts(s, rank, path, from, special, st, a, b);
    var w, y := st.w, FinalOpen(st.w, NewFormatting(st.w))[p];
    StackEntry(w, p);
    if y >= w.n {
      NewStrand(st, special, path, a, b, y);
    } else {
      var t :| OldEntry(w, p, t, y);
      hide *;
      OldPosition(w, p, t, y);
      OldStrandFacts(s, rank, path, from, special, st, a, b, t);
      OldStrand(st, path, from, special, a, b, t);
    }
  }

  lemma OldPosition(w: Walk, p: int, t: int, y: int)
    requires OldEntry(w, p, t, y)
    ensures 0 <= t < |w.open| && t != w.fi && y == w.open[t] && (t < w.fi ==> t == p)
  {}

  lemma NewStrand(st: Start, special: set<(int, int)>, path: seq<int>, a: int, b: int, y: int)
    requires st.Valid() && NoneSpecial(st.d, st.w.list, special) && Agrees(st.w.open, st.w.list, st.w.fi - 1)
    requires st.w.Valid() && 0 <= a < b < |path| && st.w.fi < st.w.k < |st.w.open| && st.w.n <= y <= NewFormatting(st.w)
    ensures Strand(st.Result(), y, FinalList(st.w), PathAfter(st, path, a, b), special)
  {
    NewOnPath(st.w.n, |st.w.Cloned(st.w.fi + 1)|, path, a, b, y);
    assert y in PathAfter(st, path, a, b);
    hide *;
    ResultNodes(st, special);
    StrandNew(st.d, st.Result(), y, FinalList(st.w), PathAfter(st, path, a, b), special);
  }

  lemma StrandNew(d: Arena, e: Arena, y: int, list: seq<int>, path: seq<int>, special: set<(int, int)>)
    requires Grew(d, e, special) && |d| <= y < |e| && y in path
    ensures Strand(e, y, list, path, special)
  {}

  lemma OldStrand(st: Start, path: seq<int>, from: int, special: set<(int, int)>, a: int, b: int, t: int)
    requires st.Valid() && Sited(st.w, path, from, a, b) && NoneSpecial(st.d, st.w.list, special)
    requires Agrees(st.w.open, st.w.list, st.w.fi - 1) && 0 <= from < t < |st.w.open| && t != st.w.fi
    requires st.w.Valid() && 0 <= a < b < |path| && st.w.fi < st.w.k < |st.w.open| && |st.d| == st.w.n
    requires 0 <= st.w.open[t] < |st.d| && Strand(st.d, st.w.open[t], st.w.list, path, special)
    requires st.w.fi < t < st.w.k ==> !TagIn(st.d[st.w.open[t]].content, special)
    ensures Strand(st.Result(), st.w.open[t], FinalList(st.w), PathAfter(st, path, a, b), special)
  {
    hide *;
    ResultNodes(st, special);
    var w, y := st.w, st.w.open[t];
    if y in path && !(w.fi < t < w.k) { StaysOnPath(st, path, from, a, b, t); }
    if y in FinalList(w) {
      FinalEntry(w, y);
      NotBetween(w, t);
    }
    StrandKept(st.d, st.Result(), y, w.list, FinalList(w), path, PathAfter(st, path, a, b), special, w.fi < t < w.k);
  }

  lemma OldStrandFacts(s: ParserState, rank: seq<int>, path: seq<int>, from: int, special: set<(int, int)>, st: Start,
                       a: int, b: int, t: int)
    requires OnPath(s, rank, path, from, special, st, a, b) && from < t < |s.open|
    ensures 0 <= t && 0 <= s.open[t] < |s.d| && Strand(s.d, s.open[t], s.list, path, special)
    ensures st.w.fi < t < st.w.k ==> !TagIn(s.d[s.open[t]].content, special)
  {
    hide GoodSite, Linked, Ranked, TagIn, Strand, Chain, Walk.Valid, NoRepeat, DistinctEntries, Agrees, Sited,
         NoneSpecial;
  }

  lemma StrandKept(d: Arena, e: Arena, y: int, list: seq<int>, list': seq<int>, path: seq<int>, path': seq<int>,
                   special: set<(int, int)>, between: bool)
    requires Strand(d, y, list, path, special) && Grew(d, e, special) && 0 <= y < |d|
    requires y in list' ==> y in list && !between
    requires between ==> !TagIn(d[y].content, special)
    requires y in path && !between ==> y in path'
    ensures Strand(e, y, list', path', special)
  {}

  lemma StaysOnPath(st: Start, path: seq<int>, from: int, a: int, b: int, t: int)
    requires Sited(st.w, path, from, a, b) && from < t < |st.w.open| && st.w.open[t] in path && !(st.w.fi <= t < st.w.k)
    ensures st.w.k < |st.w.open| && 0 <= a < b < |path| && st.w.open[t] in PathAfter(st, path, a, b)
  {
    var w := st.w;
    SitedAt(w, path, from, a, b, t);
    IndexOfDistinct(path, b);
    hide NewPath;
    StillOnPath(w, path, from, a, b, |w.Cloned(w.fi + 1)|, w.open[t]);
  }

  lemma NotBetween(w: Walk, t: int)
    requires w.Valid() && Agrees(w.open, w.list, w.fi - 1) && 0 <= t < |w.open| && w.open[t] in FinalList(w)
    ensures !(w.fi < t < w.k)
  {
    WasListed(w, w.open[t]);
    hide FinalList;
    OldInForm(w, t);
  }

  lemma PathEnds(w: Walk, path: seq<int>, from: int, a: int, b: int, o: seq<int>, path': seq<int>)
    requires Sited(w, path, from, a, b) && path[0] == w.open[from] && path[|path| - 1] == w.open[|w.open| - 1]
    requires o == FinalOpen(w, NewFormatting(w)) && path' == NewPath(w.n, |w.Cloned(w.fi + 1)|, path, a, b)
    ensures from < |o| && |path'| > 0 && path'[0] == o[from] && path'[|path'| - 1] == o[|o| - 1]
  {
    FinalStack(w, |o| - 1);
    hide FinalOpen, Walk.Mid, Walk.Cloned;
    assert path'[0] == path[..a + 1][0];
    assert path'[|path'| - 1] == ([path[b], NewFormatting(w)] + path[b + 1..])[|path| - b];
    FrontSame(w, from, NewFormatting(w));
  }

  lemma FrontSame(w: Walk, from: int, x: int)
    requires w.fi < w.k < |w.open| && 0 <= from < w.fi
    ensures from < |FinalOpen(w, x)| && FinalOpen(w, x)[from] == w.open[from]
  {}

  /** The place of the pass, seen from the path. */
  lemma PlaceOnPath(s: ParserState, rank: seq<int>, path: seq<int>, from: int, special: set<(int, int)>, st: Start,
                    a: int, b: int)
    requires OnPath(s, rank, path, from, special, st, a, b)
    ensures 0 <= a && a + 2 <= b < |path| && st.Place() == Site(path[a], path[b - 1], path[b])
    ensures Linked(st.d) && Ranked(st.d, st.rank) && Chain(st.d, path) && GoodSite(st.d, st.rank, st.Place())
    ensures Chain(st.d, path[a..b + 1]) && SiteOf(path[a..b + 1]) == st.Place()
    ensures path[0] == s.open[from] && path[|path| - 1] == s.open[|s.open| - 1]
  {
    hide Agrees, TagIn, Strand, GoodSite, Walk.Valid, NoneSpecial, Linked, Ranked, Chain;
    SiteOnPath(s.d, rank, path, a, b);
  }

  lemma ResultIs(st: Start)
    requires st.Valid()
    ensures st.w.Valid() && |st.d| == st.w.n && |st.CloneLabels(st.w.fi + 1)| == |st.w.Cloned(st.w.fi + 1)|
    ensures var s := st.Place();
            0 <= s.ca < |st.d| && 0 <= s.q < |st.d| && 0 <= s.fb < |st.d| && |st.d[s.q].children| > 0
            && st.Result() == Surgery(st.d, s, st.CloneLabels(st.w.fi + 1), st.d[st.w.open[st.w.fi]].content)
  {
    hide Linked, Ranked, Surgery;
  }

  lemma PathChainAfter(s: ParserState, rank: seq<int>, path: seq<int>, from: int, special: set<(int, int)>, st: Start,
                       a: int, b: int)
    requires OnPath(s, rank, path, from, special, st, a, b)
    ensures st.Valid() && 0 <= a < b < |path| && Chain(st.Result(), PathAfter(st, path, a, b))
  {
    OnPathFacts(s, rank, path, from, special, st, a, b);
    hide OnPath, Linked, Ranked, Chain, GoodSite, Surgery, Sited, NewPath, Start.CloneLabels, TagIn, NoneSpecial,
         Agrees, Walk.Valid;
    PlaceOnPath(s, rank, path, from, special, st, a, b);
    CloneLabelsAt(st, st.w.fi + 1, special);
    FormattingLabel(st, special);
    ResultIs(st);
    hide Start.Valid, Start.Result;
    NewPathChain(st.d, st.rank, path, a, b, st.CloneLabels(st.w.fi + 1), st.d[st.w.open[st.w.fi]].content, st.Result());
  }

  lemma ThreadedAfter(s: ParserState, rank: seq<int>, path: seq<int>, from: int, special: set<(int, int)>, st: Start,
                      a: int, b: int)
    requires OnPath(s, rank, path, from, special, st, a, b)
    ensures st.Valid() && 0 <= a < b < |path| && Threaded(StateAfter(st), PathAfter(st, path, a, b), from, special)
  {
    hide OnPath, Start.Valid, Sited, Walk.Valid, PathAfter, Start.Result, FinalOpen, FinalList, Chain, Threaded,
         Agrees, NoneSpecial, GoodSite;
    PathChainAfter(s, rank, path, from, special, st, a, b);
    OnPathFacts(s, rank, path, from, special, st, a, b);
    PlaceOnPath(s, rank, path, from, special, st, a, b);
    ThreadParts(s, rank, path, from, special, st, a, b, StateAfter(st), PathAfter(st, path, a, b));
  }

  lemma ThreadParts(s: ParserState, rank: seq<int>, path: seq<int>, from: int, special: set<(int, int)>, st: Start,
                    a: int, b: int,
                    t: ParserState, path': seq<int>)
    requires OnPath(s, rank, path, from, special, st, a, b) && st.Valid() && Sited(st.w, path, from, a, b)
    requires 0 <= a < b < |path|
    requires st.w.open == s.open && 0 <= from < |s.open|
    requires t == StateAfter(st) && path' == PathAfter(st, path, a, b) && Chain(t.d, path')
    requires path[0] == s.open[from] && path[|path| - 1] == s.open[|s.open| - 1]
    ensures Threaded(t, path', from, special)
  {
    hide OnPath, Start.Valid, Sited, NewPath, FinalOpen, FinalList, Start.Result, NewFormatting, Chain, Strand, Agrees;
    PathEnds(st.w, path, from, a, b, t.open, path');
    NewPathAgrees(st.w, path, from, a, b);
    forall p | from < p < |t.open| ensures Strand(t.d, t.open[p], t.list, path', special) {
      StrandAfter(s, rank, path, from, special, st, a, b, p);
    }
  }

  lemma BlockUnlisted(d: Arena, open: seq<int>, list: seq<int>, k: nat, special: set<(int, int)>)
    requires NoneSpecial(d, list, special) && k < |open| && 0 <= open[k] < |d| && TagIn(d[open[k]].content, special)
    ensures open[k] !in list
  {
    forall i | 0 <= i < |list| ensures list[i] != open[k] {}
  }

  /** A pass keeps the state orderly, from the same stack position on. */
  lemma OrderlyAfter(s: ParserState, rank: seq<int>, path: seq<int>, from: int, special: set<(int, int)>, st: Start,
                     a: int, b: int, r: seq<int>)
    requires OnPath(s, rank, path, from, special, st, a, b)
    requires st.Valid() && Linked(st.Result()) && Ranked(st.Result(), r)
    ensures 0 <= a < b < |path| && Orderly(StateAfter(st), r, PathAfter(st, path, a, b), from, special)
  {
    OnPathFacts(s, rank, path, from, special, st, a, b);
    ThreadedAfter(s, rank, path, from, special, st, a, b);
    BlockListed(s, rank, path, from, special, st, a, b);
    hide OnPath, Linked, Ranked, Threaded, Start.Valid, FinalOpen, FinalList, Start.Result, NewFormatting, PathAfter,
         Lists, NoneSpecial, Agrees, Sited;
    AgreesAfter(st.w, from);
    ListsAfter(st.w);
    NoneSpecialAfter(st, special);
    ResultNodes(st, special);
  }

  lemma BlockListed(s: ParserState, rank: seq<int>, path: seq<int>, from: int, special: set<(int, int)>, st: Start,
                    a: int, b: int)
    requires OnPath(s, rank, path, from, special, st, a, b)
    ensures st.w.k < |st.w.open| && st.w.open[st.w.k] !in st.w.list
  {
    hide Linked, Ranked, Threaded, GoodSite, Agrees, Sited, TagIn;
    BlockUnlisted(s.d, s.open, s.list, st.w.k, special);
  }

  // ----- where a pass starts -----

  /** If the element below the formatting element on the stack is on the path, a pass may start. */
  lemma PassOnPath(s: ParserState, rank: seq<int>, path: seq<int>, from: int, special: set<(int, int)>, fi: nat, k: nat)
    requires Orderly(s, rank, path, from, special) && from < fi < k < |s.open|
    requires s.open[fi - 1] in path && s.open[fi] in s.list && TagIn(s.d[s.open[k]].content, special)
    requires forall j :: fi <= j < k ==> !TagIn(s.d[s.open[j]].content, special)
    ensures OnPath(s, rank, path, from, special, Start(s.d, rank, Walk(|s.d|, s.open, s.list, fi, k)),
                   IndexOf(path, s.open[fi - 1]), IndexOf(path, s.open[k]))
  {
    hide Linked, Ranked, TagIn, Chain, GoodSite, Agrees, NoneSpecial, Strand, Walk.Valid, Sited, NoRepeat;
    var w := Walk(|s.d|, s.open, s.list, fi, k);
    ChainDistinct(s.d, rank, path);
    StretchFound(s, path, from, special, fi, k);
    WalkStart(|s.d|, s.open, s.list, fi, k);
    PassSited(s, path, from, special, w);
    SiteOnPath(s.d, rank, path, IndexOf(path, s.open[fi - 1]), IndexOf(path, s.open[k]));
    forall t | fi <= t < k
      ensures Attached(s.d, w.open[t])
    {
      assert Strand(s.d, s.open[t], s.list, path, special);
      AttachedStrand(s.d, s.open[t], s.list, path, special);
    }
  }

  lemma AttachedStrand(d: Arena, x: int, list: seq<int>, path: seq<int>, special: set<(int, int)>)
    requires Strand(d, x, list, path, special)
    ensures Attached(d, x) && (x in list || TagIn(d[x].content, special) ==> x in path)
  {}

  lemma WalkStart(n: nat, open: seq<int>, list: seq<int>, fi: nat, k: nat)
    requires Lists(n, open, list) && 1 <= fi < k < |open| && open[fi] in list
    ensures Walk(n, open, list, fi, k).Valid()
  {}

  /** Formatting element and furthest block are on the path, in this order. */
  lemma StretchFound(s: ParserState, path: seq<int>, from: int, special: set<(int, int)>, fi: nat, k: nat)
    requires Threaded(s, path, from, special) && from < fi < k < |s.open| && s.open[fi - 1] in path
    requires s.open[fi] in s.list
    requires Lists(|s.d|, s.open, s.list) && TagIn(s.d[s.open[k]].content, special)
    ensures s.open[k] in path && 0 <= IndexOf(path, s.open[fi - 1])
    ensures IndexOf(path, s.open[fi - 1]) + 2 <= IndexOf(path, s.open[k]) < |path|
  {
    hide TagIn, Chain, Agrees, Strand, NoRepeat, DistinctEntries;
    assert Strand(s.d, s.open[fi], s.list, path, special) && Strand(s.d, s.open[k], s.list, path, special);
    AttachedStrand(s.d, s.open[fi], s.list, path, special);
    AttachedStrand(s.d, s.open[k], s.list, path, special);
    AgreesAt(s.open[from..], path, fi - 1 - from, fi - from);
    AgreesAt(s.open[from..], path, fi - from, k - from);
  }

  lemma PassSited(s: ParserState, path: seq<int>, from: int, special: set<(int, int)>, w: Walk)
    requires w.Valid() && w.n == |s.d| && w.open == s.open && w.list == s.list && from < w.fi < w.k < |w.open|
    requires NoRepeat(path)
    requires Threaded(s, path, from, special) && s.open[w.fi - 1] in path && s.open[w.k] in path
    requires IndexOf(path, s.open[w.fi - 1]) + 2 <= IndexOf(path, s.open[w.k])
    ensures Sited(w, path, from, IndexOf(path, s.open[w.fi - 1]), IndexOf(path, s.open[w.k]))
  {
    hide TagIn, Agrees, Strand, NoRepeat, Walk.Valid;
    assert forall i :: 0 <= i < |path| ==> 0 <= path[i] < w.n;
    forall t | w.fi <= t < w.k && w.open[t] in w.list ensures w.open[t] in path {
      assert Strand(s.d, s.open[t], s.list, path, special);
      AttachedStrand(s.d, s.open[t], s.list, path, special);
    }
  }
}
