/** A pass of the adoption agency algorithm (gumbo-parser/src/parser.c) keeps the state rooted. */
module RootedPass {
  import opened Sequences
  import opened Dom
  import opened AdoptionSurgery
  import opened AdoptionWalk
  import opened AdoptionOrder
  import opened AdoptionPass
  import opened AdoptionPath
  import opened RootedState

  function Of(st: Start): ParserState {
    ParserState(st.d, st.w.open, st.w.list)
  }

  /** A pass that starts in a rooted state, and a ranking of the tree after it. */
  ghost predicate Turned(st: Start, r: seq<int>, special: set<(int, int)>) {
    && st.Valid() && Rooted(Of(st), st.rank, special) && Found(Of(st), special, st.w.fi, st.w.k)
    && Spaced(st.rank, r, st.w.open[st.w.k], |st.w.Cloned(st.w.fi + 1)|)
  }

  /** Its numbers: clones of the walk, the common ancestor, the furthest block. */
  ghost predicate Numbered(st: Start, r: seq<int>, m: nat, ca: int, fb: int) {
    && 1 <= st.w.fi < st.w.k < |st.w.open| && st.w.n == |st.d| == |st.rank| && m == |st.w.Cloned(st.w.fi + 1)|
    && 0 <= ca < st.w.n && 0 <= fb < st.w.n && ca == st.w.open[st.w.fi - 1] && fb == st.w.open[st.w.k]
    && Spaced(st.rank, r, fb, m) && Falling(st.w.open, st.rank)
  }

  lemma TurnedFacts(st: Start, r: seq<int>, special: set<(int, int)>) returns (m: nat, ca: int, fb: int)
    requires Turned(st, r, special)
    ensures st.Valid() && Numbered(st, r, m, ca, fb) && NewFormatting(st.w) == st.w.n + m
    ensures 0 <= fb < |st.d| == st.w.n && 1 <= st.w.fi < st.w.k < |st.w.open|
    ensures st.Place() == Site(ca, st.d[fb].parent, fb)
    ensures Standing(Of(st), st.rank, special) && OneTree(st.d) && Agrees(st.w.open, st.w.list, 0)
    ensures NoneSpecial(st.d, st.w.list, special)
    ensures Found(Of(st), special, st.w.fi, st.w.k)
  {
    hide Start.Valid, Rooted, Spaced, Found, Standing, Falling, OneTree, NoneSpecial, Agrees;
    RootedParts(Of(st), st.rank, special);
    StandingFalls(Of(st), st.rank, special);
    StartFacts(st);
    hide Lists, Linked, Ranked;
    m, ca, fb := |st.w.Cloned(st.w.fi + 1)|, st.w.open[st.w.fi - 1], st.w.open[st.w.k];
  }

  lemma StandingFalls(s: ParserState, rank: seq<int>, special: set<(int, int)>)
    requires Standing(s, rank, special)
    ensures Falling(s.open, rank)
  {
    hide Falling, Upheld, Seated;
  }

  lemma StartFacts(st: Start)
    requires st.Valid()
    ensures st.w.Valid() && 1 <= st.w.fi < st.w.k < |st.w.open| && st.w.n == |st.d|
    ensures forall i :: 0 <= i < |st.w.open| ==> 0 <= st.w.open[i] < st.w.n
    ensures st.Place() == Site(st.w.open[st.w.fi - 1], st.d[st.w.open[st.w.k]].parent, st.w.open[st.w.k])
  {
    hide GoodSite, NoRepeat, DistinctEntries;
  }

  // ----- the tree afterwards -----

  /** The parent of every node. */
  function NewParent(d: Arena, ca: int, fb: int, m: nat, y: int): int
    requires 0 <= y <= |d| + m
  {
    var n := |d|;
    if y == fb then (if m > 0 then n else ca)
    else if y < n then (if d[y].parent == fb then n + m else d[y].parent)
    else if y + 1 < n + m then y + 1 else if y < n + m then ca else fb
  }

  lemma ParentAfter(st: Start, m: nat, ca: int, fb: int, y: int)
    requires st.Valid() && 0 <= fb < |st.d| && st.Place() == Site(ca, st.d[fb].parent, fb)
    requires m == |st.w.Cloned(st.w.fi + 1)| && 0 <= y <= |st.d| + m
    ensures |st.Result()| == |st.d| + m + 1 && st.Result()[y].parent == NewParent(st.d, ca, fb, m, y)
  {
    ResultIs(st);
    var s, clones, f := st.Place(), st.CloneLabels(st.w.fi + 1), st.d[st.w.open[st.w.fi]].content;
    assert st.Result()[y] == SurgeryNode(st.d, s, clones, f, y) by { hide Start.Valid, Start.CloneLabels, Start.Place; }
  }

  /** The children, where a special node may be the last one. */
  lemma LastAfter(st: Start, m: nat, ca: int, fb: int, p: int, c: int)
    requires st.Valid() && 0 <= fb < |st.d| && st.Place() == Site(ca, st.d[fb].parent, fb)
    requires m == |st.w.Cloned(st.w.fi + 1)|
    ensures m > 0 ==> LastChild(st.Result(), |st.d|, fb)
    ensures m == 0 ==> LastChild(st.Result(), ca, fb)
    ensures LastChild(st.d, fb, c) ==> LastChild(st.Result(), |st.d| + m, c)
    ensures LastChild(st.d, p, c) && p != ca && p != fb && c != fb ==> LastChild(st.Result(), p, c)
  {
    hide Start.CloneLabels, Start.Place, Start.Result, LastChild, Surgery, GoodSite, Attached, Walk.Valid, Walk.Cloned;
    ResultIs(st);
    ResultSite(st);
    SiteKinds(st);
    hide Start.Valid;
    SurgeryLast(st.d, st.Place(), st.CloneLabels(st.w.fi + 1), st.d[st.w.open[st.w.fi]].content, p, c);
  }

  lemma SurgeryLast(d: Arena, s: Site, clones: seq<Label>, f: Label, p: int, c: int)
    requires 0 <= s.ca < |d| && 0 <= s.q < |d| && 0 <= s.fb < |d| && |d[s.q].children| > 0
    requires s.ca != s.fb && s.q != s.fb && LastChild(d, s.q, s.fb)
    ensures var e, n, m := Surgery(d, s, clones, f), |d|, |clones|;
            && LastChild(e, if m > 0 then n else s.ca, s.fb)
            && (LastChild(d, s.fb, c) ==> LastChild(e, n + m, c))
            && (LastChild(d, p, c) && p != s.ca && p != s.fb && c != s.fb ==> LastChild(e, p, c))
  {
    var e, n, m := Surgery(d, s, clones, f), |d|, |clones|;
    assert e[n] == SurgeryNode(d, s, clones, f, n);
    assert e[s.ca] == SurgeryNode(d, s, clones, f, s.ca);
    assert e[n + m] == SurgeryNode(d, s, clones, f, n + m);
    if 0 <= p < |d| { assert e[p] == SurgeryNode(d, s, clones, f, p); }
  }

  lemma SiteKinds(st: Start)
    requires st.Valid()
    ensures var s := st.Place(); s.ca != s.fb && s.q != s.fb && LastChild(st.d, s.q, s.fb)
  {
    hide Linked, Ranked, Attached, Walk.Valid;
  }

  // ----- the stack afterwards -----

  /** What stack position `t` has become: its element, or a clone of it. */
  ghost predicate Spot(w: Walk, t: int, y: int) {
    && w.fi < w.k < |w.open| && 0 <= t < |w.open| && t != w.fi && y == Occupant(w, w.fi + 1, t)
    && (w.fi < t < w.k ==> w.Clones(t) || w.Keeps(t))
  }

  lemma {:induction false} HomesStay(w: Walk, s: nat)
    requires s <= w.k < |w.open|
    ensures forall j :: 0 <= j < |Homes(w, s)| ==>
              0 <= Homes(w, s)[j] < w.k && (w.Clones(Homes(w, s)[j]) || w.Keeps(Homes(w, s)[j]))
    decreases w.k - s
  {
    if s < w.k { HomesStay(w, s + 1); }
  }

  lemma SpotAt(w: Walk, p: int) returns (t: int)
    requires w.Valid() && 0 <= p < |FinalOpen(w, NewFormatting(w))| && p != BlockPosition(w) + 1
    ensures |Homes(w, w.fi + 1)| == |w.Mid(w.fi + 1)| && t == Home(w, p)
    ensures Spot(w, t, FinalOpen(w, NewFormatting(w))[p])
    ensures (p < BlockPosition(w) <==> t < w.k) && (p > BlockPosition(w) <==> t > w.k) && (p == 0 <==> t == 0)
  {
    hide Walk.Valid, Homes, Walk.Mid, Walk.Cloned, FinalOpen, Occupant, NewFormatting, BlockPosition, Home,
         Walk.Clones, Walk.Keeps;
    WalkBounds(w);
    HomeOf(w, p);
    HomeStays(w, p);
    t := Home(w, p);
  }

  lemma HomeStays(w: Walk, p: int)
    requires w.fi < w.k < |w.open| && |Homes(w, w.fi + 1)| == |w.Mid(w.fi + 1)| && 0 <= p
    ensures w.fi < Home(w, p) < w.k ==> w.Clones(Home(w, p)) || w.Keeps(Home(w, p))
    ensures Home(w, p) == 0 ==> p == 0 || w.fi <= p
  {
    HomesStay(w, w.fi + 1);
    hide Homes, Walk.Mid;
  }

  /** The rank of what is at a spot. */
  lemma SpotRank(st: Start, r: seq<int>, m: nat, ca: int, fb: int, t: int, y: int)
    requires Numbered(st, r, m, ca, fb) && Spot(st.w, t, y)
    ensures 0 <= y < st.w.n + m
    ensures if st.w.fi < t < st.w.k && st.w.Clones(t) then
              && y == st.w.n + |st.w.Cloned(t + 1)| >= st.w.n && r[y] == r[fb] + 1 + |st.w.Cloned(t + 1)| <= r[fb] + m
            else y == st.w.open[t] < st.w.n
  {
    hide Walk.Cloned, Walk.Keeps, Falling, Spaced;
    InStack(st, r, m, ca, fb, t);
    FewerClones(st.w, st.w.fi + 1, t + 1);
    CloneRank(st, r, m, ca, fb, y);
  }

  lemma InStack(st: Start, r: seq<int>, m: nat, ca: int, fb: int, t: int)
    requires Numbered(st, r, m, ca, fb) && 0 <= t < |st.w.open|
    ensures 0 <= st.w.open[t] < st.w.n
  {
    hide Spaced;
  }

  lemma OldFalls(st: Start, r: seq<int>, m: nat, ca: int, fb: int, t: int, u: int)
    requires Numbered(st, r, m, ca, fb) && 0 <= t < u < |st.w.open|
    ensures 0 <= st.w.open[t] < st.w.n && 0 <= st.w.open[u] < st.w.n && st.rank[st.w.open[u]] < st.rank[st.w.open[t]]
    ensures r[st.w.open[u]] + m + 2 <= r[st.w.open[t]]
  {}

  lemma SpotsFall(st: Start, r: seq<int>, m: nat, ca: int, fb: int, t: int, u: int, a: int, b: int)
    requires Numbered(st, r, m, ca, fb) && Spot(st.w, t, a) && Spot(st.w, u, b) && t < u
    ensures 0 <= a < |r| && 0 <= b < |r| && r[b] < r[a]
  {
    var w := st.w;
    SpotRank(st, r, m, ca, fb, t, a);
    SpotRank(st, r, m, ca, fb, u, b);
    if u < w.k { FewerClones(w, t + 1, u + 1); }
    if u != w.k { if t < w.k { OldFalls(st, r, m, ca, fb, t, w.k); } }
    if u > w.k { OldFalls(st, r, m, ca, fb, w.k, u); }
    OldFalls(st, r, m, ca, fb, t, u);
    hide Walk.Cloned, Falling;
  }

  /** The new formatting element, below the furthest block and above what was below that. */
  lemma NewFalls(st: Start, r: seq<int>, m: nat, ca: int, fb: int, t: int, a: int)
    requires Numbered(st, r, m, ca, fb) && Spot(st.w, t, a)
    ensures 0 <= a < |r| == st.w.n + m + 1
    ensures t <= st.w.k ==> r[st.w.n + m] < r[fb] <= r[a]
    ensures t > st.w.k ==> r[a] < r[st.w.n + m]
  {
    SpotRank(st, r, m, ca, fb, t, a);
    if t < st.w.k { OldFalls(st, r, m, ca, fb, t, st.w.k); }
    if t > st.w.k { OldFalls(st, r, m, ca, fb, st.w.k, t); }
    hide Walk.Cloned, Falling;
  }

  lemma FallingAfter(st: Start, r: seq<int>, special: set<(int, int)>)
    requires Turned(st, r, special)
    ensures st.Valid() && Falling(FinalOpen(st.w, NewFormatting(st.w)), r)
  {
    var m, ca, fb := TurnedFacts(st, r, special);
    StartFacts(st);
    hide Turned, Start.Valid, Numbered, FinalOpen, NewFormatting, Found, Standing, OneTree, Agrees, NoneSpecial;
    var o := FinalOpen(st.w, NewFormatting(st.w));
    forall p | 0 <= p < |o| ensures 0 <= o[p] < |r| { PairFalls(st, r, m, ca, fb, p, p); }
    forall p, q | 0 <= p < q < |o| ensures r[o[q]] < r[o[p]] { PairFalls(st, r, m, ca, fb, p, q); }
  }

  lemma PairFalls(st: Start, r: seq<int>, m: nat, ca: int, fb: int, p: int, q: int)
    requires st.w.Valid() && Numbered(st, r, m, ca, fb) && 0 <= p <= q < |FinalOpen(st.w, NewFormatting(st.w))|
    ensures var o := FinalOpen(st.w, NewFormatting(st.w));
            0 <= o[p] < |r| && 0 <= o[q] < |r| && (p < q ==> r[o[q]] < r[o[p]])
  {
    hide FinalOpen, BlockPosition, Numbered, Spot, Home, Homes, Walk.Mid, Walk.Cloned, NoRepeat, DistinctEntries;
    var w, o, x := st.w, FinalOpen(st.w, NewFormatting(st.w)), BlockPosition(st.w) + 1;
    FinalStack(w, p);
    FinalStack(w, q);
    BlockBounds(st, r, m, ca, fb);
    hide Walk.Valid;
    var t, u := p, q;
    if p != x { t := SpotAt(w, p); NewFalls(st, r, m, ca, fb, t, o[p]); }
    if q != x { u := SpotAt(w, q); NewFalls(st, r, m, ca, fb, u, o[q]); }
    if p < q && p != x && q != x {
      HomesUp(w, p, q);
      SpotsFall(st, r, m, ca, fb, t, u, o[p], o[q]);
    }
  }

  lemma BlockBounds(st: Start, r: seq<int>, m: nat, ca: int, fb: int)
    requires Numbered(st, r, m, ca, fb)
    ensures NewFormatting(st.w) == st.w.n + m < |r| && r[st.w.n + m] < r[fb] && 0 <= fb < |r|
    ensures st.w.fi < st.w.k < |st.w.open|
  {}

  // ----- the parents of later elements are still not above the firm ones -----

  /** `x` is the parent `q`, or ranks above it. */
  predicate Over(r: seq<int>, x: int, q: int) {
    0 <= x < |r| && 0 <= q < |r| && (q == x || r[q] < r[x])
  }

  /** What was so before the pass: `b` at stack position `u`, with `a` at `t` below it. */
  ghost predicate WasHeld(st: Start, fb: int, t: int, u: int) {
    && 0 <= t < u < |st.w.open| && st.w.k < |st.w.open|
    && Holds(st.d, st.rank, st.w.open[t], st.w.open[u])
    && (u > st.w.k ==> Holds(st.d, st.rank, fb, st.w.open[u]))
    && (u < st.w.k ==> 0 <= st.w.open[u] < |st.d| && st.d[st.w.open[u]].parent != fb)
  }

  lemma OldOver(st: Start, r: seq<int>, m: nat, ca: int, fb: int, x: int, y: int)
    requires Numbered(st, r, m, ca, fb) && Holds(st.d, st.rank, x, y)
    ensures 0 <= y < |st.d| && Over(r, x, st.d[y].parent)
    ensures st.d[y].parent == x || r[st.d[y].parent] + m + 2 <= r[x]
  {
    hide Falling;
  }

  lemma AncestorRank(st: Start, r: seq<int>, m: nat, ca: int, fb: int, t: int)
    requires Numbered(st, r, m, ca, fb) && 0 <= t < st.w.fi
    ensures 0 <= st.w.open[t] < st.w.n && Over(r, st.w.open[t], ca) && r[fb] + m + 2 <= r[ca] && ca != fb
  {
    if t < st.w.fi - 1 { OldFalls(st, r, m, ca, fb, t, st.w.fi - 1); }
    OldFalls(st, r, m, ca, fb, st.w.fi - 1, st.w.k);
  }

  /** Below the furthest block: */
  lemma HeldBelow(st: Start, r: seq<int>, m: nat, ca: int, fb: int, t: int, u: int, a: int)
    requires Numbered(st, r, m, ca, fb) && Spot(st.w, t, a) && WasHeld(st, fb, t, u) && u > st.w.k
    ensures 0 <= st.w.open[u] < |st.d| && Over(r, a, NewParent(st.d, ca, fb, m, st.w.open[u]))
  {
    NewFalls(st, r, m, ca, fb, t, a);
    SpotRank(st, r, m, ca, fb, t, a);
    OldOver(st, r, m, ca, fb, fb, st.w.open[u]);
    OldOver(st, r, m, ca, fb, st.w.open[t], st.w.open[u]);
    OldFalls(st, r, m, ca, fb, st.w.k, u);
    if t > st.w.k { OldFalls(st, r, m, ca, fb, st.w.k, t); }
    BlockBounds(st, r, m, ca, fb);
    hide Falling, Walk.Cloned, Spaced, Holds;
  }

  /** at it, or at one of the clones: */
  lemma HeldClone(st: Start, r: seq<int>, m: nat, ca: int, fb: int, t: int, u: int, a: int, b: int)
    requires Numbered(st, r, m, ca, fb) && Spot(st.w, t, a) && Spot(st.w, u, b) && t < u <= st.w.k
    requires st.w.fi < u && (u < st.w.k ==> st.w.Clones(u)) && (st.w.fi < t ==> st.w.Clones(t))
    ensures 0 <= b < |r| && Over(r, a, NewParent(st.d, ca, fb, m, b))
  {
    hide Falling, Walk.Cloned, Spaced, Walk.Keeps, Over;
    SpotRank(st, r, m, ca, fb, t, a);
    SpotRank(st, r, m, ca, fb, u, b);
    BlockBounds(st, r, m, ca, fb);
    AncestorRank(st, r, m, ca, fb, st.w.fi - 1);
    CloneRank(st, r, m, ca, fb, NewParent(st.d, ca, fb, m, b));
    if t < st.w.fi {
      AncestorRank(st, r, m, ca, fb, t);
      OverMore(r, a, ca, NewParent(st.d, ca, fb, m, b));
    } else {
      FewerClones(st.w, t + 1, u + 1);
      IsOver(r, a, NewParent(st.d, ca, fb, m, b));
    }
  }

  lemma IsOver(r: seq<int>, x: int, z: int)
    requires 0 <= x < |r| && 0 <= z < |r| && (z == x || r[z] < r[x])
    ensures Over(r, x, z)
  {}

  lemma OverMore(r: seq<int>, x: int, y: int, z: int)
    requires Over(r, x, y) && 0 <= z < |r| && (z == y || r[z] < r[y])
    ensures Over(r, x, z)
  {}

  lemma CloneRank(st: Start, r: seq<int>, m: nat, ca: int, fb: int, y: int)
    requires Numbered(st, r, m, ca, fb)
    ensures |r| == st.w.n + m + 1 && (st.w.n <= y < st.w.n + m ==> r[y] == r[fb] + 1 + (y - st.w.n))
  {
    hide Falling;
  }

  /** and above. */
  lemma HeldAbove(st: Start, r: seq<int>, m: nat, ca: int, fb: int, t: int, u: int)
    requires Numbered(st, r, m, ca, fb) && WasHeld(st, fb, t, u) && u < st.w.k
    ensures 0 <= st.w.open[u] < |st.d| && Over(r, st.w.open[t], NewParent(st.d, ca, fb, m, st.w.open[u]))
  {
    OldOver(st, r, m, ca, fb, st.w.open[t], st.w.open[u]);
    OldFalls(st, r, m, ca, fb, u, st.w.k);
    hide Falling, Spaced, Holds;
  }

  lemma HeldAfter(st: Start, r: seq<int>, m: nat, ca: int, fb: int, t: int, u: int, a: int, b: int)
    requires Numbered(st, r, m, ca, fb) && Spot(st.w, t, a) && Spot(st.w, u, b) && WasHeld(st, fb, t, u)
    requires st.w.fi < t < st.w.k ==> st.w.Clones(t)
    ensures 0 <= b < |r| && Over(r, a, NewParent(st.d, ca, fb, m, b))
  {
    var w := st.w;
    SpotRank(st, r, m, ca, fb, t, a);
    SpotRank(st, r, m, ca, fb, u, b);
    BlockBounds(st, r, m, ca, fb);
    hide Numbered, Walk.Cloned, Over, NewParent, WasHeld;
    if u > w.k {
      HeldBelow(st, r, m, ca, fb, t, u, a);
    } else if w.fi < u && (u < w.k ==> w.Clones(u)) {
      HeldClone(st, r, m, ca, fb, t, u, a, b);
    } else {
      HeldAbove(st, r, m, ca, fb, t, u);
    }
  }

  /** A firm element was firm before; kept ones are not. */
  lemma WasFirm(st: Start, r: seq<int>, special: set<(int, int)>, t: int, a: int)
    requires Turned(st, r, special) && Spot(st.w, t, a) && st.Valid()
    requires Firm(st.Result(), a, FinalList(st.w), special)
    ensures Firm(st.d, st.w.open[t], st.w.list, special) && (st.w.fi < t < st.w.k ==> st.w.Clones(t))
  {
    var m, ca, fb := TurnedFacts(st, r, special);
    StartFacts(st);
    SpotRank(st, r, m, ca, fb, t, a);
    ResultNodes(st, special);
    hide Turned, Start.Valid, Start.Result, Numbered, TagIn, Standing, NoneSpecial, OneTree, FinalList, Walk.Cloned,
         Walk.Valid, Agrees;
    if !(st.w.fi < t < st.w.k && st.w.Clones(t)) {
      if a in FinalList(st.w) { ListedBefore(st.w, t); }
    }
  }

  lemma ListedBefore(w: Walk, t: int)
    requires w.Valid() && Agrees(w.open, w.list, 0) && 0 <= t < |w.open| && t != w.fi && w.open[t] in FinalList(w)
    ensures w.open[t] in w.list && !(w.fi < t < w.k)
  {
    WalkBounds(w);
    InStackBounds(w, t);
    Above(w, 0);
    FinalEntry(w, w.open[t]);
    WasListed(w, w.open[t]);
    hide Walk.Valid, FinalList, Walk.Form, Agrees;
    EntryAt(w, w.fi + 1, t);
  }

  lemma InStackBounds(w: Walk, t: int)
    requires w.Valid() && 0 <= t < |w.open|
    ensures 0 <= w.open[t] < w.n <= NewFormatting(w)
  {
    hide NoRepeat, DistinctEntries;
  }

  /** What the old state says of two stack positions. */
  lemma HeldBefore(st: Start, r: seq<int>, special: set<(int, int)>, m: nat, ca: int, fb: int, t: int, u: int)
    requires Turned(st, r, special) && Numbered(st, r, m, ca, fb) && 0 <= t < u < |st.w.open|
    requires 0 <= st.w.open[t] < |st.d| && Firm(st.d, st.w.open[t], st.w.list, special)
    ensures WasHeld(st, fb, t, u)
  {
    RootedParts(Of(st), st.rank, special);
    hide Start.Valid, Rooted, Agrees, Lists, NoneSpecial, OneTree, Spaced, TagIn, Linked, Ranked;
    assert Seated(st.d, st.w.open[u], special);
    if u > st.w.k { assert Firm(st.d, fb, st.w.list, special); }
    if u < st.w.k {
      ParentHigher(st.d, st.rank, st.w.open[u]);
      OldFalls(st, r, m, ca, fb, u, st.w.k);
    }
  }

  lemma UpheldAfter(st: Start, r: seq<int>, special: set<(int, int)>)
    requires Turned(st, r, special)
    ensures st.Valid() && Upheld(StateAfter(st), r, special)
  {
    var m, ca, fb := TurnedFacts(st, r, special);
    StartFacts(st);
    hide Turned, Start.Valid, Start.Result, FinalOpen, FinalList, NewFormatting, Firm, Holds, Numbered, Found, Standing,
         OneTree, Agrees, NoneSpecial, Walk.Valid;
    var t := StateAfter(st);
    forall p, q | 0 <= p < q < |t.open| && Firm(t.d, t.open[p], t.list, special)
      ensures Holds(t.d, r, t.open[p], t.open[q])
    {
      HeldInStack(st, r, special, m, ca, fb, p, q);
    }
  }

  lemma HeldInStack(st: Start, r: seq<int>, special: set<(int, int)>, m: nat, ca: int, fb: int, p: int, q: int)
    requires Turned(st, r, special) && Numbered(st, r, m, ca, fb) && st.w.Valid() && st.Valid()
    requires NewFormatting(st.w) == st.w.n + m && 0 <= fb < |st.d| && st.Place() == Site(ca, st.d[fb].parent, fb)
    requires st.w.fi < st.w.k < |st.w.open| && 0 <= p < q < |FinalOpen(st.w, NewFormatting(st.w))|
    requires Firm(st.Result(), FinalOpen(st.w, NewFormatting(st.w))[p], FinalList(st.w), special)
    ensures var o := FinalOpen(st.w, NewFormatting(st.w)); Holds(st.Result(), r, o[p], o[q])
  {
    hide *;
    var w, o, x := st.w, FinalOpen(st.w, NewFormatting(st.w)), BlockPosition(st.w) + 1;
    FinalStack(w, p);
    FinalStack(w, q);
    PairFalls(st, r, m, ca, fb, p, q);
    CountClones(st, r, m, ca, fb);
    if q == x {
      var t := SpotAt(w, p);
      NewHeld(st, r, m, ca, fb, t, o[p]);
    } else if p == x {
      var u := SpotAt(w, q);
      NewHolds(st, r, special, m, ca, fb, u, o[q]);
    } else {
      OldInStack(st, r, special, m, ca, fb, p, q);
    }
    ParentAfter(st, m, ca, fb, o[q]);
    OverHolds(st.Result(), r, o[p], o[q]);
  }

  lemma OldInStack(st: Start, r: seq<int>, special: set<(int, int)>, m: nat, ca: int, fb: int, p: int, q: int)
    requires Turned(st, r, special) && Numbered(st, r, m, ca, fb) && st.w.Valid() && st.Valid()
    requires |st.d| == st.w.n && st.w.fi < st.w.k < |st.w.open|
    requires 0 <= p < q < |FinalOpen(st.w, NewFormatting(st.w))| && p != BlockPosition(st.w) + 1
    requires q != BlockPosition(st.w) + 1
    requires Firm(st.Result(), FinalOpen(st.w, NewFormatting(st.w))[p], FinalList(st.w), special)
    ensures var b := FinalOpen(st.w, NewFormatting(st.w))[q];
            0 <= b <= |st.d| + m && Over(r, FinalOpen(st.w, NewFormatting(st.w))[p], NewParent(st.d, ca, fb, m, b))
  {
    hide *;
    var w, o := st.w, FinalOpen(st.w, NewFormatting(st.w));
    var t := SpotAt(w, p);
    var u := SpotAt(w, q);
    HomesUp(w, p, q);
    WasFirm(st, r, special, t, o[p]);
    SpotBounds(w, t, o[p]);
    SpotBounds(w, u, o[q]);
    InStackBounds(w, t);
    SpotRank(st, r, m, ca, fb, u, o[q]);
    HeldBefore(st, r, special, m, ca, fb, t, u);
    HeldAfter(st, r, m, ca, fb, t, u, o[p], o[q]);
  }

  lemma CountClones(st: Start, r: seq<int>, m: nat, ca: int, fb: int)
    requires Numbered(st, r, m, ca, fb)
    ensures m == |st.w.Cloned(st.w.fi + 1)| && |st.d| == st.w.n && |r| == st.w.n + m + 1
  {}

  lemma SpotBounds(w: Walk, t: int, y: int)
    requires Spot(w, t, y)
    ensures 0 <= t < |w.open| && w.k < |w.open|
  {}

  lemma OverHolds(e: Arena, r: seq<int>, a: int, b: int)
    requires 0 <= b < |e| && Over(r, a, e[b].parent)
    ensures Holds(e, r, a, b)
  {}

  lemma NewHeld(st: Start, r: seq<int>, m: nat, ca: int, fb: int, t: int, a: int)
    requires Numbered(st, r, m, ca, fb) && Spot(st.w, t, a) && t <= st.w.k
    ensures Over(r, a, NewParent(st.d, ca, fb, m, st.w.n + m))
  {
    SpotRank(st, r, m, ca, fb, t, a);
    if t < st.w.k { OldFalls(st, r, m, ca, fb, t, st.w.k); }
    BlockBounds(st, r, m, ca, fb);
    hide Walk.Cloned, Falling;
  }

  lemma NewHolds(st: Start, r: seq<int>, special: set<(int, int)>, m: nat, ca: int, fb: int, u: int, b: int)
    requires Turned(st, r, special) && Numbered(st, r, m, ca, fb) && Spot(st.w, u, b) && u > st.w.k
    ensures 0 <= b < |st.d| && Over(r, st.w.n + m, NewParent(st.d, ca, fb, m, b))
  {
    BlockFirm(st, r, special, m, ca, fb);
    hide Turned, Walk.Cloned, Falling, Holds, Firm, Spaced;
    SpotRank(st, r, m, ca, fb, u, b);
    HeldBefore(st, r, special, m, ca, fb, st.w.k, u);
    hide Numbered, Spot;
    BelowNewest(st, r, m, ca, fb, b);
  }

  lemma BelowNewest(st: Start, r: seq<int>, m: nat, ca: int, fb: int, b: int)
    requires Numbered(st, r, m, ca, fb) && Holds(st.d, st.rank, fb, b) && b != fb
    ensures 0 <= b < |st.d| && Over(r, st.w.n + m, NewParent(st.d, ca, fb, m, b))
  {
    OldOver(st, r, m, ca, fb, fb, b);
    hide Walk.Cloned, Falling, Holds;
  }

  lemma BlockFirm(st: Start, r: seq<int>, special: set<(int, int)>, m: nat, ca: int, fb: int)
    requires Turned(st, r, special) && Numbered(st, r, m, ca, fb)
    ensures Firm(st.d, fb, st.w.list, special)
  {
    hide Start.Valid, Rooted, Spaced, Falling;
  }

  // ----- special elements are still last children -----

  /** The common ancestor has no special child on the stack, but for the furthest block. */
  lemma NotBelowAncestor(st: Start, r: seq<int>, special: set<(int, int)>, m: nat, ca: int, fb: int, t: int)
    requires Turned(st, r, special) && Numbered(st, r, m, ca, fb)
    requires 0 < t < |st.w.open| && !(st.w.fi <= t <= st.w.k)
    ensures 0 <= st.w.open[t] < |st.d| && st.w.open[t] != fb && st.d[st.w.open[t]].parent != ca
    ensures Seated(st.d, st.w.open[t], special)
  {
    var y := st.w.open[t];
    SeatedBefore(st, r, special, t);
    hide Turned, Seated, Firm, WasHeld;
    if t < st.w.fi {
      AncestorRank(st, r, m, ca, fb, t);
      OldFalls(st, r, m, ca, fb, t, st.w.k);
    } else {
      BlockFirm(st, r, special, m, ca, fb);
      HeldBefore(st, r, special, m, ca, fb, st.w.k, t);
      OldFalls(st, r, m, ca, fb, st.w.k, t);
      BlockHolds(st, fb, t);
      OldFalls(st, r, m, ca, fb, st.w.fi - 1, st.w.k);
    }
  }

  lemma BlockHolds(st: Start, fb: int, t: int)
    requires st.w.k < |st.w.open| && WasHeld(st, fb, st.w.k, t) && fb == st.w.open[st.w.k]
    ensures Holds(st.d, st.rank, fb, st.w.open[t])
  {}

  lemma SeatedBefore(st: Start, r: seq<int>, special: set<(int, int)>, t: int)
    requires Turned(st, r, special) && 0 < t < |st.w.open|
    ensures 0 <= st.w.open[t] < |st.d| == |st.rank| && Seated(st.d, st.w.open[t], special)
    ensures 0 <= st.d[st.w.open[t]].parent < |st.d|
    ensures st.rank[st.w.open[t]] < st.rank[st.d[st.w.open[t]].parent]
  {
    var s := Of(st);
    RootedParts(s, st.rank, special);
    hide Turned, Rooted, OneTree, NoneSpecial, Agrees, Lists, TagIn, Falling, Upheld, Linked, Ranked, LastChild;
    assert Seated(s.d, s.open[t], special);
    ParentHigher(st.d, st.rank, st.w.open[t]);
  }

  lemma SeatedAfter(st: Start, r: seq<int>, special: set<(int, int)>, m: nat, ca: int, fb: int, p: int)
    requires Turned(st, r, special) && Numbered(st, r, m, ca, fb) && st.w.Valid() && st.Valid()
    requires NoneSpecial(st.d, st.w.list, special) && Found(Of(st), special, st.w.fi, st.w.k)
    requires 0 <= fb < |st.d| && st.Place() == Site(ca, st.d[fb].parent, fb) && st.w.fi < st.w.k < |st.w.open|
    requires NewFormatting(st.w) == st.w.n + m && 0 < p < |FinalOpen(st.w, NewFormatting(st.w))|
    ensures Seated(st.Result(), FinalOpen(st.w, NewFormatting(st.w))[p], special)
  {
    hide *;
    var o := FinalOpen(st.w, NewFormatting(st.w));
    ResultNodes(st, special);
    FinalStack(st.w, p);
    CountClones(st, r, m, ca, fb);
    if p == BlockPosition(st.w) + 1 {
      SeatedNew(st.d, st.Result(), o[p], special);
    } else {
      var t := SpotAt(st.w, p);
      SpotRank(st, r, m, ca, fb, t, o[p]);
      SpotBounds(st.w, t, o[p]);
      if o[p] >= st.w.n {
        SeatedNew(st.d, st.Result(), o[p], special);
      } else {
        SpotOld(st, r, m, ca, fb, t, o[p]);
        SeatedOld(st, r, special, m, ca, fb, t);
      }
    }
  }

  lemma SpotOld(st: Start, r: seq<int>, m: nat, ca: int, fb: int, t: int, y: int)
    requires Numbered(st, r, m, ca, fb) && Spot(st.w, t, y) && y < st.w.n
    ensures 0 <= t < |st.w.open| && y == st.w.open[t]
  {
    SpotRank(st, r, m, ca, fb, t, y);
  }

  lemma SeatedNew(d: Arena, e: Arena, y: int, special: set<(int, int)>)
    requires Grew(d, e, special) && |d| <= y < |e|
    ensures Seated(e, y, special)
  {
    hide TagIn;
  }

  lemma SeatedOld(st: Start, r: seq<int>, special: set<(int, int)>, m: nat, ca: int, fb: int, t: int)
    requires Turned(st, r, special) && Numbered(st, r, m, ca, fb) && st.Valid()
    requires Grew(st.d, st.Result(), special) && Found(Of(st), special, st.w.fi, st.w.k)
    requires 0 <= fb < |st.d| && st.Place() == Site(ca, st.d[fb].parent, fb)
    requires m == |st.w.Cloned(st.w.fi + 1)| && |st.d| == st.w.n && 0 < t < |st.w.open|
    ensures Seated(st.Result(), st.w.open[t], special)
  {
    hide *;
    var d, e, y := st.d, st.Result(), st.w.open[t];
    SeatedBefore(st, r, special, t);
    ParentAfter(st, m, ca, fb, y);
    LastAfter(st, m, ca, fb, d[y].parent, y);
    StaysAttached(d, e, y, special);
    if TagIn(e[y].content, special) {
      SpecialPlace(st, r, special, m, ca, fb, t);
      if !(st.w.fi <= t <= st.w.k) { NotBelowAncestor(st, r, special, m, ca, fb, t); }
      SpecialSeat(d, e, m, ca, fb, y, special);
    } else {
      SeatedOther(e, y, special);
    }
  }

  lemma SpecialPlace(st: Start, r: seq<int>, special: set<(int, int)>, m: nat, ca: int, fb: int, t: int)
    requires Numbered(st, r, m, ca, fb) && Found(Of(st), special, st.w.fi, st.w.k) && 0 <= t < |st.w.open|
    requires 0 <= st.w.open[t] < |st.d| && TagIn(st.d[st.w.open[t]].content, special)
    ensures st.w.fi <= t <= st.w.k ==> st.w.open[t] == fb
  {
    hide TagIn;
    assert Of(st).open == st.w.open;
  }

  lemma StaysAttached(d: Arena, e: Arena, y: int, special: set<(int, int)>)
    requires Grew(d, e, special) && 0 <= y < |d| && Seated(d, y, special)
    ensures Attached(e, y) && e[y].content == d[y].content
  {
    hide TagIn;
  }

  lemma SeatedOther(e: Arena, y: int, special: set<(int, int)>)
    requires Attached(e, y) && !TagIn(e[y].content, special)
    ensures Seated(e, y, special)
  {}

  lemma SpecialSeat(d: Arena, e: Arena, m: nat, ca: int, fb: int, y: int, special: set<(int, int)>)
    requires 0 <= y < |d| && Seated(d, y, special) && TagIn(d[y].content, special) && Attached(e, y)
    requires e[y].parent == NewParent(d, ca, fb, m, y) && (y != fb ==> d[y].parent != ca)
    requires (m > 0 ==> LastChild(e, |d|, fb)) && (m == 0 ==> LastChild(e, ca, fb))
    requires LastChild(d, fb, y) ==> LastChild(e, |d| + m, y)
    requires var p := d[y].parent; LastChild(d, p, y) && p != ca && p != fb && y != fb ==> LastChild(e, p, y)
    ensures Seated(e, y, special)
  {
    hide TagIn, LastChild;
  }

  // ----- all of it -----

  lemma OneTreeAfter(st: Start, r: seq<int>, special: set<(int, int)>)
    requires Turned(st, r, special)
    ensures st.Valid() && OneTree(st.Result())
  {
    hide *;
    var m, ca, fb := TurnedFacts(st, r, special);
    CountClones(st, r, m, ca, fb);
    BlockIsElement(st, special, ca, fb);
    ResultNodes(st, special);
    var e := st.Result();
    forall x | 0 < x < |e| ensures 0 <= e[x].parent < |e| && !e[e[x].parent].content.Text? {
      ParentAfter(st, m, ca, fb, x);
      StillElement(st.d, e, m, ca, fb, x, special);
    }
    IsOneTree(st.d, e, special);
  }

  lemma StillElement(d: Arena, e: Arena, m: nat, ca: int, fb: int, x: int, special: set<(int, int)>)
    requires OneTree(d) && Grew(d, e, special) && |e| == |d| + m + 1 && 0 < x < |e|
    requires 0 <= ca < |d| && 0 <= fb < |d| && !d[ca].content.Text? && !d[fb].content.Text?
    ensures var p := NewParent(d, ca, fb, m, x); 0 <= p < |e| && !e[p].content.Text?
  {
    hide TagIn;
  }

  lemma IsOneTree(d: Arena, e: Arena, special: set<(int, int)>)
    requires OneTree(d) && Grew(d, e, special)
    requires forall x :: 0 < x < |e| ==> 0 <= e[x].parent < |e| && !e[e[x].parent].content.Text?
    ensures OneTree(e)
  {
    hide TagIn;
  }

  lemma BlockIsElement(st: Start, special: set<(int, int)>, ca: int, fb: int)
    requires st.Valid() && Found(Of(st), special, st.w.fi, st.w.k) && Standing(Of(st), st.rank, special)
    requires st.Place() == Site(ca, if 0 <= fb < |st.d| then st.d[fb].parent else -1, fb)
    ensures 0 <= ca < |st.d| && 0 <= fb < |st.d| && !st.d[ca].content.Text? && !st.d[fb].content.Text?
  {
    StartFacts(st);
    hide Start.Valid, Upheld, Falling;
    assert Of(st).open[st.w.fi - 1] == ca && Of(st).open[st.w.k] == fb;
    if st.w.fi > 1 { assert Seated(st.d, Of(st).open[st.w.fi - 1], special); }
    assert Seated(st.d, Of(st).open[st.w.k], special);
    hide Seated;
  }

  /** A pass keeps the state rooted, with any ranking that keeps the old order. */
  lemma RootedAfter(st: Start, r: seq<int>, special: set<(int, int)>)
    requires Turned(st, r, special) && st.Valid() && Linked(st.Result()) && Ranked(st.Result(), r)
    ensures Rooted(StateAfter(st), r, special)
  {
    hide *;
    var m, ca, fb := TurnedFacts(st, r, special);
    StartFacts(st);
    FallingAfter(st, r, special);
    UpheldAfter(st, r, special);
    OneTreeAfter(st, r, special);
    StandingAfter(st, r, special, m, ca, fb);
    AgreesLater(st, special);
    TreeAfter(st);
    IsRooted(StateAfter(st), r, special);
  }

  lemma TreeAfter(st: Start)
    requires st.Valid()
    ensures StateAfter(st).d == st.Result()
  {
    hide Start.Valid, Start.Result;
  }

  lemma AgreesLater(st: Start, special: set<(int, int)>)
    requires st.Valid() && Agrees(st.w.open, st.w.list, 0) && NoneSpecial(st.d, st.w.list, special)
    requires Found(Of(st), special, st.w.fi, st.w.k)
    ensures var s := StateAfter(st);
            Agrees(s.open, s.list, 0) && Lists(|s.d|, s.open, s.list) && NoneSpecial(s.d, s.list, special)
  {
    StartFacts(st);
    BlockUnlisted(st.d, st.w.open, st.w.list, st.w.k, special);
    hide Start.Valid, Start.Result, FinalOpen, FinalList, NewFormatting, Agrees, NoneSpecial, Walk.Valid, Found, TagIn;
    AgreesAfter(st.w, 0);
    Above(st.w, 0);
    ListsAfter(st.w);
    NoneSpecialAfter(st, special);
    ResultNodes(st, special);
  }

  lemma StandingAfter(st: Start, r: seq<int>, special: set<(int, int)>, m: nat, ca: int, fb: int)
    requires Turned(st, r, special) && Numbered(st, r, m, ca, fb) && st.Valid() && st.w.Valid()
    requires NoneSpecial(st.d, st.w.list, special) && Found(Of(st), special, st.w.fi, st.w.k)
    requires 0 <= fb < |st.d| && st.Place() == Site(ca, st.d[fb].parent, fb) && 1 <= st.w.fi < st.w.k < |st.w.open|
    requires NewFormatting(st.w) == st.w.n + m && Standing(Of(st), st.rank, special)
    requires Falling(FinalOpen(st.w, NewFormatting(st.w)), r) && Upheld(StateAfter(st), r, special)
    ensures Standing(StateAfter(st), r, special)
  {
    var s, o := StateAfter(st), FinalOpen(st.w, NewFormatting(st.w));
    FrontSame(st.w, 0, NewFormatting(st.w));
    ResultNodes(st, special);
    hide Turned, Numbered, Start.Valid, Start.Result, FinalOpen, FinalList, NoneSpecial, Walk.Valid, Found, TagIn,
         Falling, Upheld, Seated, NewFormatting, Start.Place;
    forall p | 0 < p < |o| ensures Seated(s.d, o[p], special) { SeatedAfter(st, r, special, m, ca, fb, p); }
  }
}
