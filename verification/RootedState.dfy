/** What every operation of the tree constructor (gumbo-parser/src/parser.c) keeps, whatever
    step 13.5 of the adoption agency algorithm or a removal from the middle of the stack did
    before: enough for the next pass to be well-defined. */
module RootedState {
  import opened Sequences
  import opened Dom
  import opened AdoptionSurgery
  import opened AdoptionWalk
  import opened AdoptionOrder
  import opened AdoptionPass
  import opened AdoptionPath

  /** Node 0 is the only one without a parent, and only elements have children. */
  ghost predicate OneTree(d: Arena) {
    && |d| > 0 && d[0].parent == -1
    && forall x :: 0 < x < |d| ==> 0 <= d[x].parent < |d| && !d[d[x].parent].content.Text?
  }

  /** No open element is below a later one. */
  ghost predicate Falling(open: seq<int>, rank: seq<int>) {
    && (forall i :: 0 <= i < |open| ==> 0 <= open[i] < |rank|)
    && (forall i, j :: 0 <= i < j < |open| ==> rank[open[j]] < rank[open[i]])
  }

  /** An open element has a parent; a special one is its last child. */
  ghost predicate Seated(d: Arena, x: int, special: set<(int, int)>) {
    Attached(d, x) && (TagIn(d[x].content, special) ==> LastChild(d, d[x].parent, x))
  }

  ghost predicate Firm(d: Arena, x: int, list: seq<int>, special: set<(int, int)>) {
    0 <= x < |d| && (x in list || TagIn(d[x].content, special))
  }

  /** The parent of `y` is `x`, or ranks lower. */
  ghost predicate Holds(d: Arena, rank: seq<int>, x: int, y: int) {
    && 0 <= y < |d| && 0 <= x < |rank| && 0 <= d[y].parent < |rank|
    && (d[y].parent == x || rank[d[y].parent] < rank[x])
  }

  /** The parent of a later open element is not above the special and the listed ones. */
  ghost predicate Upheld(s: ParserState, rank: seq<int>, special: set<(int, int)>) {
    forall p, q :: 0 <= p < q < |s.open| && Firm(s.d, s.open[p], s.list, special) ==>
      Holds(s.d, rank, s.open[p], s.open[q])
  }

  ghost predicate Standing(s: ParserState, rank: seq<int>, special: set<(int, int)>) {
    && |s.open| > 0 && 0 <= s.open[0] < |s.d| && TagIn(s.d[s.open[0]].content, special)
    && Falling(s.open, rank) && Upheld(s, rank, special)
    && forall p :: 0 < p < |s.open| ==> Seated(s.d, s.open[p], special)
  }

  /** The invariant. It names no path: open elements may have moved anywhere below the first. */
  ghost predicate Rooted(s: ParserState, rank: seq<int>, special: set<(int, int)>) {
    && Linked(s.d) && Ranked(s.d, rank) && OneTree(s.d)
    && Lists(|s.d|, s.open, s.list) && NoneSpecial(s.d, s.list, special) && Agrees(s.open, s.list, 0)
    && Standing(s, rank, special)
  }

  lemma RootedParts(s: ParserState, rank: seq<int>, special: set<(int, int)>)
    requires Rooted(s, rank, special)
    ensures Linked(s.d) && Ranked(s.d, rank) && OneTree(s.d) && Lists(|s.d|, s.open, s.list)
    ensures NoneSpecial(s.d, s.list, special) && Agrees(s.open, s.list, 0) && Standing(s, rank, special)
    ensures |s.open| > 0 && 0 <= s.open[|s.open| - 1] < |s.d| == |rank|
  {
    hide Linked, OneTree, NoneSpecial, Agrees, Upheld, Seated, TagIn, NoRepeat, DistinctEntries;
  }

  lemma IsRooted(s: ParserState, rank: seq<int>, special: set<(int, int)>)
    requires Linked(s.d) && Ranked(s.d, rank) && OneTree(s.d)
    requires Lists(|s.d|, s.open, s.list) && NoneSpecial(s.d, s.list, special) && Agrees(s.open, s.list, 0)
    requires Standing(s, rank, special)
    ensures Rooted(s, rank, special)
  {
    hide Linked, Ranked, OneTree, Lists, NoneSpecial, Agrees, Standing;
  }

  // ----- where a pass starts -----

  /** Formatting element and furthest block of a rooted state. */
  ghost predicate Found(s: ParserState, special: set<(int, int)>, fi: int, k: int) {
    && 1 <= fi < k < |s.open| && s.open[fi] in s.list
    && 0 <= s.open[k] < |s.d| && TagIn(s.d[s.open[k]].content, special)
    && (forall j :: fi <= j < k ==> 0 <= s.open[j] < |s.d| && !TagIn(s.d[s.open[j]].content, special))
  }

  /** A pass may start wherever steps 5 and 9 find something. */
  lemma PassStart(s: ParserState, rank: seq<int>, special: set<(int, int)>, fi: nat, k: nat)
    requires Rooted(s, rank, special) && Found(s, special, fi, k)
    ensures Start(s.d, rank, Walk(|s.d|, s.open, s.list, fi, k)).Valid()
  {
    hide Linked, Ranked, TagIn, GoodSite, NoneSpecial, Agrees, NoRepeat, DistinctEntries, Rooted, OneTree, Falling,
         Upheld, LastChild;
    RootedParts(s, rank, special);
    WalkStart(|s.d|, s.open, s.list, fi, k);
    BlockSite(s, rank, special, fi, k);
    hide Lists, Walk.Valid;
    forall j | fi <= j < k ensures Attached(s.d, s.open[j]) {
      assert Seated(s.d, s.open[j], special);
    }
    assert Seated(s.d, s.open[k], special);
  }

  /** The formatting element is above the furthest block, and the common ancestor above it. */
  lemma BlockSite(s: ParserState, rank: seq<int>, special: set<(int, int)>, fi: nat, k: nat)
    requires Linked(s.d) && Ranked(s.d, rank) && Standing(s, rank, special) && Found(s, special, fi, k)
    ensures 0 <= s.open[fi - 1] < |s.d| && 0 <= s.open[fi] < |s.d|
    ensures GoodSite(s.d, rank, Site(s.open[fi - 1], s.d[s.open[k]].parent, s.open[k]))
  {
    var f, fb := s.open[fi], s.open[k];
    IsRankedSize(s.d, rank);
    assert Firm(s.d, f, s.list, special);
    assert Holds(s.d, rank, f, fb) && Seated(s.d, fb, special);
    ParentHigher(s.d, rank, fb);
    hide Linked, Ranked, TagIn;
  }

  lemma IsRankedSize(d: Arena, rank: seq<int>)
    requires Ranked(d, rank)
    ensures |rank| == |d|
  {}

  lemma FoundFrom(s: ParserState, rank: seq<int>, special: set<(int, int)>, index: int, at: int, k: int)
    requires Rooted(s, rank, special) && 0 <= index < |s.list| && s.list[index] != -1
    requires 0 <= at <= k < |s.open| && s.open[at] == s.list[index] && TagIn(s.d[s.open[k]].content, special)
    requires forall j :: at <= j < k ==> !TagIn(s.d[s.open[j]].content, special)
    ensures Found(s, special, at, k)
  {
    RootedParts(s, rank, special);
    hide Linked, Ranked, TagIn, Agrees, NoRepeat, DistinctEntries, OneTree, Upheld, Falling, Seated;
    assert !TagIn(s.d[s.list[index]].content, special);
  }
}
