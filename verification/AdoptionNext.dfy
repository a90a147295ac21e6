/** What a pass of the adoption agency algorithm (gumbo-parser/src/parser.c) keeps, and what
    it leaves for the next pass. */
module AdoptionNext {
  import opened Sequences
  import opened Dom
  import opened AdoptionSurgery
  import opened AdoptionWalk
  import opened AdoptionOrder
  import opened AdoptionPass
  import opened AdoptionPath

  /** `e` grew out of `d`: old nodes keep their content, the ones without a parent stay the
      only ones, and below each of those stand the same text leaves in the same order. */
  ghost predicate Kept(d: Arena, rank: seq<int>, e: Arena, r: seq<int>) {
    && Ranked(d, rank) && Ranked(e, r) && |d| <= |e|
    && (forall x :: 0 <= x < |d| ==> e[x].content == d[x].content && (e[x].parent == -1 <==> d[x].parent == -1))
    && (forall x :: |d| <= x < |e| ==> e[x].parent != -1)
    && (forall x :: 0 <= x < |d| && d[x].parent == -1 ==> Leaves(e, r, x) == Leaves(d, rank, x))
  }

  lemma KeptTwice(d: Arena, r0: seq<int>, e: Arena, r1: seq<int>, f: Arena, r2: seq<int>)
    requires Kept(d, r0, e, r1) && Kept(e, r1, f, r2)
    ensures Kept(d, r0, f, r2)
  {}

  /** The theorem of AdoptionSurgery for the roots, for any pass. */
  lemma ChainPassKeeps(d: Arena, rank: seq<int>, chain: seq<int>, clones: seq<Label>, f: Label) returns (r: seq<int>)
    requires Linked(d) && Ranked(d, rank) && |chain| >= 3 && Chain(d, chain)
    requires !f.Text? && forall i :: 0 <= i < |clones| ==> !clones[i].Text?
    ensures GoodSite(d, rank, SiteOf(chain))
    ensures Linked(Surgery(d, SiteOf(chain), clones, f)) && Kept(d, rank, Surgery(d, SiteOf(chain), clones, f), r)
    ensures SameText(d, rank, chain, Surgery(d, SiteOf(chain), clones, f), r)
  {
    ChainSite(d, rank, chain);
    r := SurgeryWellFormed(d, rank, SiteOf(chain), clones, f);
    hide Chain, Linked, Ranked, GoodSite, Surgery;
    ChainPassText(d, rank, chain, clones, f, r, Surgery(d, SiteOf(chain), clones, f));
    hide Kept;
    KeptIf(d, rank, chain, Surgery(d, SiteOf(chain), clones, f), r);
  }

  ghost predicate SameText(d: Arena, rank: seq<int>, chain: seq<int>, e: Arena, r: seq<int>)
    requires Ranked(d, rank) && Ranked(e, r) && |d| <= |e|
  {
    forall x :: 0 <= x < |d| && (x !in chain || (|chain| > 0 && x == chain[0])) ==>
      Leaves(e, r, x) == Leaves(d, rank, x)
  }

  lemma ChainPassText(d: Arena, rank: seq<int>, chain: seq<int>, clones: seq<Label>, f: Label, r: seq<int>, e: Arena)
    requires Linked(d) && Ranked(d, rank) && |chain| >= 3 && Chain(d, chain) && GoodSite(d, rank, SiteOf(chain))
    requires !f.Text? && forall i :: 0 <= i < |clones| ==> !clones[i].Text?
    requires e == Surgery(d, SiteOf(chain), clones, f) && Ranked(e, r)
    ensures SameText(d, rank, chain, e, r)
  {
    hide Chain, Linked, Ranked, GoodSite, Surgery;
    var p := Pass(d, rank, chain, clones, f, r);
    forall x | 0 <= x < |d| && (x !in chain || x == chain[0]) ensures Leaves(e, r, x) == Leaves(d, rank, x) {
      SameLeaves(p, x);
    }
  }

  lemma KeptIf(d: Arena, rank: seq<int>, chain: seq<int>, e: Arena, r: seq<int>)
    requires Linked(d) && Ranked(d, rank) && Ranked(e, r) && |chain| > 0 && Chain(d, chain) && |d| <= |e|
    requires forall x :: 0 <= x < |d| ==> e[x].content == d[x].content && (e[x].parent == -1 <==> d[x].parent == -1)
    requires forall x :: |d| <= x < |e| ==> e[x].parent != -1
    requires SameText(d, rank, chain, e, r)
    ensures Kept(d, rank, e, r)
  {
    hide Linked, Ranked, Chain;
    forall x | 0 <= x < |d| && d[x].parent == -1 ensures Leaves(e, r, x) == Leaves(d, rank, x) {
      RootsOffChain(d, rank, chain, x);
    }
  }

  lemma RootsOffChain(d: Arena, rank: seq<int>, chain: seq<int>, x: int)
    requires Linked(d) && Ranked(d, rank) && Chain(d, chain) && 0 <= x < |d| && d[x].parent == -1
    ensures x !in chain || x == chain[0]
  {
    if x in chain && x != chain[0] {
      var i :| 0 <= i < |chain| && chain[i] == x;
      ChainRanks(d, rank, chain, 0, i);
      assert false;
    }
  }

  /** A pass keeps the tree, its roots and their text, whenever the furthest block is on the
      rightmost path below the common ancestor; below that the text keeps its order too. */
  lemma PassKeeps(st: Start, chain: seq<int>) returns (r: seq<int>)
    requires st.Valid() && |chain| >= 3 && Chain(st.d, chain) && SiteOf(chain) == st.Place()
    ensures Linked(st.Result()) && Kept(st.d, st.rank, st.Result(), r)
    ensures SameText(st.d, st.rank, chain, st.Result(), r)
  {
    NoText(st);
    ResultIs(st);
    SoundTree(st);
    hide Start.Valid, GoodSite, Surgery, Walk.Valid, Start.CloneLabels, Start.Result, NoRepeat, DistinctEntries, Kept,
         SameText, Chain, Linked, Ranked;
    r := ChainPassKeeps(st.d, st.rank, chain, st.CloneLabels(st.w.fi + 1), st.d[st.w.open[st.w.fi]].content);
  }

  lemma SoundTree(st: Start)
    requires st.Valid()
    ensures Linked(st.d) && Ranked(st.d, st.rank)
  {}

  // ----- the next pass -----

  /** Step 5: the last entry with the subject's tag behind the last marker, or -1. */
  function Candidate(d: Arena, list: seq<int>, tag: int): (r: int)
    requires forall i :: 0 <= i < |list| ==> -1 <= list[i] < |d|
    ensures -1 <= r < |list|
    ensures r != -1 ==> list[r] != -1 && HtmlTagIs(d[list[r]].content, tag)
    ensures r != -1 ==> forall j :: r < j < |list| ==> list[j] != -1 && !HtmlTagIs(d[list[j]].content, tag)
  {
    if list == [] || list[|list| - 1] == -1 then -1
    else if HtmlTagIs(d[list[|list| - 1]].content, tag) then |list| - 1
    else Candidate(d, list[..|list| - 1], tag)
  }

  lemma {:induction false} CandidateIs(d: Arena, list: seq<int>, tag: int, c: nat)
    requires c < |list| && forall i :: 0 <= i < |list| ==> -1 <= list[i] < |d|
    requires list[c] != -1 && HtmlTagIs(d[list[c]].content, tag)
    requires forall j :: c < j < |list| ==> list[j] != -1 && !HtmlTagIs(d[list[j]].content, tag)
    ensures Candidate(d, list, tag) == c
    decreases |list|
  {
    if c < |list| - 1 { CandidateIs(d, list[..|list| - 1], tag, c); }
  }

  /** The state the algorithm asks for: an orderly one, in which the formatting element step 5
      finds is not open, or open above `from` with the element below it on the path. */
  ghost predicate Ready(s: ParserState, rank: seq<int>, path: seq<int>, from: int, tag: int, special: set<(int, int)>) {
    && Orderly(s, rank, path, from, special)
    && Grounded(s, path, from, tag)
  }

  ghost predicate Grounded(s: ParserState, path: seq<int>, from: int, tag: int)
    requires Lists(|s.d|, s.open, s.list) && 0 <= from
  {
    var c := Candidate(s.d, s.list, tag);
    c != -1 && s.list[c] in s.open ==>
      from < IndexOf(s.open, s.list[c]) && s.open[IndexOf(s.open, s.list[c]) - 1] in path
  }

  /** Step 5 of the next pass finds the clone that this pass put there. */
  lemma CandidateAfter(w: Walk, d: Arena, e: Arena, tag: int)
    requires w.Valid() && Agrees(w.open, w.list, w.fi - 1) && |d| == w.n && |e| == NewFormatting(w) + 1
    requires forall x :: 0 <= x < |d| ==> e[x].content == d[x].content
    requires e[NewFormatting(w)].content == d[w.open[w.fi]].content
    requires IndexOf(w.list, w.open[w.fi]) == Candidate(d, w.list, tag)
    requires forall i :: 0 <= i < |FinalList(w)| ==> -1 <= FinalList(w)[i] < |e|
    ensures Candidate(e, FinalList(w), tag) == w.Mark(w.fi + 1) - 1 >= 0
    ensures FinalList(w)[Candidate(e, FinalList(w), tag)] == NewFormatting(w)
  {
    FormattingListed(w);
    Landed(w);
    TailBehind(w);
    hide FinalList, Walk.Form, Walk.Mark, Walk.Valid, NoRepeat, DistinctEntries, Agrees, HtmlTagIs, NewFormatting,
         Candidate, IndexOf, TailIn;
    CandidateMoves(d, e, w.list, tag, Candidate(d, w.list, tag), w.Form(w.fi + 1), FinalList(w), w.Mark(w.fi + 1));
  }

  lemma FormattingListed(w: Walk)
    requires w.Valid()
    ensures 0 <= IndexOf(w.list, w.open[w.fi]) < |w.list| && w.list[IndexOf(w.list, w.open[w.fi])] == w.open[w.fi]
    ensures forall i :: 0 <= i < |w.list| ==> -1 <= w.list[i] < w.n
  {}

  lemma CandidateMoves(d: Arena, e: Arena, list: seq<int>, tag: int, i: int, v: seq<int>, u: seq<int>, b: int)
    requires |d| <= |e| && (forall k :: 0 <= k < |list| ==> -1 <= list[k] < |d|) && i == Candidate(d, list, tag) != -1
    requires forall x :: 0 <= x < |d| ==> e[x].content == d[x].content
    requires 0 < b <= |v| == |u| && u[b..] == v[b..] && TailIn(v, b, list[i + 1..])
    requires forall k :: 0 <= k < |u| ==> -1 <= u[k] < |e|
    requires u[b - 1] != -1 && e[u[b - 1]].content == d[list[i]].content
    ensures Candidate(e, u, tag) == b - 1
  {
    hide HtmlTagIs;
    forall j | b - 1 < j < |u| ensures u[j] != -1 && !HtmlTagIs(e[u[j]].content, tag) {
      assert u[j] == u[b..][j - b] == v[b..][j - b] == v[j];
      var m :| 0 <= m < |list[i + 1..]| && list[i + 1..][m] == v[j];
      assert list[i + 1 + m] == v[j];
    }
    CandidateIs(e, u, tag, b - 1);
  }

  lemma TailBehind(w: Walk)
    requires w.Valid() && Agrees(w.open, w.list, w.fi - 1)
    ensures 0 < w.Mark(w.fi + 1)
    ensures TailIn(w.Form(w.fi + 1), w.Mark(w.fi + 1), w.list[IndexOf(w.list, w.open[w.fi]) + 1..])
  {
    hide Walk.Form, Walk.Mark, Agrees, NoRepeat, DistinctEntries, Tracked, Placed, InOrder, TailIn;
    Arrangement(w, w.fi - 1, w.fi + 1);
    MarkPositive(w, w.fi + 1);
  }

  /** A turn of the outer loop that found formatting element and furthest block, and where. */
  ghost predicate TurnTaken(s: ParserState, rank: seq<int>, path: seq<int>, from: int, tag: int,
                            special: set<(int, int)>, st: Start, a: int, b: int)
  {
    && OnPath(s, rank, path, from, special, st, a, b)
    && IndexOf(s.list, s.open[st.w.fi]) == Candidate(s.d, s.list, tag)
  }

  /** After a pass the algorithm may go round again. */
  lemma NextReady(s: ParserState, rank: seq<int>, path: seq<int>, from: int, tag: int, special: set<(int, int)>,
                  st: Start, a: int, b: int,
                  r: seq<int>)
    requires TurnTaken(s, rank, path, from, tag, special, st, a, b)
    requires st.Valid() && Linked(st.Result()) && Ranked(st.Result(), r)
    ensures 0 <= a < b < |path| && Ready(StateAfter(st), r, PathAfter(st, path, a, b), from, tag, special)
  {
    hide Orderly, OnPath, Start.Valid, StateAfter, PathAfter, Candidate, IndexOf, Lists, Grounded;
    OnPathFacts(s, rank, path, from, special, st, a, b);
    hide Sited, Agrees, NoneSpecial, Walk.Valid;
    OrderlyAfter(s, rank, path, from, special, st, a, b, r);
    GroundedAfter(st, path, from, tag, special, a, b);
  }

  lemma GroundedAfter(st: Start, path: seq<int>, from: int, tag: int, special: set<(int, int)>, a: int, b: int)
    requires st.Valid() && Sited(st.w, path, from, a, b) && NoneSpecial(st.d, st.w.list, special)
    requires st.w.Valid() && 0 <= from < st.w.fi < st.w.k < |st.w.open| && 0 <= a < b < |path| && |st.d| == st.w.n
    requires Agrees(st.w.open, st.w.list, st.w.fi - 1)
    requires IndexOf(st.w.list, st.w.open[st.w.fi]) == Candidate(st.d, st.w.list, tag)
    ensures var t := StateAfter(st); Lists(|t.d|, t.open, t.list) && Grounded(t, PathAfter(st, path, a, b), from, tag)
  {
    hide Start.Valid, FinalOpen, FinalList, Start.Result, NoneSpecial, Agrees, Sited, HtmlTagIs, Walk.Valid,
         Candidate, IndexOf, Grounded;
    ResultNodes(st, special);
    ListsAfter(st.w);
    InLists(|st.Result()|, FinalOpen(st.w, NewFormatting(st.w)), FinalList(st.w));
    NextCandidate(st.w, st.d, st.Result(), tag, special);
    NextGrounded(st.w, path, from, a, b);
    hide Lists, NewPath, BlockPosition, NewFormatting;
    GroundedIs(StateAfter(st), PathAfter(st, path, a, b), from, tag, NewFormatting(st.w), BlockPosition(st.w) + 1);
  }

  lemma InLists(n: nat, open: seq<int>, list: seq<int>)
    requires Lists(n, open, list)
    ensures forall i :: 0 <= i < |list| ==> -1 <= list[i] < n
  {}

  lemma NextCandidate(w: Walk, d: Arena, e: Arena, tag: int, special: set<(int, int)>)
    requires w.Valid() && Agrees(w.open, w.list, w.fi - 1) && |d| == w.n && |e| == NewFormatting(w) + 1
    requires Grew(d, e, special)
    requires e[NewFormatting(w)].content == d[w.open[w.fi]].content
    requires IndexOf(w.list, w.open[w.fi]) == Candidate(d, w.list, tag)
    requires forall i :: 0 <= i < |FinalList(w)| ==> -1 <= FinalList(w)[i] < |e|
    ensures Candidate(e, FinalList(w), tag) != -1 && FinalList(w)[Candidate(e, FinalList(w), tag)] == NewFormatting(w)
  {
    hide FinalList, NewFormatting, HtmlTagIs, Walk.Valid, Agrees;
    CandidateAfter(w, d, e, tag);
  }

  lemma GroundedIs(s: ParserState, path: seq<int>, from: int, tag: int, x: int, p: int)
    requires Lists(|s.d|, s.open, s.list) && 0 <= from < p < |s.open|
    requires Candidate(s.d, s.list, tag) != -1 && s.list[Candidate(s.d, s.list, tag)] == x
    requires IndexOf(s.open, x) == p && s.open[p - 1] in path
    ensures Grounded(s, path, from, tag)
  {}

  /** The new formatting element is right behind the furthest block, on the stack and on the path. */
  lemma NextGrounded(w: Walk, path: seq<int>, from: int, a: int, b: int)
    requires Sited(w, path, from, a, b)
    ensures w.Valid() && 0 <= a < b < |path|
    ensures var o, x := FinalOpen(w, NewFormatting(w)), NewFormatting(w);
            && IndexOf(o, x) == BlockPosition(w) + 1 && from < BlockPosition(w) + 1 < |o|
            && o[BlockPosition(w)] in NewPath(w.n, |w.Cloned(w.fi + 1)|, path, a, b)
  {
    StackDistinct(w);
    FinalStack(w, 0);
    var o, p := FinalOpen(w, NewFormatting(w)), BlockPosition(w);
    BlockStays(w, path, a, b);
    hide FinalOpen, Walk.Valid, NewFormatting, NewPath;
    IndexOfDistinct(o, p + 1);
  }

  lemma BlockStays(w: Walk, path: seq<int>, a: int, b: int)
    requires w.fi < w.k < |w.open| && 0 <= a < b < |path|
    ensures path[b] in NewPath(w.n, |w.Cloned(w.fi + 1)|, path, a, b)
  {}

  /** The ways out of the outer loop, and what each leaves of the stack and the list. */
  ghost predicate Stopped(s: ParserState, t: ParserState, tag: int, special: set<(int, int)>, scoping: set<(int, int)>)
    requires Lists(|s.d|, s.open, s.list)
  {
    var c := Candidate(s.d, s.list, tag);
    && t.d == s.d
    && if c == -1 then t.open == s.open && t.list == s.list
       else if s.list[c] !in s.open then t.open == s.open && t.list == RemoveAt(s.list, c)
       else if !InScope(s, tag, scoping) then t.open == s.open && t.list == s.list
       else
         var fi := IndexOf(s.open, s.list[c]);
         && t.open == s.open[..fi] && t.list == RemoveAt(s.list, c)
         && forall j :: fi <= j < |s.open| ==> !TagIn(s.d[s.open[j]].content, special)
  }

  ghost predicate InScope(s: ParserState, tag: int, scoping: set<(int, int)>)
    requires forall i :: 0 <= i < |s.open| ==> 0 <= s.open[i] < |s.d|
  {
    exists i :: 0 <= i < |s.open| && HtmlTagIs(s.d[s.open[i]].content, tag)
                && forall j :: i < j < |s.open| ==> !TagIn(s.d[s.open[j]].content, scoping)
  }

  /** What a turn finds: no formatting element; one that is not open, or not in scope; no
      furthest block; or both. */
  datatype Finding = Nothing | NotOpen | OutOfScope | NoBlock | Block

  ghost predicate Located(s: ParserState, tag: int, special: set<(int, int)>, scoping: set<(int, int)>,
                          what: Finding, index: int, at: int, k: int)
  {
    && Lists(|s.d|, s.open, s.list)
    && index == Candidate(s.d, s.list, tag)
    && (what == Nothing <==> index == -1)
    && (index != -1 ==>
          && at == IndexOf(s.open, s.list[index])
          && (what == NotOpen <==> at == -1)
          && (at != -1 ==> (what == OutOfScope <==> !InScope(s, tag, scoping)))
          && (at != -1 && InScope(s, tag, scoping) ==>
              && (what == NoBlock <==> k == -1)
              && (k != -1 ==> at <= k < |s.open| && TagIn(s.d[s.open[k]].content, special))
              && (forall j :: at <= j < (if k == -1 then |s.open| else k) ==> !TagIn(s.d[s.open[j]].content, special))))
  }

  lemma BlockFound(s: ParserState, rank: seq<int>, path: seq<int>, from: int, tag: int, special: set<(int, int)>,
                   scoping: set<(int, int)>, index: int, at: int, k: int)
    requires Ready(s, rank, path, from, tag, special) && Located(s, tag, special, scoping, Block, index, at, k)
    ensures 0 <= index < |s.list| && 1 <= at < k < |s.open| && s.list[index] == s.open[at]
    ensures TurnTaken(s, rank, path, from, tag, special, Start(s.d, rank, Walk(|s.d|, s.open, s.list, at, k)),
                      IndexOf(path, s.open[at - 1]), IndexOf(path, s.open[k]))
    ensures Start(s.d, rank, Walk(|s.d|, s.open, s.list, at, k)).Valid()
  {
    hide Linked, Ranked, Threaded, Agrees, Start.Valid, TagIn, OnPath, HtmlTagIs, NoRepeat, DistinctEntries;
    ReadyLists(s, rank, path, from, tag, special);
    BlockAbove(s, special, index, at, k);
    PassOnPath(s, rank, path, from, special, at, k);
    ListIndex(s.list, index);
    OnPathFacts(s, rank, path, from, special, Start(s.d, rank, Walk(|s.d|, s.open, s.list, at, k)),
                IndexOf(path, s.open[at - 1]), IndexOf(path, s.open[k]));
  }

  lemma BlockAbove(s: ParserState, special: set<(int, int)>, index: int, at: int, k: int)
    requires NoneSpecial(s.d, s.list, special) && 0 <= index < |s.list| && s.list[index] != -1
    requires 0 <= at <= k < |s.open|
    requires s.open[at] == s.list[index] && 0 <= s.open[k] < |s.d| && TagIn(s.d[s.open[k]].content, special)
    ensures at < k
  {}

  lemma ListIndex(list: seq<int>, index: nat)
    requires DistinctEntries(list) && index < |list| && list[index] != -1
    ensures IndexOf(list, list[index]) == index
  {
    EntryIndex(list, index);
  }

  lemma NoBlockFound(s: ParserState, tag: int, special: set<(int, int)>,
                     scoping: set<(int, int)>, what: Finding, index: int, at: int, k: int)
    requires Located(s, tag, special, scoping, what, index, at, k) && what != Nothing
    ensures 0 <= index < |s.list| && NoRepeat(s.open)
    ensures what == NoBlock ==>
              0 <= at < |s.open| && s.open[at] == s.list[index] && IndexOf(s.list, s.list[index]) == index
  {
    EntryIndex(s.list, index);
    hide DistinctEntries;
  }

  lemma StopsThere(s: ParserState, t: ParserState, tag: int, special: set<(int, int)>,
                   scoping: set<(int, int)>, what: Finding, index: int, at: int, k: int)
    requires Located(s, tag, special, scoping, what, index, at, k) && what != Block && t.d == s.d
    requires what == NotOpen || what == NoBlock ==> 0 <= index < |s.list| && t.list == RemoveAt(s.list, index)
    requires what == NoBlock ==> 0 <= at < |s.open| && t.open == s.open[..at]
    requires what != NoBlock ==> t.open == s.open
    requires what != NotOpen && what != NoBlock ==> t.list == s.list
    ensures Stopped(s, t, tag, special, scoping)
  {}

  lemma ReadyLists(s: ParserState, rank: seq<int>, path: seq<int>, from: int, tag: int, special: set<(int, int)>)
    requires Ready(s, rank, path, from, tag, special)
    ensures Lists(|s.d|, s.open, s.list) && Linked(s.d) && Kept(s.d, rank, s.d, rank)
    ensures Orderly(s, rank, path, from, special)
    ensures 0 <= from < |s.open| && 0 <= s.open[|s.open| - 1] < |s.d|
  {
    hide Linked, Ranked;
    KeptSelf(s.d, rank);
  }

  lemma {:induction false} FewClones(w: Walk, s: nat)
    requires s <= w.k < |w.open|
    ensures |w.Cloned(s)| <= 3 && |w.Cloned(s)| <= w.k - s
    decreases w.k - s
  {
    if s < w.k { FewClones(w, s + 1); }
  }

  lemma KeptSelf(d: Arena, rank: seq<int>)
    requires Ranked(d, rank)
    ensures Kept(d, rank, d, rank)
  {}

  lemma IsRanked(d0: Arena, rank0: seq<int>, d: Arena, rank: seq<int>)
    requires Kept(d0, rank0, d, rank)
    ensures Ranked(d, rank)
  {}

  /** A turn that ran a pass keeps the tree and may be followed by another. */
  lemma TurnKeeps(s: ParserState, rank: seq<int>, path: seq<int>, from: int, tag: int, special: set<(int, int)>,
                  st: Start, a: int, b: int)
    returns (r: seq<int>)
    requires TurnTaken(s, rank, path, from, tag, special, st, a, b)
    ensures st.Valid() && 0 <= a < b < |path| && st.w.fi < st.w.k < |st.w.open|
    ensures Linked(st.Result()) && Kept(s.d, rank, st.Result(), r) && |st.Result()| <= |s.d| + 4
    ensures Ready(StateAfter(st), r, PathAfter(st, path, a, b), from, tag, special)
  {
    hide TurnTaken, Chain, Linked, Ranked, Start.Valid, Start.Result, GoodSite, Kept, Ready, PathAfter, Orderly,
         Threaded, SameText, Sited, Agrees, NoneSpecial, Walk.Valid;
    TakenOnPath(s, rank, path, from, tag, special, st, a, b);
    OnPathFacts(s, rank, path, from, special, st, a, b);
    OnPathStart(s, rank, path, from, special, st, a, b);
    PlaceOnPath(s, rank, path, from, special, st, a, b);
    hide OnPath;
    ResultNodes(st, special);
    r := PassKeeps(st, path[a..b + 1]);
    IsRanked(s.d, rank, st.Result(), r);
    NextReady(s, rank, path, from, tag, special, st, a, b, r);
    FewClones(st.w, st.w.fi + 1);
  }

  lemma TakenOnPath(s: ParserState, rank: seq<int>, path: seq<int>, from: int, tag: int, special: set<(int, int)>,
                    st: Start, a: int, b: int)
    requires TurnTaken(s, rank, path, from, tag, special, st, a, b)
    ensures OnPath(s, rank, path, from, special, st, a, b)
  {
    hide OnPath;
  }

  lemma OnPathStart(s: ParserState, rank: seq<int>, path: seq<int>, from: int, special: set<(int, int)>, st: Start,
                    a: int, b: int)
    requires OnPath(s, rank, path, from, special, st, a, b)
    ensures st.rank == rank && a + 2 <= b && st.w.n == |s.d|
  {}

  // ----- the ways out -----

  /** Taking an entry off the list keeps the state orderly. */
  lemma Unlisted(s: ParserState, rank: seq<int>, path: seq<int>, from: int, special: set<(int, int)>, e: nat)
    requires Orderly(s, rank, path, from, special) && e < |s.list| && s.list[e] != -1
    ensures Orderly(s.(list := RemoveAt(s.list, e)), rank, path, from, special)
  {
    hide Linked, Ranked, Chain, TagIn;
    RemovedEntries(s.list, e);
    RemoveAgrees(s.open, s.list, e, from);
    Relisted(s, path, from, special, RemoveAt(s.list, e));
  }

  /** So does popping the stack down to an element of the path. */
  lemma Popped(s: ParserState, rank: seq<int>, path: seq<int>, from: int, special: set<(int, int)>, n: nat)
    requires Orderly(s, rank, path, from, special) && from < n <= |s.open| && s.open[n - 1] in path
    ensures Orderly(s.(open := s.open[..n]), rank, path[..IndexOf(path, s.open[n - 1]) + 1], from, special)
  {
    OnChain(s, path, from, special);
    hide Linked, Ranked, Threaded, TagIn, NoneSpecial, Chain, Lists, Agrees, NoRepeat, IndexOf;
    ChainDistinct(s.d, rank, path);
    PoppedThread(s, path, from, special, n, IndexOf(path, s.open[n - 1]));
    PoppedLists(|s.d|, s.open, s.list, from, n);
  }

  lemma OnChain(s: ParserState, path: seq<int>, from: int, special: set<(int, int)>)
    requires Threaded(s, path, from, special)
    ensures Chain(s.d, path)
  {
    hide Chain;
  }

  lemma PoppedLists(size: nat, open: seq<int>, list: seq<int>, from: int, n: nat)
    requires Lists(size, open, list) && Agrees(open, list, from) && n <= |open|
    ensures Lists(size, open[..n], list) && Agrees(open[..n], list, from)
  {
    assert forall p :: 0 <= p < n ==> open[..n][p] == open[p];
  }

  lemma PoppedThread(s: ParserState, path: seq<int>, from: int, special: set<(int, int)>, n: nat, i: int)
    requires Threaded(s, path, from, special) && from < n <= |s.open| && s.open[n - 1] in path
    requires i == IndexOf(path, s.open[n - 1])
    requires NoRepeat(path)
    ensures Threaded(s.(open := s.open[..n]), path[..i + 1], from, special)
  {
    hide TagIn, Strand, Agrees, NoRepeat;
    SubChain(s.d, path, 0, i + 1);
    assert path[0..i + 1] == path[..i + 1];
    PoppedAgrees(s.open, path, from, n, i);
    forall p | from < p < n ensures Strand(s.d, s.open[..n][p], s.list, path[..i + 1], special) {
      PoppedStrand(s, path, from, special, n, i, p);
    }
  }

  lemma PoppedAgrees(open: seq<int>, path: seq<int>, from: int, n: nat, i: int)
    requires 0 <= from < n <= |open| && 0 <= i < |path| && NoRepeat(path) && Agrees(open[from..], path, -1)
    ensures Agrees(open[..n][from..], path[..i + 1], -1)
  {
    hide Agrees, NoRepeat;
    AgreesPart(open[from..], path, 0, n - from, 0, i + 1);
    assert open[from..][0..n - from] == open[..n][from..] && path[0..i + 1] == path[..i + 1];
  }

  lemma PoppedStrand(s: ParserState, path: seq<int>, from: int, special: set<(int, int)>, n: nat, i: int, p: int)
    requires Threaded(s, path, from, special) && from < p < n <= |s.open| && s.open[n - 1] in path
    requires i == IndexOf(path, s.open[n - 1])
    ensures 0 <= p < |s.open| && Strand(s.d, s.open[p], s.list, path[..i + 1], special)
  {
    hide TagIn, Strand, Agrees, Chain;
    assert Strand(s.d, s.open[p], s.list, path, special);
    if p < n - 1 && s.open[p] in path { AgreesAt(s.open[from..], path, p - from, n - 1 - from); }
    CutStrand(s.d, s.open[p], s.list, path, i, special);
  }

  lemma CutStrand(d: Arena, x: int, list: seq<int>, path: seq<int>, i: int, special: set<(int, int)>)
    requires Strand(d, x, list, path, special) && 0 <= i < |path| && (x in path ==> IndexOf(path, x) <= i)
    ensures Strand(d, x, list, path[..i + 1], special)
  {
    InFront(path, i, x);
  }

  /** However the loop stops, the state is orderly again, along a path that was cut with the stack. */
  lemma StoppedOrderly(s: ParserState, t: ParserState, rank: seq<int>, path: seq<int>, from: int, tag: int,
                       special: set<(int, int)>,
                       scoping: set<(int, int)>) returns (path': seq<int>)
    requires Ready(s, rank, path, from, tag, special) && Stopped(s, t, tag, special, scoping)
    ensures Orderly(t, rank, path', from, special)
    ensures path == s.open[from..] ==> path' == t.open[from..]
  {
    hide Linked, Ranked, Threaded, Agrees, TagIn, HtmlTagIs, NoRepeat, DistinctEntries, NoneSpecial, InScope, Orderly;
    ReadyLists(s, rank, path, from, tag, special);
    path' := path;
    var c := Candidate(s.d, s.list, tag);
    if c != -1 && t.list != s.list {
      Unlisted(s, rank, path, from, special, c);
      var u := s.(list := RemoveAt(s.list, c));
      if t.open != s.open {
        var fi := IndexOf(s.open, s.list[c]);
        Popped(u, rank, path, from, special, fi);
        path' := path[..IndexOf(path, s.open[fi - 1]) + 1];
        if path == s.open[from..] { CutPath(s.open, path, from, fi); }
        assert t == u.(open := u.open[..fi]);
      } else {
        assert t == u;
      }
    } else {
      SameState(s, t, tag, special, scoping);
    }
  }

  lemma SameState(s: ParserState, t: ParserState, tag: int, special: set<(int, int)>, scoping: set<(int, int)>)
    requires Lists(|s.d|, s.open, s.list) && Stopped(s, t, tag, special, scoping)
    requires Candidate(s.d, s.list, tag) == -1 || t.list == s.list
    ensures t == s
  {}

  lemma CutPath(open: seq<int>, path: seq<int>, from: int, n: nat)
    requires 0 <= from < n <= |open| && path == open[from..] && NoRepeat(open)
    ensures path[..IndexOf(path, open[n - 1]) + 1] == open[..n][from..]
  {
    assert path[n - 1 - from] == open[n - 1];
    assert forall j :: 0 <= j < n - 1 - from ==> path[j] == open[from + j];
  }

  // ----- the turns of a whole call -----

  /** `st` is the turn the algorithm takes in state `s`: formatting element and furthest block
      are the ones steps 5 and 9 find. */
  ghost predicate TurnFrom(s: ParserState, tag: int, special: set<(int, int)>, st: Start) {
    && st.d == s.d && st.w.n == |s.d| && st.w.open == s.open && st.w.list == s.list
    && st.Valid()
    && IndexOf(s.list, s.open[st.w.fi]) == Candidate(s.d, s.list, tag)
    && TagIn(s.d[s.open[st.w.k]].content, special)
    && (forall j :: st.w.fi <= j < st.w.k ==> !TagIn(s.d[s.open[j]].content, special))
  }

  /** The state after `i` turns. */
  ghost function Reached(init: ParserState, turns: seq<Start>, i: nat): ParserState
    requires i <= |turns|
  {
    if i == 0 || !turns[i - 1].Valid() then init else StateAfter(turns[i - 1])
  }

  /** The turns follow each other. */
  ghost predicate Ran(init: ParserState, tag: int, special: set<(int, int)>, turns: seq<Start>) {
    forall i :: 0 <= i < |turns| ==> TurnFrom(Reached(init, turns, i), tag, special, turns[i])
  }

  lemma RanOne(init: ParserState, tag: int, special: set<(int, int)>, turns: seq<Start>, st: Start)
    requires Ran(init, tag, special, turns) && TurnFrom(Reached(init, turns, |turns|), tag, special, st)
    ensures st.Valid()
    ensures Ran(init, tag, special, turns + [st]) && Reached(init, turns + [st], |turns| + 1) == StateAfter(st)
  {
    hide Start.Valid, StateAfter, Candidate, TagIn, Reached, TurnFrom;
    FromValid(Reached(init, turns, |turns|), tag, special, st);
    StaysReached(init, turns, st);
    var all := turns + [st];
    forall i | 0 <= i < |all| ensures TurnFrom(Reached(init, all, i), tag, special, all[i]) {
      assert Reached(init, all, i) == Reached(init, turns, i);
    }
  }

  lemma FromValid(s: ParserState, tag: int, special: set<(int, int)>, st: Start)
    requires TurnFrom(s, tag, special, st)
    ensures st.Valid()
  {
    hide Start.Valid, Candidate, TagIn;
  }

  lemma StaysReached(init: ParserState, turns: seq<Start>, st: Start)
    ensures forall i :: 0 <= i <= |turns| ==> Reached(init, turns + [st], i) == Reached(init, turns, i)
    ensures st.Valid() ==> Reached(init, turns + [st], |turns| + 1) == StateAfter(st)
  {
    hide Start.Valid, StateAfter;
    var all := turns + [st];
    forall i | 0 <= i <= |turns| ensures Reached(init, all, i) == Reached(init, turns, i) {
      if i > 0 { assert all[i - 1] == turns[i - 1]; }
    }
  }

  /** How a call ends: after eight turns, or in a turn that found no furthest block. */
  ghost predicate Ended(init: ParserState, tag: int, special: set<(int, int)>, scoping: set<(int, int)>,
                        turns: seq<Start>,
                        handled: bool, end: ParserState)
  {
    var s := Reached(init, turns, |turns|);
    && Ran(init, tag, special, turns)
    && if handled then |turns| == 8 && end == s
       else |turns| < 8 && Lists(|s.d|, s.open, s.list) && Stopped(s, end, tag, special, scoping)
  }

  /** Step 1: the current node has the subject's tag and is not in the list. */
  ghost predicate JustPop(s: ParserState, tag: int) {
    && |s.open| > 0 && 0 <= s.open[|s.open| - 1] < |s.d| && HtmlTagIs(s.d[s.open[|s.open| - 1]].content, tag)
    && s.open[|s.open| - 1] !in s.list
  }
}
