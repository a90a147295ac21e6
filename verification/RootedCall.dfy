/** A whole call of the adoption agency algorithm (gumbo-parser/src/parser.c:1792-2033) from a
    rooted state. */
module RootedCall {
  import opened Sequences
  import opened Dom
  import opened AdoptionSurgery
  import opened AdoptionWalk
  import opened AdoptionOrder
  import opened AdoptionPass
  import opened AdoptionPath
  import opened AdoptionNext
  import opened AdoptionDrift
  import opened Formatting
  import opened NoahPass
  import opened Reconstruction
  import opened RootedState
  import opened RootedPass
  import opened RootedText
  import opened RootedOps

  /** The path is the stack from `from` on. */
  predicate IsStack(path: seq<int>, open: seq<int>, from: int) {
    0 <= from < |open| && path == open[from..]
  }

  lemma StackGrows(path: seq<int>, open: seq<int>, from: int, more: seq<int>)
    requires IsStack(path, open, from)
    ensures IsStack(path + more, open + more, from)
  {
    assert (open + more)[from..] == open[from..] + more;
  }

  /** The stack is along a path, and the element below the formatting element that step 5 finds
      is on it, if that is open at all. */
  ghost predicate OnTrack(s: ParserState, rank: seq<int>, path: seq<int>, from: int, tag: int,
                          special: set<(int, int)>)
  {
    && Orderly(s, rank, path, from, special)
    && (JustPop(s, tag) || Grounded(s, path, from, tag))
  }

  /** The texts that the turns of a call moved. */
  ghost function MovedText(turns: seq<Start>): seq<int> {
    if turns == [] then [] else
      var st := turns[|turns| - 1];
      MovedText(turns[..|turns| - 1]) + if st.Valid() then TurnText(st) else []
  }

  lemma MovedMore(turns: seq<Start>, st: Start)
    requires st.Valid()
    ensures MovedText(turns + [st]) == MovedText(turns) + TurnText(st)
  {
    assert (turns + [st])[..|turns|] == turns;
    hide Start.Valid, TurnText;
  }

  /** Steps 5 and 9 have found something. */
  lemma FoundBlock(s: ParserState, rank: seq<int>, tag: int, special: set<(int, int)>, scoping: set<(int, int)>,
                   index: int, at: int, k: int)
    requires Rooted(s, rank, special) && Located(s, tag, special, scoping, Block, index, at, k)
    ensures 0 <= index < |s.list| && 0 <= at < k < |s.open| && s.list[index] == s.open[at]
    ensures var st := Start(s.d, rank, Walk(|s.d|, s.open, s.list, at, k));
            st.Valid() && TurnFrom(s, tag, special, st) && Found(s, special, at, k)
  {
    hide Rooted, TagIn, Start.Valid, InScope, HtmlTagIs, NoRepeat, DistinctEntries;
    FoundFrom(s, rank, special, index, at, k);
    PassStart(s, rank, special, at, k);
    ListIndex(s.list, index);
  }

  /** Such a turn, and a ranking of the tree it leaves. */
  lemma IsTurned(s: ParserState, rank: seq<int>, tag: int, special: set<(int, int)>, st: Start) returns (r: seq<int>)
    requires Rooted(s, rank, special) && TurnFrom(s, tag, special, st) && st.rank == rank
    ensures st.Valid() && Linked(st.Result()) && Ranked(st.Result(), r) && Turned(st, r, special)
    ensures |st.Result()| <= |s.d| + 4
  {
    hide Rooted, Found, Start.Valid, Start.Result, TurnFrom, Spaced, NewFormatting, Linked, Ranked, Walk.Cloned;
    TurnPlaces(s, tag, special, st);
    r := Reranked(st);
    assert Of(st) == s;
    FewClones(st.w, st.w.fi + 1);
  }

  lemma TurnPlaces(s: ParserState, tag: int, special: set<(int, int)>, st: Start)
    requires TurnFrom(s, tag, special, st)
    ensures st.Valid() && st.d == s.d && st.w.open == s.open && st.w.list == s.list && st.w.fi < st.w.k < |s.open|
    ensures Found(s, special, st.w.fi, st.w.k)
  {
    StartFacts(st);
    FormattingListed(st.w);
    hide TagIn, GoodSite, NoRepeat, DistinctEntries, Candidate;
  }

  lemma Reranked(st: Start) returns (r: seq<int>)
    requires st.Valid()
    ensures Linked(st.Result()) && Ranked(st.Result(), r)
    ensures st.w.fi < st.w.k < |st.w.open| && |st.Result()| == |st.d| + |st.w.Cloned(st.w.fi + 1)| + 1
    ensures Spaced(st.rank, r, st.w.open[st.w.k], |st.w.Cloned(st.w.fi + 1)|)
  {
    StartFacts(st);
    ResultIs(st);
    ResultSite(st);
    hide Start.Valid, Start.Result, GoodSite, Spaced, Linked, Ranked;
    r := SurgeryWellFormed(st.d, st.rank, st.Place(), st.CloneLabels(st.w.fi + 1), st.d[st.w.open[st.w.fi]].content);
  }

  predicate SameFirst(open: seq<int>, open': seq<int>) {
    |open| > 0 && |open'| > 0 && open'[0] == open[0]
  }

  /** What is so after some turns of a call that began in state `init`. */
  ghost predicate Underway(init: ParserState, rank0: seq<int>, s: ParserState, rank: seq<int>, tag: int,
                           special: set<(int, int)>, turns: seq<Start>)
  {
    && Rooted(s, rank, special) && SameFirst(init.open, s.open)
    && Stirred(init.d, rank0, s.d, rank, MovedText(turns))
    && |s.d| <= |init.d| + 4 * |turns| && (Ark(init.d, init.list) ==> Ark(s.d, s.list))
    && Ran(init, tag, special, turns) && Reached(init, turns, |turns|) == s
  }

  lemma NothingYet(s: ParserState, rank: seq<int>, tag: int, special: set<(int, int)>)
    requires Rooted(s, rank, special)
    ensures Underway(s, rank, s, rank, tag, special, [])
  {
    RootedParts(s, rank, special);
    hide Rooted, Stirred, Ark;
    StirredNot(s.d, rank);
  }

  /** One more turn that ran a pass. */
  lemma OneMore(init: ParserState, rank0: seq<int>, s: ParserState, rank: seq<int>, tag: int, special: set<(int, int)>,
                turns: seq<Start>, st: Start)
    returns (r: seq<int>)
    requires Underway(init, rank0, s, rank, tag, special, turns) && TurnFrom(s, tag, special, st) && st.rank == rank
    ensures st.Valid() && Underway(init, rank0, StateAfter(st), r, tag, special, turns + [st])
  {
    hide Rooted, Stirred, TurnFrom, Ran, Reached, MovedText, Turned, Start.Valid, Start.Result, Linked, Ranked,
         TurnText, FinalOpen, FinalList, NewFormatting, Ark;
    r := IsTurned(s, rank, tag, special, st);
    RootedAfter(st, r, special);
    PassStirs(st, r, special);
    MovedMore(turns, st);
    TurnPlaces(s, tag, special, st);
    StartFacts(st);
    FrontSame(st.w, 0, NewFormatting(st.w));
    StirredTwice(init.d, rank0, s.d, rank, st.Result(), r, MovedText(turns), TurnText(st));
    RanOne(init, tag, special, turns, st);
    if Ark(s.d, s.list) { TurnKeepsArk(s, rank, tag, special, st); }
  }

  lemma TurnKeepsArk(s: ParserState, rank: seq<int>, tag: int, special: set<(int, int)>, st: Start)
    requires Rooted(s, rank, special) && TurnFrom(s, tag, special, st) && Ark(s.d, s.list)
    ensures st.Valid() && Ark(st.Result(), FinalList(st.w))
  {
    hide *;
    RootedParts(s, rank, special);
    TurnPlaces(s, tag, special, st);
    StartFacts(st);
    TurnSegment(s, tag, special, st);
    Above(st.w, 0);
    NoneEver(s.d, s.list, special);
    PassArk(st);
  }

  lemma NoneEver(d: Arena, list: seq<int>, special: set<(int, int)>)
    requires NoneSpecial(d, list, special)
    ensures NoneSpecial(d, list, {})
  {}

  /** The ways out keep the state rooted. */
  lemma StoppedRooted(s: ParserState, t: ParserState, rank: seq<int>, tag: int, special: set<(int, int)>,
                      scoping: set<(int, int)>)
    requires Rooted(s, rank, special) && Lists(|s.d|, s.open, s.list) && Stopped(s, t, tag, special, scoping)
    ensures Rooted(t, rank, special) && SameFirst(s.open, t.open)
  {
    RootedParts(s, rank, special);
    hide Rooted, TagIn, HtmlTagIs, NoRepeat, DistinctEntries, InScope;
    var c := Candidate(s.d, s.list, tag);
    if c == -1 || t.list == s.list {
      SameState(s, t, tag, special, scoping);
    } else {
      UnlistedRooted(s, rank, special, c);
      var u := s.(list := RemoveAt(s.list, c));
      if t.open != s.open {
        var fi := IndexOf(s.open, s.list[c]);
        NotFirst(s, rank, special, c);
        CutStack(u, rank, special, fi);
        assert t == u.(open := u.open[..fi]);
      } else {
        assert t == u;
      }
    }
  }

  /** The first element is not in the list. */
  lemma NotFirst(s: ParserState, rank: seq<int>, special: set<(int, int)>, c: nat)
    requires Rooted(s, rank, special) && c < |s.list| && s.list[c] != -1
    ensures |s.open| > 0 && s.list[c] != s.open[0]
  {
    RootedParts(s, rank, special);
    hide Rooted, TagIn, Agrees, Lists, Linked, Ranked, OneTree, Upheld, Falling, Seated;
    assert !TagIn(s.d[s.list[c]].content, special);
  }

  lemma RootedEnd(s: ParserState, rank: seq<int>, special: set<(int, int)>)
    requires Rooted(s, rank, special)
    ensures Linked(s.d) && Lists(|s.d|, s.open, s.list) && |s.open| > 0 && 0 <= s.open[|s.open| - 1] < |s.d|
    ensures NoneSpecial(s.d, s.list, special)
  {
    hide Rooted, Linked, Ranked, OneTree, Agrees, Standing, Lists, NoneSpecial;
    RootedParts(s, rank, special);
  }

  lemma ReopeningEnds(s: ParserState, t: ParserState, r: seq<int>, start: nat, special: set<(int, int)>)
    requires Rooted(t, r, special) && Waiting(s.open, s.list, start) && Reopening(s, t, start, |s.list|)
    requires start > 0 ==> s.list[start - 1] == -1 || s.list[start - 1] in s.open
    ensures Reopened(s, t, start) && start <= |t.list| == |s.list| && t.list[..start] == s.list[..start]
    ensures t.open == s.open + t.list[start..]
    ensures t.list != [] ==> t.list[|t.list| - 1] == -1 || t.list[|t.list| - 1] in t.open
  {
    hide Rooted, Waiting, HungInTurn, Replaced, Linked, Lists, NoneSpecial;
    RootedEnd(t, r, special);
    ReplacedAll(|s.d|, s.open, s.list, t.open, t.list, start);
  }

  // ----- the call -----

  /** Step 13.5 took nothing in any turn. */
  ghost predicate NeverKept(turns: seq<Start>) {
    forall i :: 0 <= i < |turns| ==> turns[i].w.k < |turns[i].w.open| && NoneKept(turns[i].w, turns[i].w.fi + 1)
  }

  lemma NeverKeptButLast(turns: seq<Start>, st: Start)
    requires NeverKept(turns + [st])
    ensures NeverKept(turns) && st.w.k < |st.w.open| && NoneKept(st.w, st.w.fi + 1)
  {
    var all := turns + [st];
    assert all[|turns|] == st;
    assert forall i :: 0 <= i < |turns| ==> all[i] == turns[i];
  }

  /** The path stays the stack. */
  lemma PathStaysStack(s: ParserState, rank: seq<int>, path: seq<int>, from: int, tag: int, special: set<(int, int)>,
                       st: Start, a: int, b: int)
    requires TurnTaken(s, rank, path, from, tag, special, st, a, b) && 0 <= from <= |s.open| && path == s.open[from..]
    requires st.w.k < |st.w.open| && NoneKept(st.w, st.w.fi + 1)
    ensures 0 <= a < b < |path| && from <= |FinalOpen(st.w, NewFormatting(st.w))|
    ensures PathAfter(st, path, a, b) == FinalOpen(st.w, NewFormatting(st.w))[from..]
  {
    hide OnPath, NoneKept, FinalOpen, NewPath, NewFormatting, Start.Valid, TurnTaken, Sited, Walk.Valid, NoneSpecial,
         Agrees;
    TakenOnPath(s, rank, path, from, tag, special, st, a, b);
    OnPathFacts(s, rank, path, from, special, st, a, b);
    SitedIndices(st.w, path, from, a, b);
    PathIsStack(st.w, path, from, a, b);
    FrontSame(st.w, from, NewFormatting(st.w));
  }

  lemma SitedIndices(w: Walk, path: seq<int>, from: int, a: int, b: int)
    requires Sited(w, path, from, a, b) && path == w.open[from..]
    ensures a == w.fi - 1 - from && b == w.k - from
  {
    assert path[w.fi - 1 - from] == w.open[w.fi - 1] && path[w.k - from] == w.open[w.k];
  }

  lemma IsReady(s: ParserState, rank: seq<int>, path: seq<int>, from: int, tag: int, special: set<(int, int)>)
    requires Orderly(s, rank, path, from, special) && Lists(|s.d|, s.open, s.list) && 0 <= from
    requires Grounded(s, path, from, tag)
    ensures Ready(s, rank, path, from, tag, special)
  {}

  lemma IsOrderly(s: ParserState, rank: seq<int>, path: seq<int>, from: int, special: set<(int, int)>)
    requires Orderly(s, rank, path, from, special)
    ensures Linked(s.d) && Kept(s.d, rank, s.d, rank) && Lists(|s.d|, s.open, s.list)
    ensures 0 <= from < |s.open| && 0 <= s.open[|s.open| - 1] < |s.d| && Lists(|s.d|, s.open[..|s.open| - 1], s.list)
  {
    hide Linked, Ranked, DistinctEntries;
    KeptSelf(s.d, rank);
  }

  /** Step 1 cuts the path with the stack. */
  lemma PoppedPath(s: ParserState, rank: seq<int>, path: seq<int>, from: int, special: set<(int, int)>)
    returns (path': seq<int>)
    requires Orderly(s, rank, path, from, special) && |s.open| > 0
    ensures from < |s.open| - 1 && s.open[|s.open| - 2] in path ==>
              Orderly(s.(open := s.open[..|s.open| - 1]), rank, path', from, special)
    ensures from < |s.open| - 1 && 0 <= from && path == s.open[from..] ==> path' == s.open[..|s.open| - 1][from..]
  {
    hide Orderly, Linked, Ranked, Chain, Kept, Lists, NoRepeat, IndexOf;
    var n := |s.open| - 1;
    path' := path;
    IsOrderly(s, rank, path, from, special);
    OrderlyEnd(s, rank, path, from, special);
    if from < n {
      if path == s.open[from..] { assert path[n - 1 - from] == s.open[n - 1]; }
      if s.open[n - 1] in path {
        Popped(s, rank, path, from, special, n);
        path' := path[..IndexOf(path, s.open[n - 1]) + 1];
        if path == s.open[from..] { CutPath(s.open, path, from, n); }
      }
    }
  }


  /** What is so after some turns of a call that started on a path `path0`. */
  ghost predicate Following(init: ParserState, rank0: seq<int>, path0: seq<int>, s: ParserState, rank: seq<int>,
                            path: seq<int>, from: int, tag: int, special: set<(int, int)>, turns: seq<Start>)
  {
    && Ready(s, rank, path, from, tag, special) && Kept(init.d, rank0, s.d, rank) && 0 <= from < |s.open|
    && (IsStack(path0, init.open, from) && NeverKept(turns) ==> IsStack(path, s.open, from))
  }

  lemma IsJustPop(s: ParserState, tag: int, listed: int)
    requires |s.open| > 0 && 0 <= s.open[|s.open| - 1] < |s.d| && listed == IndexOf(s.list, s.open[|s.open| - 1])
    ensures JustPop(s, tag) <==> HtmlTagIs(s.d[s.open[|s.open| - 1]].content, tag) && listed == -1
  {}

  /** A call that just pops the current node. */
  lemma PoppedCall(s: ParserState, rank: seq<int>, path: seq<int>, from: int, tag: int, special: set<(int, int)>,
                   onTrack: bool)
    returns (path': seq<int>)
    requires Rooted(s, rank, special) && |s.open| > 0 && (onTrack ==> OnTrack(s, rank, path, from, tag, special))
    ensures var t := s.(open := s.open[..|s.open| - 1]);
            && (t.open != [] ==> Rooted(t, rank, special)) && Linked(t.d) && Lists(|t.d|, t.open, t.list)
            && Stirred(s.d, rank, t.d, rank, MovedText([]))
            && (onTrack ==> Kept(s.d, rank, t.d, rank))
            && (onTrack && from < |t.open| && t.open[|t.open| - 1] in path ==> Orderly(t, rank, path', from, special))
            && (onTrack && from < |t.open| && IsStack(path, s.open, from) ==> IsStack(path', t.open, from))
  {
    hide Rooted, Orderly, Linked, Ranked, OneTree, Agrees, Standing, NoneSpecial, Kept, Stirred, JustPop, Grounded;
    RootedParts(s, rank, special);
    StirredNot(s.d, rank);
    PoppedLists(|s.d|, s.open, s.list, 0, |s.open| - 1);
    if |s.open| > 1 { CutStack(s, rank, special, |s.open| - 1); }
    path' := path;
    if onTrack {
      IsOrderly(s, rank, path, from, special);
      path' := PoppedPath(s, rank, path, from, special);
    }
  }

  lemma OnTheWay(s: ParserState, rank: seq<int>, path: seq<int>, from: int, tag: int, special: set<(int, int)>,
                 onTrack: bool)
    requires !JustPop(s, tag) && (onTrack ==> OnTrack(s, rank, path, from, tag, special))
    ensures onTrack ==> Following(s, rank, path, s, rank, path, from, tag, special, [])
  {
    hide Orderly, Grounded, Kept, Linked, JustPop;
    if onTrack {
      IsOrderly(s, rank, path, from, special);
      IsReady(s, rank, path, from, tag, special);
    }
  }

  lemma StillRooted(init: ParserState, rank0: seq<int>, s: ParserState, rank: seq<int>, tag: int,
                    special: set<(int, int)>, turns: seq<Start>)
    requires Underway(init, rank0, s, rank, tag, special, turns)
    ensures Rooted(s, rank, special)
  {
    hide Rooted, Stirred, Ran, Reached, MovedText, Ark;
  }

  lemma ReadyReranked(s: ParserState, rank: seq<int>, r: seq<int>, path: seq<int>, from: int, tag: int,
                      special: set<(int, int)>)
    requires Ready(s, rank, path, from, tag, special) && Ranked(s.d, r)
    ensures Ready(s, r, path, from, tag, special)
  {
    hide Linked, Ranked, Lists, Threaded, Agrees, NoneSpecial;
  }

  lemma KeptReranked(d: Arena, rank: seq<int>, e: Arena, r: seq<int>, r': seq<int>)
    requires Kept(d, rank, e, r) && Ranked(e, r')
    ensures Kept(d, rank, e, r')
  {
    forall x | 0 <= x < |d| && d[x].parent == -1 ensures Leaves(e, r', x) == Leaves(d, rank, x) {
      LeavesUnique(e, r, r', x);
    }
  }

  /** One more turn, on the path. */
  lemma FollowedTurn(init: ParserState, rank0: seq<int>, path0: seq<int>, s: ParserState, rank: seq<int>,
                     path: seq<int>, from: int, tag: int, special: set<(int, int)>, turns: seq<Start>, st: Start,
                     a: int, b: int, r: seq<int>)
    returns (path': seq<int>)
    requires Following(init, rank0, path0, s, rank, path, from, tag, special, turns)
    requires TurnTaken(s, rank, path, from, tag, special, st, a, b) && st.Valid() && Ranked(st.Result(), r)
    ensures Following(init, rank0, path0, StateAfter(st), r, path', from, tag, special, turns + [st])
  {
    hide Ready, Kept, TurnTaken, FinalOpen, FinalList, Start.Valid, Start.Result, NewFormatting, PathAfter, NeverKept,
         NoneKept, Ranked, Linked;
    var r1 := TurnKeeps(s, rank, path, from, tag, special, st, a, b);
    ReadyReranked(StateAfter(st), r1, r, PathAfter(st, path, a, b), from, tag, special);
    KeptReranked(s.d, rank, st.Result(), r1, r);
    KeptTwice(init.d, rank0, s.d, rank, st.Result(), r);
    path' := PathAfter(st, path, a, b);
    ReadyLists(StateAfter(st), r, path', from, tag, special);
    if IsStack(path0, init.open, from) && NeverKept(turns + [st]) {
      NeverKeptButLast(turns, st);
      PathStaysStack(s, rank, path, from, tag, special, st, a, b);
    }
  }

  /** One more turn of the outer loop, which ran a pass. */
  lemma AfterTurn(init: ParserState, rank0: seq<int>, path0: seq<int>, s: ParserState, rank: seq<int>, path: seq<int>,
                  from: int, tag: int, special: set<(int, int)>, turns: seq<Start>, st: Start, a: int, b: int,
                  after: ParserState, onTrack: bool)
    returns (r: seq<int>, path': seq<int>, turns': seq<Start>)
    requires Underway(init, rank0, s, rank, tag, special, turns) && TurnFrom(s, tag, special, st) && st.rank == rank
    requires onTrack ==> Following(init, rank0, path0, s, rank, path, from, tag, special, turns)
    requires onTrack && Ready(s, rank, path, from, tag, special) ==>
               TurnTaken(s, rank, path, from, tag, special, st, a, b)
    requires st.Valid() && after == StateAfter(st)
    ensures Underway(init, rank0, after, r, tag, special, turns') && turns' == turns + [st]
    ensures onTrack ==> Following(init, rank0, path0, after, r, path', from, tag, special, turns')
  {
    hide Underway, TurnFrom, Ready, Kept, TurnTaken, Start.Valid, StateAfter, NeverKept, IsStack;
    r := OneMore(init, rank0, s, rank, tag, special, turns, st);
    turns', path' := turns + [st], path;
    if onTrack {
      IsUnderway(init, rank0, after, r, tag, special, turns');
      TreeAfter(st);
      path' := FollowedTurn(init, rank0, path0, s, rank, path, from, tag, special, turns, st, a, b, r);
    }
  }

  lemma IsUnderway(init: ParserState, rank0: seq<int>, s: ParserState, rank: seq<int>, tag: int,
                   special: set<(int, int)>, turns: seq<Start>)
    requires Underway(init, rank0, s, rank, tag, special, turns)
    ensures Linked(s.d) && Ranked(s.d, rank) && Lists(|s.d|, s.open, s.list) && Rooted(s, rank, special)
    ensures Stirred(init.d, rank0, s.d, rank, MovedText(turns)) && |s.d| <= |init.d| + 4 * |turns|
    ensures Ark(init.d, init.list) ==> Ark(s.d, s.list)
    ensures Ran(init, tag, special, turns) && Reached(init, turns, |turns|) == s && SameFirst(init.open, s.open)
  {
    hide Rooted, Stirred, Ran, Reached, MovedText, Linked, Ranked, Lists, OneTree, NoneSpecial, Agrees, Standing, Ark;
    RootedParts(s, rank, special);
  }

  lemma FollowingOrderly(init: ParserState, rank0: seq<int>, path0: seq<int>, s: ParserState, rank: seq<int>,
                         path: seq<int>, from: int, tag: int, special: set<(int, int)>, turns: seq<Start>)
    requires Following(init, rank0, path0, s, rank, path, from, tag, special, turns)
    ensures Kept(init.d, rank0, s.d, rank) && Ready(s, rank, path, from, tag, special)
    ensures Orderly(s, rank, path, from, special) && 0 <= from < |s.open|
    ensures IsStack(path0, init.open, from) && NeverKept(turns) ==> IsStack(path, s.open, from)
  {
    hide Ready, Kept, NeverKept, IsStack, Linked, Orderly, Lists;
    ReadyLists(s, rank, path, from, tag, special);
  }

  /** What a call leaves behind, and how it ended. */
  ghost predicate Left(init: ParserState, rank0: seq<int>, path0: seq<int>, t: ParserState, r: seq<int>,
                       path: seq<int>, from: int, tag: int, special: set<(int, int)>, scoping: set<(int, int)>,
                       turns: seq<Start>, handled: bool, onTrack: bool)
  {
    && Rooted(t, r, special) && SameFirst(init.open, t.open)
    && Linked(t.d) && Lists(|t.d|, t.open, t.list) && |t.d| <= |init.d| + 32
    && Stirred(init.d, rank0, t.d, r, MovedText(turns)) && Ended(init, tag, special, scoping, turns, handled, t)
    && (Ark(init.d, init.list) ==> Ark(t.d, t.list))
    && (onTrack ==>
          && Kept(init.d, rank0, t.d, r) && Orderly(t, r, path, from, special)
          && (IsStack(path0, init.open, from) && NeverKept(turns) ==> IsStack(path, t.open, from)))
  }

  /** A call that ended in a turn without a furthest block, */
  lemma StoppedCall(init: ParserState, rank0: seq<int>, path0: seq<int>, s: ParserState, t: ParserState,
                    rank: seq<int>, path: seq<int>, from: int, tag: int, special: set<(int, int)>,
                    scoping: set<(int, int)>, turns: seq<Start>, onTrack: bool)
    returns (path': seq<int>)
    requires Underway(init, rank0, s, rank, tag, special, turns) && |turns| < 8
    requires onTrack ==> Following(init, rank0, path0, s, rank, path, from, tag, special, turns)
    requires Lists(|s.d|, s.open, s.list) && Stopped(s, t, tag, special, scoping)
    ensures Left(init, rank0, path0, t, rank, path', from, tag, special, scoping, turns, false, onTrack)
  {
    hide Underway, Following, Rooted, Orderly, Kept, Stirred, Ran, Reached, Stopped, Linked, Ranked, Lists, MovedText,
         NeverKept, Ready, Ark;
    IsUnderway(init, rank0, s, rank, tag, special, turns);
    StoppedRooted(s, t, rank, tag, special, scoping);
    RootedEnd(t, rank, special);
    StoppedTree(s, t, tag, special, scoping);
    if Ark(s.d, s.list) { StoppedArk(s, t, tag, special, scoping); }
    path' := path;
    if onTrack {
      FollowingOrderly(init, rank0, path0, s, rank, path, from, tag, special, turns);
      path' := StoppedOrderly(s, t, rank, path, from, tag, special, scoping);
      IsOrderly(t, rank, path', from, special);
    }
  }

  lemma StoppedTree(s: ParserState, t: ParserState, tag: int, special: set<(int, int)>, scoping: set<(int, int)>)
    requires Lists(|s.d|, s.open, s.list) && Stopped(s, t, tag, special, scoping)
    ensures t.d == s.d
  {}

  /** or after eight turns. */
  lemma FullCall(init: ParserState, rank0: seq<int>, path0: seq<int>, s: ParserState, rank: seq<int>, path: seq<int>,
                 from: int, tag: int, special: set<(int, int)>, scoping: set<(int, int)>, turns: seq<Start>,
                 onTrack: bool)
    requires Underway(init, rank0, s, rank, tag, special, turns) && |turns| == 8
    requires onTrack ==> Following(init, rank0, path0, s, rank, path, from, tag, special, turns)
    ensures Left(init, rank0, path0, s, rank, path, from, tag, special, scoping, turns, true, onTrack)
  {
    hide Underway, Following, Rooted, Orderly, Kept, Stirred, Ran, Reached, Linked, Ranked, Lists, MovedText,
         NeverKept, IsStack, Ready, Ark;
    IsUnderway(init, rank0, s, rank, tag, special, turns);
    if onTrack { FollowingOrderly(init, rank0, path0, s, rank, path, from, tag, special, turns); }
  }
}
