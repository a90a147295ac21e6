/** The other operations of the tree constructor (gumbo-parser/src/parser.c) keep the state
    rooted. */
module RootedOps {
  import opened Sequences
  import opened Dom
  import opened AdoptionSurgery
  import opened AdoptionSteps
  import opened AdoptionWalk
  import opened AdoptionOrder
  import opened AdoptionPath
  import opened AdoptionNext
  import opened Formatting
  import opened Reconstruction
  import opened RootedState

  // ----- the stack -----

  /** Any element but the first may leave the stack. */
  lemma Unstacked(s: ParserState, rank: seq<int>, special: set<(int, int)>, i: nat)
    requires Rooted(s, rank, special) && 0 < i < |s.open|
    ensures Rooted(s.(open := RemoveAt(s.open, i)), rank, special)
  {
    RootedParts(s, rank, special);
    hide Rooted, Linked, Ranked, OneTree, NoneSpecial, Agrees, Lists, Standing;
    var t := s.(open := RemoveAt(s.open, i));
    UnstackedLists(|s.d|, s.open, s.list, i);
    UnstackedAgrees(s.open, s.list, i);
    UnstackedStanding(s, rank, special, i);
    IsRooted(t, rank, special);
  }

  lemma UnstackedLists(n: nat, open: seq<int>, list: seq<int>, i: nat)
    requires Lists(n, open, list) && i < |open|
    ensures Lists(n, RemoveAt(open, i), list)
  {
    var o := RemoveAt(open, i);
    assert forall k :: 0 <= k < |o| ==> o[k] == open[if k < i then k else k + 1];
    hide DistinctEntries;
  }

  lemma UnstackedAgrees(open: seq<int>, list: seq<int>, i: nat)
    requires Agrees(open, list, 0) && 0 < i < |open|
    ensures Agrees(RemoveAt(open, i), list, 0)
  {
    var o := RemoveAt(open, i);
    assert forall k :: 0 <= k < |o| ==> o[k] == open[if k < i then k else k + 1];
  }

  lemma UnstackedStanding(s: ParserState, rank: seq<int>, special: set<(int, int)>, i: nat)
    requires Standing(s, rank, special) && 0 < i < |s.open|
    ensures Standing(s.(open := RemoveAt(s.open, i)), rank, special)
  {
    var o := RemoveAt(s.open, i);
    assert forall k :: 0 <= k < |o| ==> o[k] == s.open[if k < i then k else k + 1];
    hide TagIn, Seated, Firm, Holds;
  }

  /** So may all from some position on. */
  lemma CutStack(s: ParserState, rank: seq<int>, special: set<(int, int)>, n: nat)
    requires Rooted(s, rank, special) && 0 < n <= |s.open|
    ensures Rooted(s.(open := s.open[..n]), rank, special)
  {
    RootedParts(s, rank, special);
    hide Rooted, Linked, Ranked, OneTree, NoneSpecial, Agrees, Lists, Standing;
    PoppedLists(|s.d|, s.open, s.list, 0, n);
    CutStanding(s, rank, special, n);
    IsRooted(s.(open := s.open[..n]), rank, special);
  }

  lemma CutStanding(s: ParserState, rank: seq<int>, special: set<(int, int)>, n: nat)
    requires Standing(s, rank, special) && 0 < n <= |s.open|
    ensures Standing(s.(open := s.open[..n]), rank, special)
  {
    hide TagIn, Seated, Firm, Holds;
  }

  // ----- the list -----

  /** The list may lose entries, and gain the current node. */
  lemma RelistedRooted(s: ParserState, rank: seq<int>, special: set<(int, int)>, list: seq<int>)
    requires Rooted(s, rank, special) && Lists(|s.d|, s.open, list) && Agrees(s.open, list, 0)
    requires NoneSpecial(s.d, list, special)
    requires forall y :: y in list ==> y == -1 || y in s.list || (|s.open| > 0 && y == s.open[|s.open| - 1])
    ensures Rooted(s.(list := list), rank, special)
  {
    RootedParts(s, rank, special);
    hide Rooted, Linked, Ranked, OneTree, NoneSpecial, Agrees, Lists, Standing;
    RelistedStanding(s, rank, special, list);
    IsRooted(s.(list := list), rank, special);
  }

  lemma RelistedStanding(s: ParserState, rank: seq<int>, special: set<(int, int)>, list: seq<int>)
    requires Standing(s, rank, special) && (forall i :: 0 <= i < |s.open| ==> s.open[i] != -1)
    requires forall y :: y in list ==> y == -1 || y in s.list || (|s.open| > 0 && y == s.open[|s.open| - 1])
    ensures Standing(s.(list := list), rank, special)
  {
    hide TagIn, Seated, Holds;
    var t := s.(list := list);
    forall p, q | 0 <= p < q < |s.open| && Firm(s.d, s.open[p], list, special)
      ensures Holds(s.d, rank, s.open[p], s.open[q])
    {
      assert s.open[p] != s.open[|s.open| - 1];
      assert Firm(s.d, s.open[p], s.list, special);
    }
  }

  lemma StillNoneSpecial(d: Arena, list: seq<int>, list': seq<int>, special: set<(int, int)>)
    requires NoneSpecial(d, list, special)
    requires forall y :: y in list' && y != -1 ==> y in list || (0 <= y < |d| && !TagIn(d[y].content, special))
    ensures NoneSpecial(d, list', special)
  {
    hide TagIn;
    forall i | 0 <= i < |list'| && list'[i] != -1
      ensures 0 <= list'[i] < |d| && !TagIn(d[list'[i]].content, special)
    {
      assert list'[i] in list';
      if list'[i] in list {
        var j := IndexOf(list, list'[i]);
        assert list[j] == list'[i];
      }
    }
  }

  lemma UnlistedRooted(s: ParserState, rank: seq<int>, special: set<(int, int)>, e: nat)
    requires Rooted(s, rank, special) && e < |s.list| && s.list[e] != -1
    ensures Rooted(s.(list := RemoveAt(s.list, e)), rank, special)
  {
    RootedParts(s, rank, special);
    RemovedEntries(s.list, e);
    RemoveAgrees(s.open, s.list, e, 0);
    hide Rooted, NoneSpecial, Agrees, Standing, Linked, Ranked, OneTree;
    StillNoneSpecial(s.d, s.list, RemoveAt(s.list, e), special);
    RelistedRooted(s, rank, special, RemoveAt(s.list, e));
  }

  lemma CutListRooted(s: ParserState, rank: seq<int>, special: set<(int, int)>, m: nat)
    requires Rooted(s, rank, special) && m <= |s.list|
    ensures Rooted(s.(list := s.list[..m]), rank, special)
  {
    RootedParts(s, rank, special);
    CutAgrees(s.open, s.list, 0, m);
    hide Rooted, NoneSpecial, Agrees, Standing, Linked, Ranked, OneTree;
    StillNoneSpecial(s.d, s.list, s.list[..m], special);
    RelistedRooted(s, rank, special, s.list[..m]);
  }

  lemma AddedRooted(s: ParserState, rank: seq<int>, special: set<(int, int)>, x: int)
    requires Rooted(s, rank, special) && Addable(s, x, special)
    ensures Rooted(s.(list := s.list + [x]), rank, special)
  {
    RootedParts(s, rank, special);
    AddAgrees(s.open, s.list, 0, x);
    hide Rooted, NoneSpecial, Agrees, Standing, Linked, Ranked, OneTree, TagIn;
    StillNoneSpecial(s.d, s.list, s.list + [x], special);
    RelistedRooted(s, rank, special, s.list + [x]);
  }

  // ----- a new node -----

  lemma CurrentIsElement(s: ParserState, rank: seq<int>, special: set<(int, int)>)
    requires Rooted(s, rank, special)
    ensures |s.open| > 0 && 0 <= s.open[|s.open| - 1] < |s.d| && s.d[s.open[|s.open| - 1]].content.Element?
  {
    RootedParts(s, rank, special);
    hide Rooted, Linked, Ranked, OneTree, NoneSpecial, Agrees, Lists, Falling, Upheld;
    if |s.open| > 1 { assert Seated(s.d, s.open[|s.open| - 1], special); }
  }

  lemma GrownOneTree(d: Arena, c: Label, p: int)
    requires OneTree(d) && 0 <= p < |d| && !d[p].content.Text?
    ensures OneTree(Grown(d, c, p))
  {
    GrownNodes(d, c, p);
    hide Grown;
  }

  /** A last child of the current node takes nobody's place on the stack. */
  lemma GrownStanding(s: ParserState, rank: seq<int>, special: set<(int, int)>, c: Label, e: Arena)
    requires Ranked(s.d, rank) && Linked(s.d) && Standing(s, rank, special) && 0 <= s.open[|s.open| - 1] < |s.d|
    requires e == Grown(s.d, c, s.open[|s.open| - 1])
    ensures Standing(s.(d := e), RankUp(rank), special)
  {
    var p := s.open[|s.open| - 1];
    hide Grown, TagIn, Linked, Ranked, LastChild;
    IsRankedSize(s.d, rank);
    GrownContents(s.d, c, p);
    forall i | 0 < i < |s.open| ensures Seated(e, s.open[i], special) {
      assert Seated(s.d, s.open[i], special);
      StillSeated(s.d, rank, c, p, s.open[i], special);
    }
    hide Seated;
    forall i, j | 0 <= i < j < |s.open| && Firm(e, s.open[i], s.list, special)
      ensures Holds(e, RankUp(rank), s.open[i], s.open[j])
    {
      assert Firm(s.d, s.open[i], s.list, special);
      assert Holds(s.d, rank, s.open[i], s.open[j]);
      SameParent(s.d, c, p, s.open[j]);
    }
  }

  lemma StillSeated(d: Arena, rank: seq<int>, c: Label, p: int, x: int, special: set<(int, int)>)
    requires Linked(d) && Ranked(d, rank) && 0 <= p < |d| && 0 <= x < |d| && Seated(d, x, special)
    requires rank[p] <= rank[x]
    ensures Seated(Grown(d, c, p), x, special)
  {
    ParentHigher(d, rank, x);
    GrownNodes(d, c, p);
    hide Linked, Ranked, TagIn, Grown;
  }

  lemma SameParent(d: Arena, c: Label, p: int, y: int)
    requires 0 <= p < |d| && 0 <= y < |d|
    ensures Grown(d, c, p)[y].parent == d[y].parent
  {
    GrownNodes(d, c, p);
  }

  lemma HungRooted(s: ParserState, rank: seq<int>, special: set<(int, int)>, c: Label)
    requires Rooted(s, rank, special)
    ensures |s.open| > 0 && 0 <= s.open[|s.open| - 1] < |s.d| && Rooted(Hung(s, c), RankUp(rank), special)
  {
    RootedParts(s, rank, special);
    CurrentIsElement(s, rank, special);
    hide Rooted, Linked, Ranked, OneTree, NoneSpecial, Agrees, Lists, Standing, Grown;
    var p := s.open[|s.open| - 1];
    var e := Grown(s.d, c, p);
    GrownWellFormed(s.d, rank, c, p);
    GrownOneTree(s.d, c, p);
    GrownStanding(s, rank, special, c, e);
    GrownContents(s.d, c, p);
    MoreNodes(s.d, e, s.open, s.list, special);
    IsRooted(Hung(s, c), RankUp(rank), special);
  }

  lemma MoreNodes(d: Arena, e: Arena, open: seq<int>, list: seq<int>, special: set<(int, int)>)
    requires Lists(|d|, open, list) && NoneSpecial(d, list, special) && |d| <= |e|
    requires forall x :: 0 <= x < |d| ==> e[x].content == d[x].content
    ensures Lists(|e|, open, list) && NoneSpecial(e, list, special)
  {
    hide NoRepeat, DistinctEntries, TagIn;
  }

  lemma PushedRooted(s: ParserState, rank: seq<int>, special: set<(int, int)>, c: Label)
    requires Rooted(s, rank, special) && c.Element?
    ensures |s.open| > 0 && 0 <= s.open[|s.open| - 1] < |s.d|
    ensures Rooted(Hung(s, c).(open := s.open + [|s.d|]), RankUp(rank), special)
  {
    RootedParts(s, rank, special);
    HungRooted(s, rank, special, c);
    RootedParts(Hung(s, c), RankUp(rank), special);
    hide Rooted, Linked, Ranked, OneTree, NoneSpecial, Agrees, Standing, Grown;
    PushedLists(|s.d|, s.open, s.list, 0);
    PushedStanding(s, rank, special, c, Hung(s, c));
    IsRooted(Hung(s, c).(open := s.open + [|s.d|]), RankUp(rank), special);
  }

  lemma PushedStanding(s: ParserState, rank: seq<int>, special: set<(int, int)>, c: Label, t: ParserState)
    requires |s.open| > 0 && 0 <= s.open[|s.open| - 1] < |s.d| && t == Hung(s, c) && c.Element?
    requires Ranked(s.d, rank) && Falling(s.open, rank) && Standing(t, RankUp(rank), special) && |s.d| !in s.list
    ensures Standing(t.(open := s.open + [|s.d|]), RankUp(rank), special)
  {
    var p, n, o := s.open[|s.open| - 1], |s.d|, s.open + [|s.d|];
    IsRankedSize(s.d, rank);
    GrownNodes(s.d, c, p);
    hide Grown, TagIn, Ranked;
    forall i | 0 < i < |o| ensures Seated(t.d, o[i], special) {
      if i < |s.open| { assert Seated(t.d, s.open[i], special); }
    }
    forall i, j | 0 <= i < j < |o| && Firm(t.d, o[i], t.list, special) ensures Holds(t.d, RankUp(rank), o[i], o[j]) {
      if j < |s.open| { assert Holds(t.d, RankUp(rank), t.open[i], t.open[j]); }
    }
  }

  /** A reconstructed element replaces the entry it was cloned from. */
  lemma RenewedRooted(s: ParserState, rank: seq<int>, special: set<(int, int)>, j: nat)
    requires Rooted(s, rank, special) && Waiting(s.open, s.list, j) && j < |s.list|
    requires 0 <= s.list[j] < |s.d| && s.d[s.list[j]].content.Element?
    ensures |s.open| > 0 && 0 <= s.open[|s.open| - 1] < |s.d|
    ensures var d := Grown(s.d, s.d[s.list[j]].content, s.open[|s.open| - 1]);
            Rooted(ParserState(d, s.open + [|s.d|], s.list[j := |s.d|]), RankUp(rank), special)
  {
    hide Rooted, Linked, Ranked, OneTree, Agrees, Standing, Grown, Waiting, TagIn, NoRepeat, DistinctEntries;
    RootedParts(s, rank, special);
    var c, p, n := s.d[s.list[j]].content, s.open[|s.open| - 1], |s.d|;
    PushedRooted(s, rank, special, c);
    AgreesGrow(n, s.open, s.list, j, 0);
    ListsGrow(n, s.open, s.list, j);
    GrownContents(s.d, c, p);
    var t := Hung(s, c).(open := s.open + [n]);
    hide Lists;
    StillNoneSpecial(t.d, s.list, s.list[j := n], special);
    RelistedRooted(t, RankUp(rank), special, s.list[j := n]);
  }

  // ----- reconstruct_active_formatting_elements -----

  /** Of the nodes that came with `e`, just `text` is one of text (-1: none). */
  ghost predicate Writes(d: Arena, e: Arena, text: int) {
    && |d| <= |e| && (forall x :: 0 <= x < |d| ==> e[x].content == d[x].content)
    && (forall x :: |d| <= x < |e| ==> (e[x].content.Text? <==> x == text))
  }

  lemma WritesMore(d: Arena, e: Arena, f: Arena, text: int)
    requires Writes(d, e, -1) && Writes(e, f, text) && (text == -1 || |e| <= text)
    ensures Writes(d, f, text)
  {}

  lemma GrownWrites(d: Arena, c: Label, p: int)
    requires 0 <= p < |d|
    ensures Writes(d, Grown(d, c, p), if c.Text? then |d| else -1)
  {
    GrownContents(d, c, p);
  }

  /** The state of the loop at list position `j`, started from `d0` and `list0`; `orderly` tells
      whether the stack was along a path. */
  ghost predicate Rebuilding(d0: Arena, rank0: seq<int>, list0: seq<int>, s: ParserState, rank: seq<int>,
                             path: seq<int>, from: int, special: set<(int, int)>, j: int, orderly: bool)
  {
    && Rooted(s, rank, special) && (orderly ==> Orderly(s, rank, path, from, special))
    && Kept(d0, rank0, s.d, rank) && Writes(d0, s.d, -1) && Waiting(s.open, s.list, j)
    && GoodList(d0, list0) && GoodList(s.d, s.list) && SameLooks(d0, list0, s.d, s.list)
  }

  lemma Rebuilt(d0: Arena, rank0: seq<int>, list0: seq<int>, s: ParserState, rank: seq<int>, path: seq<int>, from: int,
                special: set<(int, int)>, j: int, orderly: bool)
    requires Rebuilding(d0, rank0, list0, s, rank, path, from, special, j, orderly) && j < |s.list|
    ensures 0 <= j && 0 <= s.list[j] < |s.d| && |s.open| > 0 && 0 <= s.open[|s.open| - 1] < |s.d|
    ensures var d, c, p := s.d, s.d[s.list[j]].content, s.open[|s.open| - 1];
            && Linked(d + [Fresh(c)]) && Ranked(d + [Fresh(c)], RankUp(rank))
            && Inserted(d + [Fresh(c)], |d|, p, |(d + [Fresh(c)])[p].children|) == Grown(d, c, p)
            && Rebuilding(d0, rank0, list0, ParserState(Grown(d, c, p), s.open + [|d|], s.list[j := |d|]), RankUp(rank),
                          path + [|d|], from, special, j + 1, orderly)
  {
    hide Linked, Ranked, Good, LookOf, Chain, Agrees, Kept, SameLooks, NoRepeat, DistinctEntries, Grown, Inserted,
         Threaded, NoneSpecial, Orderly, TagIn, Rooted, OneTree, Standing, Writes;
    RootedParts(s, rank, special);
    var c, p := s.d[s.list[j]].content, s.open[|s.open| - 1];
    NextElement(s.d, s.open, s.list, j);
    GrownTree(d0, rank0, s.d, rank, c, p);
    GrownContents(s.d, c, p);
    GrownWrites(s.d, c, p);
    WritesMore(d0, s.d, Grown(s.d, c, p), -1);
    LooksGrow(d0, list0, s.d, s.list, Grown(s.d, c, p), j);
    RenewedRooted(s, rank, special, j);
    if orderly { RenewedOrderly(s, rank, path, from, special, j); }
    AgreesGrow(|s.d|, s.open, s.list, j, 0);
  }

  lemma WaitingEntry(s: ParserState, rank: seq<int>, special: set<(int, int)>, start: nat, i: nat)
    requires Rooted(s, rank, special) && Waiting(s.open, s.list, start) && start <= i < |s.list|
    ensures 0 <= s.list[i] < |s.d|
  {
    RootedParts(s, rank, special);
    hide Rooted, Linked, Ranked, OneTree, NoneSpecial, Agrees, Standing;
  }

  lemma RebuildingStarts(s: ParserState, rank: seq<int>, path: seq<int>, from: int, special: set<(int, int)>, j: int,
                         orderly: bool)
    requires Rooted(s, rank, special) && Waiting(s.open, s.list, j) && GoodList(s.d, s.list)
    requires orderly ==> Orderly(s, rank, path, from, special)
    ensures Rebuilding(s.d, rank, s.list, s, rank, path, from, special, j, orderly)
  {
    RootedParts(s, rank, special);
    hide Linked, Ranked, Lists, Waiting, Orderly, Rooted, Agrees, NoneSpecial, Standing, OneTree;
    KeptSelf(s.d, rank);
  }

  lemma RebuildingEnds(d0: Arena, rank0: seq<int>, list0: seq<int>, s: ParserState, rank: seq<int>, path: seq<int>,
                       from: int, special: set<(int, int)>, orderly: bool)
    requires Rebuilding(d0, rank0, list0, s, rank, path, from, special, |s.list|, orderly) && Noah(d0, list0)
    ensures Rooted(s, rank, special) && (orderly ==> Orderly(s, rank, path, from, special))
    ensures Kept(d0, rank0, s.d, rank) && Writes(d0, s.d, -1) && GoodList(s.d, s.list) && Noah(s.d, s.list)
  {
    hide Orderly, Rooted, Waiting, Kept, Noah, Writes;
    NoahSame(d0, list0, s.d, s.list);
  }
}
