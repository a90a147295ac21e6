/** One step of reconstruct_active_formatting_elements (gumbo-parser/src/parser.c:1263-1312):
    a clone becomes the last child of the current node and the new current node. */
module Reconstruction {
  import opened Sequences
  import opened Dom
  import opened AdoptionSurgery
  import opened AdoptionSteps
  import opened AdoptionWalk
  import opened AdoptionOrder
  import opened AdoptionPass
  import opened AdoptionPath
  import opened AdoptionNext
  import opened Formatting

  /** The tree with a new node of content `c` as last child of `p`. */
  ghost function Grown(d: Arena, c: Label, p: int): (e: Arena)
    requires 0 <= p < |d|
    ensures |e| == |d| + 1
  {
    Appended(d + [Fresh(c)], |d|, p)
  }

  lemma GrownNodes(d: Arena, c: Label, p: int)
    requires 0 <= p < |d|
    ensures var e := Grown(d, c, p);
            && e[|d|] == Node(c, p, |d[p].children|, [])
            && e[p] == d[p].(children := d[p].children + [|d|])
            && (forall x :: 0 <= x < |d| && x != p ==> e[x] == d[x])
  {}

  /** All old nodes one higher, the new node at the bottom. */
  function RankUp(rank: seq<int>): (r: seq<int>)
    ensures |r| == |rank| + 1
  {
    seq(|rank| + 1, x requires 0 <= x < |rank| + 1 => if x < |rank| then rank[x] + 1 else 0)
  }

  lemma GrownWellFormed(d: Arena, rank: seq<int>, c: Label, p: int)
    requires Linked(d) && Ranked(d, rank) && 0 <= p < |d|
    ensures Linked(Grown(d, c, p)) && Ranked(Grown(d, c, p), RankUp(rank))
  {
    var e := d + [Fresh(c)];
    FreshLinked(d, rank, c);
    FreshRanked(d, rank, c);
    AppendedIsInserted(e, |d|, p);
    InsertedWellFormed(e, RankUp(rank), |d|, p, |e[p].children|);
  }

  lemma FreshRanked(d: Arena, rank: seq<int>, c: Label)
    requires Ranked(d, rank)
    ensures Ranked(d + [Fresh(c)], RankUp(rank))
  {
    var e, r := d + [Fresh(c)], RankUp(rank);
    forall p, i | 0 <= p < |e| && 0 <= i < |e[p].children|
      ensures 0 <= e[p].children[i] < |e| && r[e[p].children[i]] < r[p]
    {
      assert p < |d| && e[p] == d[p];
      assert rank[d[p].children[i]] < rank[p];
    }
  }

  /** The clone is an empty element, so no text moves. */
  lemma {:induction false} GrownLeaves(d: Arena, rank: seq<int>, c: Label, p: int, x: int)
    requires Linked(d) && Ranked(d, rank) && 0 <= p < |d| && c.Element? && 0 <= x < |d|
    requires Ranked(Grown(d, c, p), RankUp(rank))
    ensures Leaves(Grown(d, c, p), RankUp(rank), x) == Leaves(d, rank, x)
    decreases rank[x], |d[x].children| + 1
  {
    GrownNodes(d, c, p);
    if !d[x].content.Text? {
      var e, r, k := Grown(d, c, p), RankUp(rank), |d[x].children|;
      GrownPrefix(d, rank, c, p, x, k);
      if x == p {
        assert Leaves(e, r, |d|) == [];
        assert LeavesUpTo(e, r, x, k + 1) == LeavesUpTo(e, r, x, k) + Leaves(e, r, |d|);
      }
    }
  }

  lemma {:induction false} GrownPrefix(d: Arena, rank: seq<int>, c: Label, p: int, x: int, k: nat)
    requires Linked(d) && Ranked(d, rank) && 0 <= p < |d| && c.Element? && 0 <= x < |d| && k <= |d[x].children|
    requires Ranked(Grown(d, c, p), RankUp(rank))
    ensures k <= |Grown(d, c, p)[x].children|
    ensures LeavesUpTo(Grown(d, c, p), RankUp(rank), x, k) == LeavesUpTo(d, rank, x, k)
    decreases rank[x], k
  {
    GrownNodes(d, c, p);
    if k > 0 {
      GrownPrefix(d, rank, c, p, x, k - 1);
      GrownLeaves(d, rank, c, p, d[x].children[k - 1]);
    }
  }

  lemma GrownKept(d: Arena, rank: seq<int>, c: Label, p: int)
    requires Linked(d) && Ranked(d, rank) && 0 <= p < |d| && c.Element?
    ensures Linked(Grown(d, c, p)) && Kept(d, rank, Grown(d, c, p), RankUp(rank))
  {
    GrownWellFormed(d, rank, c, p);
    GrownNodes(d, c, p);
    forall x | 0 <= x < |d| && d[x].parent == -1 ensures Leaves(Grown(d, c, p), RankUp(rank), x) == Leaves(d, rank, x) {
      GrownLeaves(d, rank, c, p, x);
    }
  }

  /** A path to the node the new one is appended to, and further to the new one. */
  lemma GrownChain(d: Arena, rank: seq<int>, path: seq<int>, c: Label)
    requires Linked(d) && Ranked(d, rank) && Chain(d, path) && |path| > 0
    ensures 0 <= path[|path| - 1] < |d| && Chain(Grown(d, c, path[|path| - 1]), path)
    ensures c.Element? ==> Chain(Grown(d, c, path[|path| - 1]), path + [|d|])
  {
    var p := path[|path| - 1];
    var e, u := Grown(d, c, p), path + [|d|];
    GrownNodes(d, c, p);
    ChainDistinct(d, rank, path);
    forall i | 0 <= i < |path| ensures 0 <= path[i] < |e| && !e[path[i]].content.Text? {}
    forall i | 0 <= i < |path| - 1 ensures Step(e, path, i) { assert Step(d, path, i); }
    if c.Element? {
      forall i | 0 <= i < |u| - 1 ensures Step(e, u, i) {
        if i < |path| - 1 { assert Step(e, path, i); }
      }
    }
  }

  /** A new last child of the current node. */
  ghost function Hung(s: ParserState, c: Label): ParserState
    requires |s.open| > 0 && 0 <= s.open[|s.open| - 1] < |s.d|
  {
    s.(d := Grown(s.d, c, s.open[|s.open| - 1]))
  }

  /** It keeps the state orderly, */
  lemma HungOrderly(s: ParserState, rank: seq<int>, path: seq<int>, from: int, special: set<(int, int)>, c: Label)
    requires Orderly(s, rank, path, from, special)
    ensures |s.open| > 0 && 0 <= s.open[|s.open| - 1] < |s.d|
    ensures Orderly(Hung(s, c), RankUp(rank), path, from, special)
  {
    OrderlyEnd(s, rank, path, from, special);
    var p := s.open[|s.open| - 1];
    GrownWellFormed(s.d, rank, c, p);
    GrownChain(s.d, rank, path, c);
    GrownParts(s.d, c, p);
    hide Linked, Ranked, Chain, Agrees, TagIn, Grown, NoRepeat, DistinctEntries;
    HungThread(s, path, from, special, Grown(s.d, c, p));
  }

  lemma OrderlyEnd(s: ParserState, rank: seq<int>, path: seq<int>, from: int, special: set<(int, int)>)
    requires Orderly(s, rank, path, from, special)
    ensures Linked(s.d) && Ranked(s.d, rank) && Chain(s.d, path) && NoRepeat(s.open) && |s.open| > 0 && |path| > 0
    ensures 0 <= s.open[|s.open| - 1] < |s.d| && path[|path| - 1] == s.open[|s.open| - 1]
  {
    hide Linked, Ranked, Chain, Agrees, TagIn;
  }

  ghost predicate Extends(d: Arena, e: Arena) {
    |d| <= |e| && forall x :: 0 <= x < |d| ==> e[x].content == d[x].content && e[x].parent == d[x].parent
  }

  lemma GrownParts(d: Arena, c: Label, p: int)
    requires 0 <= p < |d|
    ensures Extends(d, Grown(d, c, p)) && Grown(d, c, p)[|d|].content == c && Grown(d, c, p)[|d|].parent == p
  {
    GrownNodes(d, c, p);
  }

  lemma HungThread(s: ParserState, path: seq<int>, from: int, special: set<(int, int)>, e: Arena)
    requires Threaded(s, path, from, special) && NoneSpecial(s.d, s.list, special) && Extends(s.d, e) && Chain(e, path)
    ensures Threaded(s.(d := e), path, from, special) && NoneSpecial(e, s.list, special)
  {
    hide Chain, Agrees, TagIn;
    forall p | from < p < |s.open| ensures Strand(e, s.open[p], s.list, path, special) {
      assert Strand(s.d, s.open[p], s.list, path, special);
    }
  }

  /** and so does pushing it on the stack. */
  lemma PushedOrderly(s: ParserState, rank: seq<int>, path: seq<int>, from: int, special: set<(int, int)>, c: Label)
    requires Orderly(s, rank, path, from, special) && c.Element?
    ensures |s.open| > 0 && 0 <= s.open[|s.open| - 1] < |s.d|
    ensures Orderly(Hung(s, c).(open := s.open + [|s.d|]), RankUp(rank), path + [|s.d|], from, special)
  {
    OrderlyEnd(s, rank, path, from, special);
    var p := s.open[|s.open| - 1];
    HungOrderly(s, rank, path, from, special, c);
    GrownChain(s.d, rank, path, c);
    GrownParts(s.d, c, p);
    hide Linked, Ranked, Chain, Agrees, TagIn, Grown, NoRepeat, DistinctEntries;
    PushedThread(Hung(s, c), path, from, special, |s.d|);
    PushedLists(|s.d|, s.open, s.list, from);
  }

  lemma PushedThread(s: ParserState, path: seq<int>, from: int, special: set<(int, int)>, x: int)
    requires Threaded(s, path, from, special) && Attached(s.d, x) && x !in s.open && x !in path
    requires Chain(s.d, path + [x])
    ensures Threaded(s.(open := s.open + [x]), path + [x], from, special)
  {
    var o, u := s.open + [x], path + [x];
    assert o[from..] == s.open[from..] + [x];
    assert Agrees([x], [x], -1);
    assert Apart(s.open[from..], [x]) && Apart([x], path);
    hide Chain, Agrees, TagIn, Strand, Apart;
    AgreesJoin(s.open[from..], [x], path, [x]);
    forall p | from < p < |o| ensures Strand(s.d, o[p], s.list, u, special) {
      if p < |s.open| { assert Strand(s.d, s.open[p], s.list, path, special); }
      LongerStrand(s.d, o[p], s.list, path, x, special);
    }
  }

  lemma LongerStrand(d: Arena, y: int, list: seq<int>, path: seq<int>, x: int, special: set<(int, int)>)
    requires Strand(d, y, list, path, special) || (y == x && Attached(d, x))
    ensures Strand(d, y, list, path + [x], special)
  {}

  lemma PushedLists(n: nat, open: seq<int>, list: seq<int>, from: int)
    requires Lists(n, open, list) && Agrees(open, list, from)
    ensures Lists(n + 1, open + [n], list) && Agrees(open + [n], list, from)
  {
    forall i | 0 <= i < |list| ensures list[i] != n {}
  }

  // ----- text comes last -----

  /** A child of a node, with its place. */
  lemma ChildAt(d: Arena, rank: seq<int>, path: seq<int>, x: int, k: nat)
    requires Linked(d) && Ranked(d, rank) && Chain(d, path) && |path| > 0 && 0 <= x < |d| && k < |d[x].children|
    requires rank[x] <= rank[path[0]]
    ensures var y := d[x].children[k];
            && 0 <= y < |d| && rank[y] < rank[x]
            && (y in path ==>
                  exists j :: 0 < j < |path| && path[j] == y && path[j - 1] == x && k == |d[x].children| - 1)
  {
    var y := d[x].children[k];
    assert d[y].parent == x && d[y].index == k && rank[y] < rank[x];
    if y in path {
      var j :| 0 <= j < |path| && path[j] == y;
      ChainRanks(d, rank, path, 0, j);
      assert Step(d, path, j - 1);
      var v := d[path[j - 1]].children;
      assert v[|v| - 1] == y;
    }
  }

  lemma {:induction false} OffPathLeaves(d: Arena, rank: seq<int>, path: seq<int>, c: Label, x: int)
    requires Linked(d) && Ranked(d, rank) && Chain(d, path) && |path| > 0 && 0 <= x < |d| && x !in path
    requires rank[x] <= rank[path[0]]
    requires 0 <= path[|path| - 1] < |d| && Ranked(Grown(d, c, path[|path| - 1]), RankUp(rank))
    ensures Leaves(Grown(d, c, path[|path| - 1]), RankUp(rank), x) == Leaves(d, rank, x)
    decreases rank[x], |d[x].children| + 1
  {
    GrownNodes(d, c, path[|path| - 1]);
    if !d[x].content.Text? { OffPathPrefix(d, rank, path, c, x, |d[x].children|); }
  }

  lemma {:induction false} OffPathPrefix(d: Arena, rank: seq<int>, path: seq<int>, c: Label, x: int, k: nat)
    requires Linked(d) && Ranked(d, rank) && Chain(d, path) && |path| > 0 && 0 <= x < |d| && rank[x] <= rank[path[0]]
    requires 0 <= path[|path| - 1] < |d| && Ranked(Grown(d, c, path[|path| - 1]), RankUp(rank))
    requires k <= |d[x].children| && (x in path && x != path[|path| - 1] ==> k < |d[x].children|)
    ensures k <= |Grown(d, c, path[|path| - 1])[x].children|
    ensures LeavesUpTo(Grown(d, c, path[|path| - 1]), RankUp(rank), x, k) == LeavesUpTo(d, rank, x, k)
    decreases rank[x], k
  {
    GrownNodes(d, c, path[|path| - 1]);
    if k > 0 {
      OffPathPrefix(d, rank, path, c, x, k - 1);
      ChildAt(d, rank, path, x, k - 1);
      if d[x].children[k - 1] in path {
        ChainDistinct(d, rank, path);
        assert false;
      }
      OffPathLeaves(d, rank, path, c, d[x].children[k - 1]);
    }
  }

  /** A text node appended to the current node comes behind all text below the path's start. */
  lemma {:induction false} TextAtEnd(d: Arena, rank: seq<int>, path: seq<int>, c: Label, i: nat)
    requires Linked(d) && Ranked(d, rank) && Chain(d, path) && i < |path| && c.Text?
    requires 0 <= path[|path| - 1] < |d| && Ranked(Grown(d, c, path[|path| - 1]), RankUp(rank))
    ensures 0 <= path[i] < |d|
    ensures Leaves(Grown(d, c, path[|path| - 1]), RankUp(rank), path[i]) == Leaves(d, rank, path[i]) + [|d|]
    decreases |path| - i
  {
    PathStart(d, rank, path, i);
    if i == |path| - 1 {
      TextHere(d, rank, path, c);
    } else {
      TextAtEnd(d, rank, path, c, i + 1);
      TextBelow(d, rank, path, c, i);
    }
  }

  lemma TextHere(d: Arena, rank: seq<int>, path: seq<int>, c: Label)
    requires Linked(d) && Ranked(d, rank) && Chain(d, path) && |path| > 0 && c.Text? && 0 <= path[|path| - 1] < |d|
    requires Ranked(Grown(d, c, path[|path| - 1]), RankUp(rank)) && rank[path[|path| - 1]] <= rank[path[0]]
    requires !d[path[|path| - 1]].content.Text?
    ensures Leaves(Grown(d, c, path[|path| - 1]), RankUp(rank), path[|path| - 1])
         == Leaves(d, rank, path[|path| - 1]) + [|d|]
  {
    var x := path[|path| - 1];
    var e, r, k := Grown(d, c, x), RankUp(rank), |d[x].children|;
    OffPathPrefix(d, rank, path, c, x, k);
    GrownNodes(d, c, x);
    hide Linked, Ranked, Chain, Grown;
    assert Leaves(e, r, |d|) == [|d|];
    assert LeavesUpTo(e, r, x, k + 1) == LeavesUpTo(e, r, x, k) + Leaves(e, r, |d|);
  }

  lemma TextBelow(d: Arena, rank: seq<int>, path: seq<int>, c: Label, i: nat)
    requires Linked(d) && Ranked(d, rank) && Chain(d, path) && i < |path| - 1 && 0 <= path[|path| - 1] < |d|
    requires Ranked(Grown(d, c, path[|path| - 1]), RankUp(rank)) && 0 <= path[i] < |d| && 0 <= path[i + 1] < |d|
    requires rank[path[i]] <= rank[path[0]] && path[i] != path[|path| - 1] && !d[path[i]].content.Text?
    requires Leaves(Grown(d, c, path[|path| - 1]), RankUp(rank), path[i + 1]) == Leaves(d, rank, path[i + 1]) + [|d|]
    ensures Leaves(Grown(d, c, path[|path| - 1]), RankUp(rank), path[i]) == Leaves(d, rank, path[i]) + [|d|]
  {
    hide Linked, Ranked, Grown, Leaves, LeavesUpTo, RankUp;
    var p, x, e, r := path[|path| - 1], path[i], Grown(d, c, path[|path| - 1]), RankUp(rank);
    assert Step(d, path, i);
    hide Chain;
    SameChildren(d, c, p, x);
    OffPathPrefix(d, rank, path, c, x, |d[x].children| - 1);
    LastLeaves(d, rank, x);
    LastLeaves(e, r, x);
    Regrouped(LeavesUpTo(d, rank, x, |d[x].children| - 1), Leaves(d, rank, path[i + 1]), [|d|]);
  }

  lemma SameChildren(d: Arena, c: Label, p: int, x: int)
    requires 0 <= p < |d| && 0 <= x < |d| && x != p
    ensures Grown(d, c, p)[x] == d[x]
  {
    GrownNodes(d, c, p);
  }

  lemma Regrouped(a: seq<int>, b: seq<int>, c: seq<int>)
    ensures a + (b + c) == a + b + c
  {}

  lemma LastLeaves(d: Arena, rank: seq<int>, x: int)
    requires Ranked(d, rank) && 0 <= x < |d| && !d[x].content.Text? && |d[x].children| > 0
    ensures var k := |d[x].children|;
            && 0 <= d[x].children[k - 1] < |d|
            && Leaves(d, rank, x) == LeavesUpTo(d, rank, x, k - 1) + Leaves(d, rank, d[x].children[k - 1])
  {}

  lemma PathStart(d: Arena, rank: seq<int>, path: seq<int>, i: nat)
    requires Linked(d) && Ranked(d, rank) && Chain(d, path) && i < |path|
    ensures 0 <= path[i] < |d| && (i < |path| - 1 ==> 0 <= path[i + 1] < |d|)
    ensures rank[path[i]] <= rank[path[0]] && (i < |path| - 1 ==> path[i] != path[|path| - 1])
    ensures !d[path[i]].content.Text?
  {
    if i > 0 { ChainRanks(d, rank, path, 0, i); }
    ChainDistinct(d, rank, path);
  }

  // ----- the lists -----

  /** `from` entries onward of the list are to be replaced: none of them is open. */
  ghost predicate Waiting(open: seq<int>, list: seq<int>, j: int) {
    0 <= j <= |list| && forall i :: j <= i < |list| ==> list[i] != -1 && list[i] !in open
  }

  /** The clone `x` joins stack and list. */
  lemma ListsGrow(n: nat, open: seq<int>, list: seq<int>, j: nat)
    requires Lists(n, open, list) && j < |list|
    ensures Lists(n + 1, open + [n], list[j := n])
  {}

  /** An entry of the list before position `j` keeps its place. */
  lemma SamePlace(n: nat, open: seq<int>, list: seq<int>, j: nat, y: int)
    requires Lists(n, open, list) && Waiting(open, list, j) && j < |list| && y in open
    ensures y in list[j := n] <==> y in list
    ensures y in list ==> IndexOf(list[j := n], y) == IndexOf(list, y) < j
  {
    var v := list[j := n];
    if y in list {
      var i := IndexOf(list, y);
      assert list[i] == y;
      assert v[i] == y;
      EntryIndex(v, i);
    }
  }

  lemma AgreesGrow(n: nat, open: seq<int>, list: seq<int>, j: nat, from: int)
    requires Lists(n, open, list) && Waiting(open, list, j) && j < |list| && Agrees(open, list, from)
    ensures Agrees(open + [n], list[j := n], from) && Waiting(open + [n], list[j := n], j + 1)
  {
    var o, v := open + [n], list[j := n];
    ListsGrow(n, open, list, j);
    assert v[j] == n;
    EntryIndex(v, j);
    forall p, q | from < p < q < |o| && 0 <= p && o[p] in v && o[q] in v ensures IndexOf(v, o[p]) < IndexOf(v, o[q]) {
      SamePlace(n, open, list, j, open[p]);
      if q < |open| { SamePlace(n, open, list, j, open[q]); }
    }
  }

  // ----- the whole loop -----

  lemma OrderlyLists(s: ParserState, rank: seq<int>, path: seq<int>, from: int, special: set<(int, int)>)
    requires Orderly(s, rank, path, from, special)
    ensures Lists(|s.d|, s.open, s.list) && Agrees(s.open, s.list, from) && NoneSpecial(s.d, s.list, special)
    ensures Threaded(s, path, from, special)
    ensures 0 <= from < |s.open|
  {
    hide Linked, Ranked, Chain, TagIn;
  }

  /** A reconstructed element stands for the entry it was cloned from. */
  lemma RenewedOrderly(s: ParserState, rank: seq<int>, path: seq<int>, from: int, special: set<(int, int)>, j: nat)
    requires Orderly(s, rank, path, from, special) && Waiting(s.open, s.list, j) && j < |s.list|
    requires 0 <= s.list[j] < |s.d| && s.d[s.list[j]].content.Element?
    ensures |s.open| > 0 && 0 <= s.open[|s.open| - 1] < |s.d|
    ensures var d := Grown(s.d, s.d[s.list[j]].content, s.open[|s.open| - 1]);
            Orderly(ParserState(d, s.open + [|s.d|], s.list[j := |s.d|]), RankUp(rank), path + [|s.d|], from, special)
  {
    hide Linked, Ranked, Chain, Agrees, TagIn, Grown, NoRepeat, DistinctEntries, Threaded, Lists, Waiting;
    OrderlyEnd(s, rank, path, from, special);
    OrderlyLists(s, rank, path, from, special);
    var c, p, n := s.d[s.list[j]].content, s.open[|s.open| - 1], |s.d|;
    PushedOrderly(s, rank, path, from, special, c);
    AgreesGrow(n, s.open, s.list, j, from);
    ListsGrow(n, s.open, s.list, j);
    GrownContents(s.d, c, p);
    var t := Hung(s, c).(open := s.open + [n]);
    Relisted(t, path + [n], from, special, s.list[j := n]);
  }

  /** One turn of the loop: a clone of entry `j` is the new current node and stands for the entry. */
  ghost function Renewed(s: ParserState, j: nat): ParserState
    requires j < |s.list| && 0 <= s.list[j] < |s.d| && |s.open| > 0 && 0 <= s.open[|s.open| - 1] < |s.d|
  {
    ParserState(Grown(s.d, s.d[s.list[j]].content, s.open[|s.open| - 1]), s.open + [|s.d|], s.list[j := |s.d|])
  }

  /** Each entry from `start` up to `i` has a new node instead, also on the stack; `n` is the first. */
  ghost predicate Replaced(n: nat, open: seq<int>, list: seq<int>, open': seq<int>, list': seq<int>, start: nat,
                           i: nat)
  {
    && start <= i <= |list| == |list'| && list'[..start] == list[..start] && list'[i..] == list[i..]
    && open' == open + list'[start..i] && forall j :: start <= j < i ==> list'[j] == n + j - start
  }

  /** Node `n` + k is a clone of the element of entry `start` + k. The first clone is the last
      child of `cur`, each further one hangs below the one before, and nothing else has changed. */
  ghost predicate HungInTurn(d: Arena, list: seq<int>, e: Arena, cur: int, start: nat, i: nat) {
    && start <= i <= |list| && 0 <= cur < |d| && |e| == |d| + i - start
    && (forall j :: start <= j < i ==> 0 <= list[j] < |d|)
    && (forall x :: |d| <= x < |e| ==>
          e[x] == Node(d[list[start + x - |d|]].content,
                       if x == |d| then cur else x - 1,
                       if x == |d| then |d[cur].children| else 0,
                       if x + 1 < |e| then [x + 1] else []))
    && (forall x :: 0 <= x < |d| && x != cur ==> e[x] == d[x])
    && e[cur] == d[cur].(children := d[cur].children + if start < i then [|d|] else [])
  }

  /** The loop at list position `i`. */
  ghost predicate Reopening(s: ParserState, t: ParserState, start: nat, i: nat) {
    && |s.open| > 0 && Replaced(|s.d|, s.open, s.list, t.open, t.list, start, i)
    && HungInTurn(s.d, s.list, t.d, s.open[|s.open| - 1], start, i)
  }

  lemma ReplacedOn(n: nat, open: seq<int>, list: seq<int>, open': seq<int>, list': seq<int>, start: nat, i: nat)
    requires Replaced(n, open, list, open', list', start, i) && i < |list| && |open| > 0
    ensures i < |list'| && list'[i] == list[i] && |open'| > 0
    ensures open'[|open'| - 1] == if i == start then open[|open| - 1] else n + i - start - 1
    ensures Replaced(n, open, list, open' + [n + i - start], list'[i := n + i - start], start, i + 1)
  {
    assert list'[i..][0] == list[i..][0];
    var v := list'[i := n + i - start];
    assert v[i + 1..] == list'[i..][1..] == list[i + 1..];
    assert v[start..i + 1] == list'[start..i] + [n + i - start];
    assert v[..start] == list'[..start];
  }

  lemma ReplacedAll(n: nat, open: seq<int>, list: seq<int>, open': seq<int>, list': seq<int>, start: nat)
    requires Replaced(n, open, list, open', list', start, |list|)
    requires start > 0 ==> list[start - 1] == -1 || list[start - 1] in open
    ensures start <= |list'| == |list| && list'[..start] == list[..start] && open' == open + list'[start..]
    ensures list' != [] ==> list'[|list'| - 1] == -1 || list'[|list'| - 1] in open'
  {
    assert list'[start..|list|] == list'[start..];
    if start < |list'| {
      assert open'[|open'| - 1] == list'[|list'| - 1];
    } else if start > 0 {
      assert list'[start - 1] == list'[..start][start - 1] == list[..start][start - 1];
    }
  }

  lemma HungInTurnOn(d: Arena, list: seq<int>, e: Arena, cur: int, start: nat, i: nat)
    requires HungInTurn(d, list, e, cur, start, i) && i < |list| && 0 <= list[i] < |d|
    ensures var p := if i == start then cur else |d| + i - start - 1;
            && 0 <= p < |e| && list[i] < |e|
            && HungInTurn(d, list, Grown(e, e[list[i]].content, p), cur, start, i + 1)
  {
    var p := if i == start then cur else |d| + i - start - 1;
    GrownNodes(e, d[list[i]].content, p);
    hide Grown;
  }

  lemma ReopeningOn(s: ParserState, t: ParserState, start: nat, i: nat)
    requires Reopening(s, t, start, i) && i < |s.list| && 0 <= s.list[i] < |s.d|
    ensures i < |t.list| && t.list[i] == s.list[i] < |t.d| && |t.open| > 0 && 0 <= t.open[|t.open| - 1] < |t.d|
    ensures Reopening(s, Renewed(t, i), start, i + 1)
  {
    hide Replaced, HungInTurn, Grown;
    ReplacedOn(|s.d|, s.open, s.list, t.open, t.list, start, i);
    HungInTurnOn(s.d, s.list, t.d, s.open[|s.open| - 1], start, i);
    HungSize(s.d, s.list, t.d, s.open[|s.open| - 1], start, i);
  }

  lemma HungSize(d: Arena, list: seq<int>, e: Arena, cur: int, start: nat, i: nat)
    requires HungInTurn(d, list, e, cur, start, i)
    ensures |e| == |d| + i - start
  {}

  lemma ReopeningStarts(s: ParserState, start: nat)
    requires start <= |s.list| && |s.open| > 0 && 0 <= s.open[|s.open| - 1] < |s.d|
    ensures Reopening(s, s, start, start)
  {}

  /** reconstruct_active_formatting_elements takes `s` to `t`: it opens the entries behind the last
      one that is a marker or open. */
  ghost predicate Reopened(s: ParserState, t: ParserState, start: nat) {
    && Waiting(s.open, s.list, start)
    && (start > 0 ==> s.list[start - 1] == -1 || s.list[start - 1] in s.open)
    && Reopening(s, t, start, |s.list|) && |t.open| > 0 && 0 <= t.open[|t.open| - 1] < |t.d|
  }

  /** A new formatting element becomes the current node and the last entry of the list. */
  ghost predicate Begun(s: ParserState, c: Label, earliest: int, t: ParserState) {
    && |s.open| > 0 && 0 <= s.open[|s.open| - 1] < |s.d| && t.d == Grown(s.d, c, s.open[|s.open| - 1])
    && t.open == s.open + [|s.d|] && Listed(t.d, s.list, c, |s.d|, earliest, t.list)
  }

  lemma GrownContents(d: Arena, c: Label, p: int)
    requires 0 <= p < |d|
    ensures var e := Grown(d, c, p);
            |e| == |d| + 1 && e[|d|].content == c && forall x :: 0 <= x < |d| ==> e[x].content == d[x].content
  {
    GrownNodes(d, c, p);
  }

  lemma NextElement(d: Arena, open: seq<int>, list: seq<int>, j: int)
    requires Lists(|d|, open, list) && Waiting(open, list, j) && GoodList(d, list) && 0 <= j < |list|
    ensures 0 <= list[j] < |d| && d[list[j]].content.Element?
  {
    hide NoRepeat, DistinctEntries;
  }

  lemma GrownTree(d0: Arena, rank0: seq<int>, d: Arena, rank: seq<int>, c: Label, p: int)
    requires Linked(d) && Kept(d0, rank0, d, rank) && 0 <= p < |d| && c.Element?
    ensures Linked(d + [Fresh(c)]) && Ranked(d + [Fresh(c)], RankUp(rank))
    ensures Inserted(d + [Fresh(c)], |d|, p, |(d + [Fresh(c)])[p].children|) == Grown(d, c, p)
    ensures Linked(Grown(d, c, p)) && Kept(d0, rank0, Grown(d, c, p), RankUp(rank))
  {
    hide Linked, Ranked, Grown;
    IsRanked(d0, rank0, d, rank);
    hide Kept;
    FreshReady(d, rank, c, p);
    GrownKept(d, rank, c, p);
    KeptTwice(d0, rank0, d, rank, Grown(d, c, p), RankUp(rank));
  }

  lemma FreshReady(d: Arena, rank: seq<int>, c: Label, p: int)
    requires Linked(d) && Ranked(d, rank) && 0 <= p < |d|
    ensures Linked(d + [Fresh(c)]) && Ranked(d + [Fresh(c)], RankUp(rank))
    ensures Inserted(d + [Fresh(c)], |d|, p, |(d + [Fresh(c)])[p].children|) == Grown(d, c, p)
  {
    hide Linked, Ranked, Grown;
    FreshLinked(d, rank, c);
    FreshRanked(d, rank, c);
    GrownInserted(d, c, p);
  }

  lemma GrownInserted(d: Arena, c: Label, p: int)
    requires Linked(d + [Fresh(c)]) && 0 <= p < |d|
    ensures Inserted(d + [Fresh(c)], |d|, p, |(d + [Fresh(c)])[p].children|) == Grown(d, c, p)
  {
    AppendedIsInserted(d + [Fresh(c)], |d|, p);
  }

  lemma LooksGrow(d0: Arena, list0: seq<int>, d: Arena, list: seq<int>, e: Arena, j: nat)
    requires GoodList(d0, list0) && GoodList(d, list) && SameLooks(d0, list0, d, list) && j < |list| && list[j] != -1
    requires |e| == |d| + 1 && e[|d|].content == d[list[j]].content
    requires forall x :: 0 <= x < |d| ==> e[x].content == d[x].content
    ensures GoodList(e, list[j := |d|]) && SameLooks(d0, list0, e, list[j := |d|])
  {}

  lemma IsWaiting(open: seq<int>, list: seq<int>, j: int)
    requires Waiting(open, list, j)
    ensures 0 <= j <= |list|
  {}

  /** A new node changes no look. */
  lemma GrownList(d: Arena, list: seq<int>, c: Label, p: int)
    requires 0 <= p < |d| && GoodList(d, list) && Noah(d, list)
    ensures GoodList(Grown(d, c, p), list) && Noah(Grown(d, c, p), list) && Grown(d, c, p)[|d|].content == c
  {
    GrownContents(d, c, p);
    hide Grown, Noah;
    NoahSame(d, list, Grown(d, c, p), list);
  }

  // ----- the other operations on the list -----

  /** add_formatting_element keeps stack and list in agreement when it adds the current node. */
  lemma AddAgrees(open: seq<int>, list: seq<int>, from: int, x: int)
    requires DistinctEntries(list) && NoRepeat(open) && Agrees(open, list, from)
    requires forall i :: 0 <= i < |open| ==> open[i] != -1
    requires x == -1 || (|open| > 0 && x == open[|open| - 1] && x !in list)
    ensures DistinctEntries(list + [x]) && Agrees(open, list + [x], from)
  {
    var v := list + [x];
    assert v[|list|] == x;
    if x != -1 { EntryIndex(v, |list|); }
    forall p, q | from < p < q < |open| && 0 <= p && open[p] in v && open[q] in v
      ensures IndexOf(v, open[p]) < IndexOf(v, open[q])
    {
      SameFront(list, x, open[p]);
      if open[q] != x { SameFront(list, x, open[q]); }
    }
  }

  lemma SameFront(list: seq<int>, x: int, y: int)
    requires DistinctEntries(list + [x]) && y != x && y != -1 && y in list + [x]
    ensures y in list && IndexOf(list + [x], y) == IndexOf(list, y) < |list|
  {
    var i := IndexOf(list, y);
    assert (list + [x])[i] == y;
    EntryIndex(list + [x], i);
  }

  /** What add_formatting_element may add: a marker, or the current node. */
  ghost predicate Addable(s: ParserState, x: int, special: set<(int, int)>) {
    || x == -1
    || (&& |s.open| > 0 && x == s.open[|s.open| - 1] && x !in s.list
        && 0 <= x < |s.d| && !TagIn(s.d[x].content, special))
  }

  lemma AddedOrderly(s: ParserState, rank: seq<int>, path: seq<int>, from: int, special: set<(int, int)>, x: int)
    requires Orderly(s, rank, path, from, special) && Addable(s, x, special)
    ensures Orderly(s.(list := s.list + [x]), rank, path, from, special)
  {
    AddAgrees(s.open, s.list, from, x);
    hide Linked, Ranked, Agrees, TagIn, Chain;
    Relisted(s, path, from, special, s.list + [x]);
  }

  /** Cutting the list keeps the state orderly, */
  lemma CutOrderly(s: ParserState, rank: seq<int>, path: seq<int>, from: int, special: set<(int, int)>, m: nat)
    requires Orderly(s, rank, path, from, special) && m <= |s.list|
    ensures Orderly(s.(list := s.list[..m]), rank, path, from, special)
  {
    CutAgrees(s.open, s.list, from, m);
    hide Linked, Ranked, Agrees, TagIn, Chain;
    Relisted(s, path, from, special, s.list[..m]);
  }

  lemma CutAgrees(open: seq<int>, list: seq<int>, from: int, m: nat)
    requires DistinctEntries(list) && Agrees(open, list, from) && m <= |list|
    requires forall i :: 0 <= i < |open| ==> open[i] != -1
    ensures DistinctEntries(list[..m]) && Agrees(open, list[..m], from)
  {
    var v := list[..m];
    forall p, q | from < p < q < |open| && 0 <= p && open[p] in v && open[q] in v
      ensures IndexOf(v, open[p]) < IndexOf(v, open[q])
    {
      CutIndex(list, m, open[p]);
      CutIndex(list, m, open[q]);
    }
  }

  lemma CutIndex(list: seq<int>, m: nat, y: int)
    requires m <= |list| && y in list[..m]
    ensures y in list && IndexOf(list, y) == IndexOf(list[..m], y)
  {
    var i := IndexOf(list[..m], y);
    assert list[i] == y && forall j :: 0 <= j < i ==> list[j] == list[..m][j];
  }
}
