/** Three end tags. At the first, a paragraph opened inside a formatting element that is closed
    before it, the adoption agency algorithm does what it is for. At the second, step 13.5
    applies and the stack stops following the tree. At the third, that has happened before, and
    text changes places. */
module AdoptionExample {
  import opened Sequences
  import opened Dom
  import opened AdoptionSurgery
  import opened AdoptionWalk
  import opened AdoptionOrder
  import opened AdoptionPass
  import opened AdoptionPath
  import opened AdoptionNext
  import opened AdoptionDrift
  import opened RootedState

  const HTML := Element(HTML_NS, 0, [])
  const BODY := Element(HTML_NS, 10, [])
  const PARAGRAPH := Element(HTML_NS, 25, [])
  const EMPHASIS := Element(HTML_NS, 40, [])
  const STRONG := Element(HTML_NS, 41, [])
  const ITALIC := Element(HTML_NS, 56, [])
  const BOLD := Element(HTML_NS, 57, [])
  const UNDERLINE := Element(HTML_NS, 58, [])
  const WORD := Text("word")

  const SPECIAL: set<(int, int)> := {(HTML_NS, 0), (HTML_NS, 10), (HTML_NS, 25)}

  lemma SelfAgrees(v: seq<int>)
    requires NoRepeat(v)
    ensures Agrees(v, v, -1)
  {
    forall p, q | -1 < p < q < |v| ensures IndexOf(v, v[p]) < IndexOf(v, v[q]) {
      IndexOfDistinct(v, p);
      IndexOfDistinct(v, q);
    }
  }

  /** A stack that is itself the path. */
  lemma StackThreaded(s: ParserState, rank: seq<int>, special: set<(int, int)>)
    requires Linked(s.d) && Ranked(s.d, rank) && |s.open| > 0 && Chain(s.d, s.open)
    requires forall p :: 0 < p < |s.open| ==> 0 <= s.open[p] < |s.d| && s.d[s.open[p]].content.Element?
    ensures Threaded(s, s.open, 0, special)
  {
    ChainDistinct(s.d, rank, s.open);
    assert s.open[0..] == s.open;
    SelfAgrees(s.open);
    forall p | 0 < p < |s.open| ensures Strand(s.d, s.open[p], s.list, s.open, special) {
      ChainRanks(s.d, rank, s.open, 0, p);
      assert 0 <= s.open[p - 1];
    }
  }

  // ----- the classic misnesting: <b><p>word</b> -----

  /** html, body, the formatting element, the paragraph and its text. */
  function Before(): Arena {
    [Node(HTML, -1, -1, [1]), Node(BODY, 0, 0, [2]), Node(BOLD, 1, 0, [3]), Node(PARAGRAPH, 2, 0, [4]),
     Node(WORD, 3, 0, [])]
  }

  function Ranks(): seq<int> {
    [4, 3, 2, 1, 0]
  }

  function Misnested(): ParserState {
    ParserState(Before(), [0, 1, 2, 3], [2])
  }

  function Begin(): Start {
    Start(Before(), Ranks(), Walk(5, [0, 1, 2, 3], [2], 2, 3))
  }

  lemma IsTree()
    ensures Linked(Before()) && Ranked(Before(), Ranks())
  {
    var d := Before();
    forall p, i | 0 <= p < |d| && 0 <= i < |d[p].children| ensures Down(d, Ranks(), p, i) {}
    forall c | 0 <= c < |d| ensures Up(d, c) {}
    ByParts(d, Ranks());
  }

  lemma IsChain()
    ensures Chain(Before(), Misnested().open)
  {
    var d, o := Before(), Misnested().open;
    forall i | 0 <= i < 3 ensures Step(d, o, i) {}
  }

  lemma ListsFit()
    ensures Lists(5, [0, 1, 2, 3], [2]) && Agrees([0, 1, 2, 3], [2], 0) && NoneSpecial(Before(), [2], SPECIAL)
    ensures IndexOf([2], 2) == 0 && IndexOf([0, 1, 2, 3], 2) == 2
  {
    EntryIndex([2], 0);
    IndexOfDistinct([0, 1, 2, 3], 2);
  }

  lemma FindsBold()
    ensures Candidate(Before(), [2], 57) == 0
  {
    CandidateIs(Before(), [2], 57, 0);
  }

  /** The conditions hold at the end tag of the formatting element. */
  lemma MisnestedReady()
    ensures Ready(Misnested(), Ranks(), [0, 1, 2, 3], 0, 57, SPECIAL)
    ensures TurnTaken(Misnested(), Ranks(), [0, 1, 2, 3], 0, 57, SPECIAL, Begin(), 1, 3)
    ensures Begin().Valid()
  {
    MisnestedOrderly();
    FindsBold();
    ListsFit();
    PathIndices();
    hide Orderly, Lists, Agrees, NoneSpecial, Candidate, OnPath, Start.Valid, IndexOf;
    assert Grounded(Misnested(), [0, 1, 2, 3], 0, 57);
    PassOnPath(Misnested(), Ranks(), [0, 1, 2, 3], 0, SPECIAL, 2, 3);
    OnPathFacts(Misnested(), Ranks(), [0, 1, 2, 3], 0, SPECIAL, Begin(), 1, 3);
  }

  lemma MisnestedOrderly()
    ensures Orderly(Misnested(), Ranks(), [0, 1, 2, 3], 0, SPECIAL)
  {
    IsTree();
    IsChain();
    ListsFit();
    hide Linked, Ranked, Chain, Threaded, Lists, Agrees, NoneSpecial;
    StackThreaded(Misnested(), Ranks(), SPECIAL);
  }

  lemma PathIndices()
    ensures IndexOf([0, 1, 2, 3], 1) == 1 && IndexOf([0, 1, 2, 3], 3) == 3
  {
    IndexOfDistinct([0, 1, 2, 3], 1);
    IndexOfDistinct([0, 1, 2, 3], 3);
  }

  function Expected(): Arena {
    [Node(HTML, -1, -1, [1]), Node(BODY, 0, 0, [2, 3]), Node(BOLD, 1, 0, []), Node(PARAGRAPH, 1, 1, [5]),
     Node(WORD, 5, 0, []), Node(BOLD, 3, 0, [4])]
  }

  lemma Operated()
    ensures Surgery(Before(), Site(1, 2, 3), [], BOLD) == Expected()
  {
    var d, s := Before(), Site(1, 2, 3);
    assert d[1].children + [3] == [2, 3] && d[2].children[..0] == [];
    forall x | 0 <= x < 6 ensures SurgeryNode(d, s, [], BOLD, x) == Expected()[x] {}
  }

  /** The paragraph becomes a child of the body, behind the formatting element, and its text
      moves below the clone. */
  lemma MisnestedResult()
    ensures Begin().Valid() && Begin().Result() == Expected() && FinalOpen(Begin().w, 5) == [0, 1, 3, 5]
  {
    MisnestedReady();
    Operated();
    hide Start.Valid, Surgery;
    NothingCloned();
  }

  lemma NothingCloned()
    requires Begin().Valid()
    ensures Begin().CloneLabels(3) == [] && Begin().Place() == Site(1, 2, 3)
    ensures FinalOpen(Begin().w, 5) == [0, 1, 3, 5]
  {
    hide GoodSite, Walk.Valid;
    var w := Begin().w;
    assert w.Cloned(3) == [] && w.Mid(3) == [];
    assert w.open[..2] == [0, 1] && w.open[4..] == [];
  }

  // ----- the stack leaves the tree: <b><i><em><strong><u><p></b> -----

  /** Each element is the only child of the one before it. */
  function Nested(): Arena {
    seq(8, x requires 0 <= x < 8 =>
      Node(NestedLabel(x), x - 1, if x == 0 then -1 else 0, if x == 7 then [] else [x + 1]))
  }

  function NestedLabel(x: int): Label {
    if x == 0 then HTML else if x == 1 then BODY else if x == 2 then BOLD else if x == 3 then ITALIC
    else if x == 4 then EMPHASIS else if x == 5 then STRONG else if x == 6 then UNDERLINE else PARAGRAPH
  }

  function NestedRanks(): seq<int> {
    seq(8, x => 7 - x)
  }

  function Deep(): Start {
    Start(Nested(), NestedRanks(), Walk(8, [0, 1, 2, 3, 4, 5, 6, 7], [2, 3, 4, 5, 6], 2, 7))
  }

  lemma NestedTree()
    ensures Linked(Nested()) && Ranked(Nested(), NestedRanks())
  {
    var d := Nested();
    forall p, i | 0 <= p < |d| && 0 <= i < |d[p].children| ensures Down(d, NestedRanks(), p, i) {}
    forall c | 0 <= c < |d| ensures Up(d, c) {}
    ByParts(d, NestedRanks());
  }

  lemma NestedChain()
    ensures Chain(Nested(), Deep().w.open)
  {
    var d, o := Nested(), Deep().w.open;
    assert o == seq(8, x => x);
    forall i | 0 <= i < 7 ensures Step(d, o, i) {}
  }

  lemma DeepValid()
    ensures Deep().Valid() && Deep().Place() == Site(1, 6, 7)
  {
    NestedTree();
    NestedChain();
    DeepWalk();
    DeepSite();
    DeepAttached();
    hide Linked, Ranked, Chain, GoodSite, Walk.Valid, Attached;
    assert Nested()[7].parent == 6;
    hide Nested;
  }

  lemma DeepAttached()
    ensures forall s :: 2 <= s < 7 ==> Attached(Nested(), Deep().w.open[s])
  {
    assert Deep().w.open == seq(8, x => x);
  }

  lemma DeepSite()
    requires Linked(Nested()) && Ranked(Nested(), NestedRanks()) && Chain(Nested(), Deep().w.open)
    ensures GoodSite(Nested(), NestedRanks(), Site(1, 6, 7))
  {
    hide Linked, Ranked, Chain, GoodSite, Nested;
    SiteOnPath(Nested(), NestedRanks(), Deep().w.open, 1, 7);
  }

  lemma DeepWalk()
    ensures Deep().w.Valid()
  {
    var v := Deep().w.list;
    assert v[0] == 2;
  }

  /** The element next to the formatting one is kept on the stack, off the tree's right edge. */
  lemma DeepDrifts()
    ensures Deep().Valid() && Chain(Deep().d, Deep().w.open)
    ensures !NoneKept(Deep().w, Deep().w.fi + 1)
    ensures !Chain(Deep().Result(), FinalOpen(Deep().w, NewFormatting(Deep().w)))
    ensures FinalOpen(Deep().w, NewFormatting(Deep().w)) == [0, 1, 3, 10, 9, 8, 7, 11]
  {
    NestedChain();
    DeepValid();
    DeepStack();
    hide Start.Valid, Chain, Linked, Ranked;
    StackFollowsTree(Deep());
  }

  lemma DeepStack()
    ensures Deep().w.Keeps(3) && FinalOpen(Deep().w, NewFormatting(Deep().w)) == [0, 1, 3, 10, 9, 8, 7, 11]
  {
    var w := Deep().w;
    var v := w.list;
    assert v[1] == 3 && v[2] == 4 && v[3] == 5 && v[4] == 6;
    assert w.Keeps(3) && w.Clones(4) && w.Clones(5) && w.Clones(6);
    assert w.Cloned(6) == [6] && w.Mid(6) == [8];
    assert w.Cloned(5) == [6, 5] && w.Mid(5) == [9, 8];
    assert w.Cloned(4) == [6, 5, 4] && w.Mid(4) == [10, 9, 8];
    assert w.Cloned(3) == [6, 5, 4] && w.Mid(3) == [3, 10, 9, 8];
    assert w.open[..2] == [0, 1] && w.open[8..] == [];
  }

  // ----- text changes places: the same, then </p></u></strong>x<p>y</em> -----

  /** The tree then: the first pass has left 2 to 6 on one side and the clones 8 to 11 around the
      first paragraph 7 on the other; 12 is "x", 13 the new paragraph, 14 "y". Italic 3 is still
      open, and the clone 10 is the formatting element. */
  function Later(): Arena {
    [Node(HTML, -1, -1, [1]), Node(BODY, 0, 0, [2, 10]), Node(BOLD, 1, 0, [3]), Node(ITALIC, 2, 0, [4]),
     Node(EMPHASIS, 3, 0, [5]), Node(STRONG, 4, 0, [6]), Node(UNDERLINE, 5, 0, []), Node(PARAGRAPH, 8, 0, [11]),
     Node(UNDERLINE, 9, 0, [7]), Node(STRONG, 10, 0, [8]), Node(EMPHASIS, 1, 1, [9, 12, 13]), Node(BOLD, 7, 0, []),
     Node(Text("x"), 10, 1, []), Node(PARAGRAPH, 10, 2, [14]), Node(Text("y"), 13, 0, [])]
  }

  function LaterRanks(): seq<int> {
    [9, 8, 7, 6, 5, 4, 3, 2, 3, 4, 5, 1, 0, 1, 0]
  }

  function LaterState(): ParserState {
    ParserState(Later(), [0, 1, 3, 10, 13], [10])
  }

  function Again(): Start {
    Start(Later(), LaterRanks(), Walk(15, [0, 1, 3, 10, 13], [10], 3, 4))
  }

  lemma LaterDown(p: int, i: int)
    requires 0 <= p < 15 && 0 <= i < |Later()[p].children|
    ensures Down(Later(), LaterRanks(), p, i)
  {
    if p == 1 { assert i in [0, 1]; } else if p == 10 { assert i in [0, 1, 2]; } else { assert i == 0; }
  }

  lemma LaterTree()
    ensures Linked(Later()) && Ranked(Later(), LaterRanks())
  {
    forall p, i | 0 <= p < 15 && 0 <= i < |Later()[p].children|
      ensures Down(Later(), LaterRanks(), p, i)
    {
      LaterDown(p, i);
    }
    forall c | 0 <= c < 15 ensures Up(Later(), c) {}
    hide Down, Up;
    ByParts(Later(), LaterRanks());
  }

  lemma LaterChain()
    ensures Chain(Later(), [0, 1, 10, 13])
  {
    var o := [0, 1, 10, 13];
    forall i | 0 <= i < 3 ensures Step(Later(), o, i) {}
  }

  lemma AgainValid()
    ensures Again().Valid() && Again().Place() == Site(3, 10, 13)
  {
    LaterTree();
    AgainWalk();
    hide Linked, Ranked, Walk.Valid;
    assert LastChild(Later(), 10, 13);
  }

  lemma AgainWalk()
    ensures Again().w.Valid()
  {
    var v := Again().w.list;
    assert v[0] == 10;
  }

  /** The state is rooted, so the algorithm may be called. */
  lemma LaterRooted()
    ensures Rooted(LaterState(), LaterRanks(), SPECIAL)
  {
    LaterTree();
    LaterOneTree();
    LaterLists();
    LaterStanding();
    hide Rooted, Linked, Ranked, OneTree, Lists, NoneSpecial, Agrees, Standing;
    IsRooted(LaterState(), LaterRanks(), SPECIAL);
  }

  lemma LaterOneTree()
    ensures OneTree(Later())
  {
    var d := Later();
    forall x | 0 < x < 15 ensures 0 <= d[x].parent < 15 && !d[d[x].parent].content.Text? {
      assert d[x].parent in [0, 1, 2, 3, 4, 5, 7, 8, 9, 10, 13];
    }
  }

  lemma LaterStanding()
    ensures Standing(LaterState(), LaterRanks(), SPECIAL)
  {
    var s := LaterState();
    LaterFalling();
    forall p | 0 < p < 5 ensures Seated(s.d, s.open[p], SPECIAL) { LaterSeated(p); }
    forall p, q | 0 <= p < q < 5 && Firm(s.d, s.open[p], s.list, SPECIAL)
      ensures Holds(s.d, LaterRanks(), s.open[p], s.open[q])
    {
      LaterHolds(p, q);
    }
    hide Seated, Firm, Holds, Falling, Later, LaterRanks;
  }

  lemma LaterFalling()
    ensures Falling([0, 1, 3, 10, 13], LaterRanks()) && TagIn(Later()[0].content, SPECIAL)
  {}

  lemma LaterHolds(p: int, q: int)
    requires 0 <= p < q < 5 && Firm(Later(), LaterState().open[p], [10], SPECIAL)
    ensures Holds(Later(), LaterRanks(), LaterState().open[p], LaterState().open[q])
  {}

  lemma LaterSeated(p: int)
    requires 0 < p < 5
    ensures Seated(Later(), LaterState().open[p], SPECIAL)
  {
    if p == 4 { assert LastChild(Later(), 10, 13); }
  }

  /** It is orderly, too; only the element below the formatting one is off the path. */
  lemma LaterOrderly()
    ensures Orderly(LaterState(), LaterRanks(), [0, 1, 10, 13], 0, SPECIAL)
    ensures Lists(15, LaterState().open, [10]) && !Grounded(LaterState(), [0, 1, 10, 13], 0, 40)
  {
    LaterTree();
    LaterChain();
    LaterThread();
    LaterLists();
    LaterLoose();
    hide Linked, Ranked, Threaded, Candidate, Lists, IndexOf, Agrees, NoneSpecial, Grounded;
  }

  lemma LaterLoose()
    requires Lists(15, LaterState().open, [10])
    ensures !Grounded(LaterState(), [0, 1, 10, 13], 0, 40)
  {
    LaterLists();
    hide Lists, Candidate, IndexOf;
    assert LaterState().open[3] == 10;
  }

  lemma LaterLists()
    ensures Lists(15, LaterState().open, [10]) && Agrees(LaterState().open, [10], 0)
    ensures NoneSpecial(Later(), [10], SPECIAL)
    ensures Candidate(Later(), [10], 40) == 0 && IndexOf(LaterState().open, 10) == 3 && LaterState().open[3] == 10
  {
    CandidateIs(Later(), [10], 40, 0);
    IndexOfDistinct(LaterState().open, 3);
    EntryIndex([10], 0);
  }

  lemma LaterThread()
    requires Chain(Later(), [0, 1, 10, 13])
    ensures Threaded(LaterState(), [0, 1, 10, 13], 0, SPECIAL)
  {
    var s, path := LaterState(), [0, 1, 10, 13];
    hide Chain;
    LaterAgrees();
    assert s.open[0..] == s.open;
    assert path[1] == 1 && path[2] == 10 && path[3] == 13;
    forall p | 0 < p < |s.open| ensures Strand(s.d, s.open[p], s.list, path, SPECIAL) {}
  }

  lemma LaterAgrees()
    ensures Agrees([0, 1, 3, 10, 13], [0, 1, 10, 13], -1)
  {
    var path := [0, 1, 10, 13];
    IndexOfDistinct(path, 0);
    IndexOfDistinct(path, 1);
    IndexOfDistinct(path, 2);
    IndexOfDistinct(path, 3);
  }

  /** The leaves below a node with `c` as children, at most three. */
  lemma {:induction false} Below(d: Arena, r: seq<int>, x: int, c: seq<int>)
    requires Ranked(d, r) && 0 <= x < |d| && !d[x].content.Text? && d[x].children == c && |c| <= 3
    ensures forall i :: 0 <= i < |c| ==> 0 <= c[i] < |d|
    ensures |c| == 0 ==> Leaves(d, r, x) == []
    ensures |c| == 1 ==> Leaves(d, r, x) == Leaves(d, r, c[0])
    ensures |c| == 2 ==> Leaves(d, r, x) == Leaves(d, r, c[0]) + Leaves(d, r, c[1])
    ensures |c| == 3 ==> Leaves(d, r, x) == Leaves(d, r, c[0]) + Leaves(d, r, c[1]) + Leaves(d, r, c[2])
  {
    assert LeavesUpTo(d, r, x, 0) == [];
    if |c| >= 1 { assert LeavesUpTo(d, r, x, 1) == Leaves(d, r, c[0]); }
    if |c| >= 2 { assert LeavesUpTo(d, r, x, 2) == LeavesUpTo(d, r, x, 1) + Leaves(d, r, c[1]); }
    if |c| == 3 { assert LeavesUpTo(d, r, x, 3) == LeavesUpTo(d, r, x, 2) + Leaves(d, r, c[2]); }
  }

  function Disordered(): Arena {
    [Node(HTML, -1, -1, [1]), Node(BODY, 0, 0, [2, 10]), Node(BOLD, 1, 0, [3]), Node(ITALIC, 2, 0, [4, 13]),
     Node(EMPHASIS, 3, 0, [5]), Node(STRONG, 4, 0, [6]), Node(UNDERLINE, 5, 0, []), Node(PARAGRAPH, 8, 0, [11]),
     Node(UNDERLINE, 9, 0, [7]), Node(STRONG, 10, 0, [8]), Node(EMPHASIS, 1, 1, [9, 12]), Node(BOLD, 7, 0, []),
     Node(Text("x"), 10, 1, []), Node(PARAGRAPH, 3, 1, [15]), Node(Text("y"), 15, 0, []), Node(EMPHASIS, 13, 0, [14])]
  }

  lemma OperatedAgain()
    ensures Surgery(Later(), Site(3, 10, 13), [], EMPHASIS) == Disordered()
  {
    var d, s := Later(), Site(3, 10, 13);
    assert d[3].children + [13] == [4, 13] && d[10].children[..2] == [9, 12];
    forall x | 0 <= x < 16 ensures SurgeryNode(d, s, [], EMPHASIS, x) == Disordered()[x] {}
  }

  /** The elements that hold no text, in both trees. */
  lemma EmptyParts(d: Arena, r: seq<int>)
    requires Ranked(d, r) && |d| >= 15
    requires forall x :: 4 <= x < 10 || x == 11 ==> !d[x].content.Text? && d[x].children == Later()[x].children
    ensures Leaves(d, r, 4) == [] && Leaves(d, r, 9) == []
  {
    hide Ranked, Leaves;
    Below(d, r, 6, []);
    Below(d, r, 5, [6]);
    Below(d, r, 4, [5]);
    Below(d, r, 11, []);
    Below(d, r, 7, [11]);
    Below(d, r, 8, [7]);
    Below(d, r, 9, [8]);
  }

  lemma LeavesBefore(r: seq<int>)
    requires Ranked(Later(), r)
    ensures Leaves(Later(), r, 0) == [12, 14]
  {
    var d := Later();
    assert Leaves(d, r, 12) == [12] && Leaves(d, r, 14) == [14] by { hide Ranked; }
    hide Ranked, Leaves;
    EmptyParts(d, r);
    Below(d, r, 13, [14]);
    Below(d, r, 10, [9, 12, 13]);
    Below(d, r, 3, [4]);
    Below(d, r, 2, [3]);
    Below(d, r, 1, [2, 10]);
    Below(d, r, 0, [1]);
  }

  lemma LeavesAfter(r: seq<int>)
    requires Ranked(Disordered(), r)
    ensures Leaves(Disordered(), r, 0) == [14, 12]
  {
    var d := Disordered();
    assert Leaves(d, r, 12) == [12] && Leaves(d, r, 14) == [14] by { hide Ranked; }
    hide Ranked, Leaves;
    EmptyParts(d, r);
    Below(d, r, 15, [14]);
    Below(d, r, 13, [15]);
    Below(d, r, 10, [9, 12]);
    Below(d, r, 3, [4, 13]);
    Below(d, r, 2, [3]);
    Below(d, r, 1, [2, 10]);
    Below(d, r, 0, [1]);
  }

  lemma NothingClonedAgain()
    requires Again().Valid()
    ensures Again().CloneLabels(4) == []
  {
    hide GoodSite, Walk.Valid;
    var w := Again().w;
    assert w.Cloned(4) == [];
  }

  /** The pass is well-defined and leaves a tree, but "x", then "y" has become "y", then "x". */
  lemma TextMoves(r: seq<int>)
    ensures Again().Valid() && Ranked(Later(), LaterRanks()) && Leaves(Later(), LaterRanks(), 0) == [12, 14]
    ensures |Again().Result()| == 16 && (Ranked(Again().Result(), r) ==> Leaves(Again().Result(), r, 0) == [14, 12])
  {
    LaterTree();
    AgainValid();
    LeavesBefore(LaterRanks());
    AgainResult();
    hide Start.Valid, Linked, Ranked, Leaves, Start.Result;
    if Ranked(Disordered(), r) { LeavesAfter(r); }
  }

  lemma AgainResult()
    requires Again().Valid() && Again().Place() == Site(3, 10, 13)
    ensures Again().Result() == Disordered()
  {
    NothingClonedAgain();
    OperatedAgain();
    hide Start.Valid, Start.CloneLabels, Surgery, Start.Place;
  }
}
