/** What a call of the adoption agency algorithm (gumbo-parser/src/parser.c) does to the text of
    a rooted document, whether or not the stack follows the tree. */
module RootedText {
  import opened Dom
  import opened AdoptionSurgery
  import opened AdoptionWalk
  import opened AdoptionOrder
  import opened AdoptionPass
  import opened AdoptionPath
  import opened AdoptionText
  import opened RootedState
  import opened RootedPass

  // ----- order -----

  /** Old nodes keep their content, new nodes are no text, and the text below every old node is
      the same in the same order, apart from the leaves `t`. */
  ghost predicate Stirred(d: Arena, rank: seq<int>, e: Arena, r: seq<int>, t: seq<int>) {
    && Ranked(d, rank) && Ranked(e, r) && |d| <= |e|
    && (forall x :: 0 <= x < |d| ==> e[x].content == d[x].content)
    && (forall x :: |d| <= x < |e| ==> !e[x].content.Text?)
    && (forall x :: 0 <= x < |d| ==> Without(Leaves(e, r, x), t) == Without(Leaves(d, rank, x), t))
  }

  lemma StirredNot(d: Arena, rank: seq<int>)
    requires Ranked(d, rank)
    ensures Stirred(d, rank, d, rank, [])
  {}

  lemma {:induction false} WithoutMore(v: seq<int>, t: seq<int>, u: seq<int>)
    ensures Without(v, t + u) == Without(Without(v, t), u) == Without(Without(v, u), t)
  {
    if v != [] {
      var w := v[1..];
      WithoutMore(w, t, u);
      WithoutOne(v[0], Without(w, t), u);
      WithoutOne(v[0], Without(w, u), t);
      assert v[0] in t + u <==> v[0] in t || v[0] in u;
      assert [] + Without(w, t) == Without(w, t) && [] + Without(w, u) == Without(w, u);
      assert [] + Without(w, t + u) == Without(w, t + u);
    }
  }

  lemma WithoutOne(x: int, v: seq<int>, t: seq<int>)
    ensures Without([x] + v, t) == (if x in t then [] else [x]) + Without(v, t)
  {
    assert ([x] + v)[1..] == v;
  }

  lemma StirredTwice(d: Arena, r0: seq<int>, e: Arena, r1: seq<int>, f: Arena, r2: seq<int>, t: seq<int>, u: seq<int>)
    requires Stirred(d, r0, e, r1, t) && Stirred(e, r1, f, r2, u)
    ensures Stirred(d, r0, f, r2, t + u)
  {
    hide Ranked, Leaves, Without;
    forall x | 0 <= x < |d| ensures Without(Leaves(f, r2, x), t + u) == Without(Leaves(d, r0, x), t + u) {
      WithoutMore(Leaves(f, r2, x), t, u);
      WithoutMore(Leaves(e, r1, x), t, u);
      WithoutMore(Leaves(d, r0, x), t, u);
    }
  }

  /** The text of the furthest block, which a pass moves. */
  ghost function TurnText(st: Start): seq<int>
    requires st.Valid()
  {
    Leaves(st.d, st.rank, st.w.open[st.w.k])
  }

  lemma PassStirs(st: Start, r: seq<int>, special: set<(int, int)>)
    requires Turned(st, r, special) && st.Valid() && Ranked(st.Result(), r)
    ensures Stirred(st.d, st.rank, st.Result(), r, TurnText(st))
  {
    hide Turned, Start.Valid, Start.CloneLabels, Start.Place, Start.Result, Surgery, TagIn, Spaced, Falling, Standing,
         OneTree, Agrees, NoneSpecial, Found, GoodSite, Walk.Cloned, TurnText, Stirred, Leaves, NewFormatting;
    var m, ca, fb := TurnedFacts(st, r, special);
    BlockIsElement(st, special, ca, fb);
    NoText(st);
    ResultIs(st);
    ResultSite(st);
    ResultNodes(st, special);
    ParentIsElement(st.d, st.rank, st.Place());
    MoveStirs(st.d, st.rank, st.Place(), st.CloneLabels(st.w.fi + 1), st.d[st.w.open[st.w.fi]].content, r, st.Result());
    TurnTextIs(st, fb);
  }

  lemma TurnTextIs(st: Start, fb: int)
    requires st.Valid() && st.w.fi < st.w.k < |st.w.open| && fb == st.w.open[st.w.k]
    ensures Ranked(st.d, st.rank) && 0 <= fb < |st.d| && TurnText(st) == Leaves(st.d, st.rank, fb)
  {}

  lemma ParentIsElement(d: Arena, rank: seq<int>, s: Site)
    requires GoodSite(d, rank, s) && OneTree(d)
    ensures 0 <= s.q < |d| && !d[s.q].content.Text?
  {
    assert d[s.fb].parent == s.q;
    assert s.fb != 0;
  }

  lemma MoveStirs(d: Arena, rank: seq<int>, s: Site, clones: seq<Label>, f: Label, r: seq<int>, e: Arena)
    requires GoodSite(d, rank, s) && 0 <= s.ca < |d| && 0 <= s.q < |d| && 0 <= s.fb < |d| && |d[s.q].children| > 0
    requires !d[s.ca].content.Text? && !d[s.fb].content.Text? && !d[s.q].content.Text?
    requires !f.Text? && (forall i :: 0 <= i < |clones| ==> !clones[i].Text?)
    requires e == Surgery(d, s, clones, f) && Ranked(e, r)
    requires forall x :: 0 <= x < |d| ==> e[x].content == d[x].content
    requires forall x :: |d| <= x < |e| ==> !e[x].content.Text?
    ensures Ranked(d, rank) && Stirred(d, rank, e, r, Leaves(d, rank, s.fb))
  {
    var m := Move(d, rank, s, clones, f, r);
    IsGood(d, rank, s);
    hide Linked, Ranked, GoodSite, Surgery, Leaves, Without;
    BlockText(m);
    forall x | 0 <= x < |d|
      ensures Without(Leaves(e, r, x), Leaves(d, rank, s.fb)) == Without(Leaves(d, rank, x), Leaves(d, rank, s.fb))
    {
      OtherText(m, x);
    }
  }

  lemma IsGood(d: Arena, rank: seq<int>, s: Site)
    requires GoodSite(d, rank, s)
    ensures Linked(d) && Ranked(d, rank)
  {}

  // ----- the text of the document -----

  lemma {:induction false} TextLeaf(d: Arena, rank: seq<int>, x: int, y: int)
    requires Ranked(d, rank) && 0 <= x < |d| && y in Leaves(d, rank, x)
    ensures 0 <= y < |d| && d[y].content.Text?
    decreases rank[x], |d[x].children| + 1
  {
    if !d[x].content.Text? { TextInPrefix(d, rank, x, |d[x].children|, y); }
  }

  lemma {:induction false} TextInPrefix(d: Arena, rank: seq<int>, x: int, k: nat, y: int)
    requires Ranked(d, rank) && 0 <= x < |d| && k <= |d[x].children| && y in LeavesUpTo(d, rank, x, k)
    ensures 0 <= y < |d| && d[y].content.Text?
    decreases rank[x], k
  {
    if y in LeavesUpTo(d, rank, x, k - 1) {
      TextInPrefix(d, rank, x, k - 1, y);
    } else {
      TextLeaf(d, rank, d[x].children[k - 1], y);
    }
  }

  lemma {:induction false} ChildLeaf(d: Arena, rank: seq<int>, x: int, i: nat, k: nat, y: int)
    requires Ranked(d, rank) && 0 <= x < |d| && i < k <= |d[x].children| && 0 <= d[x].children[i] < |d|
    requires y in Leaves(d, rank, d[x].children[i])
    ensures y in LeavesUpTo(d, rank, x, k)
    decreases k
  {
    if i < k - 1 { ChildLeaf(d, rank, x, i, k - 1, y); }
  }

  /** A leaf below any node is below node 0. */
  lemma {:induction false} LeafOfRoot(d: Arena, rank: seq<int>, x: int, y: int, h: int)
    requires Linked(d) && Ranked(d, rank) && OneTree(d) && 0 <= x < |d| && y in Leaves(d, rank, x)
    requires forall i :: 0 <= i < |rank| ==> rank[i] <= h
    ensures y in Leaves(d, rank, 0)
    decreases h - rank[x]
  {
    if x != 0 {
      var p := d[x].parent;
      ParentHigher(d, rank, x);
      assert d[p].children[d[x].index] == x;
      ChildLeaf(d, rank, p, d[x].index, |d[p].children|, y);
      assert rank[p] <= h;
      LeafOfRoot(d, rank, p, y, h);
    }
  }

  lemma Highest(rank: seq<int>) returns (h: int)
    ensures forall i :: 0 <= i < |rank| ==> rank[i] <= h
  {
    h := 0;
    for n := 0 to |rank|
      invariant forall i :: 0 <= i < n ==> rank[i] <= h
    {
      if rank[n] > h { h := rank[n]; }
    }
  }

  /** The leaves of the document are all its text nodes. */
  lemma AllText(d: Arena, rank: seq<int>)
    requires Linked(d) && Ranked(d, rank) && OneTree(d)
    ensures forall y :: y in Leaves(d, rank, 0) <==> 0 <= y < |d| && d[y].content.Text?
  {
    var h := Highest(rank);
    assert 0 < |d|;
    hide Linked, Ranked, OneTree;
    forall y | 0 <= y < |d| && d[y].content.Text? ensures y in Leaves(d, rank, 0) {
      assert Leaves(d, rank, y) == [y];
      LeafOfRoot(d, rank, y, y, h);
    }
    forall y | y in Leaves(d, rank, 0) ensures 0 <= y < |d| && d[y].content.Text? { TextLeaf(d, rank, 0, y); }
  }
}
