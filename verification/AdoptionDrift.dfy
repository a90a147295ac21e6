/** When the stack of open elements still follows the tree after a pass of the adoption
    agency algorithm (gumbo-parser/src/parser.c:1930-1944). */
module AdoptionDrift {
  import opened Sequences
  import opened Dom
  import opened AdoptionSurgery
  import opened AdoptionWalk
  import opened AdoptionOrder
  import opened AdoptionPass
  import opened AdoptionPath

  ghost predicate NoneKept(w: Walk, s: nat)
    requires w.k < |w.open|
  {
    forall t :: s <= t < w.k ==> !w.Keeps(t)
  }

  /** Without step 13.5, what is left between formatting node and furthest block is the
      clones, the last one first. */
  lemma {:induction false} MidClones(w: Walk, s: nat)
    requires w.k < |w.open| && s <= w.k && NoneKept(w, s)
    ensures w.Mid(s) == Numbers(w.n, |w.Cloned(s)|)
    decreases w.k - s
  {
    if s < w.k {
      MidClones(w, s + 1);
      var m := |w.Cloned(s + 1)|;
      assert Numbers(w.n, m + 1) == [w.n + m] + Numbers(w.n, m);
    }
  }

  /** With it, an old element comes first. */
  lemma {:induction false} MidKept(w: Walk, s: nat)
    requires w.Valid() && s <= w.k && !NoneKept(w, s)
    ensures |w.Mid(s)| > 0 && w.Mid(s)[0] < w.n && w.Mid(s)[0] != w.open[w.k]
    decreases w.k - s
  {
    var t :| s <= t < w.k && w.Keeps(t);
    if !w.Keeps(s) {
      assert w.k - s > 3 && t > s;
      MidKept(w, s + 1);
    }
  }

  /** Where the path is the stack from `from` on, it is so again after a pass in which step
      13.5 took nothing. */
  lemma PathIsStack(w: Walk, path: seq<int>, from: int, a: int, b: int)
    requires w.Valid() && 0 <= from < w.fi && path == w.open[from..] && a == w.fi - 1 - from && b == w.k - from
    requires NoneKept(w, w.fi + 1)
    ensures 0 <= a && a + 2 <= b < |path|
    ensures NewPath(w.n, |w.Cloned(w.fi + 1)|, path, a, b) == FinalOpen(w, NewFormatting(w))[from..]
  {
    hide NoRepeat, DistinctEntries, Walk.Mid, Walk.Cloned, FinalOpen, NoneKept;
    MidClones(w, w.fi + 1);
    FinalParts(w, from);
    assert path[..a + 1] == w.open[from..w.fi] && path[b + 1..] == w.open[w.k + 1..] && path[b] == w.open[w.k];
  }

  /** If the stack followed the tree before a pass, it does so afterwards exactly when step
      13.5 removed no element from the list: that step leaves the element on the stack. */
  lemma StackFollowsTree(st: Start)
    requires st.Valid() && Chain(st.d, st.w.open)
    ensures Chain(st.Result(), FinalOpen(st.w, NewFormatting(st.w))) <==> NoneKept(st.w, st.w.fi + 1)
  {
    var o := FinalOpen(st.w, NewFormatting(st.w));
    if NoneKept(st.w, st.w.fi + 1) { StaysInStep(st); } else { Drifts(st, o); }
  }

  /** The last child of the common ancestor after a pass. */
  lemma AncestorLast(d: Arena, s: Site, clones: seq<Label>, f: Label, c: int)
    requires 0 <= s.ca < |d| && 0 <= s.q < |d| && 0 <= s.fb < |d| && |d[s.q].children| > 0 && s.fb != s.ca
    requires LastChild(Surgery(d, s, clones, f), s.ca, c)
    ensures c == if |clones| > 0 then |d| + |clones| - 1 else s.fb
  {
    assert Surgery(d, s, clones, f)[s.ca] == SurgeryNode(d, s, clones, f, s.ca);
  }

  lemma Drifts(st: Start, o: seq<int>)
    requires st.Valid() && !NoneKept(st.w, st.w.fi + 1)
    requires o == FinalOpen(st.w, NewFormatting(st.w))
    ensures !Chain(st.Result(), o)
  {
    hide *;
    ResultIs(st);
    TreeOf(st);
    MidKept(st.w, st.w.fi + 1);
    StackDrifts(st.d, st.w, st.Place(), st.CloneLabels(st.w.fi + 1), st.d[st.w.open[st.w.fi]].content, st.Result(), o);
  }

  lemma StackDrifts(d: Arena, w: Walk, s: Site, clones: seq<Label>, f: Label, e: Arena, o: seq<int>)
    requires 1 <= w.fi < w.k < |w.open| && |d| == w.n && s.ca == w.open[w.fi - 1] && s.fb == w.open[w.k] && s.fb != s.ca
    requires 0 <= s.ca < |d| && 0 <= s.q < |d| && 0 <= s.fb < |d| && |d[s.q].children| > 0
    requires e == Surgery(d, s, clones, f)
    requires |w.Mid(w.fi + 1)| > 0 && w.Mid(w.fi + 1)[0] < w.n && w.Mid(w.fi + 1)[0] != w.open[w.k]
    requires o == FinalOpen(w, NewFormatting(w))
    ensures !Chain(e, o)
  {
    assert w.fi < |o| && o[w.fi - 1] == w.open[w.fi - 1] && o[w.fi] == w.Mid(w.fi + 1)[0];
    hide FinalOpen, Surgery, Walk.Mid;
    if Chain(e, o) {
      assert Step(e, o, w.fi - 1);
      AncestorLast(d, s, clones, f, o[w.fi]);
    }
  }

  lemma StaysInStep(st: Start)
    requires st.Valid() && Chain(st.d, st.w.open) && NoneKept(st.w, st.w.fi + 1)
    ensures Chain(st.Result(), FinalOpen(st.w, NewFormatting(st.w)))
  {
    hide *;
    NoText(st);
    ResultIs(st);
    TreeOf(st);
    StackPath(st.d, st.rank, st.w, st.Place(), st.CloneLabels(st.w.fi + 1), st.d[st.w.open[st.w.fi]].content,
        st.Result());
  }

  lemma StackPath(d: Arena, rank: seq<int>, w: Walk, s: Site, clones: seq<Label>, f: Label, e: Arena)
    requires Linked(d) && Ranked(d, rank) && w.Valid() && NoneKept(w, w.fi + 1) && Chain(d, w.open) && |d| == w.n
    requires 1 <= w.fi < w.k < |w.open| && 0 <= w.open[w.k] < |d| && GoodSite(d, rank, s)
    requires s == Site(w.open[w.fi - 1], d[w.open[w.k]].parent, w.open[w.k]) && |clones| == |w.Cloned(w.fi + 1)|
    requires 0 <= s.ca < |d| && 0 <= s.q < |d| && 0 <= s.fb < |d| && |d[s.q].children| > 0
    requires e == Surgery(d, s, clones, f)
    requires !f.Text? && forall i :: 0 <= i < |clones| ==> !clones[i].Text?
    ensures Chain(e, FinalOpen(w, NewFormatting(w)))
  {
    hide *;
    assert w.open[0..] == w.open && FinalOpen(w, NewFormatting(w))[0..] == FinalOpen(w, NewFormatting(w));
    PathIsStack(w, w.open, 0, w.fi - 1, w.k);
    SiteOnPath(d, rank, w.open, w.fi - 1, w.k);
    NewPathChain(d, rank, w.open, w.fi - 1, w.k, clones, f, e);
  }

  lemma TreeOf(st: Start)
    requires st.Valid()
    ensures Linked(st.d) && Ranked(st.d, st.rank) && 1 <= st.w.fi < st.w.k < |st.w.open|
    ensures 0 <= st.w.open[st.w.k] < |st.d|
    ensures 0 <= st.w.open[st.w.fi] < |st.d|
    ensures st.Place() == Site(st.w.open[st.w.fi - 1], st.d[st.w.open[st.w.k]].parent, st.w.open[st.w.k])
    ensures GoodSite(st.d, st.rank, st.Place()) && st.Place().fb != st.Place().ca
  {}
}
