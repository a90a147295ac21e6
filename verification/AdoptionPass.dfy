/** One pass of the adoption agency algorithm (gumbo-parser/src/parser.c): where it starts,
    the state at every turn of its inner walk, and what the single steps do to that state. */
module AdoptionPass {
  import opened Sequences
  import opened Dom
  import opened AdoptionSurgery
  import opened AdoptionSteps
  import opened AdoptionWalk

  const HTML_NS := 0

  predicate HtmlTagIs(c: Label, tag: int) {
    c.Element? && c.ns == HTML_NS && c.tag == tag
  }

  ghost function Labels(d: Arena, ids: seq<int>): (r: seq<Label>)
    requires forall i :: 0 <= i < |ids| ==> 0 <= ids[i] < |d|
    ensures |r| == |ids|
  {
    seq(|ids|, i requires 0 <= i < |ids| => d[ids[i]].content)
  }

  /** An element that hangs below another node. */
  ghost predicate Attached(d: Arena, x: int) {
    0 <= x < |d| && d[x].content.Element? && d[x].parent != -1
  }

  /** Everything a pass starts from: the tree, a ranking of it, and the walk over the lists. The
      furthest block is its parent's last child, and the common ancestor is not below it. */
  datatype Start = Start(d: Arena, rank: seq<int>, w: Walk)
  {
    ghost predicate Valid() {
      && w.n == |d| && w.Valid() && GoodSite(d, rank, Place())
      && forall s :: w.fi <= s < w.k ==> Attached(d, w.open[s])
    }

    function Place(): Site
      requires 1 <= w.fi < w.k < |w.open| && 0 <= w.open[w.k] < |d|
    {
      Site(w.open[w.fi - 1], d[w.open[w.k]].parent, w.open[w.k])
    }

    ghost function CloneLabels(s: nat): seq<Label>
      requires w.n == |d| && w.Valid() && w.fi < s <= w.k
      ensures |CloneLabels(s)| == |w.Cloned(s)|
    {
      ClonedAreOld(w, s);
      Labels(d, w.Cloned(s))
    }

    /** The tree a whole pass leaves. */
    ghost function Result(): Arena
      requires Valid()
    {
      Surgery(d, Place(), CloneLabels(w.fi + 1), d[w.open[w.fi]].content)
    }

    /** The tree when the walk has come down to `s`. */
    ghost function TreeAt(s: nat): Arena
      requires Valid() && w.fi < s <= w.k
    {
      Walking(d, Place(), CloneLabels(s))
    }
  }

  lemma {:induction false} ClonedAreOld(w: Walk, s: nat)
    requires w.Valid() && w.fi < s <= w.k
    ensures forall i :: 0 <= i < |w.Cloned(s)| ==> 0 <= w.Cloned(s)[i] < w.n
    decreases w.k - s
  {
    if s < w.k { ClonedAreOld(w, s + 1); }
  }

  /** The label list grows by the element cloned at `s`. */
  lemma LabelsGrow(st: Start, s: nat)
    requires st.Valid() && st.w.fi < s < st.w.k && st.w.Clones(s)
    ensures st.CloneLabels(s) == st.CloneLabels(s + 1) + [st.d[st.w.open[s]].content]
  {
    ClonedAreOld(st.w, s);
  }

  lemma LabelsStay(st: Start, s: nat)
    requires st.Valid() && st.w.fi < s < st.w.k && !st.w.Clones(s)
    ensures st.CloneLabels(s) == st.CloneLabels(s + 1) && st.w.Cloned(s) == st.w.Cloned(s + 1)
  {}

  ghost predicate WalkState(st: Start, s: nat, last: int, bookmark: int, open: seq<int>, formatting: seq<int>,
                            nodes: Arena)
  {
    && st.Valid() && st.w.fi < s <= st.w.k
    && open == st.w.Open(s) && formatting == st.w.Form(s) && bookmark == st.w.Mark(s)
    && nodes == st.TreeAt(s)
    && last == LastNode(st.d, st.Place(), |st.w.Cloned(s)|)
  }

  lemma WalkStarts(st: Start)
    requires st.Valid()
    ensures WalkState(st, st.w.k, st.w.open[st.w.k], IndexOf(st.w.list, st.w.open[st.w.fi]) + 1, st.w.open, st.w.list,
              st.d)
  {
    assert st.w.open[..st.w.k] + [] + st.w.open[st.w.k..] == st.w.open;
  }

  lemma SamePosition(st: Start, s: nat, s': nat, last: int, bookmark: int, open: seq<int>, formatting: seq<int>,
                     nodes: Arena)
    requires WalkState(st, s, last, bookmark, open, formatting, nodes) && s' == s
    ensures WalkState(st, s', last, bookmark, open, formatting, nodes)
  {}

  /** A turn that clones nothing. */
  lemma OtherTurn(st: Start, s: nat, last: int, mark: int, open: seq<int>, formatting: seq<int>, nodes: Arena)
    requires WalkState(st, s + 1, last, mark, open, formatting, nodes) && st.w.fi < s && !st.w.Clones(s)
    ensures s < |open|
    ensures var i := IndexOf(formatting, st.w.open[s]);
            if i != -1 then
              WalkState(st, s, last, if i < mark then mark - 1 else mark, open, RemoveAt(formatting, i), nodes)
            else
              WalkState(st, s, last, mark, RemoveAt(open, s), formatting, nodes)
  {
    Handled(st.w, s);
    OpenStep(st.w, s);
    LabelsStay(st, s);
  }

  /** A turn that clones. */
  lemma CloneTurned(st: Start, s: nat, last: int, mark: int, open: seq<int>, formatting: seq<int>, nodes: Arena,
                    node: int, mark': int, open': seq<int>, formatting': seq<int>)
    requires st.Valid() && st.w.fi < s < st.w.k && st.w.Clones(s)
    requires open == st.w.Open(s + 1) && formatting == st.w.Form(s + 1) && mark == st.w.Mark(s + 1)
    requires node == |st.d| + |st.CloneLabels(s + 1)| && last == LastNode(st.d, st.Place(), |st.w.Cloned(s + 1)|)
    requires nodes == Walking(st.d, st.Place(), st.CloneLabels(s + 1) + [st.d[st.w.open[s]].content])
    requires s < |open| && open' == open[s := node]
    requires IndexOf(formatting, st.w.open[s]) != -1
    requires formatting' == formatting[IndexOf(formatting, st.w.open[s]) := node]
    requires mark' == if last == st.w.open[st.w.k] then IndexOf(formatting, st.w.open[s]) + 1 else mark
    ensures WalkState(st, s, node, mark', open', formatting', nodes)
  {
    TreeGrows(st, s, nodes, st.CloneLabels(s + 1) + [st.d[st.w.open[s]].content]);
    OpenGrows(st.w, s, open, node, open');
    FormGrows(st.w, s, formatting, IndexOf(formatting, st.w.open[s]), node, formatting');
    MarkGrows(st, s, last, mark, formatting, mark', node);
  }

  lemma MarkGrows(st: Start, s: nat, last: int, mark: int, form: seq<int>, mark': int, node: int)
    requires st.Valid() && st.w.fi < s < st.w.k && st.w.Clones(s)
    requires form == st.w.Form(s + 1) && mark == st.w.Mark(s + 1) && IndexOf(form, st.w.open[s]) != -1
    requires last == LastNode(st.d, st.Place(), |st.w.Cloned(s + 1)|) && node == |st.d| + |st.w.Cloned(s + 1)|
    requires mark' == if last == st.w.open[st.w.k] then IndexOf(form, st.w.open[s]) + 1 else mark
    ensures mark' == st.w.Mark(s) && mark' <= |form| && node == LastNode(st.d, st.Place(), |st.w.Cloned(s)|)
  {
    LastNodeIsBlock(st, s + 1);
    NewestClone(st.d, st.Place(), st.w, s, node);
    MarkMoves(st.w, s, |st.w.Cloned(s + 1)| == 0, form, mark');
  }

  lemma NewestClone(d: Arena, p: Site, w: Walk, s: nat, node: int)
    requires w.Valid() && w.fi < s < w.k && w.Clones(s) && node == |d| + |w.Cloned(s + 1)|
    ensures node == LastNode(d, p, |w.Cloned(s)|)
  {}

  /** Step 13.8. */
  lemma MarkMoves(w: Walk, s: nat, first: bool, form: seq<int>, mark': int)
    requires w.Valid() && w.fi < s < w.k && w.Clones(s) && form == w.Form(s + 1) && IndexOf(form, w.open[s]) != -1
    requires first <==> |w.Cloned(s + 1)| == 0
    requires mark' == if first then IndexOf(form, w.open[s]) + 1 else w.Mark(s + 1)
    ensures mark' == w.Mark(s) && mark' <= |form|
  {
    MarkPlace(w, s + 1);
    hide NoRepeat, DistinctEntries;
  }

  lemma TreeGrows(st: Start, s: nat, nodes: Arena, labels: seq<Label>)
    requires st.Valid() && st.w.fi < s < st.w.k && st.w.Clones(s)
    requires labels == st.CloneLabels(s + 1) + [st.d[st.w.open[s]].content]
    requires nodes == Walking(st.d, st.Place(), labels)
    ensures nodes == st.TreeAt(s)
  {
    LabelsGrow(st, s);
  }

  lemma OpenGrows(w: Walk, s: nat, open: seq<int>, node: int, open': seq<int>)
    requires w.Valid() && w.fi < s < w.k && w.Clones(s) && open == w.Open(s + 1) && s < |open|
    requires node == w.n + |w.Cloned(s + 1)| && open' == open[s := node]
    ensures open' == w.Open(s)
  {
    OpenStep(w, s);
  }

  lemma FormGrows(w: Walk, s: nat, form: seq<int>, i: int, node: int, form': seq<int>)
    requires w.Valid() && w.fi < s < w.k && w.Clones(s) && form == w.Form(s + 1) && i == IndexOf(form, w.open[s]) != -1
    requires node == w.n + |w.Cloned(s + 1)| && form' == form[i := node]
    ensures form' == w.Form(s)
  {}

  lemma AncestorReady(d: Arena, rank: seq<int>, p: Site, clones: seq<Label>)
    requires GoodSite(d, rank, p)
    ensures var w, last := Walking(d, p, clones), LastNode(d, p, |clones|);
            && 0 <= last < |w| && last != p.ca && 0 <= p.ca < |d| && 0 <= p.fb < |d|
            && (w[last].parent == -1 || (Linked(w) && Ranked(w, rank)))
  {
    WalkingFacts(d, rank, p, clones);
  }

  lemma AncestorDone(d: Arena, rank: seq<int>, p: Site, clones: seq<Label>, w0: Arena, w1: Arena, w2: Arena, last: int)
    requires GoodSite(d, rank, p) && w0 == Walking(d, p, clones) && last == LastNode(d, p, |clones|)
    requires 0 <= last < |w0|
    requires w0[last].parent != -1 ==>
              0 <= w0[last].parent < |w0| && 0 <= w0[last].index < |w0[w0[last].parent].children|
    requires w1 == Detached(w0, last) && w2 == Appended(w1, last, p.ca)
    ensures w2 == Moved(d, p, clones)
  {
    hide Walking, Moved, Detached, Appended, GoodSite;
    AncestorStep(d, rank, p, clones);
  }

  lemma FormattingReady(d: Arena, rank: seq<int>, p: Site, clones: seq<Label>, f: int, w: Arena)
    requires GoodSite(d, rank, p) && 0 <= f < |d|
    requires w == Moved(d, p, clones) + [Node(Moved(d, p, clones)[f].content, -1, -1, [])]
    ensures w == Moved(d, p, clones) + [Fresh(d[f].content)] && |w| == |d| + |clones| + 1
    ensures OwnChildren(w, p.fb, |d| + |clones|) && w[|d| + |clones|].children == []
    ensures var e := Adopted(w, p.fb, |d| + |clones|); e[|d| + |clones|].parent == -1 && e[|d| + |clones|].index == -1
  {
    assert Moved(d, p, clones)[f] == MovedNode(d, p, clones, f);
    BlockOwnsChildren(d, rank, p, clones, d[f].content);
  }

  lemma FormattingDone(d: Arena, rank: seq<int>, p: Site, clones: seq<Label>, f: Label, w2: Arena, w3: Arena,
                       w4: Arena, b: int)
    requires GoodSite(d, rank, p) && w2 == Moved(d, p, clones) + [Fresh(f)] && b == |d| + |clones|
    requires w3 == Adopted(w2, p.fb, b) && w4 == Appended(w3, b, p.fb)
    ensures w4 == Surgery(d, p, clones, f)
  {
    hide Surgery, Moved, Adopted, Appended, GoodSite;
    FormattingStep(d, rank, p, clones, f);
  }

  lemma Rehung(d: Arena, rank: seq<int>, p: Site, clones: seq<Label>, c: Label, w0: Arena, w1: Arena, w2: Arena,
               last: int, node: int)
    requires GoodSite(d, rank, p) && w0 == Walking(d, p, clones) + [Fresh(c)]
    requires last == LastNode(d, p, |clones|) && node == |d| + |clones| && 0 <= last < |w0|
    requires w0[last].parent != -1 ==>
              0 <= w0[last].parent < |w0| && 0 <= w0[last].index < |w0[w0[last].parent].children|
    requires w1 == Detached(w0, last) && w2 == Appended(w1, last, node)
    ensures w2 == Walking(d, p, clones + [c])
  {
    hide Walking, Detached, Appended, GoodSite, LastNode;
    CloneStep(d, rank, p, clones, c);
  }

  /** last_node is the furthest block exactly while nothing was cloned. */
  lemma LastNodeIsBlock(st: Start, s: nat)
    requires st.Valid() && st.w.fi < s <= st.w.k
    ensures LastNode(st.d, st.Place(), |st.w.Cloned(s)|) == st.w.open[st.w.k] <==> |st.w.Cloned(s)| == 0
  {}

  /** What step 13.3 finds. */
  lemma NextFacts(st: Start, saved: nat, last: int, mark: int, open: seq<int>, formatting: seq<int>, nodes: Arena)
    requires WalkState(st, saved, last, mark, open, formatting, nodes)
    ensures var i := IndexOf(open, Last(st.w, saved)); (if i == -1 then saved else i) == saved
    ensures 0 < saved - 1 < |open| && open[saved - 1] == st.w.open[saved - 1]
    ensures st.w.fi <= saved - 1 && (open[saved - 1] == st.w.open[st.w.fi] <==> saved - 1 == st.w.fi)
    ensures 0 <= open[saved - 1] < |nodes| && nodes[open[saved - 1]].parent != -1
  {
    LastIndex(st.w, saved);
    BelowSaved(st, saved);
    StillHasParent(st, saved);
    hide *;
  }

  /** What the next position of the walk holds. */
  lemma BelowSaved(st: Start, saved: nat)
    requires st.Valid() && st.w.fi < saved <= st.w.k
    ensures saved - 1 < |st.w.Open(saved)| && st.w.Open(saved)[saved - 1] == st.w.open[saved - 1]
    ensures st.w.open[saved - 1] == st.w.open[st.w.fi] <==> saved - 1 == st.w.fi
  {
    assert st.w.Open(saved)[..saved] == st.w.open[..saved];
  }

  /** It has a parent, whatever the walk did before. */
  lemma StillHasParent(st: Start, saved: nat)
    requires st.Valid() && st.w.fi < saved <= st.w.k
    ensures 0 <= st.w.open[saved - 1] < |st.TreeAt(saved)| && st.TreeAt(saved)[st.w.open[saved - 1]].parent != -1
  {
    hide GoodSite, Walking;
    var e := st.w.open[saved - 1];
    assert Attached(st.d, e) && e != st.w.open[st.w.k];
    WalkingFacts(st.d, st.rank, st.Place(), st.CloneLabels(saved));
  }
}
