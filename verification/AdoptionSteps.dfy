/** The single node operations of an adoption agency pass add up to the closed form. */
module AdoptionSteps {
  import opened Dom
  import opened AdoptionSurgery

  /** The tree during the inner walk, after `clones` were made: each clone holds the one
      before it, the first holds the furthest block, the last is not attached yet. */
  function WalkNode(d: Arena, s: Site, clones: seq<Label>, x: int): Node
    requires 0 <= x < |d| + |clones| && 0 <= s.q < |d| && |d[s.q].children| > 0
  {
    var n, m := |d|, |clones|;
    if x < n then
      Node(d[x].content, if x == s.fb then n else d[x].parent, if x == s.fb then 0 else d[x].index,
           if x == s.q then d[x].children[..|d[x].children| - 1] else d[x].children)
    else
      Node(clones[x - n], if x + 1 < n + m then x + 1 else -1, if x + 1 < n + m then 0 else -1,
           [if x == n then s.fb else x - 1])
  }

  function Walking(d: Arena, s: Site, clones: seq<Label>): (e: Arena)
    requires 0 <= s.q < |d| && |d[s.q].children| > 0
    ensures |e| == |d| + |clones|
  {
    if |clones| == 0 then d
    else seq(|d| + |clones|, x requires 0 <= x < |d| + |clones| => WalkNode(d, s, clones, x))
  }

  /** The C variable last_node. */
  function LastNode(d: Arena, s: Site, m: nat): int {
    if m == 0 then s.fb else |d| + m - 1
  }

  function Fresh(c: Label): Node {
    Node(c, -1, -1, [])
  }

  /** What holds of the tree between the steps of a pass. */
  lemma WalkingFacts(d: Arena, rank: seq<int>, s: Site, clones: seq<Label>)
    requires GoodSite(d, rank, s)
    ensures var w := Walking(d, s, clones);
            && (forall x :: 0 <= x < |w| ==> w[x].parent < |w|)
            && (forall x :: 0 <= x < |d| && x != s.fb ==> w[x].parent == d[x].parent && w[x].index == d[x].index)
            && (forall x :: 0 <= x < |d| ==> w[x].content == d[x].content)
            && w[s.ca].children == d[s.ca].children && w[s.fb].children == d[s.fb].children
            && (|clones| > 0 ==> w[LastNode(d, s, |clones|)].parent == -1 && w[LastNode(d, s, |clones|)].index == -1)
  {
    var w := Walking(d, s, clones);
    forall x | 0 <= x < |w| ensures w[x].parent < |w| {
      if x < |d| && d[x].parent != -1 { assert 0 <= d[x].parent < |d|; }
    }
  }

  lemma IsLastChild(d: Arena, rank: seq<int>, s: Site)
    requires GoodSite(d, rank, s)
    ensures d[s.fb].parent == s.q && d[s.fb].index == |d[s.q].children| - 1
    ensures RemoveAt(d[s.q].children, |d[s.q].children| - 1) == d[s.q].children[..|d[s.q].children| - 1]
    ensures forall x :: 0 <= x < |d| && d[x].parent != -1 ==> d[x].index < |d[d[x].parent].children|
  {
    assert d[s.q].children[|d[s.q].children| - 1] == s.fb;
  }

  lemma FreshLinked(d: Arena, rank: seq<int>, c: Label)
    requires Linked(d) && Ranked(d, rank)
    ensures Linked(d + [Fresh(c)]) && Ranked(d + [Fresh(c)], rank + [0])
  {
    var e, r := d + [Fresh(c)], rank + [0];
    forall p, i | 0 <= p < |e| && 0 <= i < |e[p].children| ensures Down(e, r, p, i) {
      assert d[p].children[i] == e[p].children[i];
    }
    forall x | 0 <= x < |e| ensures Up(e, x) {
      if x < |d| && d[x].parent != -1 { assert d[d[x].parent].children[d[x].index] == x; }
    }
    ByParts(e, r);
  }

  /** Detaching the furthest block takes the last child from its parent. */
  lemma BlockDetached(d: Arena, rank: seq<int>, s: Site, tail: seq<Node>)
    requires GoodSite(d, rank, s) && (tail == [] || (|tail| == 1 && tail[0].parent == -1))
    ensures (d + tail)[s.fb].parent == s.q && (d + tail)[s.fb].index == |d[s.q].children| - 1
    ensures Detached(d + tail, s.fb)
         == (d + tail)[s.fb := d[s.fb].(parent := -1, index := -1)]
                      [s.q := d[s.q].(children := d[s.q].children[..|d[s.q].children| - 1])]
  {
    IsLastChild(d, rank, s);
    var e := d + tail;
    var f := e[s.fb := d[s.fb].(parent := -1, index := -1)]
              [s.q := d[s.q].(children := d[s.q].children[..|d[s.q].children| - 1])];
    forall x | 0 <= x < |e| ensures Detached(e, s.fb)[x] == f[x] {
      if x < |d| { assert e[x] == d[x]; }
    }
  }

  /** remove_from_parent(last_node): only the furthest block still has a parent. */
  lemma LastDetached(d: Arena, rank: seq<int>, s: Site, clones: seq<Label>, tail: seq<Node>)
    requires GoodSite(d, rank, s) && (tail == [] || (|tail| == 1 && tail[0].parent == -1))
    ensures var last, w := LastNode(d, s, |clones|), Walking(d, s, clones) + tail;
            && 0 <= last < |w|
            && (w[last].parent != -1 ==>
                  |clones| == 0 && 0 <= w[last].parent < |w| && 0 <= w[last].index < |w[w[last].parent].children|)
            && (|clones| > 0 ==> Detached(w, last) == w)
            && (|clones| == 0 ==>
                  Detached(w, last) == w[s.fb := d[s.fb].(parent := -1, index := -1)]
                                        [s.q := d[s.q].(children := d[s.q].children[..|d[s.q].children| - 1])])
  {
    WalkingFacts(d, rank, s, clones);
    if |clones| == 0 { BlockDetached(d, rank, s, tail); }
  }

  /** Step 13.7 and 13.9: clone, detach the last node, append it to the clone. */
  lemma CloneStep(d: Arena, rank: seq<int>, s: Site, clones: seq<Label>, c: Label)
    requires GoodSite(d, rank, s)
    ensures var m := |clones|;
            var last, w := LastNode(d, s, m), Walking(d, s, clones) + [Fresh(c)];
            && 0 <= last < |w|
            && (w[last].parent != -1 ==>
                  m == 0 && 0 <= w[last].parent < |w| && 0 <= w[last].index < |w[w[last].parent].children|)
            && |Detached(w, last)[|d| + m].children| == 0
            && Appended(Detached(w, last), last, |d| + m) == Walking(d, s, clones + [c])
  {
    var m := |clones|;
    var last, w := LastNode(d, s, m), Walking(d, s, clones) + [Fresh(c)];
    LastDetached(d, rank, s, clones, [Fresh(c)]);
    CloneStepAt(d, rank, s, clones, c, 0);
    var f, g := Appended(Detached(w, last), last, |d| + m), Walking(d, s, clones + [c]);
    forall x | 0 <= x < |w| ensures f[x] == g[x] {
      CloneStepAt(d, rank, s, clones, c, x);
      assert g[x] == WalkNode(d, s, clones + [c], x);
    }
  }

  /** The operations of that step are applicable. */
  lemma CloneReady(d: Arena, rank: seq<int>, s: Site, clones: seq<Label>, c: Label)
    requires GoodSite(d, rank, s)
    ensures var m := |clones|;
            var last, w := LastNode(d, s, m), Walking(d, s, clones) + [Fresh(c)];
            && 0 <= last < |d| + m
            && (w[last].parent == -1 || (Linked(w) && Ranked(w, rank + [0])))
            && (w[last].parent != -1 ==> 0 <= w[last].parent < |w| && 0 <= w[last].index < |w[w[last].parent].children|)
            && Detached(w, last)[last].parent == -1 && Detached(w, last)[last].index == -1
  {
    LastDetached(d, rank, s, clones, [Fresh(c)]);
    WalkingFacts(d, rank, s, clones);
    FreshLinked(d, rank, c);
  }

  lemma CloneStepAt(d: Arena, rank: seq<int>, s: Site, clones: seq<Label>, c: Label, x: int)
    requires GoodSite(d, rank, s) && 0 <= x <= |d| + |clones|
    ensures var m := |clones|;
            var last, w := LastNode(d, s, m), Walking(d, s, clones) + [Fresh(c)];
            && 0 <= last < |w|
            && (w[last].parent != -1 ==> 0 <= w[last].parent < |w| && 0 <= w[last].index < |w[w[last].parent].children|)
            && |Detached(w, last)[|d| + m].children| == 0
            && AppendedNode(Detached(w, last), last, |d| + m, x) == WalkNode(d, s, clones + [c], x)
  {
    LastDetached(d, rank, s, clones, [Fresh(c)]);
    if |clones| == 0 {
      FirstCloneAt(d, rank, s, c, x);
    } else {
      NextCloneAt(d, rank, s, clones, c, x);
    }
  }

  lemma FirstCloneAt(d: Arena, rank: seq<int>, s: Site, c: Label, x: int)
    requires GoodSite(d, rank, s) && 0 <= x <= |d|
    ensures var e := (d + [Fresh(c)])[s.fb := d[s.fb].(parent := -1, index := -1)]
                                     [s.q := d[s.q].(children := d[s.q].children[..|d[s.q].children| - 1])];
            |e[|d|].children| == 0 && AppendedNode(e, s.fb, |d|, x) == WalkNode(d, s, [c], x)
  {
    if x < |d| && d[x].parent != -1 { assert 0 <= d[x].parent < |d|; }
  }

  lemma NextCloneAt(d: Arena, rank: seq<int>, s: Site, clones: seq<Label>, c: Label, x: int)
    requires GoodSite(d, rank, s) && 0 <= x <= |d| + |clones| && |clones| > 0
    ensures var w, b := Walking(d, s, clones) + [Fresh(c)], |d| + |clones|;
            |w[b].children| == 0 && AppendedNode(w, b - 1, b, x) == WalkNode(d, s, clones + [c], x)
  {
    var b := |d| + |clones|;
    var w := Walking(d, s, clones) + [Fresh(c)];
    assert 0 <= s.q < |d| && |d[s.q].children| > 0;
    assert w[b] == Fresh(c) && w[b - 1] == WalkNode(d, s, clones, b - 1);
    if x < b {
      assert w[x] == WalkNode(d, s, clones, x);
      hide GoodSite, Walking;
    } else {
      hide GoodSite, Walking;
    }
  }

  /** Step 14: detach the last node and append it to the common ancestor. */
  lemma AncestorStep(d: Arena, rank: seq<int>, s: Site, clones: seq<Label>)
    requires GoodSite(d, rank, s)
    ensures var last, w := LastNode(d, s, |clones|), Walking(d, s, clones);
            && 0 <= last < |w|
            && (w[last].parent != -1 ==>
                  |clones| == 0 && 0 <= w[last].parent < |w| && 0 <= w[last].index < |w[w[last].parent].children|)
            && Detached(w, last)[s.ca].children == d[s.ca].children
            && Detached(w, last)[last].parent == -1 && Detached(w, last)[last].index == -1
            && Appended(Detached(w, last), last, s.ca) == Moved(d, s, clones)
  {
    var last, w := LastNode(d, s, |clones|), Walking(d, s, clones);
    WalkingFacts(d, rank, s, clones);
    assert w + [] == w;
    LastDetached(d, rank, s, clones, []);
    var f, g := Appended(Detached(w, last), last, s.ca), Moved(d, s, clones);
    forall x | 0 <= x < |w| ensures f[x] == g[x] { AncestorStepAt(d, rank, s, clones, x); }
  }

  lemma AncestorStepAt(d: Arena, rank: seq<int>, s: Site, clones: seq<Label>, x: int)
    requires GoodSite(d, rank, s) && 0 <= x < |d| + |clones|
    ensures var last, w := LastNode(d, s, |clones|), Walking(d, s, clones);
            && 0 <= last < |w|
            && (w[last].parent != -1 ==> 0 <= w[last].parent < |w| && 0 <= w[last].index < |w[w[last].parent].children|)
            && Detached(w, last)[s.ca].children == d[s.ca].children
            && AppendedNode(Detached(w, last), last, s.ca, x) == MovedNode(d, s, clones, x)
  {
    var w := Walking(d, s, clones);
    assert w + [] == w;
    LastDetached(d, rank, s, clones, []);
    if |clones| == 0 {
      assert d + [] == d;
      BlockMovedAt(d, rank, s, x);
    } else {
      WalkingFacts(d, rank, s, clones);
      CloneMovedAt(d, rank, s, clones, x);
    }
  }

  lemma BlockMovedAt(d: Arena, rank: seq<int>, s: Site, x: int)
    requires GoodSite(d, rank, s) && 0 <= x < |d|
    ensures var e := d[s.fb := d[s.fb].(parent := -1, index := -1)]
                      [s.q := d[s.q].(children := d[s.q].children[..|d[s.q].children| - 1])];
            && e[s.ca].children == d[s.ca].children
            && AppendedNode(e, s.fb, s.ca, x) == MovedNode(d, s, [], x)
  {
    IsLastChild(d, rank, s);
  }

  lemma CloneMovedAt(d: Arena, rank: seq<int>, s: Site, clones: seq<Label>, x: int)
    requires GoodSite(d, rank, s) && 0 <= x < |d| + |clones| && |clones| > 0
    ensures var w, last := Walking(d, s, clones), |d| + |clones| - 1;
            && w[s.ca].children == d[s.ca].children
            && AppendedNode(w, last, s.ca, x) == MovedNode(d, s, clones, x)
  {
    var w, last := Walking(d, s, clones), |d| + |clones| - 1;
    IsLastChild(d, rank, s);
    assert w[s.ca] == WalkNode(d, s, clones, s.ca);
    assert w[x] == WalkNode(d, s, clones, x);
  }

  /** The tree after step 14. */
  function MovedNode(d: Arena, s: Site, clones: seq<Label>, x: int): Node
    requires 0 <= x < |d| + |clones| && 0 <= s.q < |d| && |d[s.q].children| > 0 && 0 <= s.ca < |d|
  {
    var n, m, k := |d|, |clones|, |d[s.ca].children|;
    if x < n then
      Node(d[x].content,
           if x == s.fb then (if m > 0 then n else s.ca) else d[x].parent,
           if x == s.fb then (if m > 0 then 0 else k) else d[x].index,
           if x == s.ca then d[x].children + [LastNode(d, s, m)]
           else if x == s.q then d[x].children[..|d[x].children| - 1]
           else d[x].children)
    else
      Node(clones[x - n], if x + 1 < n + m then x + 1 else s.ca, if x + 1 < n + m then 0 else k,
           [if x == n then s.fb else x - 1])
  }

  function Moved(d: Arena, s: Site, clones: seq<Label>): (e: Arena)
    requires 0 <= s.q < |d| && |d[s.q].children| > 0 && 0 <= s.ca < |d|
    ensures |e| == |d| + |clones|
  {
    seq(|d| + |clones|, x requires 0 <= x < |d| + |clones| => MovedNode(d, s, clones, x))
  }

  /** Step 16: the new node `b` takes the children of `a`, and becomes their parent. */
  function Adopted(d: Arena, a: int, b: int): (e: Arena)
    requires 0 <= a < |d| && 0 <= b < |d|
    ensures |e| == |d|
  {
    seq(|d|, x requires 0 <= x < |d| =>
      if x == b then d[b].(children := d[a].children)
      else if x == a then d[a].(children := d[b].children)
      else if d[x].parent == a then d[x].(parent := b)
      else d[x])
  }

  /** The children of `a` are exactly the nodes that name it as parent. */
  ghost predicate OwnChildren(d: Arena, a: int, b: int)
    requires 0 <= a < |d| && 0 <= b < |d|
  {
    && (forall i :: 0 <= i < |d[a].children| ==>
          0 <= d[a].children[i] < |d| && d[a].children[i] != a && d[a].children[i] != b)
    && (forall x :: 0 <= x < |d| && x != a && x != b ==> (d[x].parent == a <==> x in d[a].children))
  }

  lemma BlockOwnsChildren(d: Arena, rank: seq<int>, s: Site, clones: seq<Label>, f: Label)
    requires GoodSite(d, rank, s)
    ensures OwnChildren(Moved(d, s, clones) + [Fresh(f)], s.fb, |d| + |clones|)
  {
    var b, w := |d| + |clones|, Moved(d, s, clones) + [Fresh(f)];
    IsLastChild(d, rank, s);
    assert w[s.fb] == MovedNode(d, s, clones, s.fb);
    forall i | 0 <= i < |d[s.fb].children| ensures 0 <= d[s.fb].children[i] < |d| && d[s.fb].children[i] != s.fb {}
    forall x | 0 <= x < |w| && x != s.fb && x != b
      ensures w[x].parent == s.fb <==> x in w[s.fb].children
    {
      assert w[x] == MovedNode(d, s, clones, x);
      if x < |d| && d[x].parent == s.fb { assert d[s.fb].children[d[x].index] == x; }
    }
  }

  /** Steps 15 to 17: clone the formatting node, give it the children of the furthest block,
      append it there. */
  lemma FormattingStep(d: Arena, rank: seq<int>, s: Site, clones: seq<Label>, f: Label)
    requires GoodSite(d, rank, s)
    ensures var b, w := |d| + |clones|, Moved(d, s, clones) + [Fresh(f)];
            && Adopted(w, s.fb, b)[s.fb].children == []
            && Appended(Adopted(w, s.fb, b), b, s.fb) == Surgery(d, s, clones, f)
  {
    var b, w := |d| + |clones|, Moved(d, s, clones) + [Fresh(f)];
    IsLastChild(d, rank, s);
    var e := Adopted(w, s.fb, b);
    var g, h := Appended(e, b, s.fb), Surgery(d, s, clones, f);
    forall x | 0 <= x <= b ensures g[x] == h[x] {
      assert g[x] == AppendedNode(e, b, s.fb, x);
      assert h[x] == SurgeryNode(d, s, clones, f, x);
      if x < b { assert w[x] == MovedNode(d, s, clones, x); }
    }
  }
}
