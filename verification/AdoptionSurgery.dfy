/** What one pass of the adoption agency algorithm (gumbo-parser/src/parser.c, steps 13 to 19)
    does to the node tree, in closed form, and why it keeps the tree and the text order. */
module AdoptionSurgery {
  import opened Dom

  ghost predicate LastChild(d: Arena, p: int, c: int) {
    0 <= p < |d| && |d[p].children| > 0 && d[p].children[|d[p].children| - 1] == c
  }

  /** Where a pass operates: `ca` the common ancestor, `fb` the furthest block, `q` its parent. */
  datatype Site = Site(ca: int, q: int, fb: int)

  ghost predicate GoodSite(d: Arena, rank: seq<int>, s: Site) {
    && Linked(d) && Ranked(d, rank)
    && 0 <= s.ca < |d| && 0 <= s.fb < |d|
    && LastChild(d, s.q, s.fb) && rank[s.fb] < rank[s.q] < rank[s.ca]
  }

  /** The node a pass leaves at `x`: clones are numbered from |d|, the one around the
      furthest block first; the clone of the formatting node comes last. */
  function SurgeryNode(d: Arena, s: Site, clones: seq<Label>, f: Label, x: int): Node
    requires 0 <= x < |d| + |clones| + 1
    requires 0 <= s.ca < |d| && 0 <= s.q < |d| && 0 <= s.fb < |d| && |d[s.q].children| > 0
  {
    var n, m := |d|, |clones|;
    var top := if m > 0 then n + m - 1 else s.fb;
    if x < n then
      Node(d[x].content,
           if x == s.fb then (if m > 0 then n else s.ca) else if d[x].parent == s.fb then n + m else d[x].parent,
           if x == s.fb then (if m > 0 then 0 else |d[s.ca].children|) else d[x].index,
           if x == s.ca then d[x].children + [top]
           else if x == s.fb then [n + m]
           else if x == s.q then d[x].children[..|d[x].children| - 1]
           else d[x].children)
    else if x < n + m then
      Node(clones[x - n], if x + 1 < n + m then x + 1 else s.ca,
           if x + 1 < n + m then 0 else |d[s.ca].children|, [if x == n then s.fb else x - 1])
    else
      Node(f, s.fb, 0, d[s.fb].children)
  }

  function Surgery(d: Arena, s: Site, clones: seq<Label>, f: Label): (e: Arena)
    requires 0 <= s.ca < |d| && 0 <= s.q < |d| && 0 <= s.fb < |d| && |d[s.q].children| > 0
    ensures |e| == |d| + |clones| + 1
  {
    seq(|d| + |clones| + 1, x requires 0 <= x < |d| + |clones| + 1 => SurgeryNode(d, s, clones, f, x))
  }

  // ----- the tree stays a tree -----

  /** A ranking with room for `k` more nodes between any parent and child. */
  ghost predicate Roomy(d: Arena, rank: seq<int>, k: nat) {
    && (forall n :: 0 <= n < |rank| ==> rank[n] >= k)
    && (forall p, i :: 0 <= p < |d| && 0 <= i < |d[p].children| && 0 <= p < |rank| && 0 <= d[p].children[i] < |rank| ==>
          rank[d[p].children[i]] + k <= rank[p])
  }

  lemma {:induction false} Gap(k: nat, a: int, b: int)
    requires a < b
    ensures k * a + k <= k * b
    decreases b - a
  {
    if a + 1 < b { Gap(k, a, b - 1); }
  }

  lemma SpreadOut(d: Arena, rank: seq<int>, k: nat) returns (r: seq<int>)
    requires Ranked(d, rank) && k > 0
    ensures Ranked(d, r) && Roomy(d, r, k)
    ensures forall a, b :: 0 <= a < |rank| && 0 <= b < |rank| && rank[a] < rank[b] ==> r[a] + k <= r[b]
  {
    r := seq(|rank|, n requires 0 <= n < |rank| => k * rank[n] + k);
    forall a, b | 0 <= a < |rank| && 0 <= b < |rank| && rank[a] < rank[b]
      ensures r[a] + k <= r[b]
    {
      Gap(k, rank[a], rank[b]);
    }
    forall n | 0 <= n < |rank| ensures r[n] >= k {
      Gap(k, -1, rank[n]);
    }
  }

  /** Old nodes keep their rank, the clones go above the furthest block, and the clone of
      the formatting node below it. */
  function NewRank(rank: seq<int>, fb: int, m: nat): (r: seq<int>)
    requires 0 <= fb < |rank|
    ensures |r| == |rank| + m + 1
  {
    seq(|rank| + m + 1, x requires 0 <= x < |rank| + m + 1 =>
      if x < |rank| then rank[x] else if x < |rank| + m then rank[fb] + 1 + (x - |rank|) else rank[fb] - 1)
  }

  /** A ranking after a pass that made `m` clones: old nodes have kept their order, and the new
      ones are next to the furthest block. */
  ghost predicate Spaced(rank: seq<int>, r: seq<int>, fb: int, m: nat) {
    && 0 <= fb < |rank| && |r| == |rank| + m + 1
    && (forall a, b :: 0 <= a < |rank| && 0 <= b < |rank| && rank[a] < rank[b] ==> r[a] + m + 2 <= r[b])
    && (forall x :: |rank| <= x < |rank| + m ==> r[x] == r[fb] + 1 + (x - |rank|))
    && r[|rank| + m] == r[fb] - 1
  }

  ghost predicate RoomySite(d: Arena, rank: seq<int>, s: Site, m: nat) {
    GoodSite(d, rank, s) && Roomy(d, rank, m + 2) && rank[s.fb] + m + 2 <= rank[s.ca]
  }

  /** A child an old node keeps. */
  lemma KeptDown(d: Arena, rank: seq<int>, s: Site, clones: seq<Label>, f: Label, x: int, i: int)
    requires RoomySite(d, rank, s, |clones|)
    requires 0 <= x < |d| && x != s.fb && 0 <= i < |d[x].children| && !(x == s.q && i == |d[x].children| - 1)
    ensures i < |Surgery(d, s, clones, f)[x].children|
    ensures Down(Surgery(d, s, clones, f), NewRank(rank, s.fb, |clones|), x, i)
  {
    var e, c := Surgery(d, s, clones, f), d[x].children[i];
    assert e[x] == SurgeryNode(d, s, clones, f, x);
    assert c != s.fb by { assert d[s.q].children[|d[s.q].children| - 1] == s.fb; }
    assert e[c] == SurgeryNode(d, s, clones, f, c);
    assert e[x].children[i] == c;
  }

  /** A child that moved to the clone of the formatting node. */
  lemma MovedDown(d: Arena, rank: seq<int>, s: Site, clones: seq<Label>, f: Label, i: int)
    requires RoomySite(d, rank, s, |clones|) && 0 <= i < |d[s.fb].children|
    ensures i < |Surgery(d, s, clones, f)[|d| + |clones|].children|
    ensures Down(Surgery(d, s, clones, f), NewRank(rank, s.fb, |clones|), |d| + |clones|, i)
  {
    var e, c := Surgery(d, s, clones, f), d[s.fb].children[i];
    assert e[|d| + |clones|] == SurgeryNode(d, s, clones, f, |d| + |clones|);
    assert c != s.fb;
    assert e[c] == SurgeryNode(d, s, clones, f, c);
  }

  /** The new edges: common ancestor, clones, furthest block, clone of the formatting node. */
  lemma NewDown(d: Arena, rank: seq<int>, s: Site, clones: seq<Label>, f: Label, x: int, i: int)
    requires RoomySite(d, rank, s, |clones|)
    requires (x == s.ca && i == |d[s.ca].children|) || (x == s.fb && i == 0) || (|d| <= x < |d| + |clones| && i == 0)
    ensures i < |Surgery(d, s, clones, f)[x].children|
    ensures Down(Surgery(d, s, clones, f), NewRank(rank, s.fb, |clones|), x, i)
  {
    var e := Surgery(d, s, clones, f);
    assert e[x] == SurgeryNode(d, s, clones, f, x);
    var c := e[x].children[i];
    assert e[c] == SurgeryNode(d, s, clones, f, c);
  }

  lemma SurgeryDown(d: Arena, rank: seq<int>, s: Site, clones: seq<Label>, f: Label, x: int, i: int)
    requires RoomySite(d, rank, s, |clones|)
    requires 0 <= x < |d| + |clones| + 1 && 0 <= i < |Surgery(d, s, clones, f)[x].children|
    ensures Down(Surgery(d, s, clones, f), NewRank(rank, s.fb, |clones|), x, i)
  {
    assert Surgery(d, s, clones, f)[x] == SurgeryNode(d, s, clones, f, x);
    if x == |d| + |clones| {
      MovedDown(d, rank, s, clones, f, i);
    } else if x < |d| && x != s.fb && i < |d[x].children| {
      KeptDown(d, rank, s, clones, f, x, i);
    } else {
      NewDown(d, rank, s, clones, f, x, i);
    }
  }

  lemma SurgeryUp(d: Arena, rank: seq<int>, s: Site, clones: seq<Label>, f: Label, c: int)
    requires GoodSite(d, rank, s) && 0 <= c < |d| + |clones| + 1
    ensures Up(Surgery(d, s, clones, f), c)
  {
    hide Ranked;
    var n, m := |d|, |clones|;
    var e := Surgery(d, s, clones, f);
    assert e[c] == SurgeryNode(d, s, clones, f, c);
    if c < n && d[c].parent != -1 {
      var p := d[c].parent;
      assert d[p].children[d[c].index] == c;
      assert e[p] == SurgeryNode(d, s, clones, f, p);
      assert d[s.q].children[|d[s.q].children| - 1] == s.fb;
    }
  }

  lemma SurgeryParents(d: Arena, rank: seq<int>, s: Site, clones: seq<Label>, f: Label)
    requires GoodSite(d, rank, s)
    ensures var e := Surgery(d, s, clones, f);
            && (forall x :: 0 <= x < |d| ==> e[x].content == d[x].content && (e[x].parent == -1 <==> d[x].parent == -1))
            && (forall x :: |d| <= x < |e| ==> e[x].parent != -1)
  {
    var e := Surgery(d, s, clones, f);
    assert d[s.q].children[|d[s.q].children| - 1] == s.fb;
    forall x | 0 <= x < |e|
      ensures x >= |d| ==> e[x].parent != -1
      ensures x < |d| ==> e[x].content == d[x].content && (e[x].parent == -1 <==> d[x].parent == -1)
    {
      assert e[x] == SurgeryNode(d, s, clones, f, x);
    }
  }

  /** A pass leaves a well-formed forest. Every old node that had a parent still has exactly
      one, the only new nodes are the clones, and they all have a parent. */
  lemma SurgeryWellFormed(d: Arena, rank: seq<int>, s: Site, clones: seq<Label>, f: Label) returns (r: seq<int>)
    requires GoodSite(d, rank, s)
    ensures var e := Surgery(d, s, clones, f);
            && Linked(e) && Ranked(e, r)
            && (forall x :: 0 <= x < |d| ==> e[x].content == d[x].content && (e[x].parent == -1 <==> d[x].parent == -1))
            && (forall x :: |d| <= x < |e| ==> e[x].parent != -1)
    ensures Spaced(rank, r, s.fb, |clones|)
  {
    var e := Surgery(d, s, clones, f);
    var wide := WideSite(d, rank, s, |clones|);
    r := NewRank(wide, s.fb, |clones|);
    IsSpaced(rank, wide, s.fb, |clones|);
    hide Spaced;
    forall x, i | 0 <= x < |e| && 0 <= i < |e[x].children| ensures Down(e, r, x, i) {
      SurgeryDown(d, wide, s, clones, f, x, i);
    }
    forall c | 0 <= c < |e| ensures Up(e, c) { SurgeryUp(d, rank, s, clones, f, c); }
    ByParts(e, r);
    SurgeryParents(d, rank, s, clones, f);
  }

  lemma IsSpaced(rank: seq<int>, wide: seq<int>, fb: int, m: nat)
    requires 0 <= fb < |rank| == |wide|
    requires forall a, b :: 0 <= a < |rank| && 0 <= b < |rank| && rank[a] < rank[b] ==> wide[a] + m + 2 <= wide[b]
    ensures Spaced(rank, NewRank(wide, fb, m), fb, m)
  {}

  lemma WideSite(d: Arena, rank: seq<int>, s: Site, m: nat) returns (wide: seq<int>)
    requires GoodSite(d, rank, s)
    ensures RoomySite(d, wide, s, m) && |wide| == |rank|
    ensures forall a, b :: 0 <= a < |rank| && 0 <= b < |rank| && rank[a] < rank[b] ==> wide[a] + m + 2 <= wide[b]
  {
    wide := SpreadOut(d, rank, m + 2);
  }

  // ----- the text order stays -----

  /** Each element of the chain is the last child of the one before it. */
  ghost predicate Step(d: Arena, chain: seq<int>, i: int)
    requires 0 <= i < |chain| - 1
  {
    LastChild(d, chain[i], chain[i + 1])
  }

  ghost predicate Chain(d: Arena, chain: seq<int>) {
    && (forall i :: 0 <= i < |chain| ==> 0 <= chain[i] < |d| && !d[chain[i]].content.Text?)
    && (forall i :: 0 <= i < |chain| - 1 ==> Step(d, chain, i))
  }

  /** A stretch of a chain is a chain. */
  lemma SubChain(d: Arena, chain: seq<int>, a: nat, b: nat)
    requires Chain(d, chain) && a <= b <= |chain|
    ensures Chain(d, chain[a..b])
  {
    var c := chain[a..b];
    forall i | 0 <= i < |c| - 1 ensures Step(d, c, i) {
      var j := a + i;
      assert Step(d, chain, j) && c[i] == chain[j] && c[i + 1] == chain[j + 1];
    }
  }

  function SiteOf(chain: seq<int>): Site
    requires |chain| >= 3
  {
    Site(chain[0], chain[|chain| - 2], chain[|chain| - 1])
  }

  /** Ranks fall along a chain, and each element's parent is the one before it. */
  lemma {:induction false} ChainRanks(d: Arena, rank: seq<int>, chain: seq<int>, i: int, j: int)
    requires Linked(d) && Ranked(d, rank) && Chain(d, chain) && 0 <= i < j < |chain|
    ensures rank[chain[j]] < rank[chain[i]] && d[chain[j]].parent == chain[j - 1]
    decreases j - i
  {
    assert Step(d, chain, j - 1);
    var p := chain[j - 1];
    assert d[p].children[|d[p].children| - 1] == chain[j];
    if i < j - 1 { ChainRanks(d, rank, chain, i, j - 1); }
  }

  lemma ChainSite(d: Arena, rank: seq<int>, chain: seq<int>)
    requires Linked(d) && Ranked(d, rank) && Chain(d, chain) && |chain| >= 3
    ensures GoodSite(d, rank, SiteOf(chain))
  {
    assert Step(d, chain, |chain| - 2);
    ChainRanks(d, rank, chain, 0, |chain| - 2);
    ChainRanks(d, rank, chain, |chain| - 2, |chain| - 1);
  }

  /** One pass: the tree before, the chain it works on, the clones it makes, and rankings
      of the tree before and after. */
  datatype Pass = Pass(d: Arena, rank: seq<int>, chain: seq<int>, clones: seq<Label>, f: Label, r: seq<int>)
  {
    ghost predicate Valid() {
      && Linked(d) && Ranked(d, rank) && |chain| >= 3 && Chain(d, chain) && GoodSite(d, rank, SiteOf(chain))
      && !f.Text? && (forall i :: 0 <= i < |clones| ==> !clones[i].Text?)
      && Ranked(After(), r)
    }

    ghost function After(): Arena
      requires |chain| >= 3 && GoodSite(d, rank, SiteOf(chain))
    {
      Surgery(d, SiteOf(chain), clones, f)
    }

    ghost function Site(): Site
      requires |chain| >= 3
    {
      SiteOf(chain)
    }

    ghost function At(x: int): Node
      requires |chain| >= 3 && GoodSite(d, rank, SiteOf(chain)) && 0 <= x < |d| + |clones| + 1
      ensures At(x) == After()[x]
    {
      SurgeryNode(d, SiteOf(chain), clones, f, x)
    }
  }

  /** A node whose subtree the pass leaves alone, or the common ancestor. */
  ghost predicate Outside(p: Pass, x: int) {
    0 <= x < |p.d| && (x !in p.chain || (|p.chain| > 0 && x == p.chain[0]))
  }

  /** The chain without the furthest block: its nodes lose or replace their last child. */
  function Inner(p: Pass): seq<int>
    requires |p.chain| > 0
  {
    p.chain[..|p.chain| - 1]
  }

  lemma BlockNotInner(p: Pass)
    requires p.Valid()
    ensures p.Site().fb !in Inner(p)
  {
    var l := |p.chain| - 1;
    forall j | 0 <= j < l ensures p.chain[j] != p.chain[l] { ChainRanks(p.d, p.rank, p.chain, j, l); }
    assert forall j :: 0 <= j < |Inner(p)| ==> Inner(p)[j] == p.chain[j];
  }

  lemma ChainChild(p: Pass, j: int)
    requires p.Valid() && 0 < j < |p.chain|
    ensures var c := p.d[p.chain[j]];
            c.parent in Inner(p) && 0 <= c.parent < |p.d| && c.index == |p.d[c.parent].children| - 1
  {
    ChainRanks(p.d, p.rank, p.chain, 0, j);
    assert Step(p.d, p.chain, j - 1);
    assert Inner(p)[j - 1] == p.chain[j - 1];
  }

  lemma ChildOutside(p: Pass, x: int, i: int)
    requires p.Valid() && 0 <= x < |p.d| && 0 <= i < |p.d[x].children|
    requires x in Inner(p) ==> i < |p.d[x].children| - 1
    ensures Outside(p, p.d[x].children[i]) && p.rank[p.d[x].children[i]] < p.rank[x]
  {
    var c := p.d[x].children[i];
    if c in p.chain && c != p.chain[0] {
      var j :| 0 <= j < |p.chain| && p.chain[j] == c;
      ChainChild(p, j);
    }
  }

  /** Equal child prefixes whose subtrees the pass leaves alone have equal leaves. */
  lemma {:induction false} SamePrefix(p: Pass, x: int, y: int, k: nat)
    requires p.Valid() && 0 <= x < |p.d| && 0 <= y < |p.d| + |p.clones| + 1
    requires k <= |p.d[x].children| && k <= |p.At(y).children| && p.At(y).children[..k] == p.d[x].children[..k]
    requires x in Inner(p) ==> k < |p.d[x].children|
    ensures LeavesUpTo(p.After(), p.r, y, k) == LeavesUpTo(p.d, p.rank, x, k)
    decreases p.rank[x], k
  {
    if k > 0 {
      assert p.At(y).children[..k][..k - 1] == p.At(y).children[..k - 1];
      assert p.d[x].children[..k][..k - 1] == p.d[x].children[..k - 1];
      SamePrefix(p, x, y, k - 1);
      assert p.At(y).children[..k][k - 1] == p.d[x].children[..k][k - 1];
      ChildOutside(p, x, k - 1);
      SameLeaves(p, p.d[x].children[k - 1]);
    }
  }

  /** The theorem: the text leaves below any node outside the chain, and below the common
      ancestor, are the same nodes in the same order. */
  lemma {:induction false} SameLeaves(p: Pass, x: int)
    requires p.Valid() && Outside(p, x)
    ensures Leaves(p.After(), p.r, x) == Leaves(p.d, p.rank, x)
    decreases p.rank[x], |p.d[x].children| + 2
  {
    if x in p.chain {
      AncestorLeaves(p);
    } else {
      assert p.At(x).children == p.d[x].children && p.At(x).content == p.d[x].content;
      if !p.d[x].content.Text? { SamePrefix(p, x, x, |p.d[x].children|); }
    }
  }

  lemma {:induction false} AncestorLeaves(p: Pass)
    requires p.Valid()
    ensures Leaves(p.After(), p.r, p.chain[0]) == Leaves(p.d, p.rank, p.chain[0])
    decreases p.rank[p.chain[0]], |p.d[p.chain[0]].children| + 1
  {
    AncestorShape(p);
    AncestorBefore(p);
    LastTwo(p.After(), p.r, p.chain[0], |p.d[p.chain[0]].children| - 1);
    AncestorParts(p);
  }

  lemma AncestorBefore(p: Pass)
    requires p.Valid()
    ensures |p.d[p.chain[0]].children| > 0
    ensures var ca, fb := p.chain[0], p.chain[|p.chain| - 1];
            Leaves(p.d, p.rank, ca)
            == LeavesUpTo(p.d, p.rank, ca, |p.d[ca].children| - 1) + Pre(p, 1)
               + LeavesUpTo(p.d, p.rank, fb, |p.d[fb].children|)
  {
    assert Step(p.d, p.chain, 0);
    OldChain(p, 0);
  }

  lemma {:induction false} AncestorParts(p: Pass)
    requires p.Valid()
    ensures var ca, fb, cs := p.chain[0], p.chain[|p.chain| - 1], p.After()[p.chain[0]].children;
            var k := |p.d[ca].children| - 1;
            && 0 <= k <= |cs| - 2 && 0 <= cs[k] < |p.After()| && 0 <= cs[k + 1] < |p.After()|
            && LeavesUpTo(p.After(), p.r, ca, k) == LeavesUpTo(p.d, p.rank, ca, k)
            && Leaves(p.After(), p.r, cs[k]) == Pre(p, 1)
            && Leaves(p.After(), p.r, cs[k + 1]) == LeavesUpTo(p.d, p.rank, fb, |p.d[fb].children|)
    decreases p.rank[p.chain[0]], |p.d[p.chain[0]].children|
  {
    AncestorShape(p);
    ChainRanks(p.d, p.rank, p.chain, 0, 1);
    ChainRanks(p.d, p.rank, p.chain, 0, |p.chain| - 1);
    SamePrefix(p, p.chain[0], p.chain[0], |p.d[p.chain[0]].children| - 1);
    NewChain(p, 1);
    TopLeaves(p);
  }

  /** The last two children of a node, split off. */
  lemma LastTwo(e: Arena, r: seq<int>, x: int, k: nat)
    requires Ranked(e, r) && 0 <= x < |e| && !e[x].content.Text? && |e[x].children| == k + 2
    ensures var cs := e[x].children;
            Leaves(e, r, x) == LeavesUpTo(e, r, x, k) + Leaves(e, r, cs[k]) + Leaves(e, r, cs[k + 1])
  {
    assert LeavesUpTo(e, r, x, k + 1) == LeavesUpTo(e, r, x, k) + Leaves(e, r, e[x].children[k]);
  }

  /** The children of the common ancestor: as before, the formatting node last, then what moved. */
  lemma AncestorShape(p: Pass)
    requires p.Valid()
    ensures var n, cs := |p.d[p.chain[0]].children|, p.After()[p.chain[0]].children;
            && n > 0 && |cs| == n + 1 && cs[..n - 1] == p.d[p.chain[0]].children[..n - 1]
            && cs[n - 1] == p.chain[1] && cs[n] == Top(p) && !p.After()[p.chain[0]].content.Text?
  {
    var ca := p.chain[0];
    assert Step(p.d, p.chain, 0);
    assert p.At(ca).children == p.d[ca].children + [Top(p)];
  }

  /** The node that is inserted into the common ancestor. */
  function Top(p: Pass): int
    requires |p.chain| > 0
  {
    if |p.clones| > 0 then |p.d| + |p.clones| - 1 else p.chain[|p.chain| - 1]
  }

  /** Leaves of the chain from position `j` on, without the furthest block. */
  ghost function Pre(p: Pass, j: nat): seq<int>
    requires p.Valid() && j < |p.chain|
    decreases |p.chain| - j
  {
    if j == |p.chain| - 1 then []
    else
      assert Step(p.d, p.chain, j);
      LeavesUpTo(p.d, p.rank, p.chain[j], |p.d[p.chain[j]].children| - 1) + Pre(p, j + 1)
  }

  lemma {:induction false} OldChain(p: Pass, j: nat)
    requires p.Valid() && j < |p.chain|
    ensures var fb := p.Site().fb;
            Leaves(p.d, p.rank, p.chain[j]) == Pre(p, j) + LeavesUpTo(p.d, p.rank, fb, |p.d[fb].children|)
    decreases |p.chain| - j
  {
    if j < |p.chain| - 1 {
      assert Step(p.d, p.chain, j);
      OldChain(p, j + 1);
    }
  }

  /** What stays behind under the formatting node. */
  lemma {:induction false} NewChain(p: Pass, j: nat)
    requires p.Valid() && 1 <= j <= |p.chain| - 2
    ensures Leaves(p.After(), p.r, p.chain[j]) == Pre(p, j)
    decreases p.rank[p.chain[j]], |p.d[p.chain[j]].children| + 1
  {
    hide Linked, Surgery, Leaves, LeavesUpTo;
    var x := p.chain[j];
    assert Step(p.d, p.chain, j);
    StaySplit(p, j);
    SamePrefix(p, x, x, |p.d[x].children| - 1);
    if j < |p.chain| - 2 {
      ChainRanks(p.d, p.rank, p.chain, j, j + 1);
      NewChain(p, j + 1);
    }
  }

  lemma StaySplit(p: Pass, j: nat)
    requires p.Valid() && 1 <= j <= |p.chain| - 2
    ensures var e, x := p.After(), p.chain[j];
            var n := |p.d[x].children|;
            && n > 0 && |p.At(x).children| >= n - 1 && p.At(x).children[..n - 1] == p.d[x].children[..n - 1]
            && Leaves(e, p.r, x) == LeavesUpTo(e, p.r, x, n - 1)
                                    + if j == |p.chain| - 2 then [] else Leaves(e, p.r, p.chain[j + 1])
  {
    var e, x, n := p.After(), p.chain[j], |p.d[p.chain[j]].children|;
    StayChildren(p, j);
    hide Pass.Valid;
    if j < |p.chain| - 2 {
      assert e[x].children[n - 1] == p.chain[j + 1];
      assert LeavesUpTo(e, p.r, x, n) == LeavesUpTo(e, p.r, x, n - 1) + Leaves(e, p.r, p.chain[j + 1]);
    }
  }

  /** A node of the chain keeps its children, except that the parent of the furthest block loses
      the last one. */
  lemma StayChildren(p: Pass, j: nat)
    requires p.Valid() && 1 <= j <= |p.chain| - 2
    ensures var v, x := p.d[p.chain[j]].children, p.chain[j];
            && |v| > 0 && v[|v| - 1] == p.chain[j + 1] && 0 <= p.chain[j + 1] < |p.d|
            && !p.At(x).content.Text? && p.At(x).children == (if j == |p.chain| - 2 then v[..|v| - 1] else v)
  {
    var l := |p.chain|;
    hide Linked, Ranked, GoodSite;
    assert Step(p.d, p.chain, j) && !p.d[p.chain[j]].content.Text?;
    ChainRanks(p.d, p.rank, p.chain, 0, j);
    ChainRanks(p.d, p.rank, p.chain, j, l - 1);
    if j < l - 2 { ChainRanks(p.d, p.rank, p.chain, j, l - 2); }
  }

  /** What moved to the end of the common ancestor. */
  lemma {:induction false} TopLeaves(p: Pass)
    requires p.Valid()
    ensures var fb := p.chain[|p.chain| - 1];
            Leaves(p.After(), p.r, Top(p)) == LeavesUpTo(p.d, p.rank, fb, |p.d[fb].children|)
    decreases p.rank[p.chain[|p.chain| - 1]], |p.d[p.chain[|p.chain| - 1]].children| + 1
  {
    hide Leaves, LeavesUpTo, Linked, Ranked, Chain, Surgery;
    var fb, y := p.Site().fb, |p.d| + |p.clones|;
    BlockNotInner(p);
    assert p.At(y).children == p.d[fb].children && p.At(y).children[..|p.d[fb].children|] == p.d[fb].children;
    SamePrefix(p, fb, y, |p.d[fb].children|);
    BlockLeaves(p);
    CloneLeaves(p, |p.clones|);
  }

  lemma BlockLeaves(p: Pass)
    requires p.Valid()
    ensures var fb, e, y := p.Site().fb, p.After(), |p.d| + |p.clones|;
            Leaves(e, p.r, fb) == LeavesUpTo(e, p.r, y, |p.d[fb].children|)
  {
    var fb, e, y := p.Site().fb, p.After(), |p.d| + |p.clones|;
    ChainRanks(p.d, p.rank, p.chain, 0, |p.chain| - 1);
    assert p.At(fb).children == [y] && p.At(y).children == p.d[fb].children;
    assert Leaves(e, p.r, fb) == LeavesUpTo(e, p.r, fb, 0) + Leaves(e, p.r, y);
  }

  lemma {:induction false} CloneLeaves(p: Pass, j: nat)
    requires p.Valid() && j <= |p.clones|
    ensures Leaves(p.After(), p.r, if j > 0 then |p.d| + j - 1 else p.Site().fb) == Leaves(p.After(), p.r, p.Site().fb)
  {
    if j > 0 {
      var x := |p.d| + j - 1;
      CloneLeaves(p, j - 1);
      assert p.At(x).children == [if j > 1 then x - 1 else p.Site().fb];
      assert Leaves(p.After(), p.r, x)
          == LeavesUpTo(p.After(), p.r, x, 0) + Leaves(p.After(), p.r, p.At(x).children[0]);
    }
  }
}
