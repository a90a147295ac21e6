/** Exactly when a pass of the adoption agency algorithm (gumbo-parser/src/parser.c:1897-2003)
    keeps the text of the document in order, wherever the common ancestor is. */
module AdoptionText {
  import opened Sequences
  import opened Dom
  import opened AdoptionSurgery
  import opened AdoptionOrder
  import opened AdoptionPass
  import opened AdoptionPath

  // ----- text around a node -----

  /** The way down from a root: each node is a child of the one before it. */
  ghost predicate Lineage(d: Arena, up: seq<int>) {
    && |up| > 0
    && (forall i :: 0 <= i < |up| ==> 0 <= up[i] < |d|)
    && (forall i :: 0 <= i < |up| - 1 ==> Parent(d, up[i], up[i + 1]))
  }

  ghost predicate Parent(d: Arena, p: int, c: int) {
    0 <= c < |d| && 0 <= p < |d| && d[c].parent == p && !d[p].content.Text?
  }

  lemma LineageFront(d: Arena, up: seq<int>)
    requires Lineage(d, up) && |up| > 1
    ensures Lineage(d, up[..|up| - 1]) && Parent(d, up[|up| - 2], up[|up| - 1])
  {}

  lemma PlaceOfChild(d: Arena, rank: seq<int>, p: int, c: int)
    requires Linked(d) && Ranked(d, rank) && Parent(d, p, c)
    ensures 0 <= d[c].index < |d[p].children| && d[p].children[d[c].index] == c && rank[c] < rank[p]
  {
    ParentHigher(d, rank, c);
  }

  /** The text leaves below the children of `x` from number `k` on. */
  ghost function LeavesFrom(d: Arena, rank: seq<int>, x: int, k: nat): seq<int>
    requires Ranked(d, rank) && 0 <= x < |d| && k <= |d[x].children|
    decreases |d[x].children| - k
  {
    if k == |d[x].children| then [] else Leaves(d, rank, d[x].children[k]) + LeavesFrom(d, rank, x, k + 1)
  }

  lemma {:induction false} LeavesSplit(d: Arena, rank: seq<int>, x: int, k: nat)
    requires Ranked(d, rank) && 0 <= x < |d| && k <= |d[x].children|
    ensures LeavesUpTo(d, rank, x, |d[x].children|) == LeavesUpTo(d, rank, x, k) + LeavesFrom(d, rank, x, k)
    decreases |d[x].children| - k
  {
    if k < |d[x].children| { LeavesSplit(d, rank, x, k + 1); }
  }

  /** The text before the last node of a lineage, and behind it. */
  ghost function Before(d: Arena, rank: seq<int>, up: seq<int>): seq<int>
    requires Linked(d) && Ranked(d, rank) && Lineage(d, up)
    decreases |up|
  {
    if |up| == 1 then [] else
      LineageFront(d, up);
      PlaceOfChild(d, rank, up[|up| - 2], up[|up| - 1]);
      Before(d, rank, up[..|up| - 1]) + LeavesUpTo(d, rank, up[|up| - 2], d[up[|up| - 1]].index)
  }

  ghost function Behind(d: Arena, rank: seq<int>, up: seq<int>): seq<int>
    requires Linked(d) && Ranked(d, rank) && Lineage(d, up)
    decreases |up|
  {
    if |up| == 1 then [] else
      LineageFront(d, up);
      PlaceOfChild(d, rank, up[|up| - 2], up[|up| - 1]);
      LeavesFrom(d, rank, up[|up| - 2], d[up[|up| - 1]].index + 1) + Behind(d, rank, up[..|up| - 1])
  }

  lemma Divided(d: Arena, rank: seq<int>, p: int, c: int)
    requires Linked(d) && Ranked(d, rank) && Parent(d, p, c) && 0 <= d[c].index < |d[p].children|
    requires d[p].children[d[c].index] == c
    ensures Leaves(d, rank, p)
         == LeavesUpTo(d, rank, p, d[c].index) + (Leaves(d, rank, c) + LeavesFrom(d, rank, p, d[c].index + 1))
  {
    var x, k, n := d[p], d[c].index, |d[p].children|;
    LeavesSplit(d, rank, p, k);
    FromNumber(d, rank, p, k);
    assert Leaves(d, rank, p) == LeavesUpTo(d, rank, p, n);
  }

  lemma FromNumber(d: Arena, rank: seq<int>, p: int, k: nat)
    requires Ranked(d, rank) && 0 <= p < |d| && k < |d[p].children|
    ensures 0 <= d[p].children[k] < |d|
    ensures LeavesFrom(d, rank, p, k) == Leaves(d, rank, d[p].children[k]) + LeavesFrom(d, rank, p, k + 1)
  {}

  lemma {:induction false} Around(d: Arena, rank: seq<int>, up: seq<int>)
    requires Linked(d) && Ranked(d, rank) && Lineage(d, up)
    ensures Leaves(d, rank, up[0]) == Before(d, rank, up) + Leaves(d, rank, up[|up| - 1]) + Behind(d, rank, up)
    decreases |up|
  {
    if |up| > 1 {
      var p, c := up[|up| - 2], up[|up| - 1];
      LineageFront(d, up);
      PlaceOfChild(d, rank, p, c);
      hide Linked, Ranked, Leaves, LeavesUpTo, LeavesFrom;
      Around(d, rank, up[..|up| - 1]);
      Divided(d, rank, p, c);
      hide Linked, Ranked, Lineage, Leaves, LeavesUpTo, LeavesFrom;
      Regrouped(Before(d, rank, up[..|up| - 1]), LeavesUpTo(d, rank, p, d[c].index), Leaves(d, rank, c),
                LeavesFrom(d, rank, p, d[c].index + 1), Behind(d, rank, up[..|up| - 1]));
    }
  }

  lemma Regrouped(a: seq<int>, b: seq<int>, c: seq<int>, x: seq<int>, y: seq<int>)
    ensures a + (b + (c + x)) + y == (a + b) + c + (x + y)
  {}

  // ----- no leaf twice -----

  /** The highest ancestor of `y` that ranks at most `h`. */
  ghost function Ancestor(d: Arena, rank: seq<int>, y: int, h: int): int
    requires Linked(d) && Ranked(d, rank) && 0 <= y < |d|
    decreases h - rank[y]
  {
    if d[y].parent == -1 then y else
      ParentHigher(d, rank, y);
      if rank[d[y].parent] > h then y else Ancestor(d, rank, d[y].parent, h)
  }

  lemma {:induction false} LeafBelow(d: Arena, rank: seq<int>, x: int, y: int, h: int)
    requires Linked(d) && Ranked(d, rank) && 0 <= x < |d| && rank[x] <= h && y in Leaves(d, rank, x)
    ensures 0 <= y < |d| && Ancestor(d, rank, y, h) == Ancestor(d, rank, x, h)
    decreases rank[x], |d[x].children| + 1
  {
    if !d[x].content.Text? {
      var j := LeafChild(d, rank, x, |d[x].children|, y, h);
    }
  }

  /** The child below which a leaf is. */
  lemma {:induction false} LeafChild(d: Arena, rank: seq<int>, x: int, k: nat, y: int, h: int) returns (j: nat)
    requires Linked(d) && Ranked(d, rank) && 0 <= x < |d| && k <= |d[x].children| && y in LeavesUpTo(d, rank, x, k)
    ensures j < k && y in Leaves(d, rank, d[x].children[j]) && 0 <= y < |d|
    ensures rank[x] <= h ==> Ancestor(d, rank, y, h) == Ancestor(d, rank, x, h)
    ensures Ancestor(d, rank, y, rank[x] - 1) == d[x].children[j]
    decreases rank[x], k
  {
    var c := d[x].children[k - 1];
    assert d[c].parent == x;
    if y in Leaves(d, rank, c) {
      j := k - 1;
      LeafBelow(d, rank, c, y, rank[x] - 1);
      if rank[x] <= h { LeafBelow(d, rank, c, y, h); }
    } else {
      j := LeafChild(d, rank, x, k - 1, y, h);
    }
  }

  lemma {:induction false} LeavesOnce(d: Arena, rank: seq<int>, x: int)
    requires Linked(d) && Ranked(d, rank) && 0 <= x < |d|
    ensures NoRepeat(Leaves(d, rank, x))
    decreases rank[x], |d[x].children| + 1
  {
    if !d[x].content.Text? { PrefixOnce(d, rank, x, |d[x].children|); }
  }

  lemma {:induction false} PrefixOnce(d: Arena, rank: seq<int>, x: int, k: nat)
    requires Linked(d) && Ranked(d, rank) && 0 <= x < |d| && k <= |d[x].children|
    ensures NoRepeat(LeavesUpTo(d, rank, x, k))
    decreases rank[x], k
  {
    if k > 0 {
      var c := d[x].children[k - 1];
      PrefixOnce(d, rank, x, k - 1);
      LeavesOnce(d, rank, c);
      forall y | y in LeavesUpTo(d, rank, x, k - 1) ensures y !in Leaves(d, rank, c) { OtherSubtree(d, rank, x, k, y); }
      DistinctJoin(LeavesUpTo(d, rank, x, k - 1), Leaves(d, rank, c));
    }
  }

  lemma OtherSubtree(d: Arena, rank: seq<int>, x: int, k: nat, y: int)
    requires Linked(d) && Ranked(d, rank) && 0 <= x < |d| && 0 < k <= |d[x].children|
    requires y in LeavesUpTo(d, rank, x, k - 1)
    ensures y !in Leaves(d, rank, d[x].children[k - 1])
  {
    var c := d[x].children[k - 1];
    var j := LeafChild(d, rank, x, k - 1, y, 0);
    assert d[c].parent == x && d[c].index == k - 1 && d[d[x].children[j]].index == j;
    if y in Leaves(d, rank, c) { LeafBelow(d, rank, c, y, rank[x] - 1); }
  }

  // ----- leaving leaves out -----

  /** The elements of `v` that are not in `t`. */
  function Without(v: seq<int>, t: seq<int>): (r: seq<int>)
    ensures forall y :: y in r ==> y !in t
  {
    if v == [] then [] else (if v[0] in t then [] else [v[0]]) + Without(v[1..], t)
  }

  lemma {:induction false} WithoutJoin(a: seq<int>, b: seq<int>, t: seq<int>)
    ensures Without(a + b, t) == Without(a, t) + Without(b, t)
  {
    if a == [] {
      assert a + b == b;
    } else {
      assert (a + b)[1..] == a[1..] + b;
      WithoutJoin(a[1..], b, t);
    }
  }

  lemma {:induction false} WithoutNone(v: seq<int>, t: seq<int>)
    requires Apart(v, t)
    ensures Without(v, t) == v
  {
    if v != [] {
      var w := v[1..];
      assert forall i :: 0 <= i < |w| ==> w[i] == v[i + 1];
      WithoutNone(w, t);
      assert v == [v[0]] + w;
    }
  }

  lemma {:induction false} WithoutAll(v: seq<int>, t: seq<int>)
    requires forall i :: 0 <= i < |v| ==> v[i] in t
    ensures Without(v, t) == []
  {
    if v != [] {
      var w := v[1..];
      assert forall i :: 0 <= i < |w| ==> w[i] == v[i + 1];
      WithoutAll(w, t);
    }
  }

  lemma WithoutBoth(a: seq<int>, b: seq<int>, a': seq<int>, b': seq<int>, t: seq<int>)
    requires Without(a, t) == Without(a', t) && Without(b, t) == Without(b', t)
    ensures Without(a + b, t) == Without(a' + b', t)
  {
    WithoutJoin(a, b, t);
    WithoutJoin(a', b', t);
  }

  // ----- what a pass does to the leaves -----

  /** A pass at any place: `r` ranks the tree after it. */
  datatype Move = Move(d: Arena, rank: seq<int>, s: Site, clones: seq<Label>, f: Label, r: seq<int>)
  {
    ghost predicate Valid() {
      && GoodSite(d, rank, s) && !d[s.fb].content.Text? && !d[s.ca].content.Text? && !d[s.q].content.Text?
      && !f.Text? && (forall i :: 0 <= i < |clones| ==> !clones[i].Text?)
      && Ranked(After(), r)
    }

    ghost function After(): Arena
      requires 0 <= s.ca < |d| && 0 <= s.q < |d| && 0 <= s.fb < |d| && |d[s.q].children| > 0
    {
      Surgery(d, s, clones, f)
    }

    ghost function At(x: int): Node
      requires GoodSite(d, rank, s) && 0 <= x < |d| + |clones| + 1
      ensures At(x) == After()[x]
    {
      SurgeryNode(d, s, clones, f, x)
    }

    /** The text that moves. */
    ghost function Moved(): seq<int>
      requires Ranked(d, rank) && 0 <= s.fb < |d|
    {
      LeavesUpTo(d, rank, s.fb, |d[s.fb].children|)
    }
  }

  lemma ChildRanks(m: Move, x: int, k: nat)
    requires m.Valid() && 0 <= x < |m.d| && k < |m.d[x].children|
    ensures var c := m.d[x].children[k];
            0 <= c < |m.d| && 0 <= m.rank[c] < m.rank[x] && m.d[c].parent == x && m.d[c].index == k
  {}

  /** Below the furthest block nothing changes. */
  lemma {:induction false} LowLeaves(m: Move, x: int)
    requires m.Valid() && 0 <= x < |m.d| && m.rank[x] < m.rank[m.s.fb]
    ensures Leaves(m.After(), m.r, x) == Leaves(m.d, m.rank, x)
    decreases m.rank[x], |m.d[x].children| + 1
  {
    assert m.At(x).children == m.d[x].children && m.At(x).content == m.d[x].content;
    if !m.d[x].content.Text? { LowPrefix(m, x, x, |m.d[x].children|); }
  }

  lemma {:induction false} LowPrefix(m: Move, x: int, y: int, k: nat)
    requires m.Valid() && 0 <= x < |m.d| && m.rank[x] <= m.rank[m.s.fb] && 0 <= y < |m.d| + |m.clones| + 1
    requires m.At(y).children == m.d[x].children && k <= |m.d[x].children|
    ensures LeavesUpTo(m.After(), m.r, y, k) == LeavesUpTo(m.d, m.rank, x, k)
    decreases m.rank[x], k
  {
    if k > 0 {
      LowPrefix(m, x, y, k - 1);
      ChildRanks(m, x, k - 1);
      LowLeaves(m, m.d[x].children[k - 1]);
    }
  }

  /** What moves to the end of the common ancestor. */
  function Top(m: Move): int {
    if |m.clones| > 0 then |m.d| + |m.clones| - 1 else m.s.fb
  }

  lemma {:induction false} OnlyChild(e: Arena, r: seq<int>, x: int, c: int)
    requires Ranked(e, r) && 0 <= x < |e| && !e[x].content.Text? && e[x].children == [c]
    ensures 0 <= c < |e| && Leaves(e, r, x) == Leaves(e, r, c)
  {
    assert e[x].children[0] == c;
    assert LeavesUpTo(e, r, x, 1) == LeavesUpTo(e, r, x, 0) + Leaves(e, r, c);
  }

  lemma BlockText(m: Move)
    requires m.Valid()
    ensures Leaves(m.d, m.rank, m.s.fb) == m.Moved() && Leaves(m.After(), m.r, m.s.fb) == m.Moved()
  {
    var y := |m.d| + |m.clones|;
    assert m.At(y).children == m.d[m.s.fb].children && m.At(m.s.fb).children == [y];
    assert !m.At(y).content.Text? && !m.At(m.s.fb).content.Text?;
    LowPrefix(m, m.s.fb, y, |m.d[m.s.fb].children|);
    OnlyChild(m.After(), m.r, m.s.fb, y);
  }

  lemma {:induction false} CloneText(m: Move, j: nat)
    requires m.Valid() && j <= |m.clones|
    ensures var x := if j > 0 then |m.d| + j - 1 else m.s.fb; Leaves(m.After(), m.r, x) == m.Moved()
  {
    if j == 0 {
      BlockText(m);
    } else {
      var x := |m.d| + j - 1;
      CloneText(m, j - 1);
      assert m.At(x).children == [if j > 1 then x - 1 else m.s.fb] && !m.At(x).content.Text?;
      OnlyChild(m.After(), m.r, x, if j > 1 then x - 1 else m.s.fb);
    }
  }

  /** Apart from the text that moves, all text stays where it is. */
  lemma {:induction false} OtherText(m: Move, x: int)
    requires m.Valid() && 0 <= x < |m.d|
    ensures Without(Leaves(m.After(), m.r, x), m.Moved()) == Without(Leaves(m.d, m.rank, x), m.Moved())
    decreases m.rank[x], |m.d[x].children| + 2
  {
    assert m.At(x).content == m.d[x].content;
    if x == m.s.fb {
      BlockText(m);
    } else if !m.d[x].content.Text? {
      OtherChildren(m, x);
    }
  }

  lemma {:induction false} OtherChildren(m: Move, x: int)
    requires m.Valid() && 0 <= x < |m.d| && x != m.s.fb && !m.d[x].content.Text?
    ensures Without(Leaves(m.After(), m.r, x), m.Moved()) == Without(Leaves(m.d, m.rank, x), m.Moved())
    decreases m.rank[x], |m.d[x].children| + 1
  {
    var n := |m.d[x].children|;
    if x == m.s.ca {
      OtherPrefix(m, x, n);
      AncestorAdds(m);
    } else if x == m.s.q {
      OtherPrefix(m, x, n - 1);
      ParentLoses(m);
    } else {
      OtherPrefix(m, x, n);
    }
  }

  lemma AncestorAdds(m: Move)
    requires m.Valid() && |m.d[m.s.ca].children| <= |m.At(m.s.ca).children|
    requires var k := |m.d[m.s.ca].children|;
             Without(LeavesUpTo(m.After(), m.r, m.s.ca, k), m.Moved())
             == Without(LeavesUpTo(m.d, m.rank, m.s.ca, k), m.Moved())
    ensures Without(Leaves(m.After(), m.r, m.s.ca), m.Moved()) == Without(Leaves(m.d, m.rank, m.s.ca), m.Moved())
  {
    var x, t, e := m.s.ca, m.Moved(), m.After();
    var n := |m.d[x].children|;
    AncestorEnd(m);
    WithoutAll(t, t);
    WithoutJoin(LeavesUpTo(e, m.r, x, n), t, t);
  }

  lemma AncestorEnd(m: Move)
    requires m.Valid()
    ensures |m.At(m.s.ca).children| == |m.d[m.s.ca].children| + 1
    ensures Leaves(m.After(), m.r, m.s.ca) == LeavesUpTo(m.After(), m.r, m.s.ca, |m.d[m.s.ca].children|) + m.Moved()
  {
    CloneText(m, |m.clones|);
    assert m.At(m.s.ca).children == m.d[m.s.ca].children + [Top(m)] && !m.At(m.s.ca).content.Text?;
  }

  lemma ParentLoses(m: Move)
    requires m.Valid() && m.s.q != m.s.ca && |m.d[m.s.q].children| - 1 <= |m.At(m.s.q).children|
    requires var k := |m.d[m.s.q].children| - 1;
             Without(LeavesUpTo(m.After(), m.r, m.s.q, k), m.Moved())
             == Without(LeavesUpTo(m.d, m.rank, m.s.q, k), m.Moved())
    ensures Without(Leaves(m.After(), m.r, m.s.q), m.Moved()) == Without(Leaves(m.d, m.rank, m.s.q), m.Moved())
  {
    var k, t := |m.d[m.s.q].children| - 1, m.Moved();
    ParentEnd(m);
    WithoutAll(t, t);
    WithoutJoin(LeavesUpTo(m.d, m.rank, m.s.q, k), t, t);
  }

  lemma ParentEnd(m: Move)
    requires m.Valid() && m.s.q != m.s.ca
    ensures var k := |m.d[m.s.q].children| - 1;
            && k >= 0 && Leaves(m.d, m.rank, m.s.q) == LeavesUpTo(m.d, m.rank, m.s.q, k) + m.Moved()
            && |m.At(m.s.q).children| == k && Leaves(m.After(), m.r, m.s.q) == LeavesUpTo(m.After(), m.r, m.s.q, k)
  {
    var x := m.s.q;
    var n := |m.d[x].children|;
    BlockText(m);
    assert m.d[x].children[n - 1] == m.s.fb;
    assert m.At(x).children == m.d[x].children[..n - 1] && !m.At(x).content.Text?;
  }

  lemma {:induction false} OtherPrefix(m: Move, x: int, k: nat)
    requires m.Valid() && 0 <= x < |m.d| && x != m.s.fb && k <= |m.d[x].children|
    requires (x == m.s.q ==> k < |m.d[x].children|)
    ensures k <= |m.At(x).children|
    ensures Without(LeavesUpTo(m.After(), m.r, x, k), m.Moved()) == Without(LeavesUpTo(m.d, m.rank, x, k), m.Moved())
    decreases m.rank[x], k
  {
    hide Linked, Ranked, Surgery, Leaves, LeavesUpTo;
    KeepsPrefix(m, x, k);
    if k == 0 {
      NoPrefix(m, x);
    } else {
      OtherPrefix(m, x, k - 1);
      ChildRanks(m, x, k - 1);
      var c := m.d[x].children[k - 1];
      OtherText(m, c);
      PrefixGrows(m, x, k);
      WithoutBoth(LeavesUpTo(m.After(), m.r, x, k - 1), Leaves(m.After(), m.r, c),
                  LeavesUpTo(m.d, m.rank, x, k - 1), Leaves(m.d, m.rank, c), m.Moved());
    }
  }

  lemma KeepsPrefix(m: Move, x: int, k: nat)
    requires m.Valid() && 0 <= x < |m.d| && x != m.s.fb && k <= |m.d[x].children|
    requires x == m.s.q ==> k < |m.d[x].children|
    ensures k <= |m.At(x).children| && (k > 0 ==> m.At(x).children[k - 1] == m.d[x].children[k - 1])
  {}

  lemma NoPrefix(m: Move, x: int)
    requires m.Valid() && 0 <= x < |m.d|
    ensures LeavesUpTo(m.After(), m.r, x, 0) == LeavesUpTo(m.d, m.rank, x, 0)
  {}

  lemma PrefixGrows(m: Move, x: int, k: nat)
    requires m.Valid() && 0 <= x < |m.d| && 0 < k <= |m.d[x].children| && k <= |m.At(x).children|
    requires m.At(x).children[k - 1] == m.d[x].children[k - 1]
    ensures var c := m.d[x].children[k - 1];
            && 0 <= c < |m.d|
            && LeavesUpTo(m.After(), m.r, x, k) == LeavesUpTo(m.After(), m.r, x, k - 1) + Leaves(m.After(), m.r, c)
            && LeavesUpTo(m.d, m.rank, x, k) == LeavesUpTo(m.d, m.rank, x, k - 1) + Leaves(m.d, m.rank, c)
  {}

  // ----- where it moves -----

  lemma {:induction false} LineageRanks(d: Arena, rank: seq<int>, up: seq<int>, i: nat)
    requires Linked(d) && Ranked(d, rank) && Lineage(d, up) && i < |up|
    ensures rank[up[|up| - 1]] <= rank[up[i]]
    decreases |up| - i
  {
    if i < |up| - 1 {
      assert Parent(d, up[i], up[i + 1]);
      PlaceOfChild(d, rank, up[i], up[i + 1]);
      LineageRanks(d, rank, up, i + 1);
    }
  }

  /** The way down to a node that ranks above the parent of the furthest block stays. */
  lemma SameParent(m: Move, p: int, c: int)
    requires m.Valid() && Parent(m.d, p, c) && m.rank[m.s.q] < m.rank[c]
    ensures Parent(m.After(), p, c) && m.At(c).index == m.d[c].index
    ensures p != m.s.q && p != m.s.fb && 0 <= m.d[c].index < |m.d[p].children|
  {
    PlaceOfChild(m.d, m.rank, p, c);
    assert m.At(c).parent == p && m.At(p).content == m.d[p].content;
  }

  lemma {:induction false} TextBefore(m: Move, up: seq<int>)
    requires m.Valid() && Lineage(m.d, up) && m.rank[m.s.q] < m.rank[up[|up| - 1]] && Linked(m.After())
    ensures Lineage(m.After(), up)
    ensures Without(Before(m.After(), m.r, up), m.Moved()) == Without(Before(m.d, m.rank, up), m.Moved())
    decreases |up|
  {
    if |up| > 1 {
      var front, p, c := up[..|up| - 1], up[|up| - 2], up[|up| - 1];
      LineageFront(m.d, up);
      PlaceOfChild(m.d, m.rank, p, c);
      TextBefore(m, front);
      SameParent(m, p, c);
      LineageLonger(m.After(), front, c);
      assert front + [c] == up;
      var k := m.d[c].index;
      OtherPrefix(m, p, k);
      WithoutJoin(Before(m.After(), m.r, front), LeavesUpTo(m.After(), m.r, p, k), m.Moved());
      WithoutJoin(Before(m.d, m.rank, front), LeavesUpTo(m.d, m.rank, p, k), m.Moved());
    }
  }

  lemma LineageLonger(d: Arena, up: seq<int>, c: int)
    requires Lineage(d, up) && Parent(d, up[|up| - 1], c)
    ensures Lineage(d, up + [c])
  {
    var v := up + [c];
    forall i | 0 <= i < |v| - 1 ensures Parent(d, v[i], v[i + 1]) {
      if i < |up| - 1 { assert Parent(d, up[i], up[i + 1]); }
    }
  }

  /** The text up to the end of the last node of a lineage. */
  ghost function UpToEnd(d: Arena, rank: seq<int>, up: seq<int>): seq<int>
    requires Linked(d) && Ranked(d, rank) && Lineage(d, up)
  {
    Before(d, rank, up) + Leaves(d, rank, up[|up| - 1])
  }

  /** The text before the place where the moved text arrives. */
  lemma Arrives(m: Move, up: seq<int>)
    requires m.Valid() && Lineage(m.d, up) && up[|up| - 1] == m.s.ca && Linked(m.After())
    ensures Lineage(m.After(), up + [Top(m)]) && Leaves(m.After(), m.r, Top(m)) == m.Moved()
    ensures Without(Before(m.After(), m.r, up + [Top(m)]), m.Moved()) == Without(UpToEnd(m.d, m.rank, up), m.Moved())
  {
    hide Leaves, LeavesUpTo, Without, Before, Linked, Ranked, Surgery;
    var t, v, n := m.Moved(), up + [Top(m)], |m.d[m.s.ca].children|;
    TextBefore(m, up);
    CloneText(m, |m.clones|);
    TopHangs(m);
    LineageLonger(m.After(), up, Top(m));
    AncestorEnd(m);
    BeforeLast(m, up);
    hide Lineage;
    OtherPrefix(m, m.s.ca, n);
    AncestorText(m);
    hide Move.Valid;
    WithoutJoin(Before(m.After(), m.r, up), LeavesUpTo(m.After(), m.r, m.s.ca, n), t);
    WithoutJoin(Before(m.d, m.rank, up), LeavesUpTo(m.d, m.rank, m.s.ca, n), t);
  }

  lemma BeforeLast(m: Move, up: seq<int>)
    requires m.Valid() && Linked(m.After()) && Lineage(m.After(), up) && Lineage(m.After(), up + [Top(m)])
    requires up[|up| - 1] == m.s.ca
    requires m.At(Top(m)).index == |m.d[m.s.ca].children| <= |m.At(m.s.ca).children|
    ensures Before(m.After(), m.r, up + [Top(m)])
         == Before(m.After(), m.r, up) + LeavesUpTo(m.After(), m.r, m.s.ca, |m.d[m.s.ca].children|)
  {
    assert (up + [Top(m)])[..|up|] == up;
    hide Move.Valid, Lineage, Leaves, LeavesUpTo;
  }

  lemma AncestorText(m: Move)
    requires m.Valid()
    ensures Leaves(m.d, m.rank, m.s.ca) == LeavesUpTo(m.d, m.rank, m.s.ca, |m.d[m.s.ca].children|)
  {}

  lemma TopHangs(m: Move)
    requires m.Valid()
    ensures Parent(m.After(), m.s.ca, Top(m)) && m.At(Top(m)).index == |m.d[m.s.ca].children|
  {
    assert m.At(Top(m)).parent == m.s.ca && m.At(m.s.ca).content == m.d[m.s.ca].content;
  }

  lemma PartsApart(a: seq<int>, t: seq<int>, b: seq<int>)
    requires NoRepeat(a + t + b)
    ensures Apart(a, t) && Apart(b, t)
  {
    var v := a + t + b;
    forall i, j | 0 <= i < |a| && 0 <= j < |t| ensures a[i] != t[j] { assert v[i] == a[i] && v[|a| + j] == t[j]; }
    forall i, j | 0 <= i < |b| && 0 <= j < |t|
      ensures b[i] != t[j]
    {
      assert v[|a| + |t| + i] == b[i] && v[|a| + j] == t[j];
    }
  }

  lemma SplicedOut(a: seq<int>, t: seq<int>, b: seq<int>)
    requires NoRepeat(a + t + b)
    ensures Without(a + t + b, t) == a + b && Without(a, t) == a
  {
    PartsApart(a, t, b);
    WithoutNone(a, t);
    WithoutNone(b, t);
    WithoutAll(t, t);
    WithoutJoin(a + t, b, t);
    WithoutJoin(a, t, t);
    hide NoRepeat, Without, Apart;
    assert a + [] == a;
  }

  lemma SamePlaceInBoth(a: seq<int>, b: seq<int>, a': seq<int>, b': seq<int>, t: seq<int>)
    requires NoRepeat(a + t + b) && a + t + b == a' + t + b' && t != []
    ensures a == a'
  {
    var v := a + t + b;
    assert v[|a|] == t[0];
    assert (a' + t + b')[|a'|] == t[0];
    assert a == v[..|a|];
    assert a' == (a' + t + b')[..|a'|];
  }

  lemma SameRest(a: seq<int>, b: seq<int>, b': seq<int>)
    requires a + b == a + b'
    ensures b == b'
  {
    assert b == (a + b)[|a|..] && b' == (a + b')[|a|..];
  }

  /** Two ways to put `t` into the same sequence. */
  lemma Spliced(a: seq<int>, b: seq<int>, a': seq<int>, b': seq<int>, t: seq<int>)
    requires NoRepeat(a + t + b) && NoRepeat(a' + t + b') && Without(a + t + b, t) == Without(a' + t + b', t)
    ensures a + t + b == a' + t + b' <==> t == [] || Without(a', t) == a
  {
    SplicedOut(a, t, b);
    SplicedOut(a', t, b');
    SplicedAlike(a, b, a', b', t);
  }

  lemma SplicedAlike(a: seq<int>, b: seq<int>, a': seq<int>, b': seq<int>, t: seq<int>)
    requires NoRepeat(a + t + b) && a + b == a' + b'
    ensures a + t + b == a' + t + b' <==> t == [] || a' == a
  {
    if t == [] {
      NothingBetween(a, b);
      NothingBetween(a', b');
    } else if a == a' {
      SameRest(a, b, b');
    } else if a + t + b == a' + t + b' {
      SamePlaceInBoth(a, b, a', b', t);
    }
  }

  lemma NothingBetween(a: seq<int>, b: seq<int>)
    ensures a + [] + b == a + b
  {
    assert a + [] == a;
  }

  /** The theorem: a pass keeps the order of the text below a node above common ancestor and
      furthest block exactly if there is no text in the furthest block, or the text up to the
      end of the common ancestor, without that, is the text before the furthest block. */
  lemma TextOrder(m: Move, upCa: seq<int>, upFb: seq<int>)
    requires m.Valid() && Linked(m.After()) && Lineage(m.d, upCa) && Lineage(m.d, upFb) && upCa[0] == upFb[0]
    requires upCa[|upCa| - 1] == m.s.ca && upFb[|upFb| - 1] == m.s.fb
    ensures Leaves(m.After(), m.r, upCa[0]) == Leaves(m.d, m.rank, upCa[0])
       <==> m.Moved() == [] || Without(UpToEnd(m.d, m.rank, upCa), m.Moved()) == Before(m.d, m.rank, upFb)
  {
    var e, t, v, x := m.After(), m.Moved(), upCa + [Top(m)], upCa[0];
    Arrives(m, upCa);
    BlockText(m);
    Around(m.d, m.rank, upFb);
    Around(e, m.r, v);
    LeavesOnce(m.d, m.rank, x);
    LeavesOnce(e, m.r, x);
    OtherText(m, x);
    Spliced(Before(m.d, m.rank, upFb), Behind(m.d, m.rank, upFb), Before(e, m.r, v), Behind(e, m.r, v), t);
  }

  /** The same for a pass as the algorithm takes it: `upCa` leads down to the stack element below
      the formatting element, `upFb` to the furthest block. */
  lemma PassTextOrder(st: Start, upCa: seq<int>, upFb: seq<int>) returns (r: seq<int>)
    requires st.Valid() && Linked(st.d) && Ranked(st.d, st.rank) && 1 <= st.w.fi < st.w.k < |st.w.open|
    requires forall i :: 0 <= i < |st.w.open| ==> 0 <= st.w.open[i] < |st.d| && !st.d[st.w.open[i]].content.Text?
    requires Lineage(st.d, upCa) && Lineage(st.d, upFb) && upCa[0] == upFb[0]
    requires upCa[|upCa| - 1] == st.w.open[st.w.fi - 1] && upFb[|upFb| - 1] == st.w.open[st.w.k]
    ensures Linked(st.Result()) && Ranked(st.Result(), r) && |st.d| <= |st.Result()|
    ensures Leaves(st.Result(), r, upCa[0]) == Leaves(st.d, st.rank, upCa[0])
       <==> InPlace(st.d, st.rank, upCa, upFb)
  {
    hide *;
    NoText(st);
    ResultIs(st);
    Placed(st);
    BlockHasParent(st.d, st.rank, st.Place(), upCa, upFb);
    r := MoveOrder(st.d, st.rank, st.Place(), st.CloneLabels(st.w.fi + 1), st.d[st.w.open[st.w.fi]].content,
        st.Result(), upCa, upFb);
  }

  /** There is no text below the last node of `upFb`, or the text up to the end of the last node
      of `upCa`, without that, is the text before. */
  ghost predicate InPlace(d: Arena, rank: seq<int>, upCa: seq<int>, upFb: seq<int>)
    requires Linked(d) && Ranked(d, rank) && Lineage(d, upCa) && Lineage(d, upFb)
  {
    var t := Leaves(d, rank, upFb[|upFb| - 1]);
    t == [] || Without(UpToEnd(d, rank, upCa), t) == Before(d, rank, upFb)
  }

  lemma Placed(st: Start)
    requires st.Valid()
    ensures st.w.fi < st.w.k < |st.w.open| && GoodSite(st.d, st.rank, st.Place())
    ensures st.Place().ca == st.w.open[st.w.fi - 1] && st.Place().fb == st.w.open[st.w.k]
    ensures 0 <= st.w.open[st.w.fi] < |st.d|
  {}

  lemma MoveOrder(d: Arena, rank: seq<int>, s: Site, clones: seq<Label>, f: Label, e: Arena, upCa: seq<int>,
                  upFb: seq<int>)
    returns (r: seq<int>)
    requires GoodSite(d, rank, s) && Linked(d) && Ranked(d, rank) && Lineage(d, upCa) && Lineage(d, upFb)
    requires upCa[0] == upFb[0]
    requires upCa[|upCa| - 1] == s.ca && upFb[|upFb| - 1] == s.fb && 0 <= s.ca < |d| && 0 <= s.q < |d|
    requires 0 <= s.fb < |d|
    requires !d[s.ca].content.Text? && !d[s.fb].content.Text? && !d[s.q].content.Text? && |d[s.q].children| > 0
    requires !f.Text? && (forall i :: 0 <= i < |clones| ==> !clones[i].Text?) && e == Surgery(d, s, clones, f)
    ensures Linked(e) && Ranked(e, r) && |d| <= |e|
    ensures Leaves(e, r, upCa[0]) == Leaves(d, rank, upCa[0]) <==> InPlace(d, rank, upCa, upFb)
  {
    r := SurgeryWellFormed(d, rank, s, clones, f);
    var m := Move(d, rank, s, clones, f, r);
    hide Linked, Ranked, GoodSite, Lineage, Surgery;
    TextOrder(m, upCa, upFb);
    BlockText(m);
  }

  lemma BlockHasParent(d: Arena, rank: seq<int>, s: Site, upCa: seq<int>, upFb: seq<int>)
    requires GoodSite(d, rank, s) && Lineage(d, upCa) && Lineage(d, upFb) && upCa[0] == upFb[0]
    requires upCa[|upCa| - 1] == s.ca && upFb[|upFb| - 1] == s.fb
    ensures 0 <= s.q < |d| && !d[s.q].content.Text?
  {
    if |upFb| == 1 {
      LineageRanks(d, rank, upCa, 0);
      assert false;
    }
    LineageFront(d, upFb);
    assert d[s.q].children[|d[s.q].children| - 1] == s.fb;
  }
}
