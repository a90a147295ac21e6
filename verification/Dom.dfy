/** The parent-linked node tree of gumbo-parser/src/parser.c, as an arena: a pointer is an
    index into the sequence of nodes, and -1 is NULL. */
module Dom {
  import opened Sequences

  datatype Attribute = Attribute(name: string, value: string)

  /** A node's own content. Namespace and tag are the numbers of GumboNamespaceEnum and GumboTag;
      elements and templates share a constructor. */
  datatype Label =
    | Document
    | Element(ns: int, tag: int, attributes: seq<Attribute>)
    | Text(text: string)

  datatype Node = Node(content: Label, parent: int, index: int, children: seq<int>)

  type Arena = seq<Node>

  /** Parent and index fields agree with the child vectors, in both directions. */
  ghost predicate Linked(d: Arena) {
    && (forall p, i :: 0 <= p < |d| && 0 <= i < |d[p].children| ==>
          0 <= d[p].children[i] < |d| && d[d[p].children[i]].parent == p && d[d[p].children[i]].index == i)
    && (forall c :: 0 <= c < |d| && d[c].parent != -1 ==>
          0 <= d[c].parent < |d| && 0 <= d[c].index < |d[d[c].parent].children|
          && d[d[c].parent].children[d[c].index] == c)
    && (forall c :: 0 <= c < |d| && d[c].parent == -1 ==> d[c].index == -1)
  }

  /** `rank` decreases from parent to child, so no node is its own ancestor. */
  ghost predicate Ranked(d: Arena, rank: seq<int>) {
    && |rank| == |d|
    && (forall n :: 0 <= n < |d| ==> rank[n] >= 0)
    && (forall p, i :: 0 <= p < |d| && 0 <= i < |d[p].children| ==>
          0 <= d[p].children[i] < |d| && rank[d[p].children[i]] < rank[p])
  }

  /** The text leaves below `n`, in document order. */
  ghost function Leaves(d: Arena, rank: seq<int>, n: int): seq<int>
    requires Ranked(d, rank) && 0 <= n < |d|
    decreases rank[n], |d[n].children| + 1
  {
    if d[n].content.Text? then [n] else LeavesUpTo(d, rank, n, |d[n].children|)
  }

  /** The text leaves below the first `k` children of `n`. */
  ghost function LeavesUpTo(d: Arena, rank: seq<int>, n: int, k: nat): seq<int>
    requires Ranked(d, rank) && 0 <= n < |d| && k <= |d[n].children|
    decreases rank[n], k
  {
    if k == 0 then [] else LeavesUpTo(d, rank, n, k - 1) + Leaves(d, rank, d[n].children[k - 1])
  }

  /** The order of the text leaves does not depend on the ranking. */
  lemma {:induction false} LeavesUnique(d: Arena, r1: seq<int>, r2: seq<int>, n: int)
    requires Ranked(d, r1) && Ranked(d, r2) && 0 <= n < |d|
    ensures Leaves(d, r1, n) == Leaves(d, r2, n)
    decreases r1[n], |d[n].children| + 1
  {
    if !d[n].content.Text? { LeavesUpToUnique(d, r1, r2, n, |d[n].children|); }
  }

  lemma {:induction false} LeavesUpToUnique(d: Arena, r1: seq<int>, r2: seq<int>, n: int, k: nat)
    requires Ranked(d, r1) && Ranked(d, r2) && 0 <= n < |d| && k <= |d[n].children|
    ensures LeavesUpTo(d, r1, n, k) == LeavesUpTo(d, r2, n, k)
    decreases r1[n], k
  {
    if k > 0 {
      LeavesUpToUnique(d, r1, r2, n, k - 1);
      LeavesUnique(d, r1, r2, d[n].children[k - 1]);
    }
  }

  // ----- the vector operations of gumbo-parser/src/vector.c -----

  ghost predicate FirstIndex(v: seq<int>, x: int, i: int) {
    0 <= i < |v| && v[i] == x && forall j :: 0 <= j < i ==> v[j] != x
  }

  lemma FirstIndexExists(v: seq<int>, x: int)
    requires x in v
    ensures exists i :: FirstIndex(v, x, i)
  {
    var i := 0;
    while v[i] != x
      invariant 0 <= i < |v| && forall j :: 0 <= j < i ==> v[j] != x
      decreases |v| - i
    {
      i := i + 1;
    }
    assert FirstIndex(v, x, i);
  }

  /** The index gumbo_vector_index_of finds: the first, or -1. */
  ghost function IndexOf(v: seq<int>, x: int): (r: int)
    ensures if x in v then FirstIndex(v, x, r) else r == -1
  {
    if x in v then
      FirstIndexExists(v, x);
      var i :| FirstIndex(v, x, i);
      i
    else -1
  }

  /** gumbo_vector_index_of */
  method VectorIndexOf(v: seq<int>, x: int) returns (r: int)
    ensures r == IndexOf(v, x)
  {
    for i := 0 to |v|
      invariant forall j :: 0 <= j < i ==> v[j] != x
    {
      if v[i] == x { return i; }
    }
    return -1;
  }

  function RemoveAt(v: seq<int>, i: nat): seq<int>
    requires i < |v|
  {
    v[..i] + v[i + 1..]
  }

  function InsertAt(v: seq<int>, x: int, i: nat): seq<int>
    requires i <= |v|
  {
    v[..i] + [x] + v[i..]
  }

  lemma IndexOfDistinct(v: seq<int>, i: nat)
    requires NoRepeat(v) && i < |v|
    ensures IndexOf(v, v[i]) == i
  {}

  lemma RemoveAtIndex(v: seq<int>, i: nat, k: nat)
    requires i < |v| && k < |v| - 1
    ensures RemoveAt(v, i)[k] == v[if k >= i then k + 1 else k]
  {}

  // ----- node surgery -----

  /** remove_from_parent: what becomes of node `x` when `n` leaves its parent. */
  function DetachedNode(d: Arena, n: int, x: int): Node
    requires 0 <= n < |d| && 0 <= x < |d|
    requires 0 <= d[n].parent < |d| && 0 <= d[n].index < |d[d[n].parent].children|
  {
    var p, at := d[n].parent, d[n].index;
    if x == n then d[x].(parent := -1, index := -1)
    else if x == p then d[x].(children := RemoveAt(d[p].children, at))
    else if d[x].parent == p && d[x].index > at then d[x].(index := d[x].index - 1)
    else d[x]
  }

  function Detached(d: Arena, n: int): (e: Arena)
    requires 0 <= n < |d|
    requires d[n].parent != -1 ==> 0 <= d[n].parent < |d| && 0 <= d[n].index < |d[d[n].parent].children|
    ensures |e| == |d|
  {
    if d[n].parent == -1 then d
    else seq(|d|, x requires 0 <= x < |d| => DetachedNode(d, n, x))
  }

  /** insert_node (append_node when `at` is the end): what becomes of node `x` when `n`
      becomes child number `at` of `p`. */
  function InsertedNode(d: Arena, n: int, p: int, at: nat, x: int): Node
    requires 0 <= p < |d| && 0 <= x < |d| && at <= |d[p].children|
  {
    if x == n then d[x].(parent := p, index := at)
    else if x == p then d[x].(children := InsertAt(d[p].children, n, at))
    else if d[x].parent == p && d[x].index >= at then d[x].(index := d[x].index + 1)
    else d[x]
  }

  function Inserted(d: Arena, n: int, p: int, at: nat): (e: Arena)
    requires 0 <= p < |d| && at <= |d[p].children|
    ensures |e| == |d|
  {
    seq(|d|, x requires 0 <= x < |d| => InsertedNode(d, n, p, at, x))
  }

  /** append_node */
  function AppendedNode(d: Arena, n: int, p: int, x: int): Node
    requires 0 <= p < |d| && 0 <= x < |d|
  {
    if x == n then d[x].(parent := p, index := |d[p].children|)
    else if x == p then d[x].(children := d[p].children + [n])
    else d[x]
  }

  function Appended(d: Arena, n: int, p: int): (e: Arena)
    requires 0 <= p < |d|
    ensures |e| == |d|
  {
    seq(|d|, x requires 0 <= x < |d| => AppendedNode(d, n, p, x))
  }

  /** Appending is inserting behind the last child. */
  lemma AppendedIsInserted(d: Arena, n: int, p: int)
    requires Linked(d) && 0 <= n < |d| && 0 <= p < |d|
    ensures Appended(d, n, p) == Inserted(d, n, p, |d[p].children|)
  {
    assert InsertAt(d[p].children, n, |d[p].children|) == d[p].children + [n];
    forall x | 0 <= x < |d| && d[x].parent == p ensures d[x].index < |d[p].children| {
      assert d[d[x].parent].children[d[x].index] == x;
    }
  }

  lemma ParentHigher(d: Arena, rank: seq<int>, c: int)
    requires Linked(d) && Ranked(d, rank) && 0 <= c < |d| && d[c].parent != -1
    ensures 0 <= d[c].parent < |d| && rank[c] < rank[d[c].parent] && d[c].parent != c
  {
    assert d[d[c].parent].children[d[c].index] == c;
  }

  /** Child `i` of `p` points back, and ranks below. */
  ghost predicate Down(d: Arena, rank: seq<int>, p: int, i: int)
    requires 0 <= p < |d| == |rank| && 0 <= i < |d[p].children|
  {
    var c := d[p].children[i];
    0 <= c < |d| && d[c].parent == p && d[c].index == i && rank[c] < rank[p]
  }

  /** `c` sits where its fields say. */
  ghost predicate Up(d: Arena, c: int)
    requires 0 <= c < |d|
  {
    var p := d[c].parent;
    if p == -1 then d[c].index == -1
    else 0 <= p < |d| && 0 <= d[c].index < |d[p].children| && d[p].children[d[c].index] == c
  }

  /** Local checks are enough. */
  lemma ByParts(d: Arena, rank: seq<int>)
    requires |rank| == |d| && forall n :: 0 <= n < |d| ==> rank[n] >= 0
    requires forall p, i :: 0 <= p < |d| && 0 <= i < |d[p].children| ==> Down(d, rank, p, i)
    requires forall c :: 0 <= c < |d| ==> Up(d, c)
    ensures Linked(d) && Ranked(d, rank)
  {
    forall p, i | 0 <= p < |d| && 0 <= i < |d[p].children|
      ensures var c := d[p].children[i]; 0 <= c < |d| && d[c].parent == p && d[c].index == i && rank[c] < rank[p]
    {
      assert Down(d, rank, p, i);
    }
    forall c | 0 <= c < |d|
      ensures if d[c].parent == -1 then d[c].index == -1
              else 0 <= d[c].parent < |d| && 0 <= d[c].index < |d[d[c].parent].children|
                   && d[d[c].parent].children[d[c].index] == c
    {
      assert Up(d, c);
    }
  }

  lemma DetachedDown(d: Arena, rank: seq<int>, n: int, x: int, i: int)
    requires Linked(d) && Ranked(d, rank) && 0 <= n < |d| && d[n].parent != -1
    requires 0 <= x < |d| && 0 <= i < |Detached(d, n)[x].children|
    ensures Down(Detached(d, n), rank, x, i)
  {
    var p, at := d[n].parent, d[n].index;
    ParentHigher(d, rank, n);
    if d[p].parent != -1 { ParentHigher(d, rank, p); }
    if x == p { RemoveAtIndex(d[p].children, at, i); }
    var j := if x == p && i >= at then i + 1 else i;
    assert Detached(d, n)[x].children[i] == d[x].children[j];
  }

  lemma DetachedUp(d: Arena, rank: seq<int>, n: int, c: int)
    requires Linked(d) && Ranked(d, rank) && 0 <= n < |d| && d[n].parent != -1 && 0 <= c < |d|
    ensures Up(Detached(d, n), c)
  {
    var e, p, at := Detached(d, n), d[n].parent, d[n].index;
    ParentHigher(d, rank, n);
    if d[p].parent != -1 { ParentHigher(d, rank, p); }
    if c != n && d[c].parent != -1 {
      assert d[d[c].parent].children[d[c].index] == c;
      if d[c].parent == p {
        assert d[c].index != at;
        assert e[p].children == RemoveAt(d[p].children, at);
        RemoveAtIndex(d[p].children, at, e[c].index);
      }
    }
  }

  /** Detaching any node keeps the rest a well-formed forest. */
  lemma DetachedWellFormed(d: Arena, rank: seq<int>, n: int)
    requires Linked(d) && Ranked(d, rank) && 0 <= n < |d|
    ensures Linked(Detached(d, n)) && Ranked(Detached(d, n), rank)
  {
    var e := Detached(d, n);
    if d[n].parent != -1 {
      forall x, i | 0 <= x < |e| && 0 <= i < |e[x].children|
        ensures Down(e, rank, x, i)
      {
        DetachedDown(d, rank, n, x, i);
      }
      forall c | 0 <= c < |e| ensures Up(e, c) { DetachedUp(d, rank, n, c); }
      ByParts(e, rank);
    }
  }

  lemma InsertedDown(d: Arena, rank: seq<int>, n: int, p: int, at: nat, x: int, i: int)
    requires Linked(d) && Ranked(d, rank) && 0 <= n < |d| && 0 <= p < |d| && at <= |d[p].children|
    requires d[n].parent == -1 && rank[n] < rank[p]
    requires 0 <= x < |d| && 0 <= i < |Inserted(d, n, p, at)[x].children|
    ensures Down(Inserted(d, n, p, at), rank, x, i)
  {
    if d[p].parent != -1 { ParentHigher(d, rank, p); }
    assert Inserted(d, n, p, at)[x] == InsertedNode(d, n, p, at, x);
    if !(x == p && i == at) {
      var j := if x == p && i > at then i - 1 else i;
      assert Inserted(d, n, p, at)[x].children[i] == d[x].children[j];
    }
  }

  lemma InsertedUp(d: Arena, rank: seq<int>, n: int, p: int, at: nat, c: int)
    requires Linked(d) && Ranked(d, rank) && 0 <= n < |d| && 0 <= p < |d| && at <= |d[p].children|
    requires d[n].parent == -1 && rank[n] < rank[p] && 0 <= c < |d|
    ensures Up(Inserted(d, n, p, at), c)
  {
    var e := Inserted(d, n, p, at);
    if d[p].parent != -1 { ParentHigher(d, rank, p); }
    assert e[p].children == InsertAt(d[p].children, n, at);
    if c != n && d[c].parent != -1 { assert d[d[c].parent].children[d[c].index] == c; }
  }

  /** So does inserting a root at any position of a node that ranks above it. */
  lemma InsertedWellFormed(d: Arena, rank: seq<int>, n: int, p: int, at: nat)
    requires Linked(d) && Ranked(d, rank) && 0 <= n < |d| && 0 <= p < |d| && at <= |d[p].children|
    requires d[n].parent == -1 && rank[n] < rank[p]
    ensures Linked(Inserted(d, n, p, at)) && Ranked(Inserted(d, n, p, at), rank)
  {
    var e := Inserted(d, n, p, at);
    forall x, i | 0 <= x < |e| && 0 <= i < |e[x].children| ensures Down(e, rank, x, i) {
      InsertedDown(d, rank, n, p, at, x, i);
    }
    forall c | 0 <= c < |e| ensures Up(e, c) { InsertedUp(d, rank, n, p, at, c); }
    ByParts(e, rank);
  }
}
