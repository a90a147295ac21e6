/** The node operations of gumbo-parser/src/parser.c on a mutable tree. */
module NodeOps {
  import opened Sequences
  import opened Dom
  import opened AdoptionSteps

  class Tree {
    var nodes: Arena

    constructor ()
      ensures nodes == []
    {
      nodes := [];
    }

    /** remove_from_parent: find the node among its parent's children, close the gap, and
        renumber the siblings behind it. */
    method RemoveFromParent(n: int, ghost rank: seq<int>)
      requires 0 <= n < |nodes|
      requires nodes[n].parent == -1 || (Linked(nodes) && Ranked(nodes, rank))
      modifies this`nodes
      ensures nodes == Detached(old(nodes), n)
    {
      if nodes[n].parent == -1 { return; }
      ghost var d := nodes;
      var p := nodes[n].parent;
      ParentHigher(d, rank, n);
      ChildrenDistinct(d, p);
      IndexOfDistinct(d[p].children, d[n].index);
      var index := VectorIndexOf(nodes[p].children, n);
      nodes := nodes[p := nodes[p].(children := RemoveAt(nodes[p].children, index))];
      nodes := nodes[n := nodes[n].(parent := -1, index := -1)];
      var i := index;
      GapOpens(d, rank, n);
      while i < |nodes[p].children|
        invariant index <= i < |d[p].children| && nodes == Renumbered(d, n, i)
      {
        var child := nodes[p].children[i];
        GapMoves(d, rank, n, i);
        nodes := nodes[child := nodes[child].(index := i)];
        i := i + 1;
      }
      GapCloses(d, n);
    }

    /** append_node */
    method AppendNode(parent: int, n: int)
      requires 0 <= n < |nodes| && 0 <= parent < |nodes| && n != parent
      requires nodes[n].parent == -1 && nodes[n].index == -1
      modifies this`nodes
      ensures nodes == Appended(old(nodes), n, parent)
    {
      ghost var d := nodes;
      nodes := nodes[n := nodes[n].(parent := parent, index := |nodes[parent].children|)];
      nodes := nodes[parent := nodes[parent].(children := nodes[parent].children + [n])];
      assert nodes == Appended(d, n, parent);
    }

    /** insert_node; `index` -1 means at the end. */
    method InsertNode(n: int, parent: int, index: int, ghost rank: seq<int>)
      requires Linked(nodes) && Ranked(nodes, rank)
      requires 0 <= n < |nodes| && 0 <= parent < |nodes| && n != parent && nodes[n].parent == -1
      requires -1 <= index < |nodes[parent].children|
      modifies this`nodes
      ensures nodes == Inserted(old(nodes), n, parent, if index == -1 then |old(nodes)[parent].children| else index)
    {
      if index == -1 {
        AppendedIsInserted(nodes, n, parent);
        AppendNode(parent, n);
        return;
      }
      ghost var d := nodes;
      nodes := nodes[n := nodes[n].(parent := parent, index := index)];
      nodes := nodes[parent := nodes[parent].(children := InsertAt(nodes[parent].children, n, index))];
      var i := index + 1;
      RoomOpens(d, rank, n, parent, index);
      while i < |nodes[parent].children|
        invariant index < i <= |d[parent].children| + 1 && nodes == MovedUp(d, n, parent, index, i)
      {
        RoomMoves(d, rank, n, parent, index, i);
        var sibling := nodes[parent].children[i];
        nodes := nodes[sibling := nodes[sibling].(index := i)];
        i := i + 1;
      }
      RoomCloses(d, n, parent, index);
    }

    /** Step 16 of the adoption agency algorithm: `b`, which has no children, swaps child
        vectors with `a`, and the children get their new parent one by one. */
    method AdoptChildren(a: int, b: int)
      requires 0 <= a < |nodes| && 0 <= b < |nodes| && a != b && nodes[b].children == [] && OwnChildren(nodes, a, b)
      modifies this`nodes
      ensures nodes == Adopted(old(nodes), a, b)
    {
      ghost var d := nodes;
      var temp := nodes[b].children;
      nodes := nodes[b := nodes[b].(children := nodes[a].children)];
      nodes := nodes[a := nodes[a].(children := temp)];
      temp := nodes[b].children;
      for i := 0 to |temp|
        invariant |nodes| == |d| && nodes[b] == d[b].(children := temp) && nodes[a] == d[a].(children := [])
        invariant forall x :: 0 <= x < |d| && x != a && x != b ==>
          nodes[x] == if x in temp[..i] then d[x].(parent := b) else d[x]
      {
        var child := temp[i];
        assert temp[..i + 1] == temp[..i] + [child];
        nodes := nodes[child := nodes[child].(parent := b)];
      }
      assert temp[..|temp|] == temp;
      assert nodes == Adopted(d, a, b);
    }

    /** create_node, for an element or a text. */
    method CreateNode(c: Label) returns (node: int)
      modifies this`nodes
      ensures node == |old(nodes)| && nodes == old(nodes) + [Fresh(c)]
    {
      node := |nodes|;
      nodes := nodes + [Fresh(c)];
    }

    /** clone_node: same tag and attributes, no parent and no children. */
    method CloneNode(n: int) returns (clone: int)
      requires 0 <= n < |nodes|
      modifies this`nodes
      ensures clone == |old(nodes)| && nodes == old(nodes) + [Node(old(nodes)[n].content, -1, -1, [])]
    {
      clone := |nodes|;
      nodes := nodes + [Node(nodes[n].content, -1, -1, [])];
    }
  }

  /** remove_from_parent while it renumbers: siblings behind position `i` still have their
      old index. */
  ghost function Renumbered(d: Arena, n: int, i: int): Arena
    requires 0 <= n < |d| && 0 <= d[n].parent < |d| && 0 <= d[n].index < |d[d[n].parent].children|
  {
    var p := d[n].parent;
    seq(|d|, x requires 0 <= x < |d| =>
      if x != n && x != p && d[x].parent == p && d[x].index > i then d[x] else DetachedNode(d, n, x))
  }

  lemma GapOpens(d: Arena, rank: seq<int>, n: int)
    requires Linked(d) && Ranked(d, rank) && 0 <= n < |d| && d[n].parent != -1
    ensures var p, at := d[n].parent, d[n].index;
            && p != n
            && d[p := d[p].(children := RemoveAt(d[p].children, at))][n := d[n].(parent := -1, index := -1)]
               == Renumbered(d, n, at)
  {
    ParentHigher(d, rank, n);
  }

  lemma GapMoves(d: Arena, rank: seq<int>, n: int, i: int)
    requires Linked(d) && Ranked(d, rank) && 0 <= n < |d| && d[n].parent != -1
    requires d[n].index <= i < |d[d[n].parent].children| - 1
    ensures var e := Renumbered(d, n, i);
            && |e[d[n].parent].children| == |d[d[n].parent].children| - 1
            && var child := e[d[n].parent].children[i];
            && 0 <= child < |d|
            && e[child := e[child].(index := i)] == Renumbered(d, n, i + 1)
  {
    var p := d[n].parent;
    ParentHigher(d, rank, n);
    if d[p].parent != -1 { ParentHigher(d, rank, p); }
    RemoveAtIndex(d[p].children, d[n].index, i);
    var e, f := Renumbered(d, n, i), Renumbered(d, n, i + 1);
    var child := d[p].children[i + 1];
    forall x | 0 <= x < |d| ensures e[child := e[child].(index := i)][x] == f[x] {
      if x != child && d[x].parent == p { assert d[p].children[d[x].index] == x; }
    }
  }

  lemma GapCloses(d: Arena, n: int)
    requires Linked(d) && 0 <= n < |d| && d[n].parent != -1
    ensures Renumbered(d, n, |d[d[n].parent].children| - 1) == Detached(d, n)
  {
    forall x | 0 <= x < |d| && d[x].parent == d[n].parent ensures d[x].index < |d[d[n].parent].children| {
      assert d[d[x].parent].children[d[x].index] == x;
    }
  }

  /** insert_node while it renumbers: siblings from position `i` on still have their old index. */
  ghost function MovedUp(d: Arena, n: int, p: int, at: nat, i: int): (e: Arena)
    requires 0 <= p < |d| && at <= |d[p].children|
    ensures |e| == |d|
  {
    seq(|d|, x requires 0 <= x < |d| =>
      if x != n && x != p && d[x].parent == p && d[x].index >= i - 1 then d[x] else InsertedNode(d, n, p, at, x))
  }

  lemma RoomOpens(d: Arena, rank: seq<int>, n: int, p: int, at: nat)
    requires Linked(d) && Ranked(d, rank) && 0 <= n < |d| && 0 <= p < |d| && n != p && at < |d[p].children|
    ensures d[n := d[n].(parent := p, index := at)][p := d[p].(children := InsertAt(d[p].children, n, at))]
         == MovedUp(d, n, p, at, at + 1)
  {}

  lemma RoomMoves(d: Arena, rank: seq<int>, n: int, p: int, at: nat, i: int)
    requires Linked(d) && Ranked(d, rank) && 0 <= n < |d| && 0 <= p < |d| && n != p && d[n].parent == -1
    requires at < i <= |d[p].children|
    ensures var e := MovedUp(d, n, p, at, i);
            && |e[p].children| == |d[p].children| + 1
            && var sibling := e[p].children[i];
            && 0 <= sibling < |d|
            && e[sibling := e[sibling].(index := i)] == MovedUp(d, n, p, at, i + 1)
  {
    if d[p].parent != -1 { ParentHigher(d, rank, p); }
    var e, f := MovedUp(d, n, p, at, i), MovedUp(d, n, p, at, i + 1);
    var sibling := d[p].children[i - 1];
    assert e[p].children[i] == sibling;
    forall x | 0 <= x < |d| ensures e[sibling := e[sibling].(index := i)][x] == f[x] {
      if x != sibling && d[x].parent == p { assert d[p].children[d[x].index] == x; }
    }
  }

  lemma RoomCloses(d: Arena, n: int, p: int, at: nat)
    requires Linked(d) && 0 <= p < |d| && at <= |d[p].children|
    ensures MovedUp(d, n, p, at, |d[p].children| + 1) == Inserted(d, n, p, at)
  {
    forall x | 0 <= x < |d| && d[x].parent == p ensures d[x].index < |d[p].children| {
      assert d[d[x].parent].children[d[x].index] == x;
    }
  }

  lemma ChildrenDistinct(d: Arena, p: int)
    requires Linked(d) && 0 <= p < |d|
    ensures NoRepeat(d[p].children)
  {
    forall i, j | 0 <= i < j < |d[p].children| ensures d[p].children[i] != d[p].children[j] {
      assert d[d[p].children[i]].index == i && d[d[p].children[j]].index == j;
    }
  }
}
