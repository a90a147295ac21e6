/** The inner walk of the adoption agency algorithm (gumbo-parser/src/parser.c:1897-1969):
    what has become of the stack of open elements, the list of active formatting elements
    and the bookmark once the walk has come down to stack position `s`. */
module AdoptionWalk {
  import opened Sequences
  import opened Dom

  /** Entries other than the scope marker (-1) occur once. */
  ghost predicate DistinctEntries(v: seq<int>) {
    forall i, j :: 0 <= i < j < |v| && v[i] != -1 ==> v[i] != v[j]
  }

  lemma EntryIndex(v: seq<int>, i: nat)
    requires DistinctEntries(v) && i < |v| && v[i] != -1
    ensures IndexOf(v, v[i]) == i
  {
    var r := IndexOf(v, v[i]);
    assert v[r] == v[i];
  }

  /** The walk starts with `n` nodes, the formatting node at stack position `fi` and the
      furthest block at `k`. */
  datatype Walk = Walk(n: nat, open: seq<int>, list: seq<int>, fi: nat, k: nat)
  {
    ghost predicate Valid() {
      && 1 <= fi < k < |open|
      && (forall i :: 0 <= i < |open| ==> 0 <= open[i] < n) && NoRepeat(open)
      && (forall i :: 0 <= i < |list| ==> -1 <= list[i] < n) && DistinctEntries(list)
      && open[fi] in list
    }

    /** Step 13.7 applies at position `s`: a formatting element, reached within three steps. */
    predicate Clones(s: nat)
      requires s < k < |open|
    {
      open[s] in list && k - s <= 3
    }

    /** Step 13.5 applies: a formatting element further away leaves the list, and stays on the stack. */
    predicate Keeps(s: nat)
      requires s < k < |open|
    {
      open[s] in list && k - s > 3
    }

    /** The elements cloned so far, in the order of cloning. */
    function Cloned(s: nat): seq<int>
      requires s <= k < |open|
      decreases k - s
    {
      if s == k then [] else if Clones(s) then Cloned(s + 1) + [open[s]] else Cloned(s + 1)
    }

    /** What is left of stack positions s..k. */
    function Mid(s: nat): seq<int>
      requires s <= k < |open|
      decreases k - s
    {
      if s == k then []
      else if Clones(s) then [n + |Cloned(s + 1)|] + Mid(s + 1)
      else if Keeps(s) then [open[s]] + Mid(s + 1)
      else Mid(s + 1)
    }

    /** The stack. */
    function Open(s: nat): seq<int>
      requires s <= k < |open|
    {
      open[..s] + Mid(s) + open[k..]
    }

    /** The list of active formatting elements. */
    ghost function Form(s: nat): seq<int>
      requires s <= k < |open|
      decreases k - s
    {
      if s == k then list
      else
        var v := Form(s + 1);
        var i := IndexOf(v, open[s]);
        if i == -1 then v
        else if Clones(s) then v[i := n + |Cloned(s + 1)|]
        else RemoveAt(v, i)
    }

    /** The bookmark. */
    ghost function Mark(s: nat): int
      requires s <= k < |open| && fi < |open|
      decreases k - s
    {
      if s == k then IndexOf(list, open[fi]) + 1
      else
        var b, i := Mark(s + 1), IndexOf(Form(s + 1), open[s]);
        if i == -1 then b
        else if Clones(s) then (if |Cloned(s + 1)| == 0 then i + 1 else b)
        else if i < b then b - 1 else b
    }
  }

  /** The list `v` while the walk is at `s` and has made `m` clones. */
  ghost predicate Entries(w: Walk, s: nat, v: seq<int>, m: nat) {
    && DistinctEntries(v)
    && (forall y :: y in v ==> y in w.list || w.n <= y < w.n + m)
    && (forall t :: 0 <= t < |w.open| && (t < s || w.k <= t) ==> (w.open[t] in v <==> w.open[t] in w.list))
    && (forall t :: 0 <= s <= t < w.k && t < |w.open| ==> w.open[t] !in v)
  }

  /** Elements not handled yet are in the list exactly if they were at the start, handled
      ones are gone, and new entries are the clones. */
  lemma {:induction false} FormEntries(w: Walk, s: nat)
    requires w.Valid() && w.fi < s <= w.k
    ensures DistinctEntries(w.Form(s))
    ensures forall y :: y in w.Form(s) ==> y in w.list || w.n <= y < w.n + |w.Cloned(s)|
    ensures forall t :: 0 <= t < s || w.k <= t < |w.open| ==> (w.open[t] in w.Form(s) <==> w.open[t] in w.list)
    ensures forall t :: s <= t < w.k ==> w.open[t] !in w.Form(s)
  {
    FormIs(w, s);
    hide DistinctEntries, Walk.Form, Walk.Cloned, NoRepeat;
  }

  /** The same for one stack position, and for one entry. */
  lemma EntryAt(w: Walk, s: nat, t: int)
    requires w.Valid() && w.fi < s <= w.k < |w.open| && 0 <= t < |w.open|
    ensures w.open[t] in w.Form(s) <==> w.open[t] in w.list && !(s <= t < w.k)
  {
    FormIs(w, s);
    hide DistinctEntries, Walk.Form, Walk.Cloned, Walk.Valid;
  }

  lemma EntryFrom(w: Walk, s: nat, y: int)
    requires w.Valid() && w.fi < s <= w.k < |w.open| && y in w.Form(s)
    ensures y in w.list || w.n <= y < w.n + |w.Cloned(s)|
  {
    FormIs(w, s);
    hide DistinctEntries, Walk.Form, Walk.Cloned, Walk.Valid;
  }

  lemma FormDistinct(w: Walk, s: nat)
    requires w.Valid() && w.fi < s <= w.k
    ensures DistinctEntries(w.Form(s))
  {
    FormIs(w, s);
    hide DistinctEntries, Walk.Form, Walk.Cloned, Walk.Valid;
  }

  lemma {:induction false} FormIs(w: Walk, s: nat)
    requires w.Valid() && w.fi < s <= w.k
    ensures Entries(w, s, w.Form(s), |w.Cloned(s)|)
    decreases w.k - s
  {
    if s == w.k {
      EntriesStart(w);
    } else {
      FormIs(w, s + 1);
      FormNext(w, s);
    }
  }

  lemma FormNext(w: Walk, s: nat)
    requires w.Valid() && w.fi < s < w.k < |w.open| && Entries(w, s + 1, w.Form(s + 1), |w.Cloned(s + 1)|)
    ensures Entries(w, s, w.Form(s), |w.Cloned(s)|)
  {
    hide Entries, Walk.Valid;
    var v, i, m := w.Form(s + 1), IndexOf(w.Form(s + 1), w.open[s]), |w.Cloned(s + 1)|;
    FormTurn(w, s);
    hide *;
    if i == -1 {
      EntriesStay(w, s, v, m);
      NotCloned(w, s);
    } else if w.Clones(s) {
      EntriesReplaced(w, s, v, m, i);
    } else {
      EntriesRemoved(w, s, v, m, i);
    }
  }

  lemma NotCloned(w: Walk, s: nat)
    requires s < w.k < |w.open| && w.open[s] !in w.list
    ensures !w.Clones(s)
  {}

  lemma EntriesStart(w: Walk)
    requires w.Valid()
    ensures Entries(w, w.k, w.Form(w.k), |w.Cloned(w.k)|)
  {}

  lemma FormTurn(w: Walk, s: nat)
    requires s < w.k < |w.open|
    ensures var v, i, m := w.Form(s + 1), IndexOf(w.Form(s + 1), w.open[s]), |w.Cloned(s + 1)|;
            && (if i == -1 then w.open[s] !in v else 0 <= i < |v| && v[i] == w.open[s])
            && w.Form(s) == (if i == -1 then v else if w.Clones(s) then v[i := w.n + m] else RemoveAt(v, i))
            && |w.Cloned(s)| == (if w.Clones(s) then m + 1 else m)
  {}

  lemma EntriesStay(w: Walk, s: nat, v: seq<int>, m: nat)
    requires w.Valid() && w.fi < s < w.k && Entries(w, s + 1, v, m) && w.open[s] !in v
    ensures Entries(w, s, v, m) && w.open[s] !in w.list
  {}

  lemma EntriesReplaced(w: Walk, s: nat, v: seq<int>, m: nat, i: int)
    requires w.Valid() && w.fi < s < w.k && Entries(w, s + 1, v, m) && 0 <= i < |v| && v[i] == w.open[s]
    ensures Entries(w, s, v[i := w.n + m], m + 1)
  {
    assert w.n + m !in v by { if w.n + m in v { InOld(w, w.n + m); } }
    ReplacedEntries(v, i, w.n + m);
    hide DistinctEntries;
    assert forall t :: 0 <= t < |w.open| && t != s ==> w.open[t] != w.open[s] && w.open[t] != w.n + m;
  }

  lemma InOld(w: Walk, y: int)
    requires w.Valid() && y in w.list
    ensures y < w.n
  {
    var j :| 0 <= j < |w.list| && w.list[j] == y;
  }

  lemma EntriesRemoved(w: Walk, s: nat, v: seq<int>, m: nat, i: int)
    requires w.Valid() && w.fi < s < w.k && Entries(w, s + 1, v, m) && 0 <= i < |v| && v[i] == w.open[s]
    ensures Entries(w, s, RemoveAt(v, i), m)
  {
    RemovedEntries(v, i);
    hide DistinctEntries, RemoveAt;
    assert forall t :: 0 <= t < |w.open| && t != s ==> w.open[t] != w.open[s];
  }

  lemma ReplacedEntries(v: seq<int>, i: nat, x: int)
    requires i < |v| && DistinctEntries(v) && v[i] != -1 && x !in v && x != -1
    ensures DistinctEntries(v[i := x])
    ensures forall y :: y in v[i := x] <==> (y in v && y != v[i]) || y == x
  {
    var u := v[i := x];
    assert u[i] == x;
    forall y | y in v && y != v[i] ensures y in u {
      var j :| 0 <= j < |v| && v[j] == y;
      assert u[j] == y;
    }
  }

  lemma RemovedEntries(v: seq<int>, i: nat)
    requires i < |v| && DistinctEntries(v) && v[i] != -1
    ensures DistinctEntries(RemoveAt(v, i))
    ensures forall y :: y in RemoveAt(v, i) <==> y in v && y != v[i]
  {
    var u := RemoveAt(v, i);
    assert forall j :: 0 <= j < |u| ==> u[j] == v[if j >= i then j + 1 else j];
    forall y | y in v && y != v[i] ensures y in u {
      var j :| 0 <= j < |v| && v[j] == y;
      assert u[if j > i then j - 1 else j] == y;
    }
  }

  /** The bookmark stays inside the list, right behind the first clone, or behind the
      formatting node while nothing was cloned. */
  lemma {:induction false} MarkPlace(w: Walk, s: nat)
    requires w.Valid() && w.fi < s <= w.k
    ensures Marked(w, s)
    decreases w.k - s
  {
    if s < w.k {
      MarkPlace(w, s + 1);
      if w.Clones(s) { MarkAfterClone(w, s); } else if w.Keeps(s) { MarkAfterKeep(w, s); } else { MarkAfterDrop(w, s); }
    }
  }

  ghost predicate Marked(w: Walk, s: nat)
    requires w.fi < s <= w.k < |w.open|
  {
    var b, v := w.Mark(s), w.Form(s);
    0 < b <= |v| && v[b - 1] == if |w.Cloned(s)| > 0 then w.n else w.open[w.fi]
  }

  lemma MarkAfterClone(w: Walk, s: nat)
    requires w.Valid() && w.fi < s < w.k && w.Clones(s) && Marked(w, s + 1)
    ensures Marked(w, s)
  {
    Handled(w, s);
    var v, b, i := w.Form(s + 1), w.Mark(s + 1), IndexOf(w.Form(s + 1), w.open[s]);
    var c := |w.Cloned(s + 1)|;
    assert w.Form(s) == v[i := w.n + c];
    assert w.Mark(s) == if c == 0 then i + 1 else b;
  }

  lemma MarkAfterKeep(w: Walk, s: nat)
    requires w.Valid() && w.fi < s < w.k && w.Keeps(s) && Marked(w, s + 1)
    ensures Marked(w, s)
  {
    hide NoRepeat, DistinctEntries, RemoveAt;
    Handled(w, s);
    BehindMark(w.Form(s + 1), IndexOf(w.Form(s + 1), w.open[s]), w.Mark(s + 1));
  }

  lemma MarkAfterDrop(w: Walk, s: nat)
    requires w.Valid() && w.fi < s < w.k && !w.Clones(s) && !w.Keeps(s) && Marked(w, s + 1)
    ensures Marked(w, s)
  {
    Handled(w, s);
  }

  /** What the walk finds in the list for position `s`. */
  lemma Handled(w: Walk, s: nat)
    requires w.Valid() && w.fi < s < w.k
    ensures var v := w.Form(s + 1);
            && (IndexOf(v, w.open[s]) != -1 <==> w.Clones(s) || w.Keeps(s))
            && w.open[s] != w.open[w.fi] && 0 <= w.open[s] < w.n
  {
    FormEntries(w, s + 1);
  }

  lemma BehindMark(v: seq<int>, i: nat, b: nat)
    requires i < |v| && 0 < b <= |v| && i != b - 1
    ensures var c := if i < b then b - 1 else b; 0 < c <= |RemoveAt(v, i)| && RemoveAt(v, i)[c - 1] == v[b - 1]
  {}

  /** The stack during the walk: positions below `s` are untouched, and clones are new. */
  lemma {:induction false} MidEntries(w: Walk, s: nat)
    requires w.Valid() && w.fi < s <= w.k
    ensures forall y :: y in w.Mid(s) ==> w.n <= y < w.n + |w.Cloned(s)| || y in w.open[s..w.k]
    ensures forall t :: s <= t < w.k && !w.Keeps(t) ==> w.open[t] !in w.Mid(s)
    decreases w.k - s
  {
    if s < w.k {
      MidEntries(w, s + 1);
      assert w.open[s..w.k] == [w.open[s]] + w.open[s + 1..w.k];
      assert w.open[s] !in w.open[s + 1..w.k];
    }
  }

  /** Where the walk finds the node it handled last: at its stack position, unless step 13.6
      removed it. */
  function Last(w: Walk, s: nat): int
    requires s <= w.k < |w.open|
  {
    if s < w.k && w.Clones(s) then w.n + |w.Cloned(s + 1)| else w.open[s]
  }

  lemma LastIndex(w: Walk, s: nat)
    requires w.Valid() && w.fi < s <= w.k
    ensures IndexOf(w.Open(s), Last(w, s)) == if s == w.k || w.Clones(s) || w.Keeps(s) then s else -1
  {
    var v, x := w.Open(s), Last(w, s);
    MidEntries(w, s);
    assert x !in w.open[..s];
    if s == w.k || w.Clones(s) || w.Keeps(s) {
      assert v[..s] == w.open[..s];
      FirstAt(v, s);
    } else {
      assert x !in w.open[w.k..];
      assert x !in w.Mid(s);
    }
  }

  lemma FirstAt(v: seq<int>, s: nat)
    requires s < |v| && v[s] !in v[..s]
    ensures IndexOf(v, v[s]) == s
  {
    var u := v[..s];
    assert forall j :: 0 <= j < s ==> u[j] == v[j];
  }

  lemma Splice(front: seq<int>, e: int, back: seq<int>, x: int)
    ensures var v, i := front + [e] + back, |front|;
            && v[i] == e && v[..i] == front && v[i := x] == front + [x] + back
            && RemoveAt(v, i) == front + back && InsertAt(v, x, i + 1) == front + [e, x] + back
  {}

  /** One turn of the walk, on the stack. */
  lemma OpenStep(w: Walk, s: nat)
    requires w.Valid() && w.fi < s < w.k
    ensures var v := w.Open(s + 1);
            && s < |v| && v[s] == w.open[s]
            && w.Open(s) == if w.Clones(s) then v[s := w.n + |w.Cloned(s + 1)|]
                            else if w.Keeps(s) then v else RemoveAt(v, s)
  {
    hide Walk.Open, Walk.Mid, Walk.Cloned, NoRepeat, DistinctEntries;
    OpenIs(w, s);
    Split(w, s);
    OneChange(w.open[..s], w.open[s], w.Mid(s + 1), w.open[w.k..], w.n + |w.Cloned(s + 1)|, w.Open(s + 1));
    hide RemoveAt;
  }

  /** What the three kinds of turns do to the middle of the stack. */
  lemma OneChange(a: seq<int>, e: int, m: seq<int>, c: seq<int>, x: int, v: seq<int>)
    requires v == a + [e] + (m + c)
    ensures |a| < |v| && v[|a|] == e
    ensures a + ([x] + m) + c == v[|a| := x] && a + ([e] + m) + c == v && a + ([] + m) + c == RemoveAt(v, |a|)
  {
    Splice(a, e, m + c, x);
    Regroup(a, [x], m, c);
    Regroup(a, [e], m, c);
    assert [] + m == m;
  }

  lemma OpenIs(w: Walk, s: nat)
    requires s < w.k < |w.open|
    ensures var here := if w.Clones(s) then [w.n + |w.Cloned(s + 1)|] else if w.Keeps(s) then [w.open[s]] else [];
            w.Open(s) == w.open[..s] + (here + w.Mid(s + 1)) + w.open[w.k..]
  {
    assert w.Mid(s + 1) == [] + w.Mid(s + 1);
  }

  lemma Regroup(a: seq<int>, b: seq<int>, c: seq<int>, d: seq<int>)
    ensures a + (b + c) + d == a + b + (c + d)
    ensures a + c + d == a + (c + d)
  {}

  /** The stack around position `s`. */
  lemma Split(w: Walk, s: nat)
    requires s < w.k < |w.open|
    ensures w.Open(s + 1) == w.open[..s] + [w.open[s]] + (w.Mid(s + 1) + w.open[w.k..])
  {
    assert w.open[..s + 1] == w.open[..s] + [w.open[s]];
  }

  // ----- the end of a pass (steps 18 and 19) -----

  /** The list `v` after the formatting node `f` was replaced by its clone `x` at bookmark `b`. */
  ghost function MovedTo(v: seq<int>, f: int, b: int, x: int): seq<int>
    requires f in v && 0 < b <= |v|
  {
    var i := IndexOf(v, f);
    InsertAt(RemoveAt(v, i), x, if i < b then b - 1 else b)
  }

  /** The stack after it was replaced behind the furthest block. */
  function FinalOpen(w: Walk, x: int): seq<int>
    requires w.fi < w.k < |w.open|
  {
    w.open[..w.fi] + w.Mid(w.fi + 1) + [w.open[w.k], x] + w.open[w.k + 1..]
  }

  /** The list and the bookmark when the walk is over: the bookmark is right behind the
      first clone, or behind the formatting node when nothing was cloned. */
  lemma AtTheEnd(w: Walk)
    requires w.Valid()
    ensures var v, b := w.Form(w.fi + 1), w.Mark(w.fi + 1);
            && DistinctEntries(v) && w.open[w.fi] in v && 0 < b <= |v|
            && v[b - 1] == if w.Cloned(w.fi + 1) == [] then w.open[w.fi] else w.n
  {
    FormattingStays(w);
    MarkEnd(w);
    hide *;
  }

  lemma FormattingStays(w: Walk)
    requires w.Valid()
    ensures DistinctEntries(w.Form(w.fi + 1)) && w.open[w.fi] in w.Form(w.fi + 1)
  {
    hide Walk.Form, Walk.Cloned, NoRepeat, DistinctEntries;
    FormEntries(w, w.fi + 1);
  }

  lemma MarkEnd(w: Walk)
    requires w.Valid()
    ensures var v, b := w.Form(w.fi + 1), w.Mark(w.fi + 1);
            0 < b <= |v| && v[b - 1] == if w.Cloned(w.fi + 1) == [] then w.open[w.fi] else w.n
  {
    hide Walk.Form, Walk.Cloned, Walk.Mark, NoRepeat, DistinctEntries;
    MarkPlace(w, w.fi + 1);
  }

  /** The stack without the formatting node. */
  function Thinned(w: Walk): seq<int>
    requires w.fi < w.k < |w.open|
  {
    w.open[..w.fi] + w.Mid(w.fi + 1) + [w.open[w.k]] + w.open[w.k + 1..]
  }

  /** Step 19 on the stack the walk leaves: first the formatting node goes, */
  lemma FormattingRemoved(w: Walk)
    requires w.Valid()
    ensures var v := w.Open(w.fi + 1);
            IndexOf(v, w.open[w.fi]) == w.fi && w.fi < |v| && RemoveAt(v, w.fi) == Thinned(w)
  {
    var f, front, mid, back := w.open[w.fi], w.open[..w.fi], w.Mid(w.fi + 1), w.open[w.k..];
    Split(w, w.fi);
    assert f !in front;
    hide Walk.Valid, NoRepeat, Walk.Open, Walk.Mid;
    Splice(front, f, mid + back, f);
    FirstAt(front + [f] + (mid + back), w.fi);
    BlockSplit(w, front, mid);
  }

  lemma BlockSplit(w: Walk, front: seq<int>, mid: seq<int>)
    requires w.k < |w.open|
    ensures front + (mid + w.open[w.k..]) == front + mid + [w.open[w.k]] + w.open[w.k + 1..]
  {
    assert w.open[w.k..] == [w.open[w.k]] + w.open[w.k + 1..];
  }

  /** then its clone goes behind the furthest block. */
  lemma CloneInserted(w: Walk, x: int)
    requires w.Valid()
    ensures var u, fb := Thinned(w), w.open[w.k];
            && fb in u && IndexOf(u, fb) + 1 <= |u|
            && InsertAt(u, x, IndexOf(u, fb) + 1) == FinalOpen(w, x)
  {
    var front, fb, tail := w.open[..w.fi] + w.Mid(w.fi + 1), w.open[w.k], w.open[w.k + 1..];
    BlockNotCloned(w);
    Splice(front, fb, tail, x);
    FirstAt(front + [fb] + tail, |front|);
  }

  lemma BlockNotCloned(w: Walk)
    requires w.Valid()
    ensures w.open[w.k] !in w.open[..w.fi] + w.Mid(w.fi + 1)
  {
    MidEntries(w, w.fi + 1);
  }
}
