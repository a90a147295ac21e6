/** The order of the list of active formatting elements across a pass of the adoption agency
    algorithm, and what the pass leaves for the next one to find. */
module AdoptionOrder {
  import opened Sequences
  import opened Dom
  import opened AdoptionWalk

  /** Formatting elements above stack position `from` stand in the list in stack order. */
  ghost predicate Agrees(open: seq<int>, list: seq<int>, from: int) {
    forall p, q :: from < p < q < |open| && 0 <= p && open[p] in list && open[q] in list ==>
      IndexOf(list, open[p]) < IndexOf(list, open[q])
  }

  lemma IndexReplaced(v: seq<int>, i: nat, x: int, a: int)
    requires DistinctEntries(v) && i < |v| && v[i] != -1 && x !in v && x != -1
    requires a in v && a != v[i] && a != -1
    ensures a in v[i := x] && IndexOf(v[i := x], a) == IndexOf(v, a)
  {
    ReplacedEntries(v, i, x);
    var j := IndexOf(v, a);
    assert v[i := x][j] == a;
    EntryIndex(v[i := x], j);
  }

  lemma IndexRemoved(v: seq<int>, i: nat, a: int)
    requires DistinctEntries(v) && i < |v| && v[i] != -1 && a in v && a != v[i] && a != -1
    ensures a in RemoveAt(v, i)
    ensures IndexOf(RemoveAt(v, i), a) == if i < IndexOf(v, a) then IndexOf(v, a) - 1 else IndexOf(v, a)
  {
    RemovedEntries(v, i);
    var j := IndexOf(v, a);
    var j' := if i < j then j - 1 else j;
    assert RemoveAt(v, i)[j'] == a;
    EntryIndex(RemoveAt(v, i), j');
  }

  /** Taking out any entry keeps the agreement. */
  lemma RemoveAgrees(open: seq<int>, list: seq<int>, e: nat, from: int)
    requires DistinctEntries(list) && e < |list| && list[e] != -1 && Agrees(open, list, from)
    requires forall i :: 0 <= i < |open| ==> open[i] != -1
    ensures DistinctEntries(RemoveAt(list, e)) && Agrees(open, RemoveAt(list, e), from)
  {
    var v := RemoveAt(list, e);
    RemovedEntries(list, e);
    forall p, q | from < p < q < |open| && 0 <= p && open[p] in v && open[q] in v
      ensures IndexOf(v, open[p]) < IndexOf(v, open[q])
    {
      IndexRemoved(list, e, open[p]);
      IndexRemoved(list, e, open[q]);
      EntryIndex(list, e);
    }
  }

  /** What has become of stack position `t` once the walk is at `s`: the clone, if there is one. */
  function Occupant(w: Walk, s: nat, t: int): int
    requires s <= w.k < |w.open| && 0 <= t < |w.open|
  {
    if s <= t < w.k && w.Clones(t) then w.n + |w.Cloned(t + 1)| else w.open[t]
  }

  /** Stack position `t`, above `from`, holds a formatting element or its clone. */
  ghost predicate Tracked(w: Walk, from: int, s: nat, t: int) {
    w.k < |w.open| && from < t < |w.open| && 0 <= t && w.open[t] in w.list && (s <= t < w.k ==> w.Clones(t))
  }

  /** Where that is in the list: around the bookmark. */
  ghost predicate Placed(w: Walk, s: nat, t: int)
    requires s <= w.k < |w.open| && w.fi < |w.open| && 0 <= t < |w.open|
  {
    var i, b := IndexOf(w.Form(s), Occupant(w, s, t)), w.Mark(s);
    && i >= 0
    && (t >= w.k ==> b <= i)
    && (t < w.k && |w.Cloned(s)| > 0 ==> i < b)
    && (t <= w.fi ==> i < b)
    && (t == w.fi && |w.Cloned(s)| == 0 ==> i == b - 1)
  }

  ghost predicate InOrder(w: Walk, s: nat, t: int, u: int)
    requires s <= w.k < |w.open| && 0 <= t < |w.open| && 0 <= u < |w.open|
  {
    IndexOf(w.Form(s), Occupant(w, s, t)) < IndexOf(w.Form(s), Occupant(w, s, u))
  }

  /** What stands behind the bookmark stood behind the formatting node. */
  ghost predicate OldTail(w: Walk, s: nat)
    requires s <= w.k < |w.open| && w.fi < |w.open|
  {
    TailIn(w.Form(s), w.Mark(s), w.list[IndexOf(w.list, w.open[w.fi]) + 1..])
  }

  ghost predicate TailIn(v: seq<int>, b: int, behind: seq<int>) {
    forall j :: 0 <= b <= j < |v| ==> v[j] in behind
  }

  lemma TailRemoved(v: seq<int>, i: nat, b: int, behind: seq<int>)
    requires TailIn(v, b, behind) && i < |v| && 0 <= b
    ensures TailIn(RemoveAt(v, i), if i < b then b - 1 else b, behind)
  {
    var u, c := RemoveAt(v, i), if i < b then b - 1 else b;
    forall j | 0 <= c <= j < |u| ensures u[j] in behind {
      assert u[j] == v[if j >= i then j + 1 else j];
    }
  }

  lemma TailReplaced(v: seq<int>, i: nat, x: int, b: int, b': int, behind: seq<int>)
    requires TailIn(v, b, behind) && i < |v| && 0 <= b <= b' && i < b'
    ensures TailIn(v[i := x], b', behind)
  {}

  ghost predicate Arranged(w: Walk, from: int, s: nat)
    requires s <= w.k < |w.open| && w.fi < |w.open|
  {
    && (forall t :: Tracked(w, from, s, t) ==> Placed(w, s, t))
    && (forall t, u :: Tracked(w, from, s, t) && Tracked(w, from, s, u) && t < u ==> InOrder(w, s, t, u))
    && OldTail(w, s)
  }

  /** Formatting elements and the clones that replace them stand in the list in stack order,
      all through the walk. */
  lemma {:induction false} Arrangement(w: Walk, from: int, s: nat)
    requires w.Valid() && from < w.fi < s <= w.k && Agrees(w.open, w.list, from)
    ensures Arranged(w, from, s)
    decreases w.k - s
  {
    if s == w.k {
      ArrangedAtStart(w, from);
    } else {
      Arrangement(w, from, s + 1);
      Handled(w, s);
      if w.Clones(s) {
        ClonedArranged(w, from, s);
      } else if w.Keeps(s) {
        KeptArranged(w, from, s);
      } else {
        DroppedArranged(w, from, s);
      }
    }
  }

  lemma ArrangedAtStart(w: Walk, from: int)
    requires w.Valid() && from < w.fi && Agrees(w.open, w.list, from)
    ensures Arranged(w, from, w.k)
  {
    var i := IndexOf(w.list, w.open[w.fi]);
    assert w.Mark(w.k) == i + 1 && w.Form(w.k) == w.list;
    forall j | i + 1 <= j < |w.list| ensures w.list[j] in w.list[i + 1..] {
      assert w.list[i + 1..][j - i - 1] == w.list[j];
    }
    forall t | Tracked(w, from, w.k, t) ensures Placed(w, w.k, t) {
      if t < w.fi { assert w.open[t] in w.list && w.open[w.fi] in w.list; }
    }
  }

  lemma DroppedArranged(w: Walk, from: int, s: nat)
    requires w.Valid() && from < w.fi < s < w.k && Arranged(w, from, s + 1) && !w.Clones(s) && !w.Keeps(s)
    ensures Arranged(w, from, s)
  {
    DroppedState(w, s);
    hide Walk.Valid, NoRepeat, DistinctEntries, Walk.Form, Walk.Mark, Walk.Cloned, IndexOf, Tracked, Occupant, OldTail;
    assert OldTail(w, s) by { hide *; assert OldTail(w, s + 1); }
    forall t | Tracked(w, from, s, t) ensures Placed(w, s, t) {
      DroppedOther(w, from, s, t);
      assert Placed(w, s + 1, t);
    }
    forall t, u | Tracked(w, from, s, t) && Tracked(w, from, s, u) && t < u ensures InOrder(w, s, t, u) {
      DroppedOther(w, from, s, t);
      DroppedOther(w, from, s, u);
      assert InOrder(w, s + 1, t, u);
    }
  }

  lemma DroppedOther(w: Walk, from: int, s: nat, t: int)
    requires w.fi < s < w.k < |w.open| && w.open[s] !in w.list && Tracked(w, from, s, t)
    ensures Tracked(w, from, s + 1, t) && Occupant(w, s, t) == Occupant(w, s + 1, t)
  {}

  lemma DroppedState(w: Walk, s: nat)
    requires w.Valid() && w.fi < s < w.k && !w.Clones(s) && !w.Keeps(s)
    ensures w.open[s] !in w.list && w.Form(s) == w.Form(s + 1) && w.Mark(s) == w.Mark(s + 1)
    ensures w.Cloned(s) == w.Cloned(s + 1)
  {
    Handled(w, s);
  }

  /** The walk meets another element at `s`. */
  lemma OtherEntry(w: Walk, from: int, s: nat, t: int)
    requires w.Valid() && w.fi < s < w.k && Tracked(w, from, s, t) && t != s
    ensures Tracked(w, from, s + 1, t) && Occupant(w, s, t) == Occupant(w, s + 1, t)
    ensures Occupant(w, s, t) != w.open[s] && Occupant(w, s, t) >= 0
  {}

  /** What it finds in the list. */
  lemma EntryHere(w: Walk, s: nat)
    requires w.Valid() && w.fi < s < w.k && w.open[s] in w.list
    ensures DistinctEntries(w.Form(s + 1)) && w.n + |w.Cloned(s + 1)| !in w.Form(s + 1) && w.open[s] >= 0
    ensures w.open[s] in w.Form(s + 1)
  {
    hide NoRepeat, DistinctEntries, Walk.Form, Walk.Cloned;
    var x := w.n + |w.Cloned(s + 1)|;
    NotListed(w, s, x);
    FormDistinct(w, s + 1);
    EntryAt(w, s + 1, s);
    if x in w.Form(s + 1) { EntryFrom(w, s + 1, x); }
  }

  lemma NotListed(w: Walk, s: nat, x: int)
    requires w.Valid() && w.fi < s < w.k && w.n <= x
    ensures w.k < |w.open| && 0 <= w.open[s] < w.n && x !in w.list
  {
    hide NoRepeat, DistinctEntries;
  }

  lemma KeptIndex(w: Walk, from: int, s: nat, t: int)
    requires w.Valid() && w.fi < s < w.k && w.Keeps(s) && Arranged(w, from, s + 1) && Tracked(w, from, s, t)
    ensures Tracked(w, from, s + 1, t)
    ensures IndexOf(w.Form(s), Occupant(w, s, t)) ==
            var i, j := IndexOf(w.Form(s + 1), w.open[s]), IndexOf(w.Form(s + 1), Occupant(w, s + 1, t));
            if i < j then j - 1 else j
    ensures IndexOf(w.Form(s + 1), w.open[s]) != IndexOf(w.Form(s + 1), Occupant(w, s + 1, t)) >= 0
  {
    OtherEntry(w, from, s, t);
    assert Placed(w, s + 1, t);
    hide Walk.Valid, NoRepeat, DistinctEntries, Occupant, Arranged;
    EntryHere(w, s);
    IndexRemoved(w.Form(s + 1), IndexOf(w.Form(s + 1), w.open[s]), Occupant(w, s, t));
  }

  lemma KeptArranged(w: Walk, from: int, s: nat)
    requires w.Valid() && from < w.fi < s < w.k && Arranged(w, from, s + 1) && w.Keeps(s)
    ensures Arranged(w, from, s)
  {
    KeptState(w, s);
    KeptTail(w, s);
    forall t | Tracked(w, from, s, t) ensures Placed(w, s, t) { KeptPlaced(w, from, s, t); }
    forall t, u | Tracked(w, from, s, t) && Tracked(w, from, s, u) && t < u ensures InOrder(w, s, t, u) {
      KeptIndex(w, from, s, t);
      KeptIndex(w, from, s, u);
      assert InOrder(w, s + 1, t, u);
    }
  }

  lemma KeptState(w: Walk, s: nat)
    requires w.Valid() && w.fi < s < w.k && w.Keeps(s)
    ensures var i, b := IndexOf(w.Form(s + 1), w.open[s]), w.Mark(s + 1);
            && 0 <= i < |w.Form(s + 1)| && w.Form(s) == RemoveAt(w.Form(s + 1), i)
            && w.Mark(s) == (if i < b then b - 1 else b)
            && w.Cloned(s) == w.Cloned(s + 1)
  {
    Handled(w, s);
  }

  lemma KeptPlaced(w: Walk, from: int, s: nat, t: int)
    requires w.Valid() && w.fi < s < w.k && Arranged(w, from, s + 1) && w.Keeps(s) && Tracked(w, from, s, t)
    ensures Placed(w, s, t)
  {
    KeptIndex(w, from, s, t);
    KeptState(w, s);
    assert Placed(w, s + 1, t);
  }

  lemma KeptTail(w: Walk, s: nat)
    requires w.Valid() && w.fi < s < w.k && OldTail(w, s + 1) && w.Keeps(s)
    ensures OldTail(w, s)
  {
    hide TailIn, Walk.Form, Walk.Mark, Walk.Cloned, NoRepeat, DistinctEntries, RemoveAt;
    KeptState(w, s);
    MarkPositive(w, s + 1);
    TailKept(w.list[IndexOf(w.list, w.open[w.fi]) + 1..], w.Form(s + 1), w.Mark(s + 1),
             IndexOf(w.Form(s + 1), w.open[s]), w.Form(s), w.Mark(s));
  }

  lemma TailKept(behind: seq<int>, v: seq<int>, b: int, i: int, v': seq<int>, b': int)
    requires TailIn(v, b, behind) && 0 <= i < |v| && v' == RemoveAt(v, i) && 0 < b && b' == if i < b then b - 1 else b
    ensures TailIn(v', b', behind)
  {
    TailRemoved(v, i, b, behind);
  }

  /** Cloning changes no place in the list: the clone stands where its original stood. */
  lemma ClonedIndex(w: Walk, from: int, s: nat, t: int)
    requires w.Valid() && from < w.fi < s < w.k && w.Clones(s) && Arranged(w, from, s + 1) && Tracked(w, from, s, t)
    ensures Tracked(w, from, s + 1, t) && Tracked(w, from, s + 1, s)
    ensures IndexOf(w.Form(s), Occupant(w, s, t)) == IndexOf(w.Form(s + 1), Occupant(w, s + 1, t)) >= 0
  {
    if t == s {
      CloneHere(w, s);
    } else {
      OtherEntry(w, from, s, t);
      assert Placed(w, s + 1, t);
      hide Walk.Valid, NoRepeat, DistinctEntries, Occupant, Arranged, Walk.Form, Walk.Cloned, Walk.Mark;
      OtherPlace(w, s, Occupant(w, s, t));
    }
  }

  lemma OtherPlace(w: Walk, s: nat, y: int)
    requires w.Valid() && w.fi < s < w.k && w.Clones(s) && y in w.Form(s + 1) && y != w.open[s] && y >= 0
    ensures IndexOf(w.Form(s), y) == IndexOf(w.Form(s + 1), y)
  {
    hide NoRepeat, DistinctEntries;
    EntryHere(w, s);
    IndexReplaced(w.Form(s + 1), IndexOf(w.Form(s + 1), w.open[s]), w.n + |w.Cloned(s + 1)|, y);
  }

  lemma CloneHere(w: Walk, s: nat)
    requires w.Valid() && w.fi < s < w.k && w.Clones(s)
    ensures IndexOf(w.Form(s), Occupant(w, s, s)) == IndexOf(w.Form(s + 1), Occupant(w, s + 1, s)) >= 0
  {
    EntryHere(w, s);
    hide Walk.Valid, NoRepeat, DistinctEntries;
    var v, i, x := w.Form(s + 1), IndexOf(w.Form(s + 1), w.open[s]), w.n + |w.Cloned(s + 1)|;
    ReplacedEntries(v, i, x);
    EntryIndex(v[i := x], i);
  }

  lemma ClonedArranged(w: Walk, from: int, s: nat)
    requires w.Valid() && from < w.fi < s < w.k && Arranged(w, from, s + 1) && w.Clones(s)
    ensures Arranged(w, from, s)
  {
    ClonedTail(w, from, s);
    forall t | Tracked(w, from, s, t) ensures Placed(w, s, t) { ClonedPlaced(w, from, s, t); }
    forall t, u | Tracked(w, from, s, t) && Tracked(w, from, s, u) && t < u ensures InOrder(w, s, t, u) {
      ClonedIndex(w, from, s, t);
      ClonedIndex(w, from, s, u);
      assert InOrder(w, s + 1, t, u);
    }
  }

  lemma ClonedState(w: Walk, from: int, s: nat)
    requires w.Valid() && from < w.fi < s < w.k && Arranged(w, from, s + 1) && w.Clones(s)
    ensures var i, b := IndexOf(w.Form(s + 1), w.open[s]), w.Mark(s + 1);
            && 0 <= i < |w.Form(s + 1)| && w.Form(s) == w.Form(s + 1)[i := w.n + |w.Cloned(s + 1)|]
            && 0 < b && w.Mark(s) == (if |w.Cloned(s + 1)| == 0 then i + 1 else b)
            && |w.Cloned(s)| == |w.Cloned(s + 1)| + 1
            && (if |w.Cloned(s + 1)| == 0 then 0 < b <= i else i < b)
  {
    TrackedHere(w, from, s);
    hide Walk.Valid, NoRepeat, DistinctEntries, Walk.Form, Walk.Mark, Walk.Cloned;
    CloneEquations(w, s);
    MarkPositive(w, s + 1);
    assert Placed(w, s + 1, s) && Placed(w, s + 1, w.fi) && InOrder(w, s + 1, w.fi, s);
    hide Arranged;
  }

  lemma CloneEquations(w: Walk, s: nat)
    requires w.fi < s < w.k < |w.open| && w.Clones(s) && IndexOf(w.Form(s + 1), w.open[s]) != -1
    ensures var i := IndexOf(w.Form(s + 1), w.open[s]);
            && 0 <= i < |w.Form(s + 1)| && w.Form(s) == w.Form(s + 1)[i := w.n + |w.Cloned(s + 1)|]
            && w.Mark(s) == (if |w.Cloned(s + 1)| == 0 then i + 1 else w.Mark(s + 1))
            && |w.Cloned(s)| == |w.Cloned(s + 1)| + 1
  {}

  lemma TrackedHere(w: Walk, from: int, s: nat)
    requires w.Valid() && from < w.fi < s < w.k && w.Clones(s)
    ensures w.k < |w.open| && Tracked(w, from, s + 1, s) && Tracked(w, from, s + 1, w.fi)
    ensures Occupant(w, s + 1, s) == w.open[s] && IndexOf(w.Form(s + 1), w.open[s]) != -1
  {
    Handled(w, s);
  }

  lemma MarkPositive(w: Walk, s: nat)
    requires w.Valid() && w.fi < s <= w.k
    ensures 0 < w.Mark(s)
  {
    MarkPlace(w, s);
  }

  lemma ClonedPlaced(w: Walk, from: int, s: nat, t: int)
    requires w.Valid() && from < w.fi < s < w.k && Arranged(w, from, s + 1) && w.Clones(s) && Tracked(w, from, s, t)
    ensures Placed(w, s, t)
  {
    ClonedIndex(w, from, s, t);
    ClonedState(w, from, s);
    TrackedHere(w, from, s);
    hide Walk.Valid, NoRepeat, DistinctEntries, Walk.Form, Walk.Mark, Walk.Cloned, Occupant;
    assert Placed(w, s + 1, t);
    if t < s { assert InOrder(w, s + 1, t, s); } else if t > s { assert InOrder(w, s + 1, s, t); }
  }

  lemma ClonedTail(w: Walk, from: int, s: nat)
    requires w.Valid() && from < w.fi < s < w.k && Arranged(w, from, s + 1) && w.Clones(s)
    ensures OldTail(w, s)
  {
    ClonedState(w, from, s);
    hide NoRepeat, DistinctEntries;
    TailReplaced(w.Form(s + 1), IndexOf(w.Form(s + 1), w.open[s]), w.n + |w.Cloned(s + 1)|, w.Mark(s + 1), w.Mark(s),
                 w.list[IndexOf(w.list, w.open[w.fi]) + 1..]);
  }

  // ----- what a pass leaves -----

  /** The number of the clone of the formatting node. */
  function NewFormatting(w: Walk): nat
    requires w.fi < w.k < |w.open|
  {
    w.n + |w.Cloned(w.fi + 1)|
  }

  ghost function FinalList(w: Walk): seq<int>
    requires w.Valid()
  {
    AtTheEnd(w);
    MovedTo(w.Form(w.fi + 1), w.open[w.fi], w.Mark(w.fi + 1), NewFormatting(w))
  }

  /** The list after the pass: the new formatting element takes the old one's place if nothing
      was cloned, and otherwise stands right behind the first clone; behind it nothing has moved. */
  lemma Landed(w: Walk)
    requires w.Valid() && Agrees(w.open, w.list, w.fi - 1)
    ensures var v, b, u, x := w.Form(w.fi + 1), w.Mark(w.fi + 1), FinalList(w), NewFormatting(w);
            && 0 < b <= |v| == |u| && u[b - 1] == x && u[b..] == v[b..] && DistinctEntries(u)
            && (forall y :: y in u <==> (y in v && y != w.open[w.fi]) || y == x)
            && IndexOf(v, w.open[w.fi]) < b
            && (if w.Cloned(w.fi + 1) == [] then v[b - 1] == w.open[w.fi] && u == v[b - 1 := x]
                else b >= 2 && u[b - 2] == w.n)
  {
    var v, b, x, f := w.Form(w.fi + 1), w.Mark(w.fi + 1), NewFormatting(w), w.open[w.fi];
    AtTheEnd(w);
    FreshNumber(w);
    FormattingPlaced(w);
    FormattingOld(w);
    hide Walk.Valid, NoRepeat, DistinctEntries, Agrees, Walk.Form, Walk.Mark, Walk.Cloned;
    MovedBefore(v, f, b, x);
  }

  lemma FormattingOld(w: Walk)
    requires w.Valid()
    ensures w.open[w.fi] < w.n
  {}

  lemma FormattingPlaced(w: Walk)
    requires w.Valid() && Agrees(w.open, w.list, w.fi - 1)
    ensures IndexOf(w.Form(w.fi + 1), w.open[w.fi]) < w.Mark(w.fi + 1)
  {
    hide Walk.Form, Walk.Mark, Walk.Cloned, Agrees, NoRepeat, DistinctEntries;
    IsPlaced(w, w.fi - 1, w.fi + 1, w.fi);
  }

  lemma FreshNumber(w: Walk)
    requires w.Valid()
    ensures NewFormatting(w) !in w.Form(w.fi + 1) && w.open[w.fi] != -1
  {
    hide NoRepeat, DistinctEntries, Walk.Form, Walk.Cloned;
    FormEntries(w, w.fi + 1);
  }

  lemma MovedBefore(v: seq<int>, f: int, b: int, x: int)
    requires DistinctEntries(v) && f in v && f != -1 && 0 < b <= |v| && IndexOf(v, f) < b && x !in v && x != -1
    ensures var u := MovedTo(v, f, b, x);
            && |u| == |v| && u[b - 1] == x && u[b..] == v[b..] && DistinctEntries(u)
            && (forall y :: y in u <==> (y in v && y != f) || y == x)
            && (if v[b - 1] == f then u == v[b - 1 := x] else b >= 2 && u[b - 2] == v[b - 1])
  {
    var i := IndexOf(v, f);
    RemovedEntries(v, i);
    InsertedEntries(RemoveAt(v, i), b - 1, x);
    assert MovedTo(v, f, b, x)[b..] == v[b..];
  }

  lemma InsertedEntries(v: seq<int>, i: nat, x: int)
    requires i <= |v| && DistinctEntries(v) && x !in v && x != -1
    ensures DistinctEntries(InsertAt(v, x, i)) && forall y :: y in InsertAt(v, x, i) <==> y in v || y == x
  {
    var u := InsertAt(v, x, i);
    assert forall j :: 0 <= j < |u| ==> u[j] == if j < i then v[j] else if j == i then x else v[j - 1];
    forall y | y in v ensures y in u {
      var j :| 0 <= j < |v| && v[j] == y;
      assert u[if j < i then j else j + 1] == y;
    }
  }

  /** The stack position of the furthest block after the pass; the clone comes next. */
  function BlockPosition(w: Walk): nat
    requires w.fi < w.k < |w.open|
  {
    w.fi + |w.Mid(w.fi + 1)|
  }

  lemma FinalStack(w: Walk, q: int)
    requires w.Valid()
    ensures var o, from := FinalOpen(w, NewFormatting(w)), BlockPosition(w);
            && |o| == from + 1 + |w.open| - w.k && o[from] == w.open[w.k] && o[from + 1] == NewFormatting(w)
            && (from + 1 < q < |o| ==> w.k < q - from - 1 + w.k < |w.open| && o[q] == w.open[q - from - 1 + w.k])
  {}

  lemma IsPlaced(w: Walk, from: int, s: nat, t: int)
    requires w.Valid() && from < w.fi < s <= w.k && Agrees(w.open, w.list, from) && Tracked(w, from, s, t)
    ensures Placed(w, s, t)
  {
    hide Walk.Form, Walk.Mark, Agrees, Placed, NoRepeat, DistinctEntries, OldTail, InOrder;
    Arrangement(w, from, s);
  }

  lemma IsInOrder(w: Walk, from: int, s: nat, t: int, u: int)
    requires w.Valid() && from < w.fi < s <= w.k && Agrees(w.open, w.list, from)
    requires Tracked(w, from, s, t) && Tracked(w, from, s, u) && t < u
    ensures InOrder(w, s, t, u)
  {
    hide Walk.Form, Walk.Mark, Agrees, Placed, NoRepeat, DistinctEntries, OldTail, InOrder;
    Arrangement(w, from, s);
  }

  /** Where step 18 puts an entry: those between the formatting node and the bookmark move down by one. */
  lemma MovedIndex(v: seq<int>, f: int, b: int, x: int, y: int)
    requires DistinctEntries(v) && f in v && f != -1 && 0 < b <= |v| && IndexOf(v, f) < b && x !in v && x != -1
    requires y in v && y != f && y != -1
    ensures IndexOf(MovedTo(v, f, b, x), y)
         == if IndexOf(v, f) < IndexOf(v, y) < b then IndexOf(v, y) - 1 else IndexOf(v, y)
    ensures IndexOf(MovedTo(v, f, b, x), x) == b - 1
  {
    var i, j, u := IndexOf(v, f), IndexOf(v, y), MovedTo(v, f, b, x);
    MovedBefore(v, f, b, x);
    IndexBounds(v, y);
    IndexBounds(v, f);
    MovedAt(v, f, b, x, j);
    hide MovedTo, DistinctEntries, FirstIndex;
    EntryIndex(u, b - 1);
    EntryIndex(u, if i < j < b then j - 1 else j);
  }

  lemma IndexBounds(v: seq<int>, y: int)
    requires y in v
    ensures 0 <= IndexOf(v, y) < |v| && v[IndexOf(v, y)] == y
  {}

  lemma MovedAt(v: seq<int>, f: int, b: int, x: int, j: int)
    requires f in v && 0 < b <= |v| && IndexOf(v, f) < b && 0 <= j < |v| && j != IndexOf(v, f)
    ensures var u, m := MovedTo(v, f, b, x), if IndexOf(v, f) < j < b then j - 1 else j; m < |u| && u[m] == v[j]
  {}

  /** The stack positions that keep an element, or get a clone. */
  function Homes(w: Walk, s: nat): seq<int>
    requires s <= w.k < |w.open|
    decreases w.k - s
  {
    if s == w.k then [] else (if w.Clones(s) || w.Keeps(s) then [s] else []) + Homes(w, s + 1)
  }

  /** The elements `m` sit at the stack positions `h`, in order. */
  ghost predicate Sits(w: Walk, s: nat, h: seq<int>, m: seq<int>)
    requires s <= w.k < |w.open|
  {
    && |h| == |m|
    && (forall j :: 0 <= j < |h| ==> s <= h[j] < w.k && m[j] == Occupant(w, s, h[j]))
    && (forall i, j :: 0 <= i < j < |h| ==> h[i] < h[j])
  }

  lemma SitsLower(w: Walk, s: nat, h: seq<int>, m: seq<int>)
    requires s < w.k < |w.open| && Sits(w, s + 1, h, m)
    ensures Sits(w, s, h, m) && Sits(w, s, [s] + h, [Occupant(w, s, s)] + m)
  {
    assert forall j :: 0 <= j < |h| ==> Occupant(w, s, h[j]) == Occupant(w, s + 1, h[j]);
    hide Occupant;
  }

  lemma {:induction false} MidHomes(w: Walk, s: nat)
    requires s <= w.k < |w.open|
    ensures Sits(w, s, Homes(w, s), w.Mid(s))
    decreases w.k - s
  {
    if s < w.k {
      MidHomes(w, s + 1);
      SitsLower(w, s, Homes(w, s + 1), w.Mid(s + 1));
      hide Sits;
      assert [] + Homes(w, s + 1) == Homes(w, s + 1);
    }
  }

  /** The stack position from which position `p` of the new stack comes. */
  function Home(w: Walk, p: int): int
    requires w.fi < w.k < |w.open| && |Homes(w, w.fi + 1)| == |w.Mid(w.fi + 1)|
  {
    if p < w.fi then p else if p < BlockPosition(w) then Homes(w, w.fi + 1)[p - w.fi]
    else if p == BlockPosition(w) then w.k else p - BlockPosition(w) - 1 + w.k
  }

  lemma HomeOf(w: Walk, p: int)
    requires w.Valid() && 0 <= p < |FinalOpen(w, NewFormatting(w))| && p != BlockPosition(w) + 1
    ensures |Homes(w, w.fi + 1)| == |w.Mid(w.fi + 1)|
    ensures 0 <= Home(w, p) < |w.open| && Home(w, p) != w.fi
    ensures FinalOpen(w, NewFormatting(w))[p] == Occupant(w, w.fi + 1, Home(w, p))
    ensures p < w.fi ==> Home(w, p) == p
    ensures p < BlockPosition(w) <==> Home(w, p) < w.k
    ensures p > BlockPosition(w) <==> Home(w, p) > w.k
    ensures w.fi <= p < BlockPosition(w) ==> w.fi < Home(w, p)
  {
    MidHomes(w, w.fi + 1);
  }

  lemma HomesUp(w: Walk, p: int, q: int)
    requires w.Valid() && 0 <= p < q < |FinalOpen(w, NewFormatting(w))| && p != BlockPosition(w) + 1
    requires q != BlockPosition(w) + 1
    ensures |Homes(w, w.fi + 1)| == |w.Mid(w.fi + 1)| && Home(w, p) < Home(w, q)
  {
    MidHomes(w, w.fi + 1);
  }

  /** An entry of the new list that is not the new formatting element. */
  lemma FinalTracked(w: Walk, from: int, t: int)
    requires w.Valid() && from < w.fi && Agrees(w.open, w.list, w.fi - 1) && from < t < |w.open| && 0 <= t != w.fi
    requires Occupant(w, w.fi + 1, t) in FinalList(w)
    ensures Tracked(w, from, w.fi + 1, t) && Occupant(w, w.fi + 1, t) in w.Form(w.fi + 1)
    ensures Occupant(w, w.fi + 1, t) != w.open[w.fi] && 0 <= Occupant(w, w.fi + 1, t)
  {
    var y, v := Occupant(w, w.fi + 1, t), w.Form(w.fi + 1);
    Landed(w);
    OccupantBounds(w, t);
    assert y in v && y != w.open[w.fi] by { hide Walk.Form, FinalList, Occupant; }
    hide FinalList, Walk.Form, Walk.Mark;
    if y == w.open[t] { OldInForm(w, t); }
  }

  lemma OccupantBounds(w: Walk, t: int)
    requires w.Valid() && 0 <= t < |w.open| && t != w.fi
    ensures var y := Occupant(w, w.fi + 1, t); 0 <= y < NewFormatting(w) && y != w.open[w.fi]
  {
    FewerClones(w, w.fi + 1, t + 1);
  }

  lemma OldInForm(w: Walk, t: int)
    requires w.Valid() && 0 <= t < |w.open| && w.open[t] in w.Form(w.fi + 1)
    ensures w.open[t] in w.list && !(w.fi < t < w.k)
  {
    WalkBounds(w);
    hide *;
    EntryAt(w, w.fi + 1, t);
  }

  lemma WalkBounds(w: Walk)
    requires w.Valid()
    ensures 1 <= w.fi < w.k < |w.open|
  {
    hide NoRepeat, DistinctEntries;
  }

  lemma {:induction false} FewerClones(w: Walk, s: nat, t: nat)
    requires s <= w.k < |w.open|
    ensures s < t <= w.k && w.Clones(t - 1) ==> |w.Cloned(t)| < |w.Cloned(s)|
    ensures s <= t <= w.k ==> |w.Cloned(t)| <= |w.Cloned(s)|
    decreases w.k - s
  {
    if s < w.k { FewerClones(w, s + 1, t); }
  }

  lemma FinalIndex(w: Walk, from: int, t: int)
    requires w.Valid() && from < w.fi && Agrees(w.open, w.list, w.fi - 1) && from < t < |w.open| && 0 <= t != w.fi
    requires Occupant(w, w.fi + 1, t) in FinalList(w)
    ensures var u, v, b, x, y := FinalList(w), w.Form(w.fi + 1), w.Mark(w.fi + 1), NewFormatting(w),
              Occupant(w, w.fi + 1, t);
            var i, j := IndexOf(v, w.open[w.fi]), IndexOf(v, y);
            && IndexOf(u, y) == (if i < j < b then j - 1 else j) && IndexOf(u, x) == b - 1 && i < b && i != j
  {
    FinalTracked(w, from, t);
    FinalListIs(w);
    hide *;
    MovedIndex(w.Form(w.fi + 1), w.open[w.fi], w.Mark(w.fi + 1), NewFormatting(w), Occupant(w, w.fi + 1, t));
  }

  lemma FinalListIs(w: Walk)
    requires w.Valid() && Agrees(w.open, w.list, w.fi - 1)
    ensures var v, f, b, x := w.Form(w.fi + 1), w.open[w.fi], w.Mark(w.fi + 1), NewFormatting(w);
            && DistinctEntries(v) && f in v && f != -1 && 0 < b <= |v| && IndexOf(v, f) < b && x !in v && x != -1
            && FinalList(w) == MovedTo(v, f, b, x)
  {
    hide NoRepeat, DistinctEntries, Agrees, Walk.Form, Walk.Mark, Walk.Cloned, MovedTo, NewFormatting;
    AtTheEnd(w);
    FreshNumber(w);
    FormattingPlaced(w);
    hide Walk.Valid;
  }

  /** The list agrees with the stack again: clones stand in place of their originals, and the
      new formatting element right behind the first clone. */
  lemma AgreesAfter(w: Walk, from: int)
    requires w.Valid() && from < w.fi && Agrees(w.open, w.list, from) && w.open[w.k] !in w.list
    ensures Agrees(FinalOpen(w, NewFormatting(w)), FinalList(w), from)
  {
    var o, u := FinalOpen(w, NewFormatting(w)), FinalList(w);
    forall p, q | from < p < q < |o| && 0 <= p && o[p] in u && o[q] in u ensures IndexOf(u, o[p]) < IndexOf(u, o[q]) {
      if p == BlockPosition(w) + 1 {
        FormattingBefore(w, from, q);
      } else if q == BlockPosition(w) + 1 {
        FormattingBehind(w, from, p);
      } else {
        OthersInOrder(w, from, p, q);
      }
    }
  }

  lemma Above(w: Walk, from: int)
    requires Agrees(w.open, w.list, from) && from < w.fi
    ensures Agrees(w.open, w.list, w.fi - 1)
  {}

  lemma OthersInOrder(w: Walk, from: int, p: int, q: int)
    requires w.Valid() && from < w.fi && Agrees(w.open, w.list, from)
    requires from < p < q < |FinalOpen(w, NewFormatting(w))| && 0 <= p != BlockPosition(w) + 1
    requires q != BlockPosition(w) + 1
    requires FinalOpen(w, NewFormatting(w))[p] in FinalList(w) && FinalOpen(w, NewFormatting(w))[q] in FinalList(w)
    ensures var o, u := FinalOpen(w, NewFormatting(w)), FinalList(w); IndexOf(u, o[p]) < IndexOf(u, o[q])
  {
    Above(w, from);
    hide FinalList, FinalOpen, Agrees, Walk.Form, Walk.Mark, Walk.Mid, Walk.Cloned, BlockPosition, NewFormatting,
         NoRepeat, Homes, Home, Occupant;
    HomeOf(w, p);
    HomeOf(w, q);
    HomesUp(w, p, q);
    HomeAbove(w, from, p);
    HomeAbove(w, from, q);
    HomesInOrder(w, from, Home(w, p), Home(w, q));
  }

  lemma HomesInOrder(w: Walk, from: int, t: int, u: int)
    requires w.Valid() && from < w.fi && Agrees(w.open, w.list, w.fi - 1) && Agrees(w.open, w.list, from)
    requires from < t < u < |w.open| && 0 <= t != w.fi && u != w.fi
    requires Occupant(w, w.fi + 1, t) in FinalList(w) && Occupant(w, w.fi + 1, u) in FinalList(w)
    ensures IndexOf(FinalList(w), Occupant(w, w.fi + 1, t)) < IndexOf(FinalList(w), Occupant(w, w.fi + 1, u))
  {
    hide FinalList, Agrees, Walk.Form, Walk.Mark, Walk.Cloned, NewFormatting, NoRepeat, Occupant, Tracked,
         DistinctEntries;
    FinalTracked(w, from, t);
    FinalTracked(w, from, u);
    IsInOrder(w, from, w.fi + 1, t, u);
    FinalIndex(w, from, t);
    FinalIndex(w, from, u);
  }

  lemma HomeAbove(w: Walk, from: int, p: int)
    requires w.Valid() && from < w.fi && from < p < |FinalOpen(w, NewFormatting(w))| && 0 <= p != BlockPosition(w) + 1
    ensures |Homes(w, w.fi + 1)| == |w.Mid(w.fi + 1)| && from < Home(w, p)
  {
    HomeOf(w, p);
  }

  lemma FormattingBefore(w: Walk, from: int, q: int)
    requires w.Valid() && from < w.fi && Agrees(w.open, w.list, from)
    requires BlockPosition(w) + 1 < q < |FinalOpen(w, NewFormatting(w))|
    requires FinalOpen(w, NewFormatting(w))[q] in FinalList(w)
    ensures IndexOf(FinalList(w), NewFormatting(w)) < IndexOf(FinalList(w), FinalOpen(w, NewFormatting(w))[q])
    ensures FinalOpen(w, NewFormatting(w))[BlockPosition(w) + 1] == NewFormatting(w)
  {
    Above(w, from);
    FinalStack(w, q);
    hide FinalList, FinalOpen, Agrees, Walk.Form, Walk.Mark, Walk.Mid, Walk.Cloned, BlockPosition, NewFormatting,
         NoRepeat, Homes, Home, Occupant;
    HomeOf(w, q);
    AboveNew(w, from, Home(w, q));
  }

  lemma AboveNew(w: Walk, from: int, t: int)
    requires w.Valid() && from < w.fi && Agrees(w.open, w.list, from) && Agrees(w.open, w.list, w.fi - 1)
    requires w.k < t < |w.open|
    requires Occupant(w, w.fi + 1, t) in FinalList(w)
    ensures IndexOf(FinalList(w), NewFormatting(w)) < IndexOf(FinalList(w), Occupant(w, w.fi + 1, t))
  {
    hide FinalList, Agrees, Walk.Form, Walk.Mark, Walk.Cloned, NewFormatting, NoRepeat, Occupant, Tracked,
         DistinctEntries, IndexOf;
    FinalTracked(w, from, t);
    IsPlaced(w, from, w.fi + 1, t);
    FinalIndex(w, from, t);
  }

  lemma FormattingBehind(w: Walk, from: int, p: int)
    requires w.Valid() && from < w.fi && Agrees(w.open, w.list, from) && w.open[w.k] !in w.list
    requires from < p <= BlockPosition(w) && 0 <= p && p < |FinalOpen(w, NewFormatting(w))|
    requires FinalOpen(w, NewFormatting(w))[p] in FinalList(w)
    ensures IndexOf(FinalList(w), FinalOpen(w, NewFormatting(w))[p]) < IndexOf(FinalList(w), NewFormatting(w))
    ensures FinalOpen(w, NewFormatting(w))[BlockPosition(w) + 1] == NewFormatting(w)
  {
    Above(w, from);
    FinalStack(w, p);
    hide FinalList, FinalOpen, Agrees, Walk.Form, Walk.Mark, Walk.Mid, Walk.Cloned, BlockPosition, NewFormatting,
         NoRepeat, Homes, Home, Occupant;
    HomeOf(w, p);
    HomeAbove(w, from, p);
    BelowNew(w, from, Home(w, p));
  }

  lemma BelowNew(w: Walk, from: int, t: int)
    requires w.Valid() && from < w.fi && Agrees(w.open, w.list, from) && Agrees(w.open, w.list, w.fi - 1)
    requires w.open[w.k] !in w.list
    requires from < t <= w.k && 0 <= t != w.fi && Occupant(w, w.fi + 1, t) in FinalList(w)
    ensures IndexOf(FinalList(w), Occupant(w, w.fi + 1, t)) < IndexOf(FinalList(w), NewFormatting(w))
  {
    hide FinalList, Agrees, Walk.Form, Walk.Mark, Walk.Cloned, NewFormatting, NoRepeat, Occupant, DistinctEntries,
         IndexOf;
    FinalTracked(w, from, t);
    assert t != w.k;
    hide Tracked;
    IsPlaced(w, from, w.fi + 1, t);
    FinalIndex(w, from, t);
    if t > w.fi { TrackedClone(w, from, t); }
  }

  lemma TrackedClone(w: Walk, from: int, t: int)
    requires Tracked(w, from, w.fi + 1, t) && w.fi < t < w.k
    ensures |w.Cloned(w.fi + 1)| > 0
  {
    FewerClones(w, w.fi + 1, t + 1);
  }

  /** The stack stays free of duplicates. */
  lemma {:induction false} MidDistinct(w: Walk, s: nat)
    requires w.Valid() && w.fi < s <= w.k
    ensures NoRepeat(w.Mid(s))
    decreases w.k - s
  {
    if s < w.k {
      MidDistinct(w, s + 1);
      MidEntries(w, s + 1);
      assert w.open[s] !in w.open[s + 1..w.k];
      if w.Clones(s) {
        DistinctJoin([w.n + |w.Cloned(s + 1)|], w.Mid(s + 1));
      } else if w.Keeps(s) {
        DistinctJoin([w.open[s]], w.Mid(s + 1));
      }
    }
  }

  lemma DistinctJoin(a: seq<int>, b: seq<int>)
    requires NoRepeat(a) && NoRepeat(b) && forall y :: y in a ==> y !in b
    ensures NoRepeat(a + b)
  {
    forall i, j | 0 <= i < j < |a + b| ensures (a + b)[i] != (a + b)[j] {
      if i < |a| { assert a[i] in a; }
      if j >= |a| { assert b[j - |a|] in b; }
    }
  }

  lemma StackDistinct(w: Walk)
    requires w.Valid()
    ensures NoRepeat(FinalOpen(w, NewFormatting(w)))
    ensures forall y :: y in FinalOpen(w, NewFormatting(w)) ==> 0 <= y <= NewFormatting(w)
  {
    var a, m, c, x := w.open[..w.fi], w.Mid(w.fi + 1), w.open[w.k..], NewFormatting(w);
    MiddleApart(w, a, m, c, x);
    hide Walk.Mid, Walk.Valid;
    StackJoins(a, m, w.open[w.k], w.open[w.k + 1..], x);
    assert c == [w.open[w.k]] + w.open[w.k + 1..];
  }

  lemma StackJoins(a: seq<int>, m: seq<int>, e: int, c: seq<int>, x: int)
    requires NoRepeat(a) && NoRepeat(m) && NoRepeat([e] + c) && x !in a && x !in m && x !in [e] + c
    requires forall y :: y in a ==> y !in m && y !in [e] + c
    requires forall y :: y in m ==> y !in [e] + c
    ensures NoRepeat(a + m + [e, x] + c)
  {
    assert NoRepeat(c) by {
      forall i, j | 0 <= i < j < |c| ensures c[i] != c[j] { assert ([e] + c)[i + 1] != ([e] + c)[j + 1]; }
    }
    assert e !in c by {
      forall j | 0 <= j < |c| ensures c[j] != e { assert ([e] + c)[0] != ([e] + c)[j + 1]; }
    }
    DistinctJoin([e, x], c);
    DistinctJoin(a, m);
    DistinctJoin(a + m, [e, x] + c);
    assert a + m + [e, x] + c == a + m + ([e, x] + c);
  }

  lemma MiddleApart(w: Walk, a: seq<int>, m: seq<int>, c: seq<int>, x: int)
    requires w.Valid() && a == w.open[..w.fi] && m == w.Mid(w.fi + 1) && c == w.open[w.k..] && x == NewFormatting(w)
    ensures NoRepeat(a) && NoRepeat(m) && NoRepeat(c) && c == [w.open[w.k]] + w.open[w.k + 1..]
    ensures forall y :: y in a ==> 0 <= y < x && y !in m && y !in c
    ensures forall y :: y in m ==> 0 <= y < x && y !in c
    ensures forall y :: y in c ==> 0 <= y < x
  {
    MidEntries(w, w.fi + 1);
    MidDistinct(w, w.fi + 1);
    OldParts(w);
    hide NoRepeat, Walk.Mid, Walk.Valid;
  }

  lemma OldParts(w: Walk)
    requires w.Valid()
    ensures var a, m, c := w.open[..w.fi], w.open[w.fi + 1..w.k], w.open[w.k..];
            && NoRepeat(a) && NoRepeat(c) && (forall y :: y in a ==> y !in m && y !in c)
            && (forall y :: y in m ==> y !in c)
            && (forall y :: y in a || y in m || y in c ==> 0 <= y < w.n)
  {}
}
