/** The adoption agency algorithm (gumbo-parser/src/parser.c) keeps at most three identical
    entries between two markers of the list of active formatting elements. */
module NoahPass {
  import opened Sequences
  import opened Dom
  import opened AdoptionSurgery
  import opened AdoptionWalk
  import opened AdoptionOrder
  import opened AdoptionPass
  import opened AdoptionPath
  import opened AdoptionNext
  import opened Formatting

  /** No marker behind the entry `f`. */
  ghost predicate LastSegment(v: seq<int>, f: int) {
    f in v && forall j :: 0 <= IndexOf(v, f) <= j < |v| ==> v[j] != -1
  }

  // ----- the clones -----

  /** The element cloned at `s` is entry number |Cloned(s + 1)| of those cloned. */
  lemma {:induction false} ClonedAt(w: Walk, s: nat, t: nat)
    requires t <= s < w.k < |w.open| && w.Clones(s)
    ensures |w.Cloned(s + 1)| < |w.Cloned(t)| && w.Cloned(t)[|w.Cloned(s + 1)|] == w.open[s]
    decreases s - t
  {
    if t < s { ClonedAt(w, s, t + 1); }
  }

  lemma CloneContent(st: Start, s: nat)
    requires st.Valid() && st.w.fi < s < st.w.k && st.w.Clones(s)
    ensures var x := st.w.n + |st.w.Cloned(s + 1)|;
            && st.w.n <= x < |st.Result()| && 0 <= st.w.open[s] < |st.d|
            && st.Result()[x].content == st.d[st.w.open[s]].content
  {
    hide GoodSite, Attached, NoRepeat, DistinctEntries, Start.Result, Walk.Cloned, Surgery, Start.Place;
    ClonedAt(st.w, s, st.w.fi + 1);
    ClonedAreOld(st.w, st.w.fi + 1);
    ResultIs(st);
    var x, e, j := st.w.n + |st.w.Cloned(s + 1)|, st.Result(), |st.w.Cloned(s + 1)|;
    assert st.CloneLabels(st.w.fi + 1)[j] == st.d[st.w.Cloned(st.w.fi + 1)[j]].content;
    hide Start.Valid, Start.CloneLabels, Walk.Valid;
    NewContent(st.d, st.Place(), st.CloneLabels(st.w.fi + 1), st.d[st.w.open[st.w.fi]].content, j);
  }

  lemma NewContent(d: Arena, s: Site, clones: seq<Label>, f: Label, j: nat)
    requires 0 <= s.ca < |d| && 0 <= s.q < |d| && 0 <= s.fb < |d| && |d[s.q].children| > 0 && j < |clones|
    ensures Surgery(d, s, clones, f)[|d| + j].content == clones[j]
  {
    assert Surgery(d, s, clones, f)[|d| + j] == SurgeryNode(d, s, clones, f, |d| + j);
  }

  // ----- the walk -----

  lemma ReplacedArk(e: Arena, v: seq<int>, i: nat, x: int, f: int)
    requires Ark(e, v) && LastSegment(v, f) && i < |v| && v[i] != -1 && v[i] != f && x != f && x !in v && 0 <= x < |e|
    requires 0 <= v[i] < |e| && e[x].content == e[v[i]].content
    ensures Ark(e, v[i := x]) && LastSegment(v[i := x], f)
  {
    var u := v[i := x];
    assert GoodList(e, u);
    NoahSame(e, v, e, u);
    hide Good, LookOf, Noah;
    var j := IndexOf(v, f);
    assert u[j] == f && forall m :: 0 <= m < j ==> u[m] != f;
    assert IndexOf(u, f) == j;
  }

  lemma RemovedArk(e: Arena, v: seq<int>, i: nat, f: int)
    requires Ark(e, v) && LastSegment(v, f) && IndexOf(v, f) < i < |v|
    ensures Ark(e, RemoveAt(v, i)) && LastSegment(RemoveAt(v, i), f)
  {
    NoahRemoved(e, v, i);
    hide Good, LookOf, Noah, GoodList;
    var u, j := RemoveAt(v, i), IndexOf(v, f);
    assert forall m :: 0 <= m < |u| ==> u[m] == v[if m < i then m else m + 1];
    assert u[j] == f && forall m :: 0 <= m < j ==> u[m] != f;
    assert IndexOf(u, f) == j;
  }

  /** The list during the walk, seen in the tree after the pass. */
  lemma {:induction false} FormArk(st: Start, s: nat)
    requires st.Valid() && st.w.fi < s <= st.w.k && Agrees(st.w.open, st.w.list, st.w.fi - 1)
    requires Ark(st.Result(), st.w.list) && LastSegment(st.w.list, st.w.open[st.w.fi])
    ensures Ark(st.Result(), st.w.Form(s)) && LastSegment(st.w.Form(s), st.w.open[st.w.fi])
    decreases st.w.k - s
  {
    hide Ark, LastSegment, Walk.Form, Agrees, GoodSite, NoRepeat, DistinctEntries, Start.Result, Attached;
    if s < st.w.k {
      FormArk(st, s + 1);
      FormArkStep(st, s);
    } else {
      FormStart(st.w);
    }
  }

  lemma FormStart(w: Walk)
    requires w.k < |w.open|
    ensures w.Form(w.k) == w.list
  {}

  lemma FormArkStep(st: Start, s: nat)
    requires st.Valid() && st.w.fi < s < st.w.k && Agrees(st.w.open, st.w.list, st.w.fi - 1)
    requires Ark(st.Result(), st.w.Form(s + 1)) && LastSegment(st.w.Form(s + 1), st.w.open[st.w.fi])
    ensures Ark(st.Result(), st.w.Form(s)) && LastSegment(st.w.Form(s), st.w.open[st.w.fi])
  {
    hide *;
    var w, e := st.w, st.Result();
    StartBounds(st);
    var v := w.Form(s + 1);
    var i := IndexOf(v, w.open[s]);
    FormTurn(w, s);
    if i != -1 {
      assert w.open[s] in v;
      EntryPlace(w, s);
      if w.Clones(s) {
        CloneContent(st, s);
        OldContent(st, s);
        ReplacedArk(e, v, i, w.n + |w.Cloned(s + 1)|, w.open[w.fi]);
      } else {
        RemovedArk(e, v, i, w.open[w.fi]);
      }
    }
  }

  lemma StartBounds(st: Start)
    requires st.Valid()
    ensures st.w.Valid() && 1 <= st.w.fi < st.w.k < |st.w.open| && st.w.n == |st.d|
  {
    hide GoodSite, NoRepeat, DistinctEntries;
  }

  lemma OldContent(st: Start, s: nat)
    requires st.Valid() && s < |st.w.open|
    ensures 0 <= st.w.open[s] < |st.d| <= |st.Result()|
    ensures st.Result()[st.w.open[s]].content == st.d[st.w.open[s]].content
  {
    ResultNodes(st, {});
    hide GoodSite, NoRepeat, DistinctEntries, Start.Result, Walk.Cloned, NewFormatting;
  }

  /** An element the walk finds in the list is behind the formatting element. */
  lemma EntryPlace(w: Walk, s: nat)
    requires w.Valid() && w.fi < s < w.k < |w.open| && Agrees(w.open, w.list, w.fi - 1) && w.open[s] in w.Form(s + 1)
    ensures w.open[s] != w.open[w.fi] && w.open[s] != -1
    ensures IndexOf(w.Form(s + 1), w.open[w.fi]) < IndexOf(w.Form(s + 1), w.open[s])
    ensures w.n + |w.Cloned(s + 1)| !in w.Form(s + 1) && w.n + |w.Cloned(s + 1)| != w.open[w.fi]
  {
    hide Walk.Form, Walk.Cloned, Agrees, NoRepeat, DistinctEntries, InOrder, Arranged, IndexOf;
    EntryAt(w, s + 1, s);
    EntryHere(w, s);
    IsInOrder(w, w.fi - 1, s + 1, w.fi, s);
    SameOrder(w, s);
  }

  lemma SameOrder(w: Walk, s: nat)
    requires w.fi < s < w.k < |w.open| && InOrder(w, s + 1, w.fi, s)
    ensures IndexOf(w.Form(s + 1), w.open[w.fi]) < IndexOf(w.Form(s + 1), w.open[s])
  {}

  // ----- the pass -----

  /** An entry with the look of one that has gone comes in, behind its place. */
  lemma {:induction false} CountInserted(d: Arena, v: seq<int>, i: nat, x: int, k: Look)
    requires GoodList(d, v) && i <= |v| && (forall j :: i <= j < |v| ==> v[j] != -1)
    requires 0 <= x < |d| && Good(d[x].content)
    ensures GoodList(d, InsertAt(v, x, i))
    ensures Count(d, InsertAt(v, x, i), k) == Count(d, v, k) + if LookOf(d[x].content) == k then 1 else 0
    decreases |v|
  {
    if i == |v| {
      assert InsertAt(v, x, i) == v + [x];
      CountPush(d, v, x, k);
    } else {
      var n := |v| - 1;
      CountInserted(d, v[..n], i, x, k);
      assert InsertAt(v, x, i) == InsertAt(v[..n], x, i) + [v[n]];
      assert v == v[..n] + [v[n]];
      CountPush(d, InsertAt(v[..n], x, i), v[n], k);
      CountPush(d, v[..n], v[n], k);
    }
  }

  /** Step 18. */
  lemma MovedArk(e: Arena, v: seq<int>, f: int, b: int, x: int)
    requires Ark(e, v) && LastSegment(v, f) && f != -1 && 0 <= IndexOf(v, f) < b <= |v| && 0 <= x < |e|
    requires 0 <= f < |e| && e[x].content == e[f].content
    ensures Ark(e, MovedTo(v, f, b, x))
  {
    var i := IndexOf(v, f);
    var w, u := RemoveAt(v, i), MovedTo(v, f, b, x);
    NoahRemoved(e, v, i);
    assert forall j :: 0 <= j < |w| ==> w[j] == v[if j < i then j else j + 1];
    assert Good(e[v[i]].content);
    CountInserted(e, w, b - 1, x, LookOf(e[f].content));
    forall m, k | 0 <= m <= |u| ensures GoodList(e, u[..m]) && Count(e, u[..m], k) <= 3 {
      MovedCount(e, v, f, b, x, m, k);
    }
  }

  lemma MovedCount(e: Arena, v: seq<int>, f: int, b: int, x: int, m: nat, k: Look)
    requires Ark(e, v) && LastSegment(v, f) && f != -1 && 0 <= IndexOf(v, f) < b <= |v| && 0 <= x < |e|
    requires 0 <= f < |e| && e[x].content == e[f].content && Ark(e, RemoveAt(v, IndexOf(v, f)))
    requires m <= |MovedTo(v, f, b, x)|
    ensures GoodList(e, MovedTo(v, f, b, x)[..m]) && Count(e, MovedTo(v, f, b, x)[..m], k) <= 3
  {
    hide Good, LookOf, Count;
    var i := IndexOf(v, f);
    var w, u := RemoveAt(v, i), MovedTo(v, f, b, x);
    if m < b {
      assert u[..m] == w[..m];
    } else {
      assert Good(e[v[i]].content);
      MovedSlices(v, i, b, x, m);
      CountRemoved(e, v[..m], i, k);
      CountInserted(e, w[..m - 1], b - 1, x, k);
    }
  }

  lemma MovedSlices(v: seq<int>, i: nat, b: nat, x: int, m: nat)
    requires i < b <= m <= |v|
    ensures var w := RemoveAt(v, i);
            && v[..m][i] == v[i] && m <= |InsertAt(w, x, b - 1)|
            && w[..m - 1] == RemoveAt(v[..m], i) && InsertAt(w, x, b - 1)[..m] == InsertAt(w[..m - 1], x, b - 1)
  {}

  /** A pass keeps the limit. */
  lemma PassArk(st: Start)
    requires st.Valid() && Agrees(st.w.open, st.w.list, st.w.fi - 1) && NoneSpecial(st.d, st.w.list, {})
    requires Ark(st.d, st.w.list) && LastSegment(st.w.list, st.w.open[st.w.fi])
    ensures Ark(st.Result(), FinalList(st.w))
  {
    hide *;
    StartBounds(st);
    var w, e, f := st.w, st.Result(), st.w.open[st.w.fi];
    ResultNodes(st, {});
    OldContent(st, w.fi);
    SameArk(st.d, e, w.list);
    FormArk(st, w.fi + 1);
    FinalListIs(w);
    LastIndexed(w.Form(w.fi + 1), f);
    MovedArk(e, w.Form(w.fi + 1), f, w.Mark(w.fi + 1), NewFormatting(w));
  }

  lemma LastIndexed(v: seq<int>, f: int)
    requires LastSegment(v, f)
    ensures 0 <= IndexOf(v, f) < |v|
  {}

  lemma SameArk(d: Arena, e: Arena, list: seq<int>)
    requires Ark(d, list) && Grew(d, e, {})
    ensures Ark(e, list)
  {
    hide Good, LookOf, TagIn;
    assert GoodList(e, list);
    hide Noah;
    NoahSame(d, list, e, list);
  }

  /** So does every way out of the outer loop. */
  lemma StoppedArk(s: ParserState, t: ParserState, tag: int, special: set<(int, int)>, scoping: set<(int, int)>)
    requires Lists(|s.d|, s.open, s.list) && Stopped(s, t, tag, special, scoping) && Ark(s.d, s.list)
    ensures Ark(t.d, t.list)
  {
    var c := Candidate(s.d, s.list, tag);
    hide Good, TagIn, HtmlTagIs, InScope, NoRepeat, DistinctEntries, Noah;
    if c != -1 { NoahRemoved(s.d, s.list, c); }
  }

  /** The formatting element of a turn is in the last segment. */
  lemma TurnSegment(s: ParserState, tag: int, special: set<(int, int)>, st: Start)
    requires TurnFrom(s, tag, special, st)
    ensures st.w.fi < |st.w.open| && LastSegment(st.w.list, st.w.open[st.w.fi])
  {
    FormattingListed(st.w);
    hide GoodSite, NoRepeat, DistinctEntries, TagIn, HtmlTagIs;
  }
}
