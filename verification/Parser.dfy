/** The tree constructor of gumbo-parser/src/parser.c on its mutable state: the node tree, the
    stack of open elements and the list of active formatting elements. */
module Parser {
  import opened Sequences
  import opened Dom
  import opened NodeOps
  import opened AdoptionSurgery
  import opened AdoptionSteps
  import opened AdoptionWalk
  import opened AdoptionOrder
  import opened AdoptionPass
  import opened AdoptionPath
  import opened AdoptionNext
  import opened Formatting
  import opened Reconstruction
  import opened RootedState
  import opened RootedOps
  import opened RootedCall
  import opened RootedText
  import opened ParserRun

  class GumboParser {
    const tree: Tree
    var open: seq<int>
    var formatting: seq<int>

    /** The (namespace, tag) pairs of is_special_node, and those that bound a scope. */
    const special: set<(int, int)>
    const scoping: set<(int, int)>

    constructor (special: set<(int, int)>, scoping: set<(int, int)>)
      ensures fresh(tree) && tree.nodes == [] && open == [] && formatting == []
      ensures this.special == special && this.scoping == scoping
    {
      tree := new Tree();
      open, formatting := [], [];
      this.special, this.scoping := special, scoping;
    }

    ghost function State(): ParserState
      reads this, tree
    {
      ParserState(tree.nodes, open, formatting)
    }

    // ----- inserting and closing -----

    /** insert_element, with foster parenting off: the new node becomes the last child of the
        current node, and the current node. */
    method InsertElement(c: Label, ghost rank: seq<int>, ghost path: seq<int>, ghost from: int) returns (node: int)
      requires Rooted(State(), rank, special) && c.Element?
      modifies this`open, tree
      ensures node == |old(tree.nodes)| && open == old(open) + [node] && formatting == old(formatting)
      ensures |old(open)| > 0 && 0 <= old(open)[|old(open)| - 1] < node
      ensures tree.nodes == Grown(old(tree.nodes), c, old(open)[|old(open)| - 1])
      ensures Rooted(State(), RankUp(rank), special) && Kept(old(tree.nodes), rank, tree.nodes, RankUp(rank))
      ensures old(Orderly(State(), rank, path, from, special)) ==>
                Orderly(State(), RankUp(rank), path + [node], from, special)
    {
      hide Rooted, Orderly, Grown, Kept, Linked, Ranked, OneTree, Lists, Agrees, NoneSpecial, Standing, RankUp,
           Inserted;
      ghost var s := State();
      RootedParts(s, rank, special);
      PushedRooted(s, rank, special, c);
      if Orderly(s, rank, path, from, special) { PushedOrderly(s, rank, path, from, special, c); }
      GrownKept(tree.nodes, rank, c, open[|open| - 1]);
      node := HangNew(c, rank);
      open := open + [node];
    }

    /** insert_text_token and maybe_flush_text_node_buffer: the text comes last below the current
        node, and last in the document while the stack is along a path. */
    method InsertText(text: string, ghost rank: seq<int>, ghost path: seq<int>, ghost from: int) returns (node: int)
      requires Rooted(State(), rank, special)
      modifies tree
      ensures node == |old(tree.nodes)| && |open| > 0 && 0 <= open[|open| - 1] < node
      ensures tree.nodes == Grown(old(tree.nodes), Text(text), open[|open| - 1])
      ensures Rooted(State(), RankUp(rank), special)
      ensures Ranked(old(tree.nodes), rank) && Ranked(tree.nodes, RankUp(rank))
      ensures old(Orderly(State(), rank, path, from, special)) ==>
                && Orderly(State(), RankUp(rank), path, from, special) && |path| > 0 && 0 <= path[0] < node
                && Leaves(tree.nodes, RankUp(rank), path[0]) == Leaves(old(tree.nodes), rank, path[0]) + [node]
    {
      hide Rooted, Orderly, Grown, Leaves, OneTree, Lists, Agrees, NoneSpecial, Standing, Linked, Ranked, RankUp;
      ghost var s := State();
      RootedParts(s, rank, special);
      HungRooted(s, rank, special, Text(text));
      RootedParts(Hung(s, Text(text)), RankUp(rank), special);
      if Orderly(s, rank, path, from, special) {
        OrderlyEnd(s, rank, path, from, special);
        HungOrderly(s, rank, path, from, special, Text(text));
        TextAtEnd(tree.nodes, rank, path, Text(text), 0);
      }
      node := HangNew(Text(text), rank);
    }

    /** insert_node at the end of the current node. */
    method HangNew(c: Label, ghost rank: seq<int>) returns (node: int)
      requires Linked(tree.nodes) && Ranked(tree.nodes, rank) && |open| > 0 && 0 <= open[|open| - 1] < |tree.nodes|
      modifies tree
      ensures node == |old(tree.nodes)| && tree.nodes == Grown(old(tree.nodes), c, open[|open| - 1])
    {
      hide Linked, Ranked, Grown, Inserted;
      ghost var d := tree.nodes;
      FreshReady(d, rank, c, open[|open| - 1]);
      node := tree.CreateNode(c);
      tree.InsertNode(node, open[|open| - 1], -1, RankUp(rank));
    }

    /** pop_current_node */
    method PopCurrentNode(ghost rank: seq<int>, ghost path: seq<int>, ghost from: int) returns (node: int)
      requires Rooted(State(), rank, special)
      modifies this`open
      ensures |old(open)| > 0 && node == old(open)[|old(open)| - 1] && open == old(open)[..|old(open)| - 1]
      ensures open != [] ==> Rooted(State(), rank, special)
      ensures old(Orderly(State(), rank, path, from, special)) && from < |open| && open[|open| - 1] in path ==>
                Orderly(State(), rank, path[..IndexOf(path, open[|open| - 1]) + 1], from, special)
    {
      hide Rooted, Orderly, Linked, Ranked, OneTree, Standing, Chain, Threaded, Lists, Agrees, NoneSpecial, NoRepeat,
           IndexOf;
      RootedParts(State(), rank, special);
      if |open| > 1 { CutStack(State(), rank, special, |open| - 1); }
      if Orderly(State(), rank, path, from, special) {
        OrderlyEnd(State(), rank, path, from, special);
        OrderlyLists(State(), rank, path, from, special);
        if from < |open| - 1 && open[|open| - 2] in path { Popped(State(), rank, path, from, special, |open| - 1); }
      }
      node := open[|open| - 1];
      open := open[..|open| - 1];
    }

    /** gumbo_vector_remove on the stack, as the end tag of a form does it: the element leaves the
        stack wherever it is, and those above it stay. */
    method RemoveOpen(node: int, ghost rank: seq<int>)
      requires Rooted(State(), rank, special) && (|open| > 0 ==> node != open[0])
      modifies this`open
      ensures open == Unstack(old(open), node)
      ensures Rooted(State(), rank, special)
    {
      hide Rooted;
      var index := VectorIndexOf(open, node);
      if index == -1 { return; }
      Unstacked(State(), rank, special, index);
      open := RemoveAt(open, index);
    }

    // ----- the list of active formatting elements -----

    /** count_formatting_elements_of_tag: the entries identical to an element behind the last
        marker, and the first of them. */
    method CountFormattingElements(c: Label) returns (count: nat, earliest: int)
      requires GoodList(tree.nodes, formatting) && Good(c)
      ensures count == Count(tree.nodes, formatting, LookOf(c))
      ensures count > 0 ==> EarliestMatch(tree.nodes, formatting, LookOf(c), earliest)
    {
      count, earliest := 0, -1;
      var i := |formatting|;
      assert formatting[..i] == formatting;
      hide Pairs, UniqueNames;
      while i > 0
        invariant 0 <= i <= |formatting| && forall j :: i <= j < |formatting| ==> formatting[j] != -1
        invariant count + Count(tree.nodes, formatting[..i], LookOf(c)) == Count(tree.nodes, formatting, LookOf(c))
        invariant count > 0 ==>
                    i <= earliest < |formatting| && LookOf(tree.nodes[formatting[earliest]].content) == LookOf(c)
        invariant count > 0 ==>
                    var front := formatting[..earliest];
                    Count(tree.nodes, front, LookOf(c)) == Count(tree.nodes, formatting[..i], LookOf(c))
      {
        i := i - 1;
        assert formatting[..i + 1][..i] == formatting[..i];
        if formatting[i] == -1 { return; }
        var node := tree.nodes[formatting[i]].content;
        var same := AllAttributesMatch(node.attributes, c.attributes);
        if node.ns == c.ns && node.tag == c.tag && same {
          count, earliest := count + 1, i;
        }
      }
    }

    /** add_formatting_element; -1 is the scope marker, which the C code looks up like an
        attribute-free element with namespace and tag 0. It keeps the state orderly when it adds
        a marker or the current node, as its callers do. */
    method AddFormattingElement(node: int, ghost rank: seq<int>, ghost path: seq<int>, ghost from: int)
      returns (ghost earliest: int)
      requires Ark(tree.nodes, formatting)
      requires node != -1 ==> 0 <= node < |tree.nodes| && Good(tree.nodes[node].content)
      modifies this`formatting
      ensures Listed(tree.nodes, old(formatting),
                     if node == -1 then Element(0, 0, []) else tree.nodes[node].content, node, earliest, formatting)
      ensures Ark(tree.nodes, formatting)
      ensures old(Orderly(State(), rank, path, from, special) && Addable(State(), node, special)) ==>
                Orderly(State(), rank, path, from, special)
      ensures old(Rooted(State(), rank, special) && Addable(State(), node, special)) ==>
                Rooted(State(), rank, special)
    {
      hide Orderly, Rooted, Pairs;
      var c := if node == -1 then Element(0, 0, []) else tree.nodes[node].content;
      var count, e := CountFormattingElements(c);
      earliest := e;
      CountAtMost(tree.nodes, formatting, LookOf(c));
      if Orderly(State(), rank, path, from, special) && Addable(State(), node, special) {
        StaysOrderly(State(), rank, path, from, special, node, count >= 3, e);
      }
      if Rooted(State(), rank, special) && Addable(State(), node, special) {
        StaysRooted(State(), rank, special, node, count >= 3, e);
      }
      hide Addable;
      NoahAdd(tree.nodes, formatting, node, LookOf(c), e);
      assert formatting[..|formatting|] == formatting;
      if count >= 3 { formatting := RemoveAt(formatting, e); }
      formatting := formatting + [node];
    }

    /** clear_active_formatting_elements: up to and including the last marker. */
    method ClearActiveFormattingElements(ghost rank: seq<int>, ghost path: seq<int>, ghost from: int)
      requires Ark(tree.nodes, formatting)
      modifies this`formatting
      ensures formatting <= old(formatting) && Ark(tree.nodes, formatting)
      ensures forall j :: |formatting| < j < |old(formatting)| ==> old(formatting)[j] != -1
      ensures -1 in old(formatting) ==> |formatting| < |old(formatting)| && old(formatting)[|formatting|] == -1
      ensures -1 !in old(formatting) ==> formatting == []
      ensures old(Orderly(State(), rank, path, from, special)) ==> Orderly(State(), rank, path, from, special)
      ensures old(Rooted(State(), rank, special)) ==> Rooted(State(), rank, special)
    {
      hide Orderly, Rooted;
      ghost var list := formatting;
      while formatting != []
        invariant |formatting| <= |list| && formatting == list[..|formatting|]
        invariant forall j :: |formatting| <= j < |list| ==> list[j] != -1
        invariant old(Orderly(State(), rank, path, from, special)) ==> Orderly(State(), rank, path, from, special)
        invariant old(Rooted(State(), rank, special)) ==> Rooted(State(), rank, special)
        decreases |formatting|
      {
        var node := formatting[|formatting| - 1];
        if Orderly(State(), rank, path, from, special) {
          CutOrderly(State(), rank, path, from, special, |formatting| - 1);
        }
        if Rooted(State(), rank, special) { CutListRooted(State(), rank, special, |formatting| - 1); }
        formatting := formatting[..|formatting| - 1];
        assert formatting == list[..|formatting|];
        NoahPrefix(tree.nodes, list, |formatting|);
        if node == -1 { return; }
      }
      NoahPrefix(tree.nodes, list, 0);
    }

    /** reconstruct_active_formatting_elements, with foster parenting off. */
    method ReconstructActiveFormattingElements(ghost rank: seq<int>, ghost path: seq<int>, ghost from: int)
      returns (ghost r: seq<int>, ghost start: nat)
      requires Rooted(State(), rank, special) && Ark(tree.nodes, formatting)
      modifies this`open, this`formatting, tree
      ensures start <= |old(formatting)| == |formatting| && formatting[..start] == old(formatting)[..start]
      ensures open == old(open) + formatting[start..]
      ensures Rooted(State(), r, special) && Kept(old(tree.nodes), rank, tree.nodes, r)
      ensures old(Orderly(State(), rank, path, from, special)) ==>
                Orderly(State(), r, path + formatting[start..], from, special)
      ensures Writes(old(tree.nodes), tree.nodes, -1)
      ensures Ark(tree.nodes, formatting)
      ensures Reopened(old(State()), State(), start)
      ensures formatting != [] ==> formatting[|formatting| - 1] == -1 || formatting[|formatting| - 1] in open
    {
      hide Rooted, Orderly, GoodList, Noah, Kept, Rebuilding, Waiting, Writes, Reopening, Reopened, Renewed, Linked,
           Lists, NoneSpecial;
      ghost var s, orderly := State(), Orderly(State(), rank, path, from, special);
      RootedEnd(s, rank, special);
      r := rank;
      var i := FirstToReconstruct();
      start := i;
      IsWaiting(open, formatting, i);
      RebuildingStarts(s, r, path, from, special, i, orderly);
      ReopeningStarts(s, i);
      assert path + formatting[start..i] == path;
      while i < |formatting|
        invariant start <= i <= |formatting| == |s.list| && Reopening(s, State(), start, i)
        invariant Rebuilding(s.d, rank, s.list, State(), r, path + formatting[start..i], from, special, i, orderly)
      {
        ghost var done := formatting[start..i];
        WaitingEntry(s, rank, special, start, i);
        ReopeningOn(s, State(), start, i);
        r := ReconstructOne(i, r, s.d, rank, s.list, path + formatting[start..i], from, orderly);
        i := i + 1;
        assert formatting[start..i] == done + [formatting[i - 1]];
        assert path + done + [formatting[i - 1]] == path + formatting[start..i];
      }
      RebuildingEnds(s.d, rank, s.list, State(), r, path + formatting[start..i], from, special, orderly);
      assert formatting[start..i] == formatting[start..];
      ReopeningEnds(s, State(), r, start, special);
    }

    /** A new formatting element: insert, add to the list. */
    method InsertFormatting(c: Label, ghost rank: seq<int>, ghost path: seq<int>, ghost from: int)
      returns (node: int, ghost earliest: int)
      requires Rooted(State(), rank, special) && Ark(tree.nodes, formatting) && Good(c) && !TagIn(c, special)
      modifies this`open, this`formatting, tree
      ensures Rooted(State(), RankUp(rank), special) && Kept(old(tree.nodes), rank, tree.nodes, RankUp(rank))
      ensures old(Orderly(State(), rank, path, from, special)) ==>
                Orderly(State(), RankUp(rank), path + [node], from, special)
      ensures Writes(old(tree.nodes), tree.nodes, -1) && Ark(tree.nodes, formatting)
      ensures |old(open)| > 0 && open == old(open) + [node] && node == |old(tree.nodes)| < |tree.nodes|
      ensures tree.nodes[node].content == c && Begun(old(State()), c, earliest, State())
    {
      hide Rooted, Orderly, Kept, Grown, Ark, Writes, RankUp, NoneSpecial, NoRepeat, DistinctEntries, Linked, Ranked,
           Listed, Good, TagIn;
      ghost var s := State();
      GoodIsElement(c);
      RootedEnd(s, rank, special);
      GrownArk(s.d, s.list, c, s.open[|s.open| - 1]);
      GrownWrites(s.d, c, s.open[|s.open| - 1]);
      node := InsertElement(c, rank, path, from);
      assert Addable(State(), node, special);
      earliest := AddFormattingElement(node, RankUp(rank), path + [node], from);
    }

    /** The start tag of a formatting element: reconstruct first. */
    method StartFormatting(c: Label, ghost rank: seq<int>, ghost path: seq<int>, ghost from: int)
      returns (node: int, ghost r: seq<int>, ghost path': seq<int>, ghost start: nat, ghost earliest: int,
               ghost mid: ParserState)
      requires Rooted(State(), rank, special) && Ark(tree.nodes, formatting) && Good(c) && !TagIn(c, special)
      modifies this`open, this`formatting, tree
      ensures Rooted(State(), r, special) && Kept(old(tree.nodes), rank, tree.nodes, r)
      ensures old(Orderly(State(), rank, path, from, special)) ==> Orderly(State(), r, path', from, special)
      ensures old(IsStack(path, open, from)) ==> IsStack(path', open, from)
      ensures SameFirst(old(open), open) && old(open) < open
      ensures Writes(old(tree.nodes), tree.nodes, -1) && Ark(tree.nodes, formatting)
      ensures |open| > 0 && node == open[|open| - 1] && 0 <= node < |tree.nodes| && tree.nodes[node].content == c
      ensures Reopened(old(State()), mid, start) && Begun(mid, c, earliest, State())
    {
      hide Rooted, Orderly, Kept, Ark, Reopened, Begun, Writes, RankUp, Good, TagIn, IsStack;
      ghost var d0, open0 := tree.nodes, open;
      RootedEnd(State(), rank, special);
      r, start := ReconstructActiveFormattingElements(rank, path, from);
      path' := path + formatting[start..];
      if IsStack(path, open0, from) {
        StackGrows(path, open0, from, formatting[start..]);
        StackGrows(path', open, from, [|tree.nodes|]);
      }
      mid := State();
      ghost var r1 := r;
      node, earliest := InsertFormatting(c, r, path', from);
      WritesMore(d0, mid.d, tree.nodes, -1);
      r, path' := RankUp(r), path' + [node];
      KeptTwice(d0, rank, mid.d, r1, tree.nodes, r);
    }

    /** Steps 1 to 6: behind the last entry that is a marker or open. */
    method FirstToReconstruct() returns (start: nat)
      ensures Waiting(open, formatting, start)
      ensures start > 0 ==> formatting[start - 1] == -1 || formatting[start - 1] in open
    {
      if |formatting| == 0 { return 0; }
      var i := |formatting| - 1;
      if formatting[i] == -1 || formatting[i] in open { return |formatting|; }
      while true
        invariant 0 <= i < |formatting| && Waiting(open, formatting, i)
        decreases i
      {
        if i == 0 {
          i := -1;
          break;
        }
        i := i - 1;
        if formatting[i] == -1 || formatting[i] in open { break; }
      }
      return i + 1;
    }

    /** Steps 7 to 10. */
    method ReconstructOne(i: nat, ghost rank: seq<int>, ghost d0: Arena, ghost rank0: seq<int>, ghost list0: seq<int>,
                          ghost path: seq<int>, ghost from: int, ghost orderly: bool) returns (ghost r: seq<int>)
      requires i < |formatting| && Rebuilding(d0, rank0, list0, State(), rank, path, from, special, i, orderly)
      modifies this`open, this`formatting, tree
      ensures |formatting| == |old(formatting)| && formatting == old(formatting)[i := formatting[i]]
      ensures open == old(open) + [formatting[i]]
      ensures 0 <= old(formatting[i]) < |old(tree.nodes)| && |old(open)| > 0
      ensures 0 <= old(open[|open| - 1]) < |old(tree.nodes)| && State() == Renewed(old(State()), i)
      ensures Rebuilding(d0, rank0, list0, State(), r, path + [formatting[i]], from, special, i + 1, orderly)
    {
      hide Rebuilding, Linked, Ranked, Grown, Appended, Inserted;
      ghost var d := tree.nodes;
      Rebuilt(d0, rank0, list0, State(), rank, path, from, special, i, orderly);
      var clone := tree.CloneNode(formatting[i]);
      assert tree.nodes == d + [Fresh(d[formatting[i]].content)];
      tree.InsertNode(clone, open[|open| - 1], -1, RankUp(rank));
      r := RankUp(rank);
      open := open + [clone];
      formatting := formatting[i := clone];
    }

    // ----- the adoption agency algorithm: the outer loop -----

    /** Step 5. */
    method FindFormatting(subject: int) returns (index: int)
      requires forall i :: 0 <= i < |formatting| ==> -1 <= formatting[i] < |tree.nodes|
      ensures index == Candidate(tree.nodes, formatting, subject)
    {
      var j := |formatting|;
      assert formatting[..j] == formatting;
      while j > 0
        invariant 0 <= j <= |formatting|
        invariant Candidate(tree.nodes, formatting, subject) == Candidate(tree.nodes, formatting[..j], subject)
      {
        j := j - 1;
        assert formatting[..j + 1][..j] == formatting[..j];
        if formatting[j] == -1 { return -1; }
        if HtmlTagIs(tree.nodes[formatting[j]].content, subject) { return j; }
      }
      return -1;
    }

    /** has_an_element_in_scope */
    method HasElementInScope(tag: int) returns (found: bool)
      requires forall i :: 0 <= i < |open| ==> 0 <= open[i] < |tree.nodes|
      ensures found <==> InScope(State(), tag, scoping)
    {
      var i := |open|;
      while i > 0
        invariant 0 <= i <= |open|
        invariant forall j :: i <= j < |open| ==>
          !HtmlTagIs(tree.nodes[open[j]].content, tag) && !TagIn(tree.nodes[open[j]].content, scoping)
      {
        i := i - 1;
        if HtmlTagIs(tree.nodes[open[i]].content, tag) { return true; }
        if TagIn(tree.nodes[open[i]].content, scoping) { return false; }
      }
      return false;
    }

    /** Step 9: the first special element from stack position `fi` on, or -1. */
    method FindFurthestBlock(fi: nat) returns (k: int)
      requires fi < |open| && forall i :: 0 <= i < |open| ==> 0 <= open[i] < |tree.nodes|
      ensures k == -1 || (fi <= k < |open| && TagIn(tree.nodes[open[k]].content, special))
      ensures forall j :: fi <= j < (if k == -1 then |open| else k) ==> !TagIn(tree.nodes[open[j]].content, special)
    {
      k := fi;
      while k < |open|
        invariant fi <= k <= |open|
        invariant forall j :: fi <= j < k ==> !TagIn(tree.nodes[open[j]].content, special)
      {
        if TagIn(tree.nodes[open[k]].content, special) { return; }
        k := k + 1;
      }
      k := -1;
    }

    /** Step 10: without a furthest block, close everything up to the formatting element. */
    method CloseFormatting(f: int, ghost fi: nat)
      requires fi < |open| && open[fi] == f && NoRepeat(open) && f in formatting
      modifies this`open, this`formatting
      ensures open == old(open)[..fi]
      ensures formatting == RemoveAt(old(formatting), IndexOf(old(formatting), f))
    {
      ghost var o := open;
      while open[|open| - 1] != f
        invariant fi < |open| <= |o| && open == o[..|open|] && formatting == old(formatting)
        decreases |open|
      {
        open := open[..|open| - 1];
      }
      assert |open| - 1 == fi;
      open := open[..|open| - 1];
      var at := VectorIndexOf(formatting, f);
      formatting := RemoveAt(formatting, at);
    }

    /** Steps 5 to 10: where the formatting element and the furthest block are. */
    method Locate(subject: int) returns (what: Finding, index: int, at: int, k: int)
      requires Lists(|tree.nodes|, open, formatting)
      ensures Located(State(), subject, special, scoping, what, index, at, k)
    {
      what, at, k := Nothing, -1, -1;
      index := FindFormatting(subject);
      if index == -1 { return; }
      at := VectorIndexOf(open, formatting[index]);
      if at == -1 { what := NotOpen; return; }
      var inScope := HasElementInScope(subject);
      if !inScope { what := OutOfScope; return; }
      k := FindFurthestBlock(at);
      what := if k == -1 then NoBlock else Block;
    }

    /** Steps 5 to 19: one turn of the outer loop. `again` tells whether there was a furthest
        block, and then `st` says what the turn started from; if the stack was along a path, the
        turn worked between `a` and `b` of it. */
    method OuterTurn(subject: int, ghost rank: seq<int>, ghost path: seq<int>, ghost from: int)
      returns (again: bool, ghost st: Start, ghost a: int, ghost b: int)
      requires Rooted(State(), rank, special)
      modifies this`open, this`formatting, tree
      ensures again ==> TurnFrom(old(State()), subject, special, st) && st.rank == rank
      ensures again && old(Ready(State(), rank, path, from, subject, special)) ==>
                TurnTaken(old(State()), rank, path, from, subject, special, st, a, b)
      ensures again ==> st.Valid() && State() == StateAfter(st)
      ensures !again ==> Lists(|old(tree.nodes)|, old(open), old(formatting))
      ensures !again ==> Stopped(old(State()), State(), subject, special, scoping)
    {
      hide Rooted, Ready, TurnFrom, TurnTaken, Stopped, Start.Valid, Located, NoRepeat, FinalList, FinalOpen,
           StateAfter, Found, OneTree, Agrees, NoneSpecial, Standing, Linked, Ranked;
      ghost var s := State();
      RootedParts(s, rank, special);
      var what, index, at, k := Locate(subject);
      st := Start(tree.nodes, rank, Walk(|tree.nodes|, open, formatting, 0, 0));
      again := what == Block;
      a, b := 0, 0;
      if again {
        FoundBlock(s, rank, subject, special, scoping, index, at, k);
        st := Start(tree.nodes, rank, Walk(|tree.nodes|, open, formatting, at, k));
        if Ready(s, rank, path, from, subject, special) {
          BlockFound(s, rank, path, from, subject, special, scoping, index, at, k);
          a, b := IndexOf(path, open[at - 1]), IndexOf(path, open[k]);
        }
        hide *;
        var newNode := Pass(formatting[index], open[k], st);
        StateIs(st, State(), newNode);
      } else if what != Nothing {
        NoBlockFound(s, subject, special, scoping, what, index, at, k);
        if what == NotOpen { formatting := RemoveAt(formatting, index); }
        if what == NoBlock { CloseFormatting(formatting[index], at); }
      }
      if !again { StopsThere(s, State(), subject, special, scoping, what, index, at, k); }
    }

    /** adoption_agency_algorithm, in any rooted state. It adds at most 32 nodes, and apart from
        the text of the furthest blocks all text keeps its order. If the stack was along a path
        and the algorithm starts on it, it leaves a stack along `path'` and the same text in the
        same order below each root; and if step 13.5 took nothing, a stack that was the path is
        still the path. */
    method AdoptionAgencyAlgorithm(subject: int, ghost rank: seq<int>, ghost path: seq<int>, ghost from: int)
      returns (handled: bool, ghost r: seq<int>, ghost path': seq<int>, ghost turns: seq<Start>)
      requires Rooted(State(), rank, special)
      modifies this`open, this`formatting, tree
      ensures Rooted(State(), r, special) || (old(JustPop(State(), subject)) && |old(open)| == 1)
      ensures open != [] ==> SameFirst(old(open), open)
      ensures Linked(tree.nodes) && Lists(|tree.nodes|, open, formatting) && |tree.nodes| <= |old(tree.nodes)| + 32
      ensures Stirred(old(tree.nodes), rank, tree.nodes, r, MovedText(turns))
      ensures old(Ark(tree.nodes, formatting)) ==> Ark(tree.nodes, formatting)
      ensures if old(JustPop(State(), subject)) then
                !handled && turns == [] && State() == old(State()).(open := old(open)[..|old(open)| - 1])
              else Ended(old(State()), subject, special, scoping, turns, handled, State())
      ensures old(OnTrack(State(), rank, path, from, subject, special)) ==> Kept(old(tree.nodes), rank, tree.nodes, r)
      ensures old(OnTrack(State(), rank, path, from, subject, special)) ==>
                (old(JustPop(State(), subject)) ==> from < |open| && open[|open| - 1] in path) ==>
                  Orderly(State(), r, path', from, special)
      ensures old(OnTrack(State(), rank, path, from, subject, special) && IsStack(path, open, from)) ==>
                from < |open| && NeverKept(turns) ==> IsStack(path', open, from)
    {
      hide Rooted, Orderly, Grounded, OnTrack, Ready, TurnFrom, TurnTaken, Stopped, Kept, Lists, Linked, Ranked,
           Start.Valid, Ran, Reached, StateAfter, NeverKept, Underway, Stirred, MovedText, IsStack, JustPop, Ark;
      r, path', turns := rank, path, [];
      ghost var init, onTrack := State(), OnTrack(State(), rank, path, from, subject, special);
      RootedEnd(init, rank, special);
      var current := open[|open| - 1];
      var listed := VectorIndexOf(formatting, current);
      IsJustPop(init, subject, listed);
      if HtmlTagIs(tree.nodes[current].content, subject) && listed == -1 {
        path' := PoppedCall(init, rank, path, from, subject, special, onTrack);
        open := open[..|open| - 1];
        return false, r, path', turns;
      }
      NothingYet(init, rank, subject, special);
      OnTheWay(init, rank, path, from, subject, special, onTrack);
      for i := 0 to 8
        invariant Underway(init, rank, State(), r, subject, special, turns) && |turns| == i
        invariant onTrack ==> Following(init, rank, path, State(), r, path', from, subject, special, turns)
      {
        ghost var before := State();
        StillRooted(init, rank, before, r, subject, special, turns);
        var again, st, a, b := OuterTurn(subject, r, path', from);
        if !again {
          path' := StoppedCall(init, rank, path, before, State(), r, path', from, subject, special, scoping, turns,
                               onTrack);
          return false, r, path', turns;
        }
        r, path', turns := AfterTurn(init, rank, path, before, r, path', from, subject, special, turns, st, a, b,
                                     State(), onTrack);
      }
      FullCall(init, rank, path, State(), r, path', from, subject, special, scoping, turns, onTrack);
      return true, r, path', turns;
    }

    // ----- whole runs -----

    /** handle_before_html: the html element. The document node above it is left out. */
    method Begin(html: Label) returns (ghost rank: seq<int>)
      requires tree.nodes == [] && open == [] && formatting == [] && TagIn(html, special)
      modifies this`open, tree
      ensures Running([], State(), rank, [], Log([State()], [rank], []), special, scoping)
    {
      hide TagIn, Running;
      Begins(html, special, scoping);
      var node := tree.CreateNode(html);
      open := [node];
      rank := [0];
      assert State() == ParserState([Fresh(html)], [0], []);
    }

    /** Characters in the body: reconstruct, then insert. */
    method HandleCharacters(content: string, ghost rank: seq<int>) returns (text: int, ghost r: seq<int>)
      requires Rooted(State(), rank, special) && Ark(tree.nodes, formatting)
      modifies this`open, this`formatting, tree
      ensures Stepped(Characters(content), old(State()), rank, State(), r, text, [], special)
      ensures Did(Characters(content), old(State()), State())
    {
      hide Rooted, Orderly, Ark, Straight, Kept, Writes, Grown, Reopened, Leaves, OneTree, RankUp, Stepped, Did,
           Linked, Ranked, Lists, NoneSpecial, Threaded, Agrees;
      ghost var s, start := State(), 0;
      if Straight(s, rank, special) { StraightOrderly(s, rank, special); }
      r, start := ReconstructActiveFormattingElements(rank, open, 0);
      ghost var mid, r1 := State(), r;
      RootedEnd(mid, r, special);
      GrownArk(mid.d, mid.list, Text(content), open[|open| - 1]);
      CharactersDid(content, s, mid, start);
      GrownWrites(mid.d, Text(content), open[|open| - 1]);
      text := InsertText(content, r, open, 0);
      r := RankUp(r);
      if Straight(s, rank, special) { IsStraight(State(), r, special, open); }
      TextStep(content, s, rank, mid, r1, State(), r, text, special);
    }

    /** A start tag of no formatting element. */
    method HandleOpening(c: Label, ghost rank: seq<int>) returns (ghost r: seq<int>)
      requires Rooted(State(), rank, special) && Ark(tree.nodes, formatting) && c.Element?
      modifies this`open, tree
      ensures Stepped(Opening(c), old(State()), rank, State(), r, -1, [], special)
      ensures Did(Opening(c), old(State()), State())
    {
      hide Rooted, Orderly, Straight, Kept, Writes, Grown, RankUp, Ark, Stepped;
      ghost var s := State();
      RootedEnd(s, rank, special);
      if Straight(s, rank, special) { StraightOrderly(s, rank, special); }
      GrownArk(tree.nodes, formatting, c, open[|open| - 1]);
      GrownWrites(tree.nodes, c, open[|open| - 1]);
      var node := InsertElement(c, rank, open, 0);
      r := RankUp(rank);
      if Straight(s, rank, special) { IsStraight(State(), r, special, open); }
      QuietStep(Opening(c), s, rank, State(), r, [], special);
    }

    /** A start tag of a formatting element. */
    method HandleFormatting(c: Label, ghost rank: seq<int>) returns (ghost r: seq<int>)
      requires Rooted(State(), rank, special) && Ark(tree.nodes, formatting) && Good(c) && !TagIn(c, special)
      modifies this`open, this`formatting, tree
      ensures Stepped(FormattingTag(c), old(State()), rank, State(), r, -1, [], special)
      ensures Did(FormattingTag(c), old(State()), State())
    {
      hide Rooted, Orderly, Straight, Kept, Writes, Ark, Stepped, Reopened, Begun;
      ghost var s := State();
      if Straight(s, rank, special) { StraightOrderly(s, rank, special); }
      var node;
      ghost var path', start, earliest, mid;
      node, r, path', start, earliest, mid := StartFormatting(c, rank, open, 0);
      assert StartedBy(s, c, start, mid, earliest, State());
      if Straight(s, rank, special) { IsStraight(State(), r, special, path'); }
      QuietStep(FormattingTag(c), s, rank, State(), r, [], special);
    }

    /** An end tag of a formatting element. */
    method HandleEnding(tag: int, ghost rank: seq<int>) returns (ghost r: seq<int>, ghost turns: seq<Start>)
      requires Rooted(State(), rank, special) && Ark(tree.nodes, formatting) && (HTML_NS, tag) !in special
      modifies this`open, this`formatting, tree
      ensures Stepped(Ending(tag), old(State()), rank, State(), r, -1, turns, special)
      ensures EndingRan(old(State()), tag, special, scoping, turns, State())
    {
      hide Rooted, Orderly, Straight, Kept, Writes, Ark, Stepped, Ended, JustPop, OnTrack, Stirred, NeverKept, Linked,
           Lists, MovedText;
      ghost var s := State();
      RootedEnd(s, rank, special);
      if JustPop(s, tag) { PopLeaves(s, rank, tag, special); }
      if Straight(s, rank, special) {
        StraightOrderly(s, rank, special);
        StraightOnTrack(s, rank, tag, special);
      }
      var handled;
      ghost var path';
      handled, r, path', turns := AdoptionAgencyAlgorithm(tag, rank, open, 0);
      RootedEnd(State(), r, special);
      StirredWrites(s.d, rank, tree.nodes, r, MovedText(turns));
      if Straight(s, rank, special) && Calm(Ending(tag), turns) {
        EndsStraight(s, State(), rank, r, path', tag, special);
      }
      QuietStep(Ending(tag), s, rank, State(), r, turns, special);
    }

    /** The current node is closed; the first element stays. */
    method HandleClosing(ghost rank: seq<int>) returns (ghost r: seq<int>)
      requires Rooted(State(), rank, special) && Ark(tree.nodes, formatting)
      modifies this`open
      ensures Stepped(Closing, old(State()), rank, State(), r, -1, [], special)
      ensures Did(Closing, old(State()), State())
    {
      hide Rooted, Orderly, Straight, Kept, Writes, Ark, Stepped;
      ghost var s := State();
      r := rank;
      SameWrites(s.d);
      SameKept(s, rank, special);
      if |open| > 1 {
        StraightCut(s, rank, special);
        var node := PopCurrentNode(rank, open, 0);
      }
      QuietStep(Closing, s, rank, State(), r, [], special);
    }

    /** The end tag of a form takes its element off the stack. */
    method HandleRemoval(node: int, ghost rank: seq<int>) returns (ghost r: seq<int>)
      requires Rooted(State(), rank, special) && Ark(tree.nodes, formatting)
      modifies this`open
      ensures Stepped(Removal(node), old(State()), rank, State(), r, -1, [], special)
      ensures Did(Removal(node), old(State()), State())
    {
      hide Rooted, Straight, Kept, Writes, Ark, Stepped;
      ghost var s := State();
      r := rank;
      SameWrites(s.d);
      RootedEnd(s, rank, special);
      if node != open[0] { RemoveOpen(node, rank); }
      QuietStep(Removal(node), s, rank, State(), r, [], special);
    }

    /** The start tag of an anchor inside another takes that off list and stack, if the adoption
        agency algorithm has not done so. */
    method HandleForgetting(tag: int, ghost rank: seq<int>) returns (ghost r: seq<int>)
      requires Rooted(State(), rank, special) && Ark(tree.nodes, formatting)
      modifies this`open, this`formatting
      ensures Stepped(Forgetting(tag), old(State()), rank, State(), r, -1, [], special)
      ensures Did(Forgetting(tag), old(State()), State())
    {
      hide Rooted, Straight, Kept, Writes, Ark, Stepped, HtmlTagIs;
      ghost var s := State();
      r := rank;
      SameWrites(s.d);
      Forgotten(s, rank, tag, special);
      var index := FindFormatting(tag);
      if index != -1 {
        var last := formatting[index];
        formatting := RemoveAt(formatting, index);
        RemoveOpen(last, rank);
      }
      QuietStep(Forgetting(tag), s, rank, State(), r, [], special);
    }

    /** A marker is added, */
    method HandleMarker(ghost rank: seq<int>) returns (ghost r: seq<int>)
      requires Rooted(State(), rank, special) && Ark(tree.nodes, formatting)
      modifies this`formatting
      ensures Stepped(Marker, old(State()), rank, State(), r, -1, [], special)
      ensures Did(Marker, old(State()), State())
    {
      hide Rooted, Orderly, Straight, Kept, Writes, Stepped;
      ghost var s := State();
      r := rank;
      SameWrites(s.d);
      SameKept(s, rank, special);
      if Straight(s, rank, special) { StraightOrderly(s, rank, special); }
      ghost var earliest := AddFormattingElement(-1, rank, open, 0);
      if Straight(s, rank, special) { IsStraight(State(), r, special, open); }
      QuietStep(Marker, s, rank, State(), r, [], special);
    }

    /** or the list is cleared up to the last one. */
    method HandleToMarker(ghost rank: seq<int>) returns (ghost r: seq<int>)
      requires Rooted(State(), rank, special) && Ark(tree.nodes, formatting)
      modifies this`formatting
      ensures Stepped(ToMarker, old(State()), rank, State(), r, -1, [], special)
      ensures Did(ToMarker, old(State()), State())
    {
      hide Rooted, Orderly, Straight, Kept, Writes, Ark, Stepped;
      ghost var s := State();
      r := rank;
      SameWrites(s.d);
      SameKept(s, rank, special);
      if Straight(s, rank, special) { StraightOrderly(s, rank, special); }
      ClearActiveFormattingElements(rank, open, 0);
      if Straight(s, rank, special) { IsStraight(State(), r, special, open); }
      QuietStep(ToMarker, s, rank, State(), r, [], special);
    }

    /** One event. */
    method Handle(e: Event, ghost rank: seq<int>) returns (text: int, ghost r: seq<int>, ghost turns: seq<Start>)
      requires Rooted(State(), rank, special) && Ark(tree.nodes, formatting) && Sensible(e, special)
      modifies this`open, this`formatting, tree
      ensures Stepped(e, old(State()), rank, State(), r, text, turns, special)
      ensures EventRan(e, old(State()), special, scoping, turns, State())
    {
      hide Rooted, Ark, Stepped, EndingRan, Did, Good, TagIn;
      text, turns := -1, [];
      match e {
        case Characters(content) => text, r := HandleCharacters(content, rank);
        case Opening(c) => r := HandleOpening(c, rank);
        case FormattingTag(c) => r := HandleFormatting(c, rank);
        case Ending(tag) => r, turns := HandleEnding(tag, rank);
        case Closing => r := HandleClosing(rank);
        case Removal(node) => r := HandleRemoval(node, rank);
        case Forgetting(tag) => r := HandleForgetting(tag, rank);
        case Marker => r := HandleMarker(rank);
        case ToMarker => r := HandleToMarker(rank);
      }
    }

    /** Any run: whatever the events, the algorithm may be called in every state reached, and the
        document contains the text of every Characters event exactly once. If step 13.5 took
        nothing in any call and nothing left the middle of the stack, the text is in the order of
        the source. */
    method Construct(html: Label, events: seq<Event>)
      returns (written: seq<int>, ghost r: seq<int>, ghost log: Log)
      requires tree.nodes == [] && open == [] && formatting == [] && TagIn(html, special)
      requires forall i :: 0 <= i < |events| ==> Sensible(events[i], special)
      modifies this`open, this`formatting, tree
      ensures Rooted(State(), r, special) && Ark(tree.nodes, formatting)
      ensures Followed(events, log, special, scoping) && AllRooted(log, special) && log.states[|events|] == State()
      ensures Wrote(events, tree.nodes, written)
      ensures |tree.nodes| > 0 && Ranked(tree.nodes, r) && NoRepeat(Leaves(tree.nodes, r, 0))
      ensures forall y :: y in Leaves(tree.nodes, r, 0) <==> y in written
      ensures AllCalm(events, log) ==> Leaves(tree.nodes, r, 0) == written
    {
      hide Rooted, Ark, Running, TagIn, Sensible, EventRan, Stepped, Wrote, Ranked, Leaves;
      r := Begin(html);
      written := [];
      log := Log([State()], [r], []);
      assert events[..0] == [];
      for i := 0 to |events|
        invariant Running(events[..i], State(), r, written, log, special, scoping)
      {
        ghost var s, rank, turns := State(), r, [];
        StillRunning(events[..i], s, r, written, log, special, scoping);
        var text;
        text, r, turns := Handle(events[i], r);
        RunsOn(events[..i], events[i], s, rank, written, log, State(), r, text, turns, special, scoping);
        assert events[..i + 1] == events[..i] + [events[i]];
        written := written + if text == -1 then [] else [text];
        log := Log(log.states + [State()], log.ranks + [r], log.turns + [turns]);
      }
      assert events[..|events|] == events;
      StillRunning(events, State(), r, written, log, special, scoping);
      AllWritten(events, State(), r, written, log, special, scoping);
    }

    /** The state of the walk at stack position `s`. */
    ghost predicate During(st: Start, s: nat, last: int, bookmark: int)
      reads this, tree
    {
      WalkState(st, s, last, bookmark, open, formatting, tree.nodes)
    }

    /** Step 13: walk up the stack from the furthest block to the formatting node. */
    method InnerWalk(formattingNode: int, furthestBlock: int, ghost st: Start) returns (lastNode: int, bookmark: int)
      requires st.Valid() && tree.nodes == st.d && open == st.w.open && formatting == st.w.list
      requires formattingNode == open[st.w.fi] && furthestBlock == open[st.w.k]
      modifies this`open, this`formatting, tree
      ensures WalkState(st, st.w.fi + 1, lastNode, bookmark, open, formatting, tree.nodes)
    {
      hide WalkState;
      var saved: nat;
      bookmark, saved := StartWalk(formattingNode, furthestBlock, st);
      var node := furthestBlock;
      lastNode := furthestBlock;
      SamePosition(st, saved, saved - 1 + 1, lastNode, bookmark, open, formatting, tree.nodes);
      var p, j, done := saved - 1, 0, false;
      while !done
        invariant done ==> During(st, st.w.fi + 1, lastNode, bookmark)
        invariant !done ==> 0 <= p && During(st, p + 1, lastNode, bookmark)
        invariant !done ==> node == Last(st.w, p + 1) && j == st.w.k - (p + 1)
        decreases if done then 0 else p + 1
      {
        j := j + 1;
        done, p, lastNode, bookmark, node := Turn(formattingNode, furthestBlock, p, lastNode, bookmark, node, j, st);
      }
    }

    /** Steps 12 and 13: the bookmark, and the stack position the walk starts from. */
    method StartWalk(formattingNode: int, furthestBlock: int, ghost st: Start) returns (bookmark: int, saved: nat)
      requires st.Valid() && tree.nodes == st.d && open == st.w.open && formatting == st.w.list
      requires formattingNode == open[st.w.fi] && furthestBlock == open[st.w.k]
      ensures saved == st.w.k && During(st, saved, furthestBlock, bookmark)
    {
      bookmark := VectorIndexOf(formatting, formattingNode);
      bookmark := bookmark + 1;
      IndexOfDistinct(open, st.w.k);
      saved := VectorIndexOf(open, furthestBlock);
      assert saved > 0;
      WalkStarts(st);
    }

    /** One turn of the loop of step 13, which goes to stack position `p`; `done` when that
        is the formatting node, otherwise the next turn goes to `next`. */
    method Turn(formattingNode: int, furthestBlock: int, p: nat, last: int, mark: int, from: int, j: int,
                ghost st: Start)
      returns (done: bool, next: nat, lastNode: int, bookmark: int, node: int)
      requires During(st, p + 1, last, mark) && from == Last(st.w, p + 1) && j == st.w.k - p
      requires formattingNode == st.w.open[st.w.fi] && furthestBlock == st.w.open[st.w.k]
      modifies this`open, this`formatting, tree
      ensures done ==> During(st, st.w.fi + 1, lastNode, bookmark)
      ensures !done ==> next == p - 1 && During(st, next + 1, lastNode, bookmark) && node == Last(st.w, next + 1)
    {
      hide WalkState, Last;
      var nodeIndex;
      nodeIndex, node := NextNode(from, p + 1, last, mark, st);
      done, next, lastNode, bookmark := node == formattingNode, p, last, mark;
      if done {
        SamePosition(st, p + 1, st.w.fi + 1, last, mark, open, formatting, tree.nodes);
      } else {
        lastNode, bookmark, node := OneTurn(p, node, furthestBlock, last, mark, j, st);
        next := p - 1;
        SamePosition(st, p, next + 1, lastNode, bookmark, open, formatting, tree.nodes);
      }
    }

    /** Step 13.3: the stack element above `node`, with the assertions of the C code. */
    method NextNode(node: int, saved: nat, ghost last: int, ghost mark: int, ghost st: Start)
      returns (nodeIndex: nat, next: int)
      requires During(st, saved, last, mark) && node == Last(st.w, saved)
      ensures nodeIndex == saved - 1 < |open| && next == open[nodeIndex] == st.w.open[nodeIndex]
      ensures st.w.fi <= nodeIndex && (next == st.w.open[st.w.fi] <==> nodeIndex == st.w.fi)
    {
      hide WalkState, Walk.Valid;
      NextFacts(st, saved, last, mark, open, formatting, tree.nodes);
      var i := VectorIndexOf(open, node);
      if i == -1 { i := saved; }
      i := i - 1;
      assert i > 0 && i < |open|;
      nodeIndex, next := i, open[i];
      assert tree.nodes[next].parent != -1;
    }

    /** Steps 13.5 to 13.10 for the stack position `nodeIndex`, which holds `e`. */
    method OneTurn(nodeIndex: nat, e: int, furthestBlock: int, last: int, mark: int, j: int, ghost st: Start)
      returns (lastNode: int, bookmark: int, node: int)
      requires During(st, nodeIndex + 1, last, mark) && st.w.fi < nodeIndex < |open|
      requires e == open[nodeIndex] == st.w.open[nodeIndex] && furthestBlock == st.w.open[st.w.k]
      requires j == st.w.k - nodeIndex
      modifies this`open, this`formatting, tree
      ensures During(st, nodeIndex, lastNode, bookmark) && node == Last(st.w, nodeIndex)
    {
      lastNode, bookmark, node := last, mark, e;
      Handled(st.w, nodeIndex);
      var formattingIndex := VectorIndexOf(formatting, e);
      if j > 3 && formattingIndex != -1 {
        OtherTurn(st, nodeIndex, last, mark, open, formatting, tree.nodes);
        formatting := RemoveAt(formatting, formattingIndex);
        if formattingIndex < bookmark { bookmark := bookmark - 1; }
      } else if formattingIndex == -1 {
        OtherTurn(st, nodeIndex, last, mark, open, formatting, tree.nodes);
        open := RemoveAt(open, nodeIndex);
      } else {
        lastNode, bookmark, node := CloneTurn(nodeIndex, e, formattingIndex, furthestBlock, lastNode, bookmark, st);
      }
    }

    /** Steps 13.7 to 13.10. */
    method CloneTurn(nodeIndex: nat, e: int, formattingIndex: int, furthestBlock: int, last: int, mark: int,
                     ghost st: Start)
      returns (lastNode: int, bookmark: int, node: int)
      requires During(st, nodeIndex + 1, last, mark) && st.w.fi < nodeIndex < |open| && st.w.Clones(nodeIndex)
      requires e == open[nodeIndex] == st.w.open[nodeIndex] && furthestBlock == st.w.open[st.w.k]
      requires formattingIndex == IndexOf(formatting, e) != -1
      modifies this`open, this`formatting, tree
      ensures During(st, nodeIndex, lastNode, bookmark) && node == Last(st.w, nodeIndex)
    {
      bookmark := mark;
      LastNodeIsBlock(st, nodeIndex + 1);
      ghost var clones := st.CloneLabels(nodeIndex + 1);
      ghost var open0, form0 := open, formatting;
      node := Rehang(e, last, st.d, st.rank, st.Place(), clones);
      formatting := formatting[formattingIndex := node];
      open := open[nodeIndex := node];
      if last == furthestBlock {
        bookmark := formattingIndex + 1;
      }
      assert last == furthestBlock ==> bookmark <= |formatting|;
      lastNode := node;
      CloneTurned(st, nodeIndex, last, mark, open0, form0, tree.nodes, node, bookmark, open, formatting);
    }

    /** Step 18: the clone takes the formatting node's place in the list, at the bookmark. */
    method FinishList(f: int, newNode: int, mark: int)
      requires DistinctEntries(formatting) && f in formatting && f != -1 && 0 < mark <= |formatting|
      modifies this`formatting
      ensures formatting == MovedTo(old(formatting), f, mark, newNode)
    {
      var bookmark := mark;
      var formattingIndex := VectorIndexOf(formatting, f);
      assert formattingIndex != -1;
      if formattingIndex < bookmark { bookmark := bookmark - 1; }
      formatting := RemoveAt(formatting, formattingIndex);
      assert 0 <= bookmark <= |formatting|;
      formatting := InsertAt(formatting, newNode, bookmark);
    }

    /** Step 19: and on the stack, behind the furthest block. */
    method FinishStack(f: int, newNode: int, furthestBlock: int, ghost w: Walk)
      requires w.Valid() && f == w.open[w.fi] && furthestBlock == w.open[w.k] && open == w.Open(w.fi + 1)
      modifies this`open
      ensures open == FinalOpen(w, newNode)
    {
      FormattingRemoved(w);
      CloneInserted(w, newNode);
      hide *;
      var at := VectorIndexOf(open, f);
      open := RemoveAt(open, at);
      var insertAt := VectorIndexOf(open, furthestBlock);
      insertAt := insertAt + 1;
      assert 0 <= insertAt <= |open|;
      open := InsertAt(open, newNode, insertAt);
    }

    /** Steps 11 to 19: one pass of the outer loop that has found a furthest block. */
    method Pass(formattingNode: int, furthestBlock: int, ghost st: Start) returns (newNode: int)
      requires st.Valid() && tree.nodes == st.d && open == st.w.open && formatting == st.w.list
      requires formattingNode == open[st.w.fi] && furthestBlock == open[st.w.k]
      modifies this`open, this`formatting, tree
      ensures tree.nodes == st.Result()
      ensures newNode == NewFormatting(st.w) && open == FinalOpen(st.w, newNode) && formatting == FinalList(st.w)
    {
      hide *;
      PassStarts(st);
      var at := VectorIndexOf(open, formattingNode);
      assert at > 0;
      var commonAncestor := open[at - 1];
      var lastNode, bookmark := InnerWalk(formattingNode, furthestBlock, st);
      WalkDone(st, lastNode, bookmark, open, formatting, tree.nodes);
      newNode := FinishTree(lastNode, commonAncestor, formattingNode, furthestBlock,
                            st.d, st.rank, st.Place(), st.CloneLabels(st.w.fi + 1));
      PassEnds(st, tree.nodes, newNode);
      FinishList(formattingNode, newNode, bookmark);
      FinishStack(formattingNode, newNode, furthestBlock, st.w);
    }

    /** Steps 14 to 17: insert what the walk collected into the common ancestor (with foster
        parenting off that appends it), and put a clone of the formatting node around the
        children of the furthest block. */
    method FinishTree(lastNode: int, commonAncestor: int, f: int, furthestBlock: int,
                      ghost d: Arena, ghost rank: seq<int>, ghost p: Site, ghost clones: seq<Label>)
      returns (newNode: int)
      requires GoodSite(d, rank, p) && tree.nodes == Walking(d, p, clones) && 0 <= f < |d|
      requires lastNode == LastNode(d, p, |clones|) && commonAncestor == p.ca && furthestBlock == p.fb
      modifies tree
      ensures newNode == |d| + |clones| && tree.nodes == Surgery(d, p, clones, d[f].content)
    {
      hide GoodSite, Surgery, Walking, Moved, Adopted, Detached, Appended;
      ghost var w0 := tree.nodes;
      AncestorReady(d, rank, p, clones);
      AncestorStep(d, rank, p, clones);
      tree.RemoveFromParent(lastNode, rank);
      ghost var w1 := tree.nodes;
      tree.AppendNode(commonAncestor, lastNode);
      AncestorDone(d, rank, p, clones, w0, w1, tree.nodes, lastNode);
      newNode := tree.CloneNode(f);
      ghost var w2 := tree.nodes;
      FormattingReady(d, rank, p, clones, f, w2);
      tree.AdoptChildren(furthestBlock, newNode);
      ghost var w3 := tree.nodes;
      FormattingStep(d, rank, p, clones, d[f].content);
      tree.AppendNode(furthestBlock, newNode);
      FormattingDone(d, rank, p, clones, d[f].content, w2, w3, tree.nodes, newNode);
    }

    /** Steps 13.7 and 13.9 on the tree: clone `e` and hang the last node below the clone. */
    method Rehang(e: int, lastNode: int, ghost d: Arena, ghost rank: seq<int>, ghost p: Site, ghost clones: seq<Label>)
      returns (node: int)
      requires GoodSite(d, rank, p) && tree.nodes == Walking(d, p, clones) && 0 <= e < |d|
      requires lastNode == LastNode(d, p, |clones|)
      modifies tree
      ensures node == |d| + |clones| && tree.nodes == Walking(d, p, clones + [d[e].content])
    {
      ghost var c := d[e].content;
      WalkingFacts(d, rank, p, clones);
      CloneReady(d, rank, p, clones, c);
      CloneStep(d, rank, p, clones, c);
      node := tree.CloneNode(e);
      ghost var w0 := tree.nodes;
      assert w0 == Walking(d, p, clones) + [Fresh(c)];
      tree.RemoveFromParent(lastNode, rank + [0]);
      ghost var w1 := tree.nodes;
      tree.AppendNode(node, lastNode);
      Rehung(d, rank, p, clones, c, w0, w1, tree.nodes, lastNode, node);
    }
  }

  /** Before a pass. */
  lemma PassStarts(st: Start)
    requires st.Valid()
    ensures 1 <= st.w.fi < st.w.k < |st.w.open| && st.w.n == |st.d| && st.w.Valid()
    ensures GoodSite(st.d, st.rank, st.Place())
    ensures IndexOf(st.w.open, st.w.open[st.w.fi]) == st.w.fi && 0 <= st.w.open[st.w.k] < |st.d|
    ensures st.Place().ca == st.w.open[st.w.fi - 1] && st.Place().fb == st.w.open[st.w.k]
    ensures 0 <= st.w.open[st.w.fi] < |st.d|
  {
    hide GoodSite, Linked, Ranked, Chain;
    IndexOfDistinct(st.w.open, st.w.fi);
  }

  /** After its inner walk. */
  lemma WalkDone(st: Start, last: int, mark: int, open: seq<int>, formatting: seq<int>, nodes: Arena)
    requires st.Valid() && WalkState(st, st.w.fi + 1, last, mark, open, formatting, nodes)
    ensures GoodSite(st.d, st.rank, st.Place()) && nodes == Walking(st.d, st.Place(), st.CloneLabels(st.w.fi + 1))
    ensures last == LastNode(st.d, st.Place(), |st.CloneLabels(st.w.fi + 1)|)
    ensures open == st.w.Open(st.w.fi + 1) && formatting == st.w.Form(st.w.fi + 1) && mark == st.w.Mark(st.w.fi + 1)
    ensures DistinctEntries(formatting) && st.w.open[st.w.fi] in formatting && st.w.open[st.w.fi] != -1
    ensures 0 < mark <= |formatting|
    ensures FinalList(st.w) == MovedTo(formatting, st.w.open[st.w.fi], mark, NewFormatting(st.w))
  {
    hide GoodSite, Linked, Ranked, Chain, Walking, Walk.Open, Walk.Form, Walk.Mark, DistinctEntries, NoRepeat, MovedTo;
    AtTheEnd(st.w);
  }

  /** After its surgery. */
  lemma PassEnds(st: Start, nodes: Arena, newNode: int)
    requires st.Valid() && GoodSite(st.d, st.rank, st.Place()) && newNode == |st.d| + |st.CloneLabels(st.w.fi + 1)|
    requires nodes == Surgery(st.d, st.Place(), st.CloneLabels(st.w.fi + 1), st.d[st.w.open[st.w.fi]].content)
    ensures nodes == st.Result() && newNode == NewFormatting(st.w)
  {
    hide GoodSite, Linked, Ranked, Chain, Surgery;
  }

  lemma StateIs(st: Start, s: ParserState, newNode: int)
    requires st.Valid() && s.d == st.Result() && newNode == NewFormatting(st.w) && s.open == FinalOpen(st.w, newNode)
    requires s.list == FinalList(st.w)
    ensures s == StateAfter(st)
  {}

  lemma CountAtMost(d: Arena, list: seq<int>, k: Look)
    requires GoodList(d, list) && Noah(d, list)
    ensures Count(d, list, k) <= 3
  {
    assert list[..|list|] == list;
  }

  /** What add_formatting_element does to the list keeps the state orderly. */
  lemma StaysOrderly(s: ParserState, rank: seq<int>, path: seq<int>, from: int, special: set<(int, int)>, x: int,
                     full: bool, e: int)
    requires Orderly(s, rank, path, from, special) && Addable(s, x, special)
    requires full ==> 0 <= e < |s.list| && s.list[e] != -1
    ensures Orderly(s.(list := (if full then RemoveAt(s.list, e) else s.list) + [x]), rank, path, from, special)
  {
    hide Orderly;
    if full {
      Unlisted(s, rank, path, from, special, e);
      AddedOrderly(s.(list := RemoveAt(s.list, e)), rank, path, from, special, x);
    } else {
      AddedOrderly(s, rank, path, from, special, x);
    }
  }

  lemma StaysRooted(s: ParserState, rank: seq<int>, special: set<(int, int)>, x: int, full: bool, e: int)
    requires Rooted(s, rank, special) && Addable(s, x, special) && (full ==> 0 <= e < |s.list| && s.list[e] != -1)
    ensures Rooted(s.(list := (if full then RemoveAt(s.list, e) else s.list) + [x]), rank, special)
  {
    hide Rooted, TagIn;
    if full {
      RootedParts(s, rank, special);
      RemovedEntries(s.list, e);
      UnlistedRooted(s, rank, special, e);
      AddedRooted(s.(list := RemoveAt(s.list, e)), rank, special, x);
    } else {
      AddedRooted(s, rank, special, x);
    }
  }
}
