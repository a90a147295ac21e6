/** Whole runs of the tree constructor (gumbo-parser/src/parser.c): what single events do to the
    document, and what follows for any sequence of them. */
module ParserRun {
  import opened Sequences
  import opened Dom
  import opened AdoptionSurgery
  import opened AdoptionSteps
  import opened AdoptionWalk
  import opened AdoptionOrder
  import opened AdoptionPass
  import opened AdoptionPath
  import opened AdoptionNext
  import opened AdoptionText
  import opened Formatting
  import opened Reconstruction
  import opened RootedState
  import opened RootedText
  import opened RootedOps
  import opened RootedCall

  /** What the insertion modes ask the tree constructor to do: insert text or an element; open or
      end a formatting element; pop the current node; take an element off the stack (the end tag
      of a form), or the last entry with a tag off list and stack (the start tag of an anchor
      inside another); add a marker, and clear the list up to it. */
  datatype Event =
    | Characters(text: string)
    | Opening(c: Label)
    | FormattingTag(c: Label)
    | Ending(tag: int)
    | Closing
    | Removal(node: int)
    | Forgetting(tag: int)
    | Marker
    | ToMarker

  /** Elements have unique attribute names, formatting elements are not special. */
  ghost predicate Sensible(e: Event, special: set<(int, int)>) {
    match e
    case Opening(c) => c.Element?
    case FormattingTag(c) => Good(c) && !TagIn(c, special)
    case Ending(tag) => (HTML_NS, tag) !in special
    case _ => true
  }

  function Texts(events: seq<Event>): seq<string> {
    if events == [] then [] else
      var e := events[|events| - 1];
      Texts(events[..|events| - 1]) + if e.Characters? then [e.text] else []
  }

  // ----- one event -----

  /** The stack is the way to the last child all the way down from node 0. */
  ghost predicate Straight(s: ParserState, rank: seq<int>, special: set<(int, int)>) {
    Orderly(s, rank, s.open, 0, special) && s.open[0] == 0
  }

  /** `text` is the one new text node, if the event brings text. */
  ghost predicate Puts(e: Event, d: Arena, d': Arena, text: int) {
    && Writes(d, d', text)
    && if e.Characters? then |d| <= text < |d'| && d'[text].content == Text(e.text) else text == -1
  }

  /** The text of the document is as before, with `text` at the end. */
  ghost predicate TextGrows(d: Arena, rank: seq<int>, d': Arena, r: seq<int>, text: int) {
    && |d| > 0 && |d'| > 0 && Ranked(d, rank) && Ranked(d', r)
    && Leaves(d', r, 0) == Leaves(d, rank, 0) + if text == -1 then [] else [text]
  }

  /** No element left the middle of the stack, and step 13.5 took nothing. */
  ghost predicate Calm(e: Event, turns: seq<Start>) {
    !e.Removal? && !e.Forgetting? && NeverKept(turns)
  }

  ghost predicate Stepped(e: Event, s: ParserState, rank: seq<int>, t: ParserState, r: seq<int>, text: int,
                          turns: seq<Start>, special: set<(int, int)>)
  {
    && Rooted(t, r, special) && Ark(t.d, t.list) && Puts(e, s.d, t.d, text)
    && (Straight(s, rank, special) && Calm(e, turns) ==>
          Straight(t, r, special) && TextGrows(s.d, rank, t.d, r, text))
  }

  /** What an end tag of a formatting element does. */
  ghost predicate EndingRan(s: ParserState, tag: int, special: set<(int, int)>, scoping: set<(int, int)>,
                            turns: seq<Start>, t: ParserState)
  {
    if JustPop(s, tag) then |s.open| > 0 && turns == [] && t == s.(open := s.open[..|s.open| - 1])
    else exists handled :: Ended(s, tag, special, scoping, turns, handled, t)
  }

  /** Text goes below the current node once the waiting elements are open again, */
  ghost predicate WrittenBy(s: ParserState, content: string, start: nat, mid: ParserState, t: ParserState) {
    Reopened(s, mid, start) && t == Hung(mid, Text(content))
  }

  /** and so does a new formatting element. */
  ghost predicate StartedBy(s: ParserState, c: Label, start: nat, mid: ParserState, earliest: int, t: ParserState) {
    Reopened(s, mid, start) && Begun(mid, c, earliest, t)
  }

  /** What the other events do to tree, stack and list. */
  ghost predicate Did(e: Event, s: ParserState, t: ParserState) {
    match e
    case Characters(content) => exists start: nat, mid :: WrittenBy(s, content, start, mid, t)
    case Opening(c) =>
      && |s.open| > 0 && 0 <= s.open[|s.open| - 1] < |s.d|
      && t == ParserState(Grown(s.d, c, s.open[|s.open| - 1]), s.open + [|s.d|], s.list)
    case FormattingTag(c) => exists start: nat, mid, earliest :: StartedBy(s, c, start, mid, earliest, t)
    case Ending(_) => true
    case Closing => t == s.(open := if |s.open| > 1 then s.open[..|s.open| - 1] else s.open)
    case Removal(node) =>
      && |s.open| > 0
      && t == s.(open := if node != s.open[0] then Unstack(s.open, node) else s.open)
    case Forgetting(tag) =>
      && (forall i :: 0 <= i < |s.list| ==> -1 <= s.list[i] < |s.d|)
      && var c := Candidate(s.d, s.list, tag);
         t == if c == -1 then s else s.(list := RemoveAt(s.list, c), open := Unstack(s.open, s.list[c]))
    case Marker =>
      && t.d == s.d && t.open == s.open
      && exists earliest :: Listed(s.d, s.list, Element(0, 0, []), -1, earliest, t.list)
    case ToMarker =>
      && t.d == s.d && t.open == s.open && t.list <= s.list
      && (forall j :: |t.list| < j < |s.list| ==> s.list[j] != -1)
      && (if -1 in s.list then |t.list| < |s.list| && s.list[|t.list|] == -1 else t.list == [])
  }

  ghost function Unstack(open: seq<int>, node: int): seq<int> {
    if node in open then RemoveAt(open, IndexOf(open, node)) else open
  }

  ghost predicate EventRan(e: Event, s: ParserState, special: set<(int, int)>, scoping: set<(int, int)>,
                           turns: seq<Start>, t: ParserState)
  {
    if e.Ending? then EndingRan(s, e.tag, special, scoping, turns, t) else turns == [] && Did(e, s, t)
  }

  lemma IsStraight(s: ParserState, rank: seq<int>, special: set<(int, int)>, path: seq<int>)
    requires Orderly(s, rank, path, 0, special) && path == s.open && |s.open| > 0 && s.open[0] == 0
    ensures Straight(s, rank, special)
  {
    hide Orderly;
  }

  lemma StraightOrderly(s: ParserState, rank: seq<int>, special: set<(int, int)>)
    requires Straight(s, rank, special)
    ensures Orderly(s, rank, s.open, 0, special) && |s.open| > 0 && s.open[0] == 0 && IsStack(s.open, s.open, 0)
    ensures Linked(s.d) && Ranked(s.d, rank) && |s.d| > 0
  {
    OrderlyEnd(s, rank, s.open, 0, special);
    assert s.open[0..] == s.open;
    hide Orderly, Linked, Ranked;
  }

  /** On a straight stack the algorithm starts on the path. */
  lemma StraightOnTrack(s: ParserState, rank: seq<int>, tag: int, special: set<(int, int)>)
    requires Straight(s, rank, special) && Rooted(s, rank, special)
    ensures OnTrack(s, rank, s.open, 0, tag, special)
  {
    StraightOrderly(s, rank, special);
    RootedParts(s, rank, special);
    hide Rooted, Orderly, Linked, Ranked, OneTree, Agrees, Upheld, Falling, Seated, NoRepeat, DistinctEntries, JustPop,
         TagIn, HtmlTagIs;
    var c := Candidate(s.d, s.list, tag);
    if c != -1 && s.list[c] in s.open { NotFirst(s, rank, special, c); }
  }

  /** The end tag of a formatting element does not pop the first element. */
  lemma PopLeaves(s: ParserState, rank: seq<int>, tag: int, special: set<(int, int)>)
    requires Rooted(s, rank, special) && JustPop(s, tag) && (HTML_NS, tag) !in special
    ensures |s.open| > 1
  {
    RootedParts(s, rank, special);
    hide Rooted, Linked, Ranked, OneTree, NoneSpecial, Agrees, Lists, Falling, Upheld, Seated;
  }

  lemma KeptGrows(d: Arena, rank: seq<int>, e: Arena, r: seq<int>)
    requires Kept(d, rank, e, r) && OneTree(d)
    ensures TextGrows(d, rank, e, r, -1)
  {
    hide Ranked;
  }

  lemma GrowsTwice(d: Arena, r0: seq<int>, e: Arena, r1: seq<int>, f: Arena, r2: seq<int>, text: int)
    requires TextGrows(d, r0, e, r1, -1) && TextGrows(e, r1, f, r2, text)
    ensures TextGrows(d, r0, f, r2, text)
  {
    hide Ranked, Leaves;
  }

  /** An event without text. */
  lemma QuietStep(e: Event, s: ParserState, rank: seq<int>, t: ParserState, r: seq<int>, turns: seq<Start>,
                  special: set<(int, int)>)
    requires Rooted(s, rank, special) && Rooted(t, r, special) && Ark(t.d, t.list) && !e.Characters?
    requires Writes(s.d, t.d, -1)
    requires Straight(s, rank, special) && Calm(e, turns) ==> Straight(t, r, special) && Kept(s.d, rank, t.d, r)
    ensures Stepped(e, s, rank, t, r, -1, turns, special)
  {
    RootedParts(s, rank, special);
    hide Rooted, Ark, Straight, Calm, Kept, Writes, OneTree, Linked, Ranked, Lists, NoneSpecial, Agrees, Standing,
         TextGrows;
    if Straight(s, rank, special) && Calm(e, turns) { KeptGrows(s.d, rank, t.d, r); }
  }

  /** Text, after the elements `mid` has in place of `s`. */
  lemma TextStep(content: string, s: ParserState, rank: seq<int>, mid: ParserState, r1: seq<int>, t: ParserState,
                 r: seq<int>, text: int, special: set<(int, int)>)
    requires Rooted(s, rank, special) && Rooted(t, r, special) && Ark(t.d, t.list)
    requires Writes(s.d, mid.d, -1) && Writes(mid.d, t.d, text) && text == |mid.d| < |t.d|
    requires t.d[text].content == Text(content) && Ranked(mid.d, r1) && Ranked(t.d, r) && |mid.d| > 0
    requires Straight(s, rank, special) ==>
               && Kept(s.d, rank, mid.d, r1) && Straight(t, r, special)
               && Leaves(t.d, r, 0) == Leaves(mid.d, r1, 0) + [text]
    ensures Stepped(Characters(content), s, rank, t, r, text, [], special)
  {
    RootedParts(s, rank, special);
    hide Rooted, Ark, Straight, Kept, Writes, OneTree, Linked, Ranked, Lists, NoneSpecial, Agrees, Standing, Leaves;
    WritesMore(s.d, mid.d, t.d, text);
    WritesSize(s.d, mid.d);
    if Straight(s, rank, special) {
      KeptGrows(s.d, rank, mid.d, r1);
      GrowsTwice(s.d, rank, mid.d, r1, t.d, r, text);
    }
  }

  lemma WritesSize(d: Arena, e: Arena)
    requires Writes(d, e, -1)
    ensures |d| <= |e|
  {}

  lemma SameKept(s: ParserState, rank: seq<int>, special: set<(int, int)>)
    requires Rooted(s, rank, special)
    ensures Kept(s.d, rank, s.d, rank)
  {
    RootedParts(s, rank, special);
    hide Rooted, Linked, Ranked, OneTree, Lists, NoneSpecial, Agrees, Standing, Kept;
    KeptSelf(s.d, rank);
  }

  /** A new node takes no part in the list. */
  lemma GrownArk(d: Arena, list: seq<int>, c: Label, p: int)
    requires 0 <= p < |d| && Ark(d, list)
    ensures Ark(Grown(d, c, p), list) && |Grown(d, c, p)| == |d| + 1 && Grown(d, c, p)[|d|].content == c
  {
    hide Grown, GoodList, Noah;
    GrownList(d, list, c, p);
  }

  /** A call that took nothing leaves the stack straight. */
  lemma EndsStraight(s: ParserState, t: ParserState, rank: seq<int>, r: seq<int>, path: seq<int>, tag: int,
                     special: set<(int, int)>)
    requires Rooted(s, rank, special) && Straight(s, rank, special) && Rooted(t, r, special)
    requires Orderly(t, r, path, 0, special) && IsStack(path, t.open, 0) && SameFirst(s.open, t.open)
    ensures Straight(t, r, special)
  {
    assert t.open[0..] == t.open;
    hide Rooted, Orderly;
    IsStraight(t, r, special, path);
  }

  lemma CharactersDid(content: string, s: ParserState, mid: ParserState, start: nat)
    requires Reopened(s, mid, start)
    ensures |mid.open| > 0 && 0 <= mid.open[|mid.open| - 1] < |mid.d|
    ensures Did(Characters(content), s, Hung(mid, Text(content)))
  {
    assert WrittenBy(s, content, start, mid, Hung(mid, Text(content)));
  }

  lemma SameWrites(d: Arena)
    ensures Writes(d, d, -1)
  {}

  lemma StirredWrites(d: Arena, rank: seq<int>, e: Arena, r: seq<int>, t: seq<int>)
    requires Stirred(d, rank, e, r, t)
    ensures Writes(d, e, -1)
  {}

  /** A straight stack stays straight when it is cut. */
  lemma StraightCut(s: ParserState, rank: seq<int>, special: set<(int, int)>)
    requires Rooted(s, rank, special) && |s.open| > 1
    ensures Rooted(s.(open := s.open[..|s.open| - 1]), rank, special)
    ensures Straight(s, rank, special) ==>
              Straight(s.(open := s.open[..|s.open| - 1]), rank, special) && Kept(s.d, rank, s.d, rank)
  {
    hide Rooted, Orderly, Chain, Lists, Linked, Ranked, Kept;
    var n := |s.open| - 1;
    CutStack(s, rank, special, n);
    if Straight(s, rank, special) {
      StraightOrderly(s, rank, special);
      OrderlyEnd(s, rank, s.open, 0, special);
      assert s.open[n - 1] in s.open;
      Popped(s, rank, s.open, 0, special, n);
      CutPath(s.open, s.open, 0, n);
      KeptSelf(s.d, rank);
      IsStraight(s.(open := s.open[..n]), rank, special, s.open[..n][0..]);
    }
  }

  /** The entry step 5 would find may leave list and stack. */
  lemma Forgotten(s: ParserState, rank: seq<int>, tag: int, special: set<(int, int)>)
    requires Rooted(s, rank, special) && Ark(s.d, s.list)
    ensures |s.open| > 0 && forall i :: 0 <= i < |s.list| ==> -1 <= s.list[i] < |s.d|
    ensures var c := Candidate(s.d, s.list, tag);
            c != -1 ==> s.list[c] != s.open[0] && Rooted(s.(list := RemoveAt(s.list, c)), rank, special)
                        && Ark(s.d, RemoveAt(s.list, c))
  {
    hide Rooted, Linked, Ranked, OneTree, NoneSpecial, Agrees, Standing, HtmlTagIs, Noah, Good, NoRepeat,
         DistinctEntries, Candidate;
    RootedParts(s, rank, special);
    var c := Candidate(s.d, s.list, tag);
    if c != -1 {
      NotFirst(s, rank, special, c);
      UnlistedRooted(s, rank, special, c);
      NoahRemoved(s.d, s.list, c);
    }
  }

  // ----- a run -----

  /** The states a run went through, with rankings of their trees, and the turns of its calls of
      the algorithm. */
  datatype Log = Log(states: seq<ParserState>, ranks: seq<seq<int>>, turns: seq<seq<Start>>)

  ghost predicate AllRooted(log: Log, special: set<(int, int)>) {
    |log.ranks| == |log.states| && forall i :: 0 <= i < |log.states| ==> Rooted(log.states[i], log.ranks[i], special)
  }

  ghost predicate Followed(events: seq<Event>, log: Log, special: set<(int, int)>, scoping: set<(int, int)>) {
    && |log.states| == |events| + 1 && |log.turns| == |events|
    && forall i :: 0 <= i < |events| ==>
         EventRan(events[i], log.states[i], special, scoping, log.turns[i], log.states[i + 1])
  }

  ghost predicate AllCalm(events: seq<Event>, log: Log) {
    |log.turns| == |events| && forall i :: 0 <= i < |events| ==> Calm(events[i], log.turns[i])
  }

  ghost predicate Increasing(v: seq<int>) {
    forall i, j :: 0 <= i < j < |v| ==> v[i] < v[j]
  }

  /** The text nodes of the tree are `written`, one for each text in turn. */
  ghost predicate Wrote(events: seq<Event>, d: Arena, written: seq<int>) {
    && Increasing(written) && |written| == |Texts(events)|
    && (forall j :: 0 <= j < |written| ==> 0 <= written[j] < |d| && d[written[j]].content == Text(Texts(events)[j]))
    && (forall y :: 0 <= y < |d| && d[y].content.Text? ==> y in written)
  }

  lemma WroteMore(events: seq<Event>, e: Event, d: Arena, d': Arena, written: seq<int>, text: int)
    requires Wrote(events, d, written) && Puts(e, d, d', text)
    ensures Wrote(events + [e], d', written + if text == -1 then [] else [text])
  {
    assert (events + [e])[..|events|] == events;
    var w := written + if text == -1 then [] else [text];
    forall y | 0 <= y < |d'| && d'[y].content.Text? ensures y in w {
      if y < |d| {
        assert y in written;
        var j :| 0 <= j < |written| && written[j] == y;
        assert w[j] == y;
      } else {
        assert w[|written|] == y;
      }
    }
  }

  /** What is so after the events so far. */
  ghost predicate Running(events: seq<Event>, s: ParserState, rank: seq<int>, written: seq<int>, log: Log,
                          special: set<(int, int)>, scoping: set<(int, int)>)
  {
    && Rooted(s, rank, special) && Ark(s.d, s.list) && Wrote(events, s.d, written)
    && Followed(events, log, special, scoping) && AllRooted(log, special) && log.states[|events|] == s
    && (AllCalm(events, log) ==> Straight(s, rank, special) && |s.d| > 0 && Leaves(s.d, rank, 0) == written)
  }

  lemma FollowedMore(events: seq<Event>, e: Event, log: Log, t: ParserState, r: seq<int>, turns: seq<Start>,
                     special: set<(int, int)>, scoping: set<(int, int)>)
    requires Followed(events, log, special, scoping) && AllRooted(log, special) && Rooted(t, r, special)
    requires EventRan(e, log.states[|events|], special, scoping, turns, t)
    ensures var l := Log(log.states + [t], log.ranks + [r], log.turns + [turns]);
            && Followed(events + [e], l, special, scoping) && AllRooted(l, special) && l.states[|events| + 1] == t
            && (AllCalm(events + [e], l) ==> AllCalm(events, log) && Calm(e, turns))
  {
    hide EventRan, Calm, Rooted;
    var all, l := events + [e], Log(log.states + [t], log.ranks + [r], log.turns + [turns]);
    assert all[|events|] == e && l.turns[|events|] == turns && l.states[|events|] == log.states[|events|];
    forall i | 0 <= i < |all| ensures EventRan(all[i], l.states[i], special, scoping, l.turns[i], l.states[i + 1]) {
      if i < |events| { assert EventRan(events[i], log.states[i], special, scoping, log.turns[i], log.states[i + 1]); }
    }
    if AllCalm(all, l) {
      forall i | 0 <= i < |events| ensures Calm(events[i], log.turns[i]) { assert Calm(all[i], l.turns[i]); }
      assert Calm(all[|events|], l.turns[|events|]);
    }
  }

  /** One more event. */
  lemma RunsOn(events: seq<Event>, e: Event, s: ParserState, rank: seq<int>, written: seq<int>, log: Log,
               t: ParserState, r: seq<int>, text: int, turns: seq<Start>, special: set<(int, int)>,
               scoping: set<(int, int)>)
    requires Running(events, s, rank, written, log, special, scoping)
    requires Stepped(e, s, rank, t, r, text, turns, special)
    requires EventRan(e, s, special, scoping, turns, t)
    ensures Running(events + [e], t, r, written + (if text == -1 then [] else [text]),
                    Log(log.states + [t], log.ranks + [r], log.turns + [turns]), special, scoping)
  {
    hide Rooted, Ark, Wrote, Followed, AllCalm, AllRooted, Straight, EventRan, Calm, Puts, Leaves;
    FollowedStates(events, log, special, scoping);
    FollowedMore(events, e, log, t, r, turns, special, scoping);
    WroteMore(events, e, s.d, t.d, written, text);
  }

  lemma FollowedStates(events: seq<Event>, log: Log, special: set<(int, int)>, scoping: set<(int, int)>)
    requires Followed(events, log, special, scoping)
    ensures |log.states| == |events| + 1 && |log.turns| == |events|
  {
    hide EventRan;
  }

  lemma StillRunning(events: seq<Event>, s: ParserState, rank: seq<int>, written: seq<int>, log: Log,
                     special: set<(int, int)>, scoping: set<(int, int)>)
    requires Running(events, s, rank, written, log, special, scoping)
    ensures Rooted(s, rank, special) && Ark(s.d, s.list) && Wrote(events, s.d, written)
    ensures Followed(events, log, special, scoping) && |log.states| == |events| + 1 && log.states[|events|] == s
    ensures AllRooted(log, special)
  {
    hide Rooted, Ark, Wrote, EventRan, AllCalm, Straight, Leaves;
  }

  /** Every text is in the document, once, and in the order of the source if all was calm. */
  lemma AllWritten(events: seq<Event>, s: ParserState, rank: seq<int>, written: seq<int>, log: Log,
                   special: set<(int, int)>, scoping: set<(int, int)>)
    requires Running(events, s, rank, written, log, special, scoping)
    ensures Rooted(s, rank, special) && |s.d| > 0 && Ranked(s.d, rank)
    ensures NoRepeat(Leaves(s.d, rank, 0)) && forall y :: y in Leaves(s.d, rank, 0) <==> y in written
    ensures AllCalm(events, log) ==> Leaves(s.d, rank, 0) == written
  {
    hide Rooted, Ark, Followed, AllCalm, AllRooted, Straight, Leaves;
    RootedParts(s, rank, special);
    hide Linked, Ranked, Lists, NoneSpecial, Agrees, Standing;
    AllText(s.d, rank);
    LeavesOnce(s.d, rank, 0);
  }

  /** The document with nothing but its root element. */
  lemma Begins(html: Label, special: set<(int, int)>, scoping: set<(int, int)>)
    requires TagIn(html, special)
    ensures var s := ParserState([Fresh(html)], [0], []);
            Running([], s, [0], [], Log([s], [[0]], []), special, scoping)
  {
    hide *;
    var s := ParserState([Fresh(html)], [0], []);
    OnlyTree(html, special);
    OnlyLists(html, special);
    OnlyStanding(html, special);
    OnlyThreaded(html, special);
    IsRooted(s, [0], special);
    IsOrderlyState(s, [0], [0], 0, special);
    IsStraight(s, [0], special, [0]);
    OnlyRunning(html, special, scoping);
  }

  lemma OnlyTree(html: Label, special: set<(int, int)>)
    requires TagIn(html, special)
    ensures var d := [Fresh(html)]; Linked(d) && Ranked(d, [0]) && OneTree(d) && Leaves(d, [0], 0) == []
  {
    var d := [Fresh(html)];
    assert LeavesUpTo(d, [0], 0, 0) == [];
  }

  lemma OnlyLists(html: Label, special: set<(int, int)>)
    ensures var d := [Fresh(html)]; Lists(|d|, [0], []) && NoneSpecial(d, [], special) && Agrees([0], [], 0)
    ensures Ark([Fresh(html)], [])
  {}

  lemma OnlyStanding(html: Label, special: set<(int, int)>)
    requires TagIn(html, special)
    ensures Standing(ParserState([Fresh(html)], [0], []), [0], special)
  {
    hide TagIn;
  }

  lemma OnlyThreaded(html: Label, special: set<(int, int)>)
    requires TagIn(html, special)
    ensures Threaded(ParserState([Fresh(html)], [0], []), [0], 0, special)
  {
    assert [0][0..] == [0];
  }

  lemma IsOrderlyState(s: ParserState, rank: seq<int>, path: seq<int>, from: int, special: set<(int, int)>)
    requires Linked(s.d) && Ranked(s.d, rank) && Lists(|s.d|, s.open, s.list)
    requires Threaded(s, path, from, special) && Agrees(s.open, s.list, from) && NoneSpecial(s.d, s.list, special)
    ensures Orderly(s, rank, path, from, special)
  {
    hide Linked, Ranked, Lists, Threaded, Agrees, NoneSpecial;
  }

  lemma OnlyRunning(html: Label, special: set<(int, int)>, scoping: set<(int, int)>)
    requires TagIn(html, special)
    requires var s := ParserState([Fresh(html)], [0], []);
             && Rooted(s, [0], special) && Ark(s.d, s.list) && Straight(s, [0], special)
             && Ranked(s.d, [0]) && Leaves(s.d, [0], 0) == []
    ensures var s := ParserState([Fresh(html)], [0], []); Running([], s, [0], [], Log([s], [[0]], []), special, scoping)
  {
    hide Rooted, Ark, Straight, EventRan, Ranked, Leaves;
  }
}
