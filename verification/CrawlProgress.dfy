/** What a run of the crawl achieves: nothing that was queued, found or claimed gets lost. */
module CrawlProgress {
  import opened Crawl

  // ----- the queue -----

  /** The task a worker takes in a step. */
  function TakenIn(s: State, w: nat, t: State): seq<string> {
    if w < |s.workers| && s.workers[w] == Waiting && w < |t.workers| && t.workers[w].Popped? then [t.workers[w].task]
    else []
  }

  /** The link whose turn it is in a step, as a task, if the counter is below the limit. */
  function OfferedIn(s: State, w: nat): seq<string> {
    if w < |s.workers| && s.workers[w].Pushing? && s.workers[w].links != [] && s.counter < 1000
    then [s.workers[w].links[0] + "|1"] else []
  }

  /** The tasks taken in a run, the last one first. */
  function Taken(s: State, run: Schedule): seq<string>
    decreases |run|
  {
    if run == [] then [] else
      var t := Next(s, run[0].0, run[0].1);
      Taken(t, run[1..]) + TakenIn(s, run[0].0, t)
  }

  /** The links offered in a run, the last one first. */
  function Offered(s: State, run: Schedule): seq<string>
    decreases |run|
  {
    if run == [] then [] else Offered(Next(s, run[0].0, run[0].1), run[1..]) + OfferedIn(s, run[0].0)
  }

  /** First in, first out: what was queued and what was offered since is what is queued and what
      was taken, in the same order. */
  lemma {:induction false} Fifo(s: State, run: Schedule)
    ensures After(s, run).queue + Taken(s, run) == Offered(s, run) + s.queue
    decreases |run|
  {
    if run == [] {
      assert s.queue + [] == [] + s.queue;
    } else {
      hide Next, TakenIn, OfferedIn;
      var t := Next(s, run[0].0, run[0].1);
      Fifo(t, run[1..]);
      QueueStep(s, run[0].0, run[0].1);
      Exchange(After(t, run[1..]).queue, Taken(t, run[1..]), Offered(t, run[1..]), t.queue, TakenIn(s, run[0].0, t),
               OfferedIn(s, run[0].0), s.queue);
    }
  }

  lemma Exchange(q: seq<string>, taken: seq<string>, offered: seq<string>, r: seq<string>, a: seq<string>,
                 b: seq<string>, u: seq<string>)
    requires q + taken == offered + r && r + a == b + u
    ensures q + (taken + a) == offered + b + u
  {
    assert q + (taken + a) == q + taken + a == offered + r + a == offered + (r + a) == offered + (b + u);
  }

  lemma QueueStep(s: State, w: nat, page: Page)
    ensures var t := Next(s, w, page); t.queue + TakenIn(s, w, t) == OfferedIn(s, w) + s.queue
  {
    hide UrlOf;
    var t := Next(s, w, page);
    if Enabled(s, w) && s.workers[w] == Waiting {
      assert t.queue + [s.queue[|t.queue|]] == [] + s.queue;
    } else {
      assert t.queue + [] == t.queue && [] + s.queue == s.queue;
    }
  }

  // ----- one worker -----

  /** Whatever else happens, a worker stays as it is until its own step. */
  lemma OthersWait(s: State, v: nat, page: Page, w: nat)
    requires w < |s.workers| && v != w
    ensures |Next(s, v, page).workers| == |s.workers| && Next(s, v, page).workers[w] == s.workers[w]
  {}

  /** The state in which step `j` of a run is taken. */
  function At(s: State, run: Schedule, j: nat): State
    requires j <= |run|
  {
    After(s, run[..j])
  }

  lemma AtLater(s: State, run: Schedule, j: nat)
    requires 0 < j <= |run|
    ensures At(s, run, j) == At(Next(s, run[0].0, run[0].1), run[1..], j - 1)
  {
    assert run[..j][0] == run[0] && run[..j][1..] == run[1..][..j - 1];
  }

  lemma AtEnds(s: State, run: Schedule)
    ensures At(s, run, 0) == s && At(s, run, |run|) == After(s, run)
  {
    assert run[..0] == [] && run[..|run|] == run;
  }

  /** In step `j` worker `w` has its turn with this link, and the push is made if the counter is
      below the limit. */
  ghost predicate TurnOf(s: State, run: Schedule, w: nat, link: string, j: nat) {
    && j < |run| && run[j].0 == w
    && var u, t := At(s, run, j), At(s, run, j + 1);
       && w < |u.workers| == |t.workers| && u.workers[w].Pushing? && u.workers[w].links != []
       && u.workers[w].links[0] == link
       && t.queue == (if u.counter < 1000 then [link + "|1"] else []) + u.queue
  }

  lemma TurnLater(s: State, run: Schedule, w: nat, link: string, j: nat)
    requires run != [] && TurnOf(Next(s, run[0].0, run[0].1), run[1..], w, link, j)
    ensures TurnOf(s, run, w, link, j + 1)
  {
    AtLater(s, run, j + 1);
    AtLater(s, run, j + 2);
    hide Next, At;
  }

  /** Link `p` of a page has had its turn, or its worker is on the way there. */
  ghost predicate Due(s: State, run: Schedule, w: nat, links: seq<string>, p: nat)
    requires p < |links|
  {
    || (exists j :: TurnOf(s, run, w, links[p], j))
    || OnTheWay(After(s, run), w, links, p)
  }

  ghost predicate OnTheWay(t: State, w: nat, links: seq<string>, p: nat)
    requires p < |links|
  {
    w < |t.workers| && exists q :: 0 <= q <= p && t.workers[w] == Pushing(links[q..])
  }

  lemma DueLater(s: State, run: Schedule, w: nat, links: seq<string>, p: nat)
    requires run != [] && p < |links| && Due(Next(s, run[0].0, run[0].1), run[1..], w, links, p)
    ensures Due(s, run, w, links, p)
  {
    hide TurnOf, OnTheWay, Next;
    var t := Next(s, run[0].0, run[0].1);
    if j :| TurnOf(t, run[1..], w, links[p], j) { TurnLater(s, run, w, links[p], j); }
  }

  lemma DueBehind(s: State, run: Schedule, w: nat, links: seq<string>, p: nat)
    requires 0 < p < |links| && Due(s, run, w, links[1..], p - 1)
    ensures Due(s, run, w, links, p)
  {
    hide TurnOf, After, OnTheWay;
    assert links[1..][p - 1] == links[p];
    if OnTheWay(After(s, run), w, links[1..], p - 1) { StillOnTheWay(After(s, run), w, links, p); }
  }

  lemma StillOnTheWay(t: State, w: nat, links: seq<string>, p: nat)
    requires 0 < p < |links| && OnTheWay(t, w, links[1..], p - 1)
    ensures OnTheWay(t, w, links, p)
  {
    var q :| 0 <= q <= p - 1 && t.workers[w] == Pushing(links[1..][q..]);
    assert links[1..][q..] == links[q + 1..];
  }

  lemma PushStep(s: State, w: nat, page: Page)
    requires w < |s.workers| && s.workers[w].Pushing? && s.workers[w].links != []
    ensures var t, links := Next(s, w, page), s.workers[w].links;
            && |t.workers| == |s.workers| && t.workers[w] == Pushing(links[1..])
            && t.queue == (if s.counter < 1000 then [links[0] + "|1"] else []) + s.queue
  {
    assert [] + s.queue == s.queue;
  }

  /** A link a worker has begun to push gets its turn. */
  lemma {:induction false} PushedInTurn(s: State, run: Schedule, w: nat, p: nat)
    requires w < |s.workers| && s.workers[w].Pushing? && p < |s.workers[w].links|
    ensures Due(s, run, w, s.workers[w].links, p)
    decreases |run|
  {
    hide Next, TurnOf, Due;
    var links := s.workers[w].links;
    if run == [] {
      NotYet(s, run, w, links, p);
    } else {
      var v, page := run[0].0, run[0].1;
      var t := Next(s, v, page);
      if v != w {
        OthersWait(s, v, page, w);
        PushedInTurn(t, run[1..], w, p);
        DueLater(s, run, w, links, p);
      } else if p == 0 {
        FirstTurn(s, run, w);
      } else {
        PushStep(s, w, page);
        PushedInTurn(t, run[1..], w, p - 1);
        DueBehind(t, run[1..], w, links, p);
        DueLater(s, run, w, links, p);
      }
    }
  }

  lemma NotYet(s: State, run: Schedule, w: nat, links: seq<string>, p: nat)
    requires run == [] && w < |s.workers| && s.workers[w] == Pushing(links) && p < |links|
    ensures Due(s, run, w, links, p)
  {
    assert links[0..] == links;
  }

  lemma FirstTurn(s: State, run: Schedule, w: nat)
    requires run != [] && run[0].0 == w < |s.workers| && s.workers[w].Pushing? && s.workers[w].links != []
    ensures Due(s, run, w, s.workers[w].links, 0)
  {
    PushStep(s, w, run[0].1);
    AtEnds(s, run);
    AtLater(s, run, 1);
    AtEnds(Next(s, w, run[0].1), run[1..]);
    hide Next, At, After;
    assert TurnOf(s, run, w, s.workers[w].links[0], 0);
  }

  /** In step `j` worker `w` increments the counter to the limit and exits. */
  ghost predicate MeetsLimit(s: State, run: Schedule, w: nat, j: nat) {
    && j < |run| && run[j].0 == w
    && var u, t := At(s, run, j), At(s, run, j + 1);
       && w < |u.workers| == |t.workers| && u.workers[w].Stored? && t.workers[w].Exited?
       && t.counter == u.counter + 1 >= 1000
  }

  lemma LimitLater(s: State, run: Schedule, w: nat, j: nat)
    requires run != [] && MeetsLimit(Next(s, run[0].0, run[0].1), run[1..], w, j)
    ensures MeetsLimit(s, run, w, j + 1)
  {
    AtLater(s, run, j + 1);
    AtLater(s, run, j + 2);
    hide Next, At;
  }

  /** What becomes of link `p` of a page that worker `w` has stored: the worker has not gone on, or
      it met the limit, or the link has its turn. */
  ghost predicate Spread(s: State, run: Schedule, w: nat, url: string, links: seq<string>, p: nat)
    requires p < |links|
  {
    || (w < |After(s, run).workers| && After(s, run).workers[w] == Stored(url, links))
    || (exists j :: MeetsLimit(s, run, w, j))
    || Due(s, run, w, links, p)
  }

  lemma SpreadLater(s: State, run: Schedule, w: nat, url: string, links: seq<string>, p: nat)
    requires run != [] && p < |links| && Spread(Next(s, run[0].0, run[0].1), run[1..], w, url, links, p)
    ensures Spread(s, run, w, url, links, p)
  {
    hide MeetsLimit, Due, Next;
    var t := Next(s, run[0].0, run[0].1);
    if j :| MeetsLimit(t, run[1..], w, j) {
      LimitLater(s, run, w, j);
    } else if Due(t, run[1..], w, links, p) {
      DueLater(s, run, w, links, p);
    }
  }

  lemma CountStep(s: State, run: Schedule, w: nat)
    requires run != [] && run[0].0 == w < |s.workers| && s.workers[w].Stored?
    ensures var t := Next(s, w, run[0].1);
            |t.workers| == |s.workers| && (t.workers[w] == Pushing(s.workers[w].links) || MeetsLimit(s, run, w, 0))
  {
    AtEnds(s, run);
    AtLater(s, run, 1);
    AtEnds(Next(s, w, run[0].1), run[1..]);
    hide At, After;
  }

  lemma {:induction false} StoredSpreads(s: State, run: Schedule, w: nat, p: nat)
    requires w < |s.workers| && s.workers[w].Stored? && p < |s.workers[w].links|
    ensures Spread(s, run, w, s.workers[w].url, s.workers[w].links, p)
    decreases |run|
  {
    hide Next, MeetsLimit, Due;
    var url, links := s.workers[w].url, s.workers[w].links;
    if run != [] {
      var v, page := run[0].0, run[0].1;
      var t := Next(s, v, page);
      if v != w {
        OthersWait(s, v, page, w);
        StoredSpreads(t, run[1..], w, p);
        SpreadLater(s, run, w, url, links, p);
      } else {
        CountStep(s, run, w);
        if t.workers[w] == Pushing(links) {
          PushedInTurn(t, run[1..], w, p);
          DueLater(s, run, w, links, p);
        }
      }
    }
  }

  /** From any state on: a page that was fetched is stored, and each of its links is offered to
      the queue in a turn of its own unless the worker met the limit, as far as the worker got. */
  lemma {:induction false} LinksSpread(s: State, run: Schedule, w: nat, p: nat)
    requires w < |s.workers| && s.workers[w].Fetched? && s.workers[w].page.ok && p < |s.workers[w].page.links|
    ensures var url, page, t := s.workers[w].url, s.workers[w].page, After(s, run);
            || (w < |t.workers| && t.workers[w] == Fetched(url, page))
            || (url in t.rows && Spread(s, run, w, url, page.links, p))
    decreases |run|
  {
    hide Next, Spread;
    var url, links := s.workers[w].url, s.workers[w].page.links;
    if run != [] {
      var v, page := run[0].0, run[0].1;
      var t := Next(s, v, page);
      if v != w {
        OthersWait(s, v, page, w);
        LinksSpread(t, run[1..], w, p);
      } else {
        RowStep(s, w, page);
        StoredSpreads(t, run[1..], w, p);
        RowsStay(t, run[1..], url);
      }
      if Spread(t, run[1..], w, url, links, p) { SpreadLater(s, run, w, url, links, p); }
    }
  }

  lemma RowStep(s: State, w: nat, page: Page)
    requires w < |s.workers| && s.workers[w].Fetched? && s.workers[w].page.ok
    ensures var t, url := Next(s, w, page), s.workers[w].url;
            |t.workers| == |s.workers| && t.workers[w] == Stored(url, s.workers[w].page.links) && url in t.rows
  {}

  lemma {:induction false} RowsStay(s: State, run: Schedule, url: string)
    requires url in s.rows
    ensures url in After(s, run).rows
    decreases |run|
  {
    if run != [] {
      assert url in Next(s, run[0].0, run[0].1).rows;
      RowsStay(Next(s, run[0].0, run[0].1), run[1..], url);
    }
  }

  // ----- all workers -----

  /** Somebody is about to look at, or has looked at, the URL of this task. */
  ghost predicate Seen(s: State, task: string) {
    task in s.queue || UrlOf(task) in s.visited || exists w :: 0 <= w < |s.workers| && s.workers[w] == Popped(task)
  }

  /** A worker has the link of a page it fetched still to push. */
  ghost predicate Ahead(s: State, link: string) {
    exists w :: 0 <= w < |s.workers| && HasAhead(s.workers[w], link)
  }

  predicate HasAhead(p: Phase, link: string) {
    match p
    case Fetched(_, page) => page.ok && link in page.links
    case Stored(_, links) => link in links
    case Pushing(links) => link in links
    case _ => false
  }

  ghost predicate Fetches(s: State, url: string) {
    exists w :: 0 <= w < |s.workers| && s.workers[w] == Fetching(url)
  }

  ghost predicate Stores(s: State, url: string, page: Page) {
    exists w :: 0 <= w < |s.workers| && s.workers[w] == Fetched(url, page)
  }

  /** The pages fetched in a run. */
  function Pages(s: State, run: Schedule): set<(string, Page)>
    decreases |run|
  {
    if run == [] then {} else
      (if run[0].0 < |s.workers| && s.workers[run[0].0].Fetching? then {(s.workers[run[0].0].url, run[0].1)} else {})
      + Pages(Next(s, run[0].0, run[0].1), run[1..])
  }

  /** A page that was fetched: it is stored, and its links are seen, unless that is still to come or
      the limit was met. */
  ghost predicate PageDone(s: State, url: string, page: Page) {
    && url in s.fetched
    && (page.ok ==> url in s.rows || Stores(s, url, page))
    && (page.ok ==> forall link :: link in page.links ==> s.counter >= 1000 || Ahead(s, link) || Seen(s, link + "|1"))
  }

  /** Every URL visited since `s0` is fetched or a worker is about to fetch it; a worker has exited
      only if the counter has reached the limit. */
  ghost predicate Claims(s0: State, s: State) {
    && (forall url :: url in s.visited ==> url in s0.visited || url in s.fetched || Fetches(s, url))
    && (forall w :: 0 <= w < |s.workers| && s.workers[w].Exited? ==> s.counter >= 1000)
  }

  lemma SeenStep(s: State, w: nat, page: Page, task: string)
    requires Seen(s, task)
    ensures Seen(Next(s, w, page), task)
  {
    var t := Next(s, w, page);
    if Enabled(s, w) {
      if s.workers[w] == Waiting {
        assert s.queue == t.queue + [s.queue[|t.queue|]];
        if task in s.queue && task !in t.queue { assert t.workers[w] == Popped(task); }
      }
      hide UrlOf;
      if v :| 0 <= v < |s.workers| && s.workers[v] == Popped(task) {
        if v != w { assert t.workers[v] == Popped(task); }
      }
    }
  }

  lemma AheadStep(s: State, w: nat, page: Page, link: string)
    requires Ahead(s, link)
    ensures var t := Next(s, w, page); t.counter >= 1000 || Ahead(t, link) || Seen(t, link + "|1")
  {
    hide UrlOf;
    var t := Next(s, w, page);
    var v :| 0 <= v < |s.workers| && HasAhead(s.workers[v], link);
    if v != w || !Enabled(s, w) {
      assert HasAhead(t.workers[v], link);
    } else if t.counter < 1000 {
      if s.workers[w].Pushing? && s.workers[w].links[0] == link {
        assert t.queue[0] == link + "|1";
      } else {
        assert HasAhead(t.workers[v], link);
      }
    }
  }

  lemma StoresStep(s: State, w: nat, page: Page, url: string, p: Page)
    requires Stores(s, url, p) && p.ok
    ensures url in Next(s, w, page).rows || Stores(Next(s, w, page), url, p)
  {
    hide UrlOf;
    var v :| 0 <= v < |s.workers| && s.workers[v] == Fetched(url, p);
    if v != w { assert Next(s, w, page).workers[v] == Fetched(url, p); }
  }

  lemma FetchesStep(s: State, w: nat, page: Page, url: string)
    requires Fetches(s, url)
    ensures url in Next(s, w, page).fetched || Fetches(Next(s, w, page), url)
  {
    hide UrlOf;
    var v :| 0 <= v < |s.workers| && s.workers[v] == Fetching(url);
    if v != w { assert Next(s, w, page).workers[v] == Fetching(url); }
  }

  lemma PageDoneStep(s: State, w: nat, page: Page, url: string, p: Page)
    requires PageDone(s, url, p)
    ensures PageDone(Next(s, w, page), url, p)
  {
    var t := Next(s, w, page);
    GrowsStep(s, w, page);
    if p.ok && Stores(s, url, p) { StoresStep(s, w, page, url, p); }
    hide Next, Seen, Ahead, Stores;
    if p.ok {
      forall link | link in p.links ensures t.counter >= 1000 || Ahead(t, link) || Seen(t, link + "|1") {
        if Ahead(s, link) {
          AheadStep(s, w, page, link);
        } else if Seen(s, link + "|1") {
          SeenStep(s, w, page, link + "|1");
        }
      }
    }
  }

  lemma GrowsStep(s: State, w: nat, page: Page)
    ensures var t := Next(s, w, page);
            && s.counter <= t.counter && s.visited <= t.visited && (forall u :: u in s.rows ==> u in t.rows)
            && (forall u :: u in s.fetched ==> u in t.fetched)
  {}

  /** A page just fetched. */
  lemma PageFetched(s: State, w: nat, page: Page)
    requires w < |s.workers| && s.workers[w].Fetching?
    ensures PageDone(Next(s, w, page), s.workers[w].url, page)
  {
    var t := Next(s, w, page);
    assert t.workers[w] == Fetched(s.workers[w].url, page);
    forall link | page.ok && link in page.links ensures Ahead(t, link) { assert HasAhead(t.workers[w], link); }
  }

  lemma ClaimsStep(s0: State, s: State, w: nat, page: Page)
    requires Claims(s0, s)
    ensures Claims(s0, Next(s, w, page))
  {
    hide UrlOf, Fetches;
    var t := Next(s, w, page);
    GrowsStep(s, w, page);
    forall url | url in t.visited ensures url in s0.visited || url in t.fetched || Fetches(t, url) {
      if url in s.visited {
        if Fetches(s, url) { FetchesStep(s, w, page, url); }
      } else {
        NewlyVisited(s, w, page, url);
      }
    }
  }

  lemma NewlyVisited(s: State, w: nat, page: Page, url: string)
    requires url in Next(s, w, page).visited && url !in s.visited
    ensures Fetches(Next(s, w, page), url)
  {
    hide UrlOf;
    assert Next(s, w, page).workers[w] == Fetching(url);
  }

  /** From any state on, at the end of any run: */
  lemma {:induction false} RunKeeps(s0: State, s: State, run: Schedule)
    requires Claims(s0, s)
    ensures Claims(s0, After(s, run))
    ensures forall task :: Seen(s, task) ==> Seen(After(s, run), task)
    ensures forall url, page :: (url, page) in Pages(s, run) ==> PageDone(After(s, run), url, page)
    ensures forall url, page :: PageDone(s, url, page) ==> PageDone(After(s, run), url, page)
    decreases |run|
  {
    hide Next, Claims, Seen, PageDone;
    if run != [] {
      var w, p := run[0].0, run[0].1;
      var t := Next(s, w, p);
      ClaimsStep(s0, s, w, p);
      RunKeeps(s0, t, run[1..]);
      forall task | Seen(s, task) ensures Seen(After(s, run), task) { SeenStep(s, w, p, task); }
      forall url, page | PageDone(s, url, page) ensures PageDone(After(s, run), url, page) {
        PageDoneStep(s, w, p, url, page);
      }
      if w < |s.workers| && s.workers[w].Fetching? { PageFetched(s, w, p); }
    }
  }

  /** Every fetch of a run gave a page. */
  lemma {:induction false} PagesFetched(s: State, run: Schedule, url: string)
    requires url in After(s, run).fetched
    ensures url in s.fetched || exists page :: (url, page) in Pages(s, run)
    decreases |run|
  {
    if run != [] {
      var w, p := run[0].0, run[0].1;
      var t := Next(s, w, p);
      PagesFetched(t, run[1..], url);
      if url in t.fetched {
        if url !in s.fetched { assert (url, p) in Pages(s, run); }
      } else {
        var page :| (url, page) in Pages(t, run[1..]);
        assert (url, page) in Pages(s, run);
      }
    }
  }

  /** No worker has a step to take. */
  predicate AtRest(s: State) {
    forall w :: 0 <= w < |s.workers| ==> !Enabled(s, w)
  }

  /** A crawl that has come to rest below the limit is complete: it has looked at every task it
      started with, it has stored every page it fetched and looked at every link of it, and what it
      has visited is what was visited before and what it has fetched. */
  lemma CrawlComplete(s: State, run: Schedule)
    requires Start(s) && |s.workers| > 0
    requires AtRest(After(s, run)) && After(s, run).counter < 1000
    ensures var t := After(s, run);
            && (forall i :: 0 <= i < |s.queue| ==> UrlOf(s.queue[i]) in t.visited)
            && (forall url, page :: (url, page) in Pages(s, run) && page.ok ==>
                  url in t.rows && forall i :: 0 <= i < |page.links| ==> UrlOf(page.links[i] + "|1") in t.visited)
            && (forall url :: url in t.visited <==> url in s.visited || url in t.fetched)
            && (forall url :: url in t.fetched ==> exists page :: (url, page) in Pages(s, run))
  {
    var t := After(s, run);
    forall url | url in t.fetched ensures exists page :: (url, page) in Pages(s, run) { PagesFetched(s, run, url); }
    StartClaims(s);
    RunKeeps(s, s, run);
    SameWorkers(s, run);
    RestWaits(s, t);
    NoneYet(s.workers);
    InvRun(s, s, run);
    hide Next, After, Inv, UrlOf, Pages, Claims;
    forall i | 0 <= i < |s.queue| ensures UrlOf(s.queue[i]) in t.visited {
      assert Seen(s, s.queue[i]);
    }
    forall url, page | (url, page) in Pages(s, run) && page.ok
      ensures url in t.rows && forall i :: 0 <= i < |page.links| ==> UrlOf(page.links[i] + "|1") in t.visited
    {
      assert PageDone(t, url, page);
      forall i | 0 <= i < |page.links| ensures UrlOf(page.links[i] + "|1") in t.visited {
        assert page.links[i] in page.links;
      }
    }
    RestVisited(s, t);
  }

  lemma StartClaims(s: State)
    requires Start(s)
    ensures Claims(s, s)
  {}

  lemma {:induction false} SameWorkers(s: State, run: Schedule)
    ensures |After(s, run).workers| == |s.workers|
    decreases |run|
  {
    if run != [] {
      assert |Next(s, run[0].0, run[0].1).workers| == |s.workers|;
      SameWorkers(Next(s, run[0].0, run[0].1), run[1..]);
    }
  }

  lemma RestWaits(s0: State, t: State)
    requires Claims(s0, t) && AtRest(t) && t.counter < 1000 && |t.workers| > 0
    ensures t.queue == [] && forall w :: 0 <= w < |t.workers| ==> t.workers[w] == Waiting
  {
    forall w | 0 <= w < |t.workers| ensures t.workers[w] == Waiting { assert !Enabled(t, w); }
    assert !Enabled(t, 0);
  }

  lemma RestVisited(s: State, t: State)
    requires Claims(s, t) && Inv(s, t) && forall w :: 0 <= w < |t.workers| ==> t.workers[w] == Waiting
    ensures forall url :: url in t.visited <==> url in s.visited || url in t.fetched
  {
    hide ExitCount, StoredCount;
  }
}
