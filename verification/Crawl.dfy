/** The distributed crawl of worker_v3.cpp: W workers over shared Redis state. Every Redis
    command and the push script is atomic; between them the workers interleave freely. */
module Crawl {
  import opened Sequences
  import opened Options

  const MAX_URLS := 1000

  /** What fetching a URL gives. */
  datatype Page = Page(ok: bool, links: seq<string>)

  /** Where a worker stands in its loop, with its local variables. */
  datatype Phase =
    | Waiting                                   // before BRPOP
    | Popped(task: string)                      // before SADD
    | Fetching(url: string)                     // before the fetch
    | Fetched(url: string, page: Page)          // before insert_page or GET
    | Stored(url: string, links: seq<string>)   // before INCR
    | Pushing(links: seq<string>)               // before the next EVAL
    | Exited

  /** Redis and the database, the workers, and what was fetched. A counter that does not
      exist reads as 0, which is also what SETNX makes it. */
  datatype State = State(queue: seq<string>, visited: set<string>, counter: int, rows: seq<string>,
                         workers: seq<Phase>, fetched: seq<string>)

  /** The URL of a task: what stands before the first bar. */
  function UrlOf(task: string): string {
    if task == "" || task[0] == '|' then "" else [task[0]] + UrlOf(task[1..])
  }

  lemma {:induction false} UrlBeforeBar(task: string)
    ensures var n := |UrlOf(task)|;
            n <= |task| && UrlOf(task) == task[..n] && '|' !in task[..n] && (n < |task| ==> task[n] == '|')
  {
    if task != "" && task[0] != '|' { UrlBeforeBar(task[1..]); }
  }

  function TaskOf(link: string): string {
    link + "|1"
  }

  /** A link survives the round through the queue exactly if it contains no bar. */
  lemma {:induction false} TaskRoundTrip(link: string)
    ensures UrlOf(TaskOf(link)) == link <==> '|' !in link
  {
    if link != "" && link[0] != '|' {
      TaskRoundTrip(link[1..]);
      assert TaskOf(link)[1..] == TaskOf(link[1..]);
      assert link == [link[0]] + link[1..];
    }
  }

  // ----- one atomic step of worker `w` -----

  predicate Enabled(s: State, w: nat) {
    w < |s.workers| && !s.workers[w].Exited? && (s.workers[w].Waiting? ==> s.queue != [])
  }

  /** The worker's next step; `page` is what the fetch gives when the step is a fetch. A step
      that is not enabled changes nothing: BRPOP goes on blocking. */
  function Next(s: State, w: nat, page: Page): State {
    if !Enabled(s, w) then s
    else match s.workers[w]
      case Waiting =>
        s.(queue := s.queue[..|s.queue| - 1], workers := s.workers[w := Popped(s.queue[|s.queue| - 1])])
      case Popped(task) =>
        if UrlOf(task) in s.visited then s.(workers := s.workers[w := Waiting])
        else s.(visited := s.visited + {UrlOf(task)}, workers := s.workers[w := Fetching(UrlOf(task))])
      case Fetching(url) =>
        s.(workers := s.workers[w := Fetched(url, page)], fetched := s.fetched + [url])
      case Fetched(url, p) =>
        if p.ok then s.(rows := s.rows + [url], workers := s.workers[w := Stored(url, p.links)])
        else s.(workers := s.workers[w := if s.counter >= MAX_URLS then Exited else Waiting])
      case Stored(url, links) =>
        s.(counter := s.counter + 1,
            workers := s.workers[w := if s.counter + 1 >= MAX_URLS then Exited else Pushing(links)])
      case Pushing(links) =>
        if links == [] then s.(workers := s.workers[w := Waiting])
        else s.(queue := if s.counter < MAX_URLS then [TaskOf(links[0])] + s.queue else s.queue,
                workers := s.workers[w := Pushing(links[1..])])
      case Exited => s
  }

  /** The step reads or increments the counter (INCR, or GET after a failed fetch). */
  predicate CountsAt(s: State, w: nat) {
    Enabled(s, w) && (s.workers[w].Stored? || (s.workers[w].Fetched? && !s.workers[w].page.ok))
  }

  // ----- runs -----

  /** Who steps next, and what a fetch gives then. */
  type Schedule = seq<(nat, Page)>

  /** The state after a run: any interleaving is some schedule. */
  function After(s: State, run: Schedule): State
    decreases |run|
  {
    if run == [] then s else After(Next(s, run[0].0, run[0].1), run[1..])
  }

  /** The counter accesses of worker `w` in a run. */
  function Accesses(s: State, run: Schedule, w: nat): nat
    decreases |run|
  {
    if run == [] then 0
    else (if run[0].0 == w && CountsAt(s, w) then 1 else 0) + Accesses(Next(s, run[0].0, run[0].1), run[1..], w)
  }

  predicate Start(s: State) {
    s.rows == [] && s.fetched == [] && forall w :: 0 <= w < |s.workers| ==> s.workers[w] == Waiting
  }

  function ExitCount(workers: seq<Phase>): nat {
    if workers == [] then 0 else (if workers[|workers| - 1].Exited? then 1 else 0) + ExitCount(workers[..|workers| - 1])
  }

  function StoredCount(workers: seq<Phase>): nat {
    if workers == [] then 0
    else (if workers[|workers| - 1].Stored? then 1 else 0) + StoredCount(workers[..|workers| - 1])
  }

  function Max(a: int, b: int): int {
    if a < b then b else a
  }

  /** A URL a worker is about to fetch. */
  ghost predicate Claimed(s: State, w: int) {
    0 <= w < |s.workers| && s.workers[w].Fetching?
  }

  /** What every reachable state satisfies; `s0` is where the run started. */
  ghost predicate Inv(s0: State, s: State) {
    && |s.workers| == |s0.workers| && s0.visited <= s.visited
    && s.counter >= s0.counter
    && s.counter <= Max(s0.counter, MAX_URLS - 1) + ExitCount(s.workers)
    && |s.rows| == s.counter - s0.counter + StoredCount(s.workers)
    && NoRepeat(s.fetched)
    && (forall i :: 0 <= i < |s.fetched| ==> s.fetched[i] in s.visited && s.fetched[i] !in s0.visited)
    && (forall w :: Claimed(s, w) ==>
          s.workers[w].url in s.visited && s.workers[w].url !in s0.visited && s.workers[w].url !in s.fetched)
    && (forall v, w :: Claimed(s, v) && Claimed(s, w) && v != w ==> s.workers[v].url != s.workers[w].url)
  }

  lemma {:induction false} CountsUpdate(workers: seq<Phase>, w: nat, p: Phase)
    requires w < |workers|
    ensures ExitCount(workers[w := p])
         == ExitCount(workers) + (if p.Exited? then 1 else 0) - (if workers[w].Exited? then 1 else 0)
    ensures StoredCount(workers[w := p])
         == StoredCount(workers) + (if p.Stored? then 1 else 0) - (if workers[w].Stored? then 1 else 0)
    decreases |workers|
  {
    var n := |workers| - 1;
    if w < n {
      CountsUpdate(workers[..n], w, p);
      assert workers[w := p][..n] == workers[..n][w := p];
    } else {
      assert workers[w := p][..n] == workers[..n];
    }
  }

  lemma {:induction false} CountsBound(workers: seq<Phase>)
    ensures ExitCount(workers) <= |workers|
  {
    if workers != [] { CountsBound(workers[..|workers| - 1]); }
  }

  lemma {:induction false} NoneYet(workers: seq<Phase>)
    requires forall w :: 0 <= w < |workers| ==> workers[w] == Waiting
    ensures ExitCount(workers) == 0 && StoredCount(workers) == 0
  {
    if workers != [] { NoneYet(workers[..|workers| - 1]); }
  }

  lemma InvStep(s0: State, s: State, w: nat, page: Page)
    requires Inv(s0, s)
    ensures Inv(s0, Next(s, w, page))
  {
    hide UrlOf, ExitCount, StoredCount;
    if Enabled(s, w) {
      var t := Next(s, w, page);
      CountsUpdate(s.workers, w, t.workers[w]);
      assert forall v :: Claimed(t, v) && v != w ==> Claimed(s, v);
      assert s.workers[w].Fetching? ==> Claimed(s, w);
    }
  }

  lemma {:induction false} InvRun(s0: State, s: State, run: Schedule)
    requires Inv(s0, s)
    ensures Inv(s0, After(s, run))
    decreases |run|
  {
    if run != [] {
      InvStep(s0, s, run[0].0, run[0].1);
      InvRun(s0, Next(s, run[0].0, run[0].1), run[1..]);
    }
  }

  /** For W workers and every interleaving: the counter ends at most W above the limit (or
      above where it started), every stored page is counted or about to be, and no URL is
      fetched twice, nor one that was visited before. */
  lemma Overshoot(s: State, run: Schedule)
    requires Start(s)
    ensures var t := After(s, run);
            && t.counter <= Max(s.counter, MAX_URLS - 1) + |s.workers|
            && |t.rows| == t.counter - s.counter + StoredCount(t.workers)
            && NoRepeat(t.fetched) && forall i :: 0 <= i < |t.fetched| ==> t.fetched[i] !in s.visited
  {
    NoneYet(s.workers);
    InvRun(s, s, run);
    CountsBound(After(s, run).workers);
  }

  /** One step: the counter never falls, at the limit the queue does not grow, and a worker
      that looks at the counter then exits. */
  lemma FullStep(s: State, w: nat, page: Page)
    ensures s.counter <= Next(s, w, page).counter
    ensures s.counter >= MAX_URLS ==> |Next(s, w, page).queue| <= |s.queue|
    ensures s.counter >= MAX_URLS && CountsAt(s, w) ==>
              w < |Next(s, w, page).workers| && Next(s, w, page).workers[w].Exited?
  {}

  /** Once the counter has reached the limit the queue never grows again, and each worker
      accesses the counter at most once more. */
  lemma {:induction false} LastAccess(s: State, run: Schedule, w: nat)
    requires s.counter >= MAX_URLS
    ensures After(s, run).counter >= s.counter && |After(s, run).queue| <= |s.queue|
    ensures Accesses(s, run, w) <= (if w < |s.workers| && !s.workers[w].Exited? then 1 else 0)
    decreases |run|
  {
    if run != [] {
      var v, t := run[0].0, Next(s, run[0].0, run[0].1);
      FullStep(s, v, run[0].1);
      LastAccess(t, run[1..], w);
    }
  }

  // ----- the workers as they run -----

  /** Workers sharing one Redis; `Step` is the code between two Redis commands. */
  class Crawler {
    var queue: seq<string>
    var visited: set<string>
    var counter: int
    var rows: seq<string>
    var workers: seq<Phase>
    var fetched: seq<string>

    function Now(): State
      reads this
    {
      State(queue, visited, counter, rows, workers, fetched)
    }

    constructor (queue: seq<string>, visited: set<string>, counter: int, n: nat)
      ensures Now() == State(queue, visited, counter, [], seq(n, i => Waiting), []) && Start(Now())
    {
      this.queue, this.visited, this.counter := queue, visited, counter;
      rows, fetched, workers := [], [], seq(n, i => Waiting);
    }

    method BrPop() returns (task: Option<string>)
      modifies this`queue
      ensures if old(queue) == [] then task == None && queue == []
              else task == Some(old(queue)[|old(queue)| - 1]) && queue == old(queue)[..|old(queue)| - 1]
    {
      if queue == [] { return None; }
      task := Some(queue[|queue| - 1]);
      queue := queue[..|queue| - 1];
    }

    method SAdd(url: string) returns (first: bool)
      modifies this`visited
      ensures first <==> url !in old(visited)
      ensures visited == old(visited) + {url}
    {
      first := url !in visited;
      visited := visited + {url};
    }

    method Incr() returns (total: int)
      modifies this`counter
      ensures counter == old(counter) + 1 == total
    {
      counter := counter + 1;
      total := counter;
    }

    /** The push script. */
    method TryPush(task: string) returns (pushed: bool)
      modifies this`queue
      ensures pushed <==> counter < MAX_URLS
      ensures queue == if pushed then [task] + old(queue) else old(queue)
    {
      pushed := counter < MAX_URLS;
      if pushed { queue := [task] + queue; }
    }

    /** The URL of a task. */
    static method Url(task: string) returns (url: string)
      ensures url == UrlOf(task)
    {
      var bar := 0;
      while bar < |task| && task[bar] != '|'
        invariant 0 <= bar <= |task| && task[..bar] + UrlOf(task[bar..]) == UrlOf(task)
      {
        assert task[bar..][1..] == task[bar + 1..];
        assert task[..bar + 1] == task[..bar] + [task[bar]];
        bar := bar + 1;
      }
      return task[..bar];
    }

    method Step(w: nat, page: Page)
      modifies this
      ensures Now() == Next(old(Now()), w, page)
    {
      if w >= |workers| { return; }
      match workers[w] {
        case Waiting =>
          var task := BrPop();
          if task.Some? { workers := workers[w := Popped(task.value)]; }
        case Popped(task) =>
          var url := Url(task);
          var first := SAdd(url);
          assert !first ==> visited == old(visited);
          workers := workers[w := if first then Fetching(url) else Waiting];
        case Fetching(url) =>
          fetched := fetched + [url];
          workers := workers[w := Fetched(url, page)];
        case Fetched(url, p) =>
          if p.ok {
            rows := rows + [url];
            workers := workers[w := Stored(url, p.links)];
          } else {
            workers := workers[w := if counter >= MAX_URLS then Exited else Waiting];
          }
        case Stored(url, links) =>
          var total := Incr();
          workers := workers[w := if total >= MAX_URLS then Exited else Pushing(links)];
        case Pushing(links) =>
          if links == [] {
            workers := workers[w := Waiting];
          } else {
            var pushed := TryPush(TaskOf(links[0]));
            workers := workers[w := Pushing(links[1..])];
          }
        case Exited =>
      }
    }
  }
}
