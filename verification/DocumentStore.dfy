/** The LRU cache of DocumentStore.cpp in front of a table that does not change. Each method
    below that the C++ code runs under the mutex is one atomic step; getContent is two of
    them, and other threads may act in between. */
module DocumentStore {
  import opened Sequences
  import opened Options

  /** A row of url_log; NULL columns are None, and `length` is CHAR_LENGTH(content). */
  datatype Row = Row(url: Option<string>, status: Option<string>, title: Option<string>, timestamp: Option<string>,
                     content: Option<string>, length: nat)

  datatype Header = Header(docID: int, url: string, title: string, status: string, timestamp: string, length: nat)

  datatype Entry = Entry(header: Header, content: string)

  type Table = map<int, Row>

  const NO_HEADER := Header(0, "", "", "", "", 0)

  function Text(s: Option<string>): string {
    if s.Some? then s.value else ""
  }

  /** What a query of the table gives for an existing row. */
  function HeaderOf(t: Table, id: int): Header
    requires id in t
  {
    var r := t[id];
    Header(id, Text(r.url), Text(r.title), Text(r.status), Text(r.timestamp), if r.content.Some? then r.length else 0)
  }

  function ContentOf(t: Table, id: int): string {
    if id in t then Text(t[id].content) else ""
  }

  /** What a column reads as: itself, and NULL as nothing. */
  predicate ReadsAs(column: Option<string>, s: string) {
    column == Some(s) || (column == None && s == "")
  }

  /** Every column of the row comes out in its own field. */
  lemma RowRead(t: Table, id: int)
    ensures id !in t ==> ContentOf(t, id) == ""
    ensures id in t ==>
              var r, h := t[id], HeaderOf(t, id);
              && h.docID == id && ReadsAs(r.url, h.url) && ReadsAs(r.title, h.title) && ReadsAs(r.status, h.status)
              && ReadsAs(r.timestamp, h.timestamp) && ReadsAs(r.content, ContentOf(t, id))
              && h.length == (if r.content == None then 0 else r.length)
  {}

  // ----- recency -----

  function Drop(v: seq<int>, x: int): seq<int> {
    if v == [] then [] else if v[0] == x then Drop(v[1..], x) else [v[0]] + Drop(v[1..], x)
  }

  /** The distinct ids of a history of uses, the latest first. */
  function Recent(uses: seq<int>): seq<int> {
    if uses == [] then [] else [uses[|uses| - 1]] + Drop(Recent(uses[..|uses| - 1]), uses[|uses| - 1])
  }

  function Take(v: seq<int>, n: nat): seq<int> {
    if n < |v| then v[..n] else v
  }

  lemma {:induction false} DropFacts(v: seq<int>, x: int)
    ensures x !in Drop(v, x) && (forall y :: y in Drop(v, x) <==> y in v && y != x)
    ensures NoRepeat(v) ==> NoRepeat(Drop(v, x)) && |Drop(v, x)| == if x in v then |v| - 1 else |v|
    ensures x !in v ==> Drop(v, x) == v
  {
    if v != [] {
      DropFacts(v[1..], x);
      assert v == [v[0]] + v[1..];
      if NoRepeat(v) {
        NoRepeatTail(v);
        if v[0] != x { NoRepeatFront(v[0], Drop(v[1..], x)); }
      }
    }
  }

  lemma NoRepeatTail(v: seq<int>)
    requires NoRepeat(v) && v != []
    ensures NoRepeat(v[1..]) && v[0] !in v[1..]
  {}

  lemma NoRepeatFront(x: int, v: seq<int>)
    requires NoRepeat(v) && x !in v
    ensures NoRepeat([x] + v)
  {}

  lemma {:induction false} RecentFacts(uses: seq<int>)
    ensures NoRepeat(Recent(uses)) && forall y :: y in Recent(uses) <==> y in uses
  {
    if uses != [] {
      var l, x := uses[..|uses| - 1], uses[|uses| - 1];
      RecentFacts(l);
      DropFacts(Recent(l), x);
      assert uses == l + [x];
    }
  }

  lemma RecentPush(uses: seq<int>, x: int)
    ensures Recent(uses + [x]) == [x] + Drop(Recent(uses), x)
  {
    assert (uses + [x])[..|uses|] == uses;
  }

  /** Using an id that is among the first `n`: */
  lemma {:induction false} DropTaken(v: seq<int>, x: int, n: nat)
    requires NoRepeat(v) && x in Take(v, n)
    ensures n > 0 && Drop(Take(v, n), x) == Take(Drop(v, x), n - 1)
    decreases |v|
  {
    assert Take(v, n)[0] == v[0] && Take(v, n)[1..] == Take(v[1..], n - 1);
    NoRepeatTail(v);
    hide NoRepeat;
    if v[0] == x {
      DropFacts(v[1..], x);
      assert x !in Take(v[1..], n - 1);
      DropFacts(Take(v[1..], n - 1), x);
    } else {
      assert x in Take(v[1..], n - 1);
      DropTaken(v[1..], x, n - 1);
    }
  }

  /** and one that is not. */
  lemma {:induction false} DropBeyond(v: seq<int>, x: int, n: nat)
    requires NoRepeat(v) && x !in Take(v, n)
    ensures Take(Drop(v, x), n) == Take(v, n)
    decreases |v|
  {
    if v != [] && n > 0 {
      assert Take(v, n) == [v[0]] + Take(v[1..], n - 1);
      DropBeyond(v[1..], x, n - 1);
      assert Take([v[0]] + Drop(v[1..], x), n) == [v[0]] + Take(Drop(v[1..], x), n - 1);
    }
  }

  lemma TakeTwice(v: seq<int>, m: nat, n: nat)
    requires m <= n
    ensures Take(Take(v, n), m) == Take(v, m)
  {}

  /** The list after one more use: the most recently used ids again. */
  lemma UseKeepsRecency(uses: seq<int>, lru: seq<int>, x: int, cap: nat)
    requires lru == Take(Recent(uses), cap)
    ensures Take(Recent(uses + [x]), cap) == if x in lru then [x] + Drop(lru, x) else Take([x] + lru, cap)
  {
    RecentPush(uses, x);
    RecentFacts(uses);
    if x in lru {
      DropTaken(Recent(uses), x, cap);
      assert Take([x] + Drop(Recent(uses), x), cap) == [x] + Take(Drop(Recent(uses), x), cap - 1);
    } else if cap > 0 {
      TakeTwice(Recent(uses), cap - 1, cap);
      DropBeyond(Recent(uses), x, cap - 1);
      assert Take([x] + Drop(Recent(uses), x), cap) == [x] + Take(Drop(Recent(uses), x), cap - 1);
      assert Take([x] + lru, cap) == [x] + Take(lru, cap - 1);
    }
  }

  /** What a thread does in one critical section. `answers` tells whether the query succeeds. */
  datatype Op = Head(id: int, answers: bool) | Lookup(id: int) | Fill(id: int)

  /** What it gets there. */
  datatype Answer = HeaderIs(header: Header) | ContentIs(hit: bool, body: string)

  /** The answer is the direct query's: for the header of an existing row unless no query was
      possible, for content when it was in the cache or a query was made. */
  predicate Direct(t: Table, connected: bool, op: Op, a: Answer) {
    match op
    case Head(id, answers) =>
      && a.HeaderIs?
      && (id in t ==> a.header == HeaderOf(t, id) || (!(connected && answers) && a.header == NO_HEADER))
    case Lookup(id) => a.ContentIs? && (if a.hit then id in t ==> a.body == ContentOf(t, id) else a.body == "")
    case Fill(id) => a == ContentIs(true, ContentOf(t, id))
  }

  class DocumentStore {
    const table: Table
    const cap: nat
    const connected: bool
    var cache: map<int, Entry>
    var lru: seq<int>
    ghost var uses: seq<int>

    /** List and map agree while a critical section is at work. */
    ghost predicate Linked()
      reads this
    {
      NoRepeat(lru) && (forall id :: id in lru <==> id in cache)
    }

    /** Entries of existing rows hold what the table holds; content may be missing. */
    ghost predicate Coherent()
      reads this
    {
      forall id :: id in cache && id in table ==>
        cache[id].header == HeaderOf(table, id)
        && (cache[id].content == "" || cache[id].content == ContentOf(table, id))
    }

    /** After every critical section: the list is exactly the most recently used ids, at most
        `cap` of them, the map has exactly these keys, and its entries are right. */
    ghost predicate Valid()
      reads this
    {
      Linked() && Coherent() && |cache| <= cap && lru == Take(Recent(uses), cap)
    }

    constructor (table: Table, cap: nat, connected: bool)
      ensures Valid() && this.table == table && this.cap == cap && this.connected == connected && cache == map[]
    {
      this.table, this.cap, this.connected := table, cap, connected;
      cache, lru, uses := map[], [], [];
    }

    /** touchLRU */
    method TouchLru(id: int)
      requires Linked()
      modifies this`lru
      ensures Linked() && lru == if id in cache then [id] + Drop(old(lru), id) else old(lru)
    {
      if id !in cache { return; }
      DropFacts(lru, id);
      lru := [id] + Drop(lru, id);
    }

    /** evictIfNeeded: the ids at the end of the list go. */
    method EvictIfNeeded()
      requires Linked()
      modifies this`lru, this`cache
      ensures Linked() && |cache| <= cap && lru == Take(old(lru), cap)
      ensures forall id :: id in cache ==> id in old(cache) && cache[id] == old(cache)[id]
    {
      hide NoRepeat;
      SameSize(lru, cache);
      while |cache| > cap
        invariant Linked() && |lru| == |cache| && |lru| <= |old(lru)| && lru == old(lru)[..|lru|]
        invariant |lru| == |old(lru)| || |lru| >= cap
        invariant forall id :: id in cache ==> id in old(cache) && cache[id] == old(cache)[id]
        decreases |cache|
      {
        EvictOne();
      }
    }

    /** The least recently used entry goes. */
    method EvictOne()
      requires Linked() && |cache| > 0 && |lru| == |cache|
      modifies this`lru, this`cache
      ensures Linked() && |lru| == |cache| == |old(cache)| - 1 && lru == old(lru)[..|old(lru)| - 1]
      ensures cache == old(cache) - {old(lru)[|old(lru)| - 1]}
    {
      var victim := lru[|lru| - 1];
      LastGone(lru);
      lru := lru[..|lru| - 1];
      cache := cache - {victim};
      SameSize(lru, cache);
    }

    /** A new entry at the front, then eviction. */
    method Insert(id: int, e: Entry)
      requires Valid() && id !in cache
      requires id in table ==> e.header == HeaderOf(table, id) && (e.content == "" || e.content == ContentOf(table, id))
      modifies this
      ensures Valid() && uses == old(uses) + [id] && (id in cache ==> cache[id] == e) && (cap > 0 ==> id in cache)
      ensures forall k :: k in cache && k != id ==> k in old(cache) && cache[k] == old(cache)[k]
    {
      UseKeepsRecency(uses, lru, id, cap);
      lru := [id] + lru;
      cache := cache[id := e];
      uses := uses + [id];
      EvictIfNeeded();
      RecentPush(old(uses), id);
      assert cap > 0 ==> lru[0] == id;
    }

    /** A use of an entry that is there. */
    method Use(id: int)
      requires Valid() && id in cache
      modifies this`lru, this`uses
      ensures Valid() && uses == old(uses) + [id]
    {
      UseKeepsRecency(uses, lru, id, cap);
      TouchLru(id);
      uses := uses + [id];
    }

    /** getHeader, one critical section. */
    method GetHeader(id: int, answers: bool) returns (h: Header)
      requires Valid()
      modifies this
      ensures Valid()
      ensures id in table && ((connected && answers) || id in old(cache)) ==> h == HeaderOf(table, id)
      ensures id !in old(cache) && (id !in table || !(connected && answers)) ==> h == NO_HEADER
      ensures id !in table && id !in old(cache) && connected && answers && cap > 0 ==>
                id in cache && cache[id] == Entry(NO_HEADER, "")
      ensures uses == if (connected && answers) || id in old(cache) then old(uses) + [id] else old(uses)
    {
      if id in cache {
        Use(id);
        return cache[id].header;
      }
      h := NO_HEADER;
      if !connected || !answers { return; }
      if id in table { h := HeaderOf(table, id); }
      Insert(id, Entry(h, ""));
    }

    /** The first critical section of getContent. */
    method LookupContent(id: int) returns (hit: bool, body: string)
      requires Valid()
      modifies this`lru, this`uses
      ensures Valid() && (hit <==> id in cache && cache[id].content != "")
      ensures if hit then id in table ==> body == ContentOf(table, id) else body == ""
      ensures uses == if hit then old(uses) + [id] else old(uses)
    {
      hit, body := false, "";
      if id in cache && cache[id].content != "" {
        Use(id);
        return true, cache[id].content;
      }
    }

    /** The second, with what the query in between found. */
    method FillContent(id: int, body: string, url: string, status: string, title: string, timestamp: string,
                       length: nat)
      requires Valid()
      requires id in table ==> body == ContentOf(table, id)
      requires id in table ==> Header(id, url, title, status, timestamp, length) == HeaderOf(table, id)
      modifies this
      ensures Valid() && uses == old(uses) + [id]
      ensures id in cache ==> cache[id].content == body && (id in table ==> cache[id].header == HeaderOf(table, id))
      ensures id !in old(cache) && cap > 0 ==>
                id in cache && cache[id].header == Header(id, url, title, status, timestamp, length)
      ensures forall k :: k in cache && k != id ==> k in old(cache) && cache[k] == old(cache)[k]
    {
      if id !in cache {
        Insert(id, Entry(Header(id, url, title, status, timestamp, length), body));
      } else {
        var h := cache[id].header.(url := url, title := title, status := status, timestamp := timestamp,
            length := length);
        cache := cache[id := Entry(h, body)];
        Use(id);
      }
    }

    /** The query of getContent and its second critical section. */
    method QueryAndFill(id: int) returns (body: string)
      requires Valid()
      modifies this
      ensures Valid() && body == ContentOf(table, id) && uses == old(uses) + [id]
      ensures id !in table && id !in old(cache) && cap > 0 ==>
                id in cache && cache[id] == Entry(Header(id, "", "", "", "", 0), "")
    {
      body := ContentOf(table, id);
      if id in table {
        var r := table[id];
        FillContent(id, body, Text(r.url), Text(r.status), Text(r.title), Text(r.timestamp),
                    if r.content.Some? then r.length else |body|);
      } else {
        FillContent(id, body, "", "", "", "", |body|);
      }
    }

    /** getContent, with what other threads do while it does not hold the mutex. */
    method GetContent(id: int, answers: bool, meanwhile: seq<Op>) returns (body: string)
      requires Valid()
      modifies this
      ensures Valid()
      ensures id in table && connected && answers ==> body == ContentOf(table, id)
    {
      var hit;
      hit, body := LookupContent(id);
      if hit { return; }
      var answers' := Interfere(meanwhile);
      if !connected || !answers { return ""; }
      body := QueryAndFill(id);
    }

    /** Any steps of other threads: each critical section leaves the store valid and answers
        as the table would. */
    method Interfere(ops: seq<Op>) returns (answers: seq<Answer>)
      requires Valid()
      modifies this
      ensures Valid() && |answers| == |ops|
      ensures forall i :: 0 <= i < |ops| ==> Direct(table, connected, ops[i], answers[i])
    {
      answers := [];
      for i := 0 to |ops|
        invariant Valid() && |answers| == i
        invariant forall j :: 0 <= j < i ==> Direct(table, connected, ops[j], answers[j])
      {
        var a := Answered(ops[i]);
        answers := answers + [a];
      }
    }

    /** One of them. */
    method Answered(op: Op) returns (a: Answer)
      requires Valid()
      modifies this
      ensures Valid() && Direct(table, connected, op, a)
    {
      match op {
        case Head(id, answers) =>
          var h := GetHeader(id, answers);
          a := HeaderIs(h);
        case Lookup(id) =>
          var hit, body := LookupContent(id);
          a := ContentIs(hit, body);
        case Fill(id) =>
          var body := QueryAndFill(id);
          a := ContentIs(true, body);
      }
    }
  }

  /** For a row that does not exist the two ways into the cache leave different headers. */
  method AbsentHeaders(table: Table, id: int) returns (first: Header, second: Header)
    requires id !in table
    ensures first == NO_HEADER && second == Header(id, "", "", "", "", 0)
    ensures first != second <==> id != 0
  {
    var a := new DocumentStore(table, 1, true);
    var h := a.GetHeader(id, true);
    var b := new DocumentStore(table, 1, true);
    var body := b.QueryAndFill(id);
    return a.cache[id].header, b.cache[id].header;
  }

  lemma SameSize(lru: seq<int>, cache: map<int, Entry>)
    requires NoRepeat(lru) && forall id :: id in lru <==> id in cache
    ensures |lru| == |cache|
  {
    var ids := set id | id in lru;
    assert forall id :: id in cache.Keys <==> id in ids;
    assert cache.Keys == ids;
    assert |cache| == |cache.Keys|;
    Elements(lru);
  }

  lemma LastGone(v: seq<int>)
    requires NoRepeat(v) && v != []
    ensures var l, x := v[..|v| - 1], v[|v| - 1]; NoRepeat(l) && x !in l && forall y :: y in l <==> y in v && y != x
  {
    assert v == v[..|v| - 1] + [v[|v| - 1]];
  }

  lemma {:induction false} Elements(v: seq<int>)
    requires NoRepeat(v)
    ensures |set id | id in v| == |v|
    decreases |v|
  {
    if v != [] {
      NoRepeatTail(v);
      Elements(v[1..]);
      assert v == [v[0]] + v[1..];
      assert (set id | id in v) == (set id | id in v[1..]) + {v[0]};
    }
  }
}
