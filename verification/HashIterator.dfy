/** The iterator of hiredis/dict.c, whose user may delete the entry it was just given. */
module HashIterator {
  import opened Sequences
  import opened Chains
  import opened HashTable

  /** The entries of the buckets from `b` on, in the order the iterator visits them. */
  ghost function Flat(chains: seq<seq<int>>, b: nat): seq<int>
    decreases |chains| - b
  {
    if b >= |chains| then [] else chains[b] + Flat(chains, b + 1)
  }

  /** The iterator stands in bucket `b`, with chain position `pos` next, and `todo` ahead. */
  ghost predicate Standing(chains: seq<seq<int>>, b: int, pos: nat, nextEntry: int, todo: seq<int>) {
    && 0 <= b < |chains| && pos <= |chains[b]|
    && nextEntry == At(chains[b], pos) && todo == chains[b][pos..] + Flat(chains, b + 1)
  }

  lemma NothingBehind(chains: seq<seq<int>>, b: nat)
    requires b >= |chains|
    ensures Flat(chains, b) == []
  {}

  lemma Enter<V>(heap: seq<Entry<V>>, heads: seq<int>, chains: seq<seq<int>>, ids: set<int>, hash: string -> nat,
                 mask: nat, b: int)
    requires Chained(heap, heads, chains, ids, hash, mask) && 0 <= b < |chains|
    ensures b < |heads| && Standing(chains, b, 0, heads[b], Flat(chains, b))
  {
    ChainOf(heap, heads, chains, ids, hash, mask, b);
    assert chains[b][0..] == chains[b];
  }

  /** One step along bucket `b`, from position `pos`. */
  lemma StepOn<V>(heap: seq<Entry<V>>, heads: seq<int>, chains: seq<seq<int>>, ids: set<int>, hash: string -> nat,
                  mask: nat,
                  b: int, pos: nat, entry: int, todo: seq<int>)
    requires Chained(heap, heads, chains, ids, hash, mask) && Standing(chains, b, pos, entry, todo)
    ensures entry == -1 ==> todo == Flat(chains, b + 1)
    ensures entry != -1 ==>
      0 <= entry < |heap| && entry in ids && |todo| > 0 && entry == todo[0] == chains[b][pos] && pos < |chains[b]|
      && Standing(chains, b, pos + 1, heap[entry].next, todo[1..])
  {
    hide Chained, Linked, LinkAt, Bucket, Flat, And;
    var c := chains[b];
    ChainOf(heap, heads, chains, ids, hash, mask, b);
    if pos < |c| {
      Follow(heap, heads[b], c, pos);
      assert c[pos..] == [c[pos]] + c[pos + 1..];
    }
  }

  class DictIterator<V> {
    const ht: Dict<V>
    var index: int
    var entry: int
    var nextEntry: int
    ghost var pos: nat
    ghost var todo: seq<int>

    /** `chains` are the buckets of the table; `todo` is what the iterator has still to return. */
    ghost predicate Placed(chains: seq<seq<int>>)
      reads this
    {
      && -1 <= index
      && if entry == -1 then todo == Flat(chains, index + 1)
         else Standing(chains, index, pos, nextEntry, todo)
    }

    /** dictInitIterator */
    constructor (ht: Dict<V>)
      ensures this.ht == ht && Placed(ht.chains) && todo == Flat(ht.chains, 0) && pos == 0
    {
      this.ht := ht;
      index, entry, nextEntry := -1, -1, -1;
      pos, todo := 0, Flat(ht.chains, 0);
    }

    /** dictNext */
    method Next() returns (e: int)
      requires ht.Valid() && Placed(ht.chains)
      modifies this
      ensures Placed(ht.chains) && entry == e
      ensures if e == -1 then old(todo) == [] == todo
              else |old(todo)| > 0 && e == old(todo)[0] && todo == old(todo)[1..]
      ensures e != -1 ==> 0 <= e < |ht.heap| && e in ht.ids
      ensures e != -1 ==> Standing(ht.chains, index, pos, nextEntry, todo) && 0 < pos && e == ht.chains[index][pos - 1]
    {
      hide Chained, Represents, PowerOfTwo, Bucket, Standing, Flat;
      while true
        invariant ht.Valid() && Placed(ht.chains) && todo == old(todo) && -1 <= index
        decreases if index < ht.size then ht.size - index else 0, if entry == -1 then 0 else 1
      {
        if entry == -1 {
          index := index + 1;
          if index >= ht.size { break; }
          Enter(ht.heap, ht.table[..], ht.chains, ht.ids, ht.hash, ht.sizemask, index);
          entry := ht.table[index];
          pos := 0;
        } else {
          entry := nextEntry;
        }
        StepOn(ht.heap, ht.table[..], ht.chains, ht.ids, ht.hash, ht.sizemask, index, pos, entry, todo);
        if entry != -1 {
          nextEntry := ht.heap[entry].next;
          pos, todo := pos + 1, todo[1..];
          return entry;
        }
      }
      assert ht.size == |ht.chains|;
      NothingBehind(ht.chains, index);
      NothingBehind(ht.chains, index + 1);
      return -1;
    }
  }

  // ----- deleting the entry just returned -----

  lemma {:induction false} FlatElsewhere(chains: seq<seq<int>>, b: nat, c: seq<int>, from: nat)
    requires b < |chains| && b < from
    ensures Flat(chains[b := c], from) == Flat(chains, from)
    decreases |chains| - from
  {
    if from < |chains| { FlatElsewhere(chains, b, c, from + 1); }
  }

  /** The iterator goes on as if nothing had happened. */
  lemma StillStanding(chains: seq<seq<int>>, b: int, pos: nat, nextEntry: int, todo: seq<int>)
    requires Standing(chains, b, pos, nextEntry, todo) && pos > 0
    ensures Standing(chains[b := Without(chains[b], pos - 1)], b, pos - 1, nextEntry, todo)
  {
    var c := Without(chains[b], pos - 1);
    WithoutAt(chains[b], pos - 1);
    FlatElsewhere(chains, b, c, b + 1);
    assert c[pos - 1..] == chains[b][pos..];
  }

  // ----- a whole traversal -----

  /** The iterator's order lists every entry exactly once. */
  lemma {:induction false} FlatEntries<V>(heap: seq<Entry<V>>, heads: seq<int>, chains: seq<seq<int>>, ids: set<int>,
                                          hash: string -> nat,
                                          mask: nat, b: nat)
    requires Chained(heap, heads, chains, ids, hash, mask)
    ensures NoRepeat(Flat(chains, b))
    ensures forall x :: x in Flat(chains, b) <==> x in ids && And(hash(heap[x].key), mask) >= b
    decreases |chains| - b
  {
    if b < |chains| {
      FlatEntries(heap, heads, chains, ids, hash, mask, b + 1);
      assert Bucket(heap, heads[b], chains[b], ids, hash, mask, b);
      var s, t := chains[b], Flat(chains, b + 1);
      forall i, j | 0 <= i < j < |s + t| ensures (s + t)[i] != (s + t)[j] {
        if j >= |s| { assert t[j - |s|] in t; }
      }
    }
  }

  /** The entry just returned is the one its key leads to. */
  lemma SamePlace<V>(heap: seq<Entry<V>>, heads: seq<int>, chains: seq<seq<int>>, ids: set<int>, hash: string -> nat,
                     mask: nat,
                     m: map<string, V>, b: int, q: nat, h: int, p: nat)
    requires Chained(heap, heads, chains, ids, hash, mask) && Represents(heap, ids, m)
    requires 0 <= b < |chains| && q < |chains[b]| && 0 <= h < |chains| && p < |chains[h]|
    requires 0 <= chains[b][q] < |heap| && h == And(hash(heap[chains[b][q]].key), mask)
    requires 0 <= chains[h][p] < |heap| && heap[chains[h][p]].key == heap[chains[b][q]].key
    ensures h == b && p == q
  {
    assert Bucket(heap, heads[b], chains[b], ids, hash, mask, b);
  }

  /** The user deletes the entry that the iterator returned last. */
  method DeleteReturned<V>(ht: Dict<V>, iter: DictIterator<V>)
    requires ht.Valid() && iter.ht == ht && iter.Placed(ht.chains) && iter.entry != -1 && 0 < iter.pos
    requires 0 <= iter.index < |ht.chains| && iter.pos <= |ht.chains[iter.index]|
    requires iter.entry == ht.chains[iter.index][iter.pos - 1] && iter.entry in ht.ids
    modifies ht, ht.table, iter`pos
    ensures ht.Valid() && ht.table == old(ht.table) && SameRecord(old(ht.heap), ht.heap)
    ensures ht.ids == old(ht.ids) - {iter.entry} && iter.Placed(ht.chains)
  {
    hide Chained, Represents, PowerOfTwo, SameRecord;
    MemberData(ht.heap, ht.ids, ht.contents, iter.entry);
    ghost var heap, heads, chains, ids, m := ht.heap, ht.table[..], ht.chains, ht.ids, ht.contents;
    var ok, p := ht.Delete(ht.heap[iter.entry].key);
    SamePlace(heap, heads, chains, ids, ht.hash, ht.sizemask, m, iter.index, iter.pos - 1,
        And(ht.hash(heap[iter.entry].key), ht.sizemask), p);
    StillStanding(chains, iter.index, iter.pos, iter.nextEntry, iter.todo);
    iter.pos := iter.pos - 1;
  }

  /** The entries among `all[..n]` whose key is chosen. */
  ghost function Chosen<V>(heap: seq<Entry<V>>, all: seq<int>, n: nat, choose: string -> bool): set<int>
    requires n <= |all|
  {
    set j | 0 <= j < n && 0 <= all[j] < |heap| && choose(heap[all[j]].key) :: all[j]
  }

  /** What a traversal has seen. */
  ghost predicate Seen<V>(heap: seq<Entry<V>>, all: seq<int>, seen: seq<(string, V)>) {
    && |seen| <= |all|
    && forall j :: 0 <= j < |seen| ==> 0 <= all[j] < |heap| && seen[j] == (heap[all[j]].key, heap[all[j]].val)
  }

  /** The state of a traversal that has seen `seen` and was just given `entry`. */
  ghost predicate Going<V>(ht: Dict<V>, iter: DictIterator<V>, entry: int, heap0: seq<Entry<V>>, ids0: set<int>,
                           all: seq<int>,
                           seen: seq<(string, V)>, choose: string -> bool)
    reads ht, ht.table, iter
  {
    && ht.Valid() && iter.ht == ht && iter.entry == entry && iter.Placed(ht.chains)
    && SameRecord(heap0, ht.heap) && Seen(heap0, all, seen)
    && (if entry == -1 then |seen| == |all|
        else |seen| < |all| && entry == all[|seen|] && iter.todo == all[|seen| + 1..]
             && entry in ht.ids && 0 < iter.pos && entry == ht.chains[iter.index][iter.pos - 1])
    && ht.ids == ids0 - Chosen(heap0, all, |seen|, choose)
  }

  /** One turn: note the entry, delete it if it is chosen, ask for the next. */
  method Visit<V>(ht: Dict<V>, iter: DictIterator<V>, entry: int, ghost heap0: seq<Entry<V>>, ghost ids0: set<int>,
                  ghost all: seq<int>, seen: seq<(string, V)>, choose: string -> bool)
    returns (seen': seq<(string, V)>, next: int)
    requires entry != -1 && Going(ht, iter, entry, heap0, ids0, all, seen, choose)
    modifies ht, ht.table, iter
    ensures ht.table == old(ht.table) && |seen'| == |seen| + 1 && |seen| < |all|
    ensures Going(ht, iter, next, heap0, ids0, all, seen', choose)
  {
    hide Chained, Represents, PowerOfTwo, SameRecord, Chosen, Seen, NoRepeat, Flat;
    MemberData(ht.heap, ht.ids, ht.contents, entry);
    var key, val := ht.heap[entry].key, ht.heap[entry].val;
    OneMoreSeen(heap0, ht.heap, ids0, ht.ids, all, seen, choose, entry);
    seen' := seen + [(key, val)];
    if choose(key) {
      ghost var heap1 := ht.heap;
      DeleteReturned(ht, iter);
      SameTwice(heap0, heap1, ht.heap);
    }
    next := iter.Next();
  }

  /** A traversal whose user deletes the entries it chooses, each right after it was returned:
      every entry is seen exactly once, and those not chosen remain. */
  method Traverse<V>(ht: Dict<V>, choose: string -> bool) returns (seen: seq<(string, V)>)
    requires ht.Valid()
    modifies ht, ht.table
    ensures ht.Valid()
    ensures SeenOnce(seen, old(ht.contents))
    ensures ht.contents == map k | k in old(ht.contents) && !choose(k) :: old(ht.contents)[k]
  {
    hide Chained, Represents, PowerOfTwo, SameRecord, Chosen, Seen, SeenOnce, NoRepeat, Flat;
    var iter := new DictIterator<V>(ht);
    ghost var all, heap0, ids0, m0 := iter.todo, ht.heap, ht.ids, ht.contents;
    TraversalOrder(ht.heap, ht.table[..], ht.chains, ht.ids, ht.hash, ht.sizemask);
    NothingSeen<V>(heap0, all, choose);
    seen := [];
    var entry := iter.Next();
    hide Going;
    GoingStarts(ht, iter, entry, heap0, ids0, all, choose);
    while entry != -1
      invariant fresh(iter) && ht.table == old(ht.table) && Going(ht, iter, entry, heap0, ids0, all, seen, choose)
      decreases |all| - |seen|
    {
      seen, entry := Visit(ht, iter, entry, heap0, ids0, all, seen, choose);
    }
    GoingEnds(ht, iter, heap0, ids0, m0, all, seen, choose);
  }

  lemma GoingStarts<V>(ht: Dict<V>, iter: DictIterator<V>, entry: int, heap0: seq<Entry<V>>, ids0: set<int>,
                       all: seq<int>, choose: string -> bool)
    requires ht.Valid() && iter.ht == ht && iter.entry == entry && iter.Placed(ht.chains)
    requires heap0 == ht.heap && ids0 == ht.ids && Chosen(heap0, all, 0, choose) == {} && Seen(heap0, all, [])
    requires if entry == -1 then all == [] else |all| > 0 && entry == all[0] && iter.todo == all[1..] && entry in ht.ids
    requires entry != -1 ==> 0 <= iter.index < |ht.chains| && 0 < iter.pos <= |ht.chains[iter.index]|
    requires entry != -1 ==> entry == ht.chains[iter.index][iter.pos - 1]
    ensures Going(ht, iter, entry, heap0, ids0, all, [], choose)
  {}

  lemma GoingEnds<V>(ht: Dict<V>, iter: DictIterator<V>, heap0: seq<Entry<V>>, ids0: set<int>, m0: map<string, V>,
                     all: seq<int>,
                     seen: seq<(string, V)>, choose: string -> bool)
    requires Going(ht, iter, -1, heap0, ids0, all, seen, choose) && Represents(heap0, ids0, m0)
    requires NoRepeat(all) && forall x :: x in all <==> x in ids0
    ensures ht.Valid() && SeenOnce(seen, m0) && ht.contents == map k | k in m0 && !choose(k) :: m0[k]
  {
    hide Chained, Represents, PowerOfTwo, SameRecord, Chosen, Seen, SeenOnce, NoRepeat;
    AllSeen(heap0, ids0, m0, all, seen);
    WhatRemains(heap0, ids0, m0, ht.heap, ht.ids, ht.contents, all, choose);
  }

  /** Each key of the map once, with its value. */
  ghost predicate SeenOnce<V>(seen: seq<(string, V)>, m: map<string, V>) {
    && (forall i, j :: 0 <= i < j < |seen| ==> seen[i].0 != seen[j].0)
    && (forall i :: 0 <= i < |seen| ==> seen[i].0 in m && seen[i].1 == m[seen[i].0])
    && (forall k :: k in m ==> exists i :: 0 <= i < |seen| && seen[i].0 == k)
  }

  lemma TraversalOrder<V>(heap: seq<Entry<V>>, heads: seq<int>, chains: seq<seq<int>>, ids: set<int>,
                          hash: string -> nat, mask: nat)
    requires Chained(heap, heads, chains, ids, hash, mask)
    ensures NoRepeat(Flat(chains, 0)) && forall x :: x in Flat(chains, 0) <==> x in ids
  {
    FlatEntries(heap, heads, chains, ids, hash, mask, 0);
  }

  lemma NothingSeen<V>(heap: seq<Entry<V>>, all: seq<int>, choose: string -> bool)
    ensures Seen(heap, all, []) && Chosen(heap, all, 0, choose) == {} && SameRecord(heap, heap)
  {}

  lemma SameTwice<V>(a: seq<Entry<V>>, b: seq<Entry<V>>, c: seq<Entry<V>>)
    requires SameRecord(a, b) && SameRecord(b, c)
    ensures SameRecord(a, c)
  {}

  lemma OneMoreSeen<V>(heap0: seq<Entry<V>>, heap: seq<Entry<V>>, ids0: set<int>, ids: set<int>, all: seq<int>,
                       seen: seq<(string, V)>, choose: string -> bool, entry: int)
    requires SameRecord(heap0, heap) && Seen(heap0, all, seen) && |seen| < |all| && entry == all[|seen|]
    requires 0 <= entry < |heap|
    requires ids == ids0 - Chosen(heap0, all, |seen|, choose)
    ensures Seen(heap0, all, seen + [(heap[entry].key, heap[entry].val)])
    ensures (if choose(heap[entry].key) then ids - {entry} else ids) == ids0 - Chosen(heap0, all, |seen| + 1, choose)
  {
    var n := |seen|;
    assert Chosen(heap0, all, n + 1, choose)
        == Chosen(heap0, all, n, choose) + if choose(heap[entry].key) then {entry} else {};
  }

  lemma AllSeen<V>(heap: seq<Entry<V>>, ids: set<int>, m: map<string, V>, all: seq<int>, seen: seq<(string, V)>)
    requires Represents(heap, ids, m) && NoRepeat(all) && (forall x :: x in all <==> x in ids)
    requires Seen(heap, all, seen) && |seen| == |all|
    ensures SeenOnce(seen, m)
  {
    forall i | 0 <= i < |all| ensures all[i] in ids {}
    forall k | k in m ensures exists i :: 0 <= i < |seen| && seen[i].0 == k {
      var x :| x in ids && heap[x].key == k;
      var i :| 0 <= i < |all| && all[i] == x;
      assert seen[i].0 == k;
    }
  }

  lemma WhatRemains<V>(heap0: seq<Entry<V>>, ids0: set<int>, m0: map<string, V>, heap: seq<Entry<V>>, ids: set<int>,
                       m: map<string, V>,
                       all: seq<int>, choose: string -> bool)
    requires Represents(heap0, ids0, m0) && Represents(heap, ids, m) && SameRecord(heap0, heap)
    requires (forall x :: x in all <==> x in ids0) && ids == ids0 - Chosen(heap0, all, |all|, choose)
    ensures m == map k | k in m0 && !choose(k) :: m0[k]
  {
    forall k ensures k in m <==> k in m0 && !choose(k) {
      if k in m {
        var x :| x in ids && heap[x].key == k;
        var j :| 0 <= j < |all| && all[j] == x;
      }
      if k in m0 && !choose(k) {
        var x :| x in ids0 && heap0[x].key == k;
        assert x in ids;
      }
    }
    forall k | k in m ensures m[k] == m0[k] {
      var x :| x in ids && heap[x].key == k;
    }
  }
}
