/** Bucket chains of the hash table of hiredis/dict.c, as values: a pointer is an index into
    the sequence of entries, and -1 is NULL. */
module Chains {
  import opened Sequences

  datatype Entry<V> = Entry(key: string, val: V, next: int)

  /** Bitwise and. */
  function And(a: nat, b: nat): nat {
    if a == 0 || b == 0 then 0 else (a % 2) * (b % 2) + 2 * And(a / 2, b / 2)
  }

  function Power(k: nat): (r: nat)
    ensures r > 0
  {
    if k == 0 then 1 else 2 * Power(k - 1)
  }

  ghost predicate PowerOfTwo(n: nat) {
    exists k: nat :: n == Power(k)
  }

  lemma MultipleGrows(d: nat, x: nat, y: nat)
    requires x < y
    ensures d * x + d <= d * y
  {
    assert d * y == d * x + d * (y - x);
    assert d * (y - x) == d + d * (y - x - 1);
  }

  lemma Remainder(a: nat, d: nat, q: nat, r: nat)
    requires a == d * q + r && r < d
    ensures a % d == r && a / d == q
  {
    var q' := a / d;
    if q' < q { MultipleGrows(d, q', q); } else if q' > q { MultipleGrows(d, q, q'); }
  }

  lemma HalfRemainder(a: nat, p: nat)
    requires p > 0
    ensures a % (2 * p) == a % 2 + 2 * (a / 2 % p)
  {
    var q, s := a / 2 / p, a / 2 % p;
    assert a / 2 == p * q + s;
    assert a == 2 * p * q + (2 * s + a % 2) by { assert 2 * (p * q) == 2 * p * q; }
    Remainder(a, 2 * p, q, 2 * s + a % 2);
  }

  /** The mask of a table whose size is a power of two takes the hash modulo that size. */
  lemma {:induction false} AndMask(a: nat, k: nat)
    ensures And(a, Power(k) - 1) == a % Power(k)
    decreases k
  {
    if k > 0 {
      AndMask(a / 2, k - 1);
      hide And;
      MaskHalf(a, Power(k - 1));
    }
  }

  lemma MaskHalf(a: nat, p: nat)
    requires p > 0 && And(a / 2, p - 1) == a / 2 % p
    ensures And(a, 2 * p - 1) == a % (2 * p)
  {
    HalfRemainder(a, p);
    if a > 0 { MaskStep(a, p); } else { Remainder(0, 2 * p, 0, 0); }
  }

  lemma MaskStep(a: nat, p: nat)
    requires a > 0 && p > 0
    ensures And(a, 2 * p - 1) == a % 2 + 2 * And(a / 2, p - 1)
  {
    assert (2 * p - 1) % 2 == 1 && (2 * p - 1) / 2 == p - 1;
  }

  lemma MaskInRange(a: nat, size: nat)
    requires PowerOfTwo(size) && size > 0
    ensures And(a, size - 1) < size && And(a, size - 1) == a % size
  {
    var k: nat :| size == Power(k);
    AndMask(a, k);
  }

  /** The entries of `chain`, in order, are what following `next` from `head` visits. */
  ghost predicate Linked<V>(heap: seq<Entry<V>>, head: int, chain: seq<int>) {
    && head == (if chain == [] then -1 else chain[0])
    && (forall i :: 0 <= i < |chain| ==> 0 <= chain[i] < |heap|)
    && (forall i :: 0 <= i < |chain| ==> LinkAt(heap, chain, i))
  }

  ghost predicate LinkAt<V>(heap: seq<Entry<V>>, chain: seq<int>, i: int)
    requires 0 <= i < |chain| && 0 <= chain[i] < |heap|
  {
    heap[chain[i]].next == if i + 1 < |chain| then chain[i + 1] else -1
  }

  /** Chain `b` holds just the entries of `ids` whose masked hash is `b`, each once. */
  ghost predicate Bucket<V>(heap: seq<Entry<V>>, head: int, chain: seq<int>, ids: set<int>, hash: string -> nat,
                            mask: nat, b: int)
  {
    && Linked(heap, head, chain) && NoRepeat(chain)
    && (forall i :: 0 <= i < |chain| ==> chain[i] in ids && And(hash(heap[chain[i]].key), mask) == b)
    && (forall x :: x in ids && 0 <= x < |heap| && And(hash(heap[x].key), mask) == b ==> x in chain)
  }

  /** All buckets of a table. */
  ghost predicate Chained<V>(heap: seq<Entry<V>>, heads: seq<int>, chains: seq<seq<int>>, ids: set<int>,
                             hash: string -> nat, mask: nat)
  {
    && |heads| == |chains|
    && (forall x :: x in ids ==> 0 <= x < |heap| && And(hash(heap[x].key), mask) < |chains|)
    && (forall b :: 0 <= b < |chains| ==> Bucket(heap, heads[b], chains[b], ids, hash, mask, b))
  }

  /** The entries `ids` are the map `m`. */
  ghost predicate Represents<V>(heap: seq<Entry<V>>, ids: set<int>, m: map<string, V>) {
    && (forall x :: x in ids ==> 0 <= x < |heap| && heap[x].key in m && m[heap[x].key] == heap[x].val)
    && (forall x, y :: x in ids && y in ids && heap[x].key == heap[y].key ==> x == y)
    && (forall k :: k in m ==> exists x :: x in ids && heap[x].key == k)
  }

  // ----- single chains -----

  lemma PopLinked<V>(heap: seq<Entry<V>>, head: int, chain: seq<int>)
    requires Linked(heap, head, chain) && chain != []
    ensures Linked(heap, heap[chain[0]].next, chain[1..])
  {
    var t := chain[1..];
    assert LinkAt(heap, chain, 0);
    forall i | 0 <= i < |t| ensures LinkAt(heap, t, i) { assert LinkAt(heap, chain, i + 1); }
  }

  lemma PushLinked<V>(heap: seq<Entry<V>>, head: int, chain: seq<int>, x: int)
    requires Linked(heap, head, chain) && 0 <= x < |heap| && heap[x].next == head
    ensures Linked(heap, x, [x] + chain)
  {
    var t := [x] + chain;
    forall i | 0 <= i < |t| ensures LinkAt(heap, t, i) {
      if i > 0 { assert LinkAt(heap, chain, i - 1) && t[i] == chain[i - 1]; }
    }
  }

  /** Links do not depend on entries outside the chain, nor on keys and values. */
  lemma SameLinks<V>(heap: seq<Entry<V>>, heap': seq<Entry<V>>, head: int, chain: seq<int>)
    requires Linked(heap, head, chain) && |heap| <= |heap'|
    requires forall i :: 0 <= i < |chain| ==> heap'[chain[i]].next == heap[chain[i]].next
    ensures Linked(heap', head, chain)
  {
    forall i | 0 <= i < |chain| ensures LinkAt(heap', chain, i) { assert LinkAt(heap, chain, i); }
  }

  function Without(chain: seq<int>, p: nat): seq<int>
    requires p < |chain|
  {
    chain[..p] + chain[p + 1..]
  }

  lemma WithoutAt(chain: seq<int>, p: nat)
    requires p < |chain|
    ensures var c := Without(chain, p);
            |c| == |chain| - 1 && forall i :: 0 <= i < |c| ==> c[i] == chain[if i < p then i else i + 1]
  {}

  /** Position `p` of a chain is unlinked: its predecessor skips it. */
  lemma Unlinked<V>(heap: seq<Entry<V>>, head: int, chain: seq<int>, p: nat)
    requires Linked(heap, head, chain) && NoRepeat(chain) && p < |chain|
    ensures var next := heap[chain[p]].next;
            && (p == 0 ==> Linked(heap, next, Without(chain, p)))
            && (p > 0 ==> Linked(heap[chain[p - 1] := heap[chain[p - 1]].(next := next)], head, Without(chain, p)))
  {
    if p == 0 {
      PopLinked(heap, head, chain);
      assert Without(chain, 0) == chain[1..];
    } else {
      var c, heap' := Without(chain, p), heap[chain[p - 1] := heap[chain[p - 1]].(next := heap[chain[p]].next)];
      WithoutAt(chain, p);
      assert LinkAt(heap, chain, p);
      forall i | 0 <= i < |c| ensures LinkAt(heap', c, i) {
        assert LinkAt(heap, chain, if i < p then i else i + 1);
      }
    }
  }

  // ----- taking an entry out, putting one in -----

  /** The first entry of bucket `b` leaves it. */
  lemma PopFront<V>(heap: seq<Entry<V>>, heads: seq<int>, chains: seq<seq<int>>, ids: set<int>, hash: string -> nat,
                    mask: nat, b: int)
    requires Chained(heap, heads, chains, ids, hash, mask) && 0 <= b < |chains| && chains[b] != []
    ensures var x := chains[b][0];
            && x in ids && 0 <= x < |heap|
            && Chained(heap, heads[b := heap[x].next], chains[b := chains[b][1..]], ids - {x}, hash, mask)
  {
    var x := chains[b][0];
    assert Bucket(heap, heads[b], chains[b], ids, hash, mask, b);
    var heads', chains', ids' := heads[b := heap[x].next], chains[b := chains[b][1..]], ids - {x};
    forall c | 0 <= c < |chains| ensures Bucket(heap, heads'[c], chains'[c], ids', hash, mask, c) {
      assert Bucket(heap, heads[c], chains[c], ids, hash, mask, c);
      if c == b {
        PopLinked(heap, heads[b], chains[b]);
        RemovedHere(heap, chains[b], ids, hash, mask, b, 0, heap);
        assert Without(chains[b], 0) == chains[b][1..];
      }
    }
  }

  /** An entry outside `ids` may change. */
  lemma Elsewhere<V>(heap: seq<Entry<V>>, heads: seq<int>, chains: seq<seq<int>>, ids: set<int>, hash: string -> nat,
                     mask: nat,
                     x: int, e: Entry<V>)
    requires Chained(heap, heads, chains, ids, hash, mask) && 0 <= x < |heap| && x !in ids
    ensures Chained(heap[x := e], heads, chains, ids, hash, mask)
  {
    forall c | 0 <= c < |chains| ensures Bucket(heap[x := e], heads[c], chains[c], ids, hash, mask, c) {
      assert Bucket(heap, heads[c], chains[c], ids, hash, mask, c);
      SameLinks(heap, heap[x := e], heads[c], chains[c]);
    }
  }

  /** So may entries be allocated. */
  lemma Allocated<V>(heap: seq<Entry<V>>, heads: seq<int>, chains: seq<seq<int>>, ids: set<int>, hash: string -> nat,
                     mask: nat, e: Entry<V>)
    requires Chained(heap, heads, chains, ids, hash, mask)
    ensures Chained(heap + [e], heads, chains, ids, hash, mask)
  {
    forall c | 0 <= c < |chains| ensures Bucket(heap + [e], heads[c], chains[c], ids, hash, mask, c) {
      assert Bucket(heap, heads[c], chains[c], ids, hash, mask, c);
      SameLinks(heap, heap + [e], heads[c], chains[c]);
    }
  }

  /** An entry whose `next` is the head of its bucket becomes the head. */
  lemma PushFront<V>(heap: seq<Entry<V>>, heads: seq<int>, chains: seq<seq<int>>, ids: set<int>, hash: string -> nat,
                     mask: nat,
                     x: int, b: int)
    requires Chained(heap, heads, chains, ids, hash, mask) && 0 <= x < |heap| && x !in ids
    requires 0 <= b < |chains| && b == And(hash(heap[x].key), mask) && heap[x].next == heads[b]
    ensures Chained(heap, heads[b := x], chains[b := [x] + chains[b]], ids + {x}, hash, mask)
  {
    var heads', chains', ids' := heads[b := x], chains[b := [x] + chains[b]], ids + {x};
    forall c | 0 <= c < |chains| ensures Bucket(heap, heads'[c], chains'[c], ids', hash, mask, c) {
      assert Bucket(heap, heads[c], chains[c], ids, hash, mask, c);
      if c == b {
        PushLinked(heap, heads[b], chains[b], x);
        AddedHere(heap, chains[b], ids, hash, mask, b, x);
      }
    }
  }

  /** A value changes. */
  lemma Revalued<V>(heap: seq<Entry<V>>, heads: seq<int>, chains: seq<seq<int>>, ids: set<int>, hash: string -> nat,
                    mask: nat, x: int, v: V)
    requires Chained(heap, heads, chains, ids, hash, mask) && 0 <= x < |heap|
    ensures Chained(heap[x := heap[x].(val := v)], heads, chains, ids, hash, mask)
  {
    var heap' := heap[x := heap[x].(val := v)];
    forall c | 0 <= c < |chains| ensures Bucket(heap', heads[c], chains[c], ids, hash, mask, c) {
      assert Bucket(heap, heads[c], chains[c], ids, hash, mask, c);
      SameLinks(heap, heap', heads[c], chains[c]);
    }
  }

  /** The entry at position `p` of bucket `b` is unlinked. */
  lemma Removed<V>(heap: seq<Entry<V>>, heads: seq<int>, chains: seq<seq<int>>, ids: set<int>, hash: string -> nat,
                   mask: nat, b: int, p: nat,
                   heap': seq<Entry<V>>, heads': seq<int>)
    requires Chained(heap, heads, chains, ids, hash, mask) && 0 <= b < |chains| && p < |chains[b]|
    requires 0 <= chains[b][p] < |heap| && forall i :: 0 <= i < |chains[b]| ==> 0 <= chains[b][i] < |heap|
    requires heap' == if p == 0 then heap
                      else heap[chains[b][p - 1] := heap[chains[b][p - 1]].(next := heap[chains[b][p]].next)]
    requires heads' == if p == 0 then heads[b := heap[chains[b][p]].next] else heads
    ensures Chained(heap', heads', chains[b := Without(chains[b], p)], ids - {chains[b][p]}, hash, mask)
  {
    var x, chains', ids' := chains[b][p], chains[b := Without(chains[b], p)], ids - {chains[b][p]};
    assert Bucket(heap, heads[b], chains[b], ids, hash, mask, b);
    Unlinked(heap, heads[b], chains[b], p);
    forall c | 0 <= c < |chains| ensures Bucket(heap', heads'[c], chains'[c], ids', hash, mask, c) {
      assert Bucket(heap, heads[c], chains[c], ids, hash, mask, c);
      if c == b {
        RemovedHere(heap, chains[b], ids, hash, mask, b, p, heap');
      } else {
        SameLinks(heap, heap', heads[c], chains[c]);
      }
    }
  }

  lemma RemovedHere<V>(heap: seq<Entry<V>>, chain: seq<int>, ids: set<int>, hash: string -> nat, mask: nat, b: int,
                       p: nat, heap': seq<Entry<V>>)
    requires p < |chain| && NoRepeat(chain) && |heap'| == |heap|
    requires forall x :: 0 <= x < |heap| ==> heap'[x].key == heap[x].key
    requires forall i :: 0 <= i < |chain| ==>
              0 <= chain[i] < |heap| && chain[i] in ids && And(hash(heap[chain[i]].key), mask) == b
    requires forall x :: x in ids && 0 <= x < |heap| && And(hash(heap[x].key), mask) == b ==> x in chain
    ensures var c, ids' := Without(chain, p), ids - {chain[p]};
            && NoRepeat(c)
            && (forall i :: 0 <= i < |c| ==> c[i] in ids' && And(hash(heap'[c[i]].key), mask) == b)
            && (forall x :: x in ids' && 0 <= x < |heap| && And(hash(heap'[x].key), mask) == b ==> x in c)
  {
    var c, ids' := Without(chain, p), ids - {chain[p]};
    WithoutAt(chain, p);
    forall x | x in ids' && 0 <= x < |heap| && And(hash(heap'[x].key), mask) == b ensures x in c {
      var i :| 0 <= i < |chain| && chain[i] == x;
      assert c[if i < p then i else i - 1] == x;
    }
  }

  lemma AddedHere<V>(heap: seq<Entry<V>>, chain: seq<int>, ids: set<int>, hash: string -> nat, mask: nat, b: int,
                     x: int)
    requires NoRepeat(chain) && x !in ids && 0 <= x < |heap| && And(hash(heap[x].key), mask) == b
    requires forall i :: 0 <= i < |chain| ==>
              0 <= chain[i] < |heap| && chain[i] in ids && And(hash(heap[chain[i]].key), mask) == b
    requires forall y :: y in ids && 0 <= y < |heap| && And(hash(heap[y].key), mask) == b ==> y in chain
    ensures var c, ids' := [x] + chain, ids + {x};
            && NoRepeat(c)
            && (forall i :: 0 <= i < |c| ==> c[i] in ids' && And(hash(heap[c[i]].key), mask) == b)
            && (forall y :: y in ids' && 0 <= y < |heap| && And(hash(heap[y].key), mask) == b ==> y in c)
  {
    var c := [x] + chain;
    assert forall i :: 0 < i < |c| ==> c[i] == chain[i - 1];
    assert c[0] == x && forall y :: y in chain ==> y in c;
  }
}
