/** The chained, resizing hash table of hiredis/dict.c, which refines a finite map. */
module HashTable {
  import opened Chains

  const INITIAL_SIZE := 4
  const LONG_MAX := 0x7FFF_FFFF_FFFF_FFFF

  /** calloc refuses a table whose size in bytes overflows: more than SIZE_MAX / 8 pointers. */
  const MAX_POINTERS := 0x1FFF_FFFF_FFFF_FFFF
  const MAX_SIZE := 0x1000_0000_0000_0000

  /** What following a chain from position `i` finds. */
  function At(chain: seq<int>, i: nat): int {
    if i < |chain| then chain[i] else -1
  }

  lemma Follow<V>(heap: seq<Entry<V>>, head: int, chain: seq<int>, i: nat)
    requires Linked(heap, head, chain) && i < |chain|
    ensures 0 <= chain[i] < |heap| && heap[chain[i]].next == At(chain, i + 1)
  {
    assert LinkAt(heap, chain, i);
  }

  /** A key that its chain does not hold is not in the map. */
  lemma NotInChain<V>(heap: seq<Entry<V>>, heads: seq<int>, chains: seq<seq<int>>, ids: set<int>, hash: string -> nat,
                      mask: nat,
                      m: map<string, V>, key: string)
    requires Chained(heap, heads, chains, ids, hash, mask) && Represents(heap, ids, m)
    requires |chains| > 0 ==> And(hash(key), mask) < |chains|
    requires |chains| > 0 ==> forall j :: 0 <= j < |chains[And(hash(key), mask)]| ==>
               0 <= chains[And(hash(key), mask)][j] < |heap| && heap[chains[And(hash(key), mask)][j]].key != key
    ensures key !in m
  {
    if key in m { var j := KeyPlace(heap, heads, chains, ids, hash, mask, m, key); }
  }

  lemma NotInBucket<V>(heap: seq<Entry<V>>, heads: seq<int>, chains: seq<seq<int>>, ids: set<int>,
                       hash: string -> nat, mask: nat,
                       m: map<string, V>, key: string, c: seq<int>)
    requires Chained(heap, heads, chains, ids, hash, mask) && Represents(heap, ids, m)
    requires And(hash(key), mask) < |chains| && c == chains[And(hash(key), mask)]
    requires forall j :: 0 <= j < |c| ==> 0 <= c[j] < |heap| && heap[c[j]].key != key
    ensures key !in m
  {
    hide *;
    NotInChain(heap, heads, chains, ids, hash, mask, m, key);
  }

  lemma ChainOf<V>(heap: seq<Entry<V>>, heads: seq<int>, chains: seq<seq<int>>, ids: set<int>, hash: string -> nat,
                   mask: nat,
                   h: int)
    requires Chained(heap, heads, chains, ids, hash, mask) && 0 <= h < |chains|
    ensures h < |heads| && Linked(heap, heads[h], chains[h]) && heads[h] == At(chains[h], 0)
    ensures forall j :: 0 <= j < |chains[h]| ==>
              0 <= chains[h][j] < |heap| && chains[h][j] in ids
  {
    assert Bucket(heap, heads[h], chains[h], ids, hash, mask, h);
  }

  lemma MemberData<V>(heap: seq<Entry<V>>, ids: set<int>, m: map<string, V>, x: int)
    requires Represents(heap, ids, m) && x in ids
    ensures 0 <= x < |heap| && heap[x].key in m && m[heap[x].key] == heap[x].val
  {}

  /** Where a key of the map stands. */
  lemma KeyPlace<V>(heap: seq<Entry<V>>, heads: seq<int>, chains: seq<seq<int>>, ids: set<int>, hash: string -> nat,
                    mask: nat,
                    m: map<string, V>, key: string) returns (j: nat)
    requires Chained(heap, heads, chains, ids, hash, mask) && Represents(heap, ids, m) && key in m
    ensures And(hash(key), mask) < |chains| && j < |chains[And(hash(key), mask)]|
    ensures var x := chains[And(hash(key), mask)][j]; 0 <= x < |heap| && heap[x].key == key
  {
    var x :| x in ids && heap[x].key == key;
    var b := And(hash(key), mask);
    assert Bucket(heap, heads[b], chains[b], ids, hash, mask, b);
    j :| 0 <= j < |chains[b]| && chains[b][j] == x;
  }

  lemma {:induction false} PowerMonotone(j: nat, k: nat)
    requires j <= k
    ensures Power(j) <= Power(k)
    decreases k
  {
    if j < k { PowerMonotone(j, k - 1); }
  }

  lemma {:induction false} PowerSum(j: nat, k: nat)
    ensures Power(j + k) == Power(j) * Power(k)
    decreases k
  {
    if k > 0 {
      PowerSum(j, k - 1);
      assert Power(j + k) == 2 * (Power(j) * Power(k - 1)) == Power(j) * (2 * Power(k - 1));
    }
  }

  /** A power of two above the largest table is above what calloc can deliver. */
  lemma NextSize(n: nat)
    requires PowerOfTwo(n) && n > MAX_SIZE
    ensures n > MAX_POINTERS
  {
    var k: nat :| n == Power(k);
    SixtyBits();
    if k <= 60 { PowerMonotone(k, 60); } else { PowerMonotone(61, k); }
  }

  lemma SixtyBits()
    ensures Power(60) == MAX_SIZE && Power(61) == 2 * MAX_SIZE
  {
    assert Power(3) == 8;
    PowerSum(3, 3);
    PowerSum(6, 6);
    PowerSum(12, 3);
    PowerSum(15, 15);
    PowerSum(30, 30);
  }

  lemma NotYet<V>(heap: seq<Entry<V>>, heads: seq<int>, from: seq<seq<int>>, F: set<int>, mask: nat,
                  hash: string -> nat, b: int, T: set<int>)
    requires Chained(heap, heads, from, F, hash, mask) && 0 <= b < |from| && from[b] != [] && F !! T
    ensures from[b][0] in F && from[b][0] !in T
  {
    assert Bucket(heap, heads[b], from[b], F, hash, mask, b);
  }

  /** Moving the first entry of bucket `b` to bucket `h` of the new table. */
  lemma MoveStep<V>(heap: seq<Entry<V>>, heads: seq<int>, from: seq<seq<int>>, F: set<int>, mask: nat,
                    heads2: seq<int>, to: seq<seq<int>>, T: set<int>, mask2: nat, hash: string -> nat, b: int, h: int)
    requires Chained(heap, heads, from, F, hash, mask) && Chained(heap, heads2, to, T, hash, mask2) && F !! T
    requires 0 <= b < |from| && from[b] != [] && 0 <= from[b][0] < |heap|
    requires h == And(hash(heap[from[b][0]].key), mask2) < |to|
    ensures var x := from[b][0];
            var heap' := heap[x := heap[x].(next := heads2[h])];
            && x in F
            && Chained(heap', heads[b := heap[x].next], from[b := from[b][1..]], F - {x}, hash, mask)
            && Chained(heap', heads2[h := x], to[h := [x] + to[h]], T + {x}, hash, mask2)
  {
    assert |heads| == |from| && |heads2| == |to|;
    NotYet(heap, heads, from, F, mask, hash, b, T);
    hide Chained;
    var x := from[b][0];
    var e := heap[x].(next := heads2[h]);
    PopFront(heap, heads, from, F, hash, mask, b);
    Elsewhere(heap, heads[b := heap[x].next], from[b := from[b][1..]], F - {x}, hash, mask, x, e);
    Elsewhere(heap, heads2, to, T, hash, mask2, x, e);
    PushFront(heap[x := e], heads2, to, T, hash, mask2, x, h);
  }

  /** The map depends on keys and values only. */
  lemma SameData<V>(heap: seq<Entry<V>>, ids: set<int>, m: map<string, V>, x: int, next: int)
    requires Represents(heap, ids, m) && 0 <= x < |heap|
    ensures Represents(heap[x := heap[x].(next := next)], ids, m)
  {
    var heap' := heap[x := heap[x].(next := next)];
    assert forall y :: 0 <= y < |heap| ==> heap'[y].key == heap[y].key && heap'[y].val == heap[y].val;
    hide *;
    SameRecords(heap, heap', ids, m);
  }

  lemma SameRecords<V>(heap: seq<Entry<V>>, heap': seq<Entry<V>>, ids: set<int>, m: map<string, V>)
    requires Represents(heap, ids, m) && |heap'| >= |heap|
    requires forall y :: 0 <= y < |heap| ==> heap'[y].key == heap[y].key && heap'[y].val == heap[y].val
    ensures Represents(heap', ids, m)
  {
    forall k | k in m ensures exists y :: y in ids && heap'[y].key == k {
      var y :| y in ids && heap[y].key == k;
      assert heap'[y].key == k;
    }
  }

  class Dict<V> {
    const hash: string -> nat
    var table: array<int>
    var size: nat
    var sizemask: nat
    var used: nat
    var heap: seq<Entry<V>>

    ghost var chains: seq<seq<int>>
    ghost var ids: set<int>
    ghost var contents: map<string, V>

    ghost predicate Valid()
      reads this, table
    {
      && table.Length == size == |chains|
      && (if size == 0 then sizemask == 0 && ids == {}
          else PowerOfTwo(size) && INITIAL_SIZE <= size <= MAX_SIZE && sizemask == size - 1)
      && Chained(heap, table[..], chains, ids, hash, sizemask)
      && Represents(heap, ids, contents)
      && used == |ids| == |contents| && used <= size
    }

    /** There is room for one more entry, perhaps in a larger table. */
    predicate Room()
      reads this
    {
      used != size || 2 * size <= MAX_SIZE
    }

    constructor (hash: string -> nat)
      ensures Valid() && contents == map[] && this.hash == hash && fresh(table)
    {
      this.hash := hash;
      table := new int[0];
      size, sizemask, used, heap := 0, 0, 0, [];
      chains, ids, contents := [], {}, map[];
    }

    /** The bucket of a key. */
    method Index(key: string) returns (h: nat)
      requires Valid() && size > 0
      ensures h == And(hash(key), sizemask) < size && h == hash(key) % size
    {
      MaskInRange(hash(key), size);
      h := And(hash(key), sizemask);
    }

    /** The loop of dictFind, _dictKeyIndex and dictDelete through bucket `h`, which is the one
        of the key: the entry and its predecessor, or -1. */
    method Walk(key: string, h: nat) returns (de: int, prevde: int, ghost p: nat)
      requires Valid() && h == And(hash(key), sizemask) < size
      ensures de == -1 <==> key !in contents
      ensures de != -1 ==> de in ids && p < |chains[h]| && de == chains[h][p]
      ensures de != -1 ==> prevde == (if p == 0 then -1 else chains[h][p - 1])
      ensures de != -1 ==> 0 <= de < |heap| && heap[de].key == key && contents[key] == heap[de].val
      ensures -1 <= prevde < |heap| && (p > 0 ==> prevde != -1)
    {
      ghost var c := chains[h];
      ChainOf(heap, table[..], chains, ids, hash, sizemask, h);
      hide Chained, Represents, PowerOfTwo, Linked, LinkAt, And;
      de, prevde, p := table[h], -1, 0;
      ghost var head, entries := de, heap;
      while de != -1
        invariant 0 <= p <= |c| && de == At(c, p) && prevde == (if p == 0 then -1 else c[p - 1])
        invariant forall j :: 0 <= j < p ==> 0 <= c[j] < |entries| && entries[c[j]].key != key
        decreases |c| - p
      {
        Follow(entries, head, c, p);
        if key == heap[de].key {
          MemberData(heap, ids, contents, de);
          return;
        }
        prevde := de;
        de := heap[de].next;
        p := p + 1;
      }
      NotInBucket(heap, table[..], chains, ids, hash, sizemask, contents, key, c);
    }

    /** Nothing is stored in a table without buckets. */
    lemma NoTable()
      requires Valid() && size == 0
      ensures contents == map[]
    {
      forall k ensures k !in contents { NotInChain(heap, table[..], chains, ids, hash, sizemask, contents, k); }
    }

    /** dictFind: the entry, or -1. */
    method Find(key: string) returns (he: int)
      requires Valid()
      ensures he == -1 <==> key !in contents
      ensures he != -1 ==> he in ids && 0 <= he < |heap| && heap[he].key == key && contents[key] == heap[he].val
    {
      if size == 0 {
        NoTable();
        return -1;
      }
      hide Chained, Represents, PowerOfTwo;
      var h := Index(key);
      ghost var p;
      var prevde;
      he, prevde, p := Walk(key, h);
    }

    /** _dictNextPower */
    static method NextPower(size: nat) returns (i: nat)
      ensures if size >= LONG_MAX then i == LONG_MAX
              else PowerOfTwo(i) && INITIAL_SIZE <= i && size <= i && (i == INITIAL_SIZE || i < 2 * size)
    {
      if size >= LONG_MAX { return LONG_MAX; }
      ghost var k := 2;
      assert Power(2) == 4;
      i := INITIAL_SIZE;
      while i < size
        invariant i == Power(k) && INITIAL_SIZE <= i && (i == INITIAL_SIZE || i < 2 * size)
        decreases size - i
      {
        i := 2 * i;
        k := k + 1;
      }
    }

    /** dictExpand */
    method Expand(size: nat) returns (ok: bool)
      requires Valid()
      modifies this
      ensures Valid() && contents == old(contents) && used == old(used)
      ensures ok <==> used <= size <= MAX_SIZE
      ensures if ok then fresh(table) && size <= this.size && INITIAL_SIZE <= this.size
              else table == old(table) && this.size == old(this.size)
      ensures ok && size == 2 * old(this.size) ==> this.size >= size
    {
      hide Chained, Represents, PowerOfTwo;
      var realsize := NextPower(size);
      if used > size { return false; }
      Fits(size, realsize);
      if realsize > MAX_POINTERS { return false; }
      var n := new int[realsize](_ => -1);
      ghost var to := MoveAll(n);
      table, this.size, sizemask := n, realsize, realsize - 1;
      chains := to;
      return true;
    }

    /** Its loop: every entry is moved to the new table, one by one. */
    method MoveAll(n: array<int>) returns (ghost to: seq<seq<int>>)
      requires Valid() && n != table && n.Length > 0 && PowerOfTwo(n.Length)
      requires forall h :: 0 <= h < n.Length ==> n[h] == -1
      modifies this`heap, n
      ensures |to| == n.Length && Chained(heap, n[..], to, ids, hash, n.Length - 1)
      ensures Represents(heap, ids, contents)
    {
      hide PowerOfTwo, Chained, Represents;
      var left := used;
      ghost var heads, from, F, T, mask2 := table[..], chains, ids, {}, n.Length - 1;
      to := seq(n.Length, h => []);
      EmptyTable(heap, n[..], to, hash, mask2);
      var i := 0;
      while i < size && left > 0
        invariant 0 <= i <= size && |from| == |heads| == size && |to| == n.Length
        invariant Chained(heap, heads, from, F, hash, sizemask) && Chained(heap, n[..], to, T, hash, mask2)
        invariant Represents(heap, ids, contents) && F + T == ids && F !! T && left == |F|
        invariant forall b :: 0 <= b < i ==> from[b] == []
        invariant forall b :: i <= b < size ==> heads[b] == table[b]
      {
        heads, from, F, to, T, left := MoveBucket(n, i, heads, from, F, to, T, left);
        i := i + 1;
      }
      NoneLeft(heap, heads, from, F, hash, sizemask, left);
      assert T == ids;
    }

    /** One bucket of the old table. */
    method MoveBucket(n: array<int>, i: nat, ghost heads0: seq<int>, ghost from0: seq<seq<int>>, ghost F0: set<int>,
                      ghost to0: seq<seq<int>>, ghost T0: set<int>, left0: nat)
      returns (ghost heads: seq<int>, ghost from: seq<seq<int>>, ghost F: set<int>, ghost to: seq<seq<int>>,
          ghost T: set<int>, left: nat)
      requires n != table && n.Length > 0 && PowerOfTwo(n.Length) && i < table.Length == |from0| == |heads0|
      requires |to0| == n.Length
      requires Chained(heap, heads0, from0, F0, hash, sizemask) && Chained(heap, n[..], to0, T0, hash, n.Length - 1)
      requires Represents(heap, ids, contents) && F0 + T0 == ids && F0 !! T0 && left0 == |F0| && heads0[i] == table[i]
      modifies this`heap, n
      ensures |from| == |heads| == |from0| && |to| == n.Length
      ensures Chained(heap, heads, from, F, hash, sizemask) && Chained(heap, n[..], to, T, hash, n.Length - 1)
      ensures Represents(heap, ids, contents) && F + T == ids && F !! T && left == |F|
      ensures from == from0[i := []] && (forall b :: 0 <= b < |heads| && b != i ==> heads[b] == heads0[b])
    {
      hide Chained, Represents, PowerOfTwo;
      heads, from, F, to, T, left := heads0, from0, F0, to0, T0, left0;
      ghost var mask2 := n.Length - 1;
      var he := table[i];
      while he != -1
        invariant |from| == |heads| == |from0| && |to| == n.Length && he == heads[i]
        invariant Chained(heap, heads, from, F, hash, sizemask) && Chained(heap, n[..], to, T, hash, mask2)
        invariant Represents(heap, ids, contents) && F + T == ids && F !! T && left == |F|
        invariant from == from0[i := from[i]] && (forall b :: 0 <= b < |heads| && b != i ==> heads[b] == heads0[b])
        decreases |from[i]|
      {
        HeadOf(heap, heads, from, F, hash, sizemask, i);
        MaskInRange(hash(heap[he].key), n.Length);
        var nextHe, h := heap[he].next, And(hash(heap[he].key), n.Length - 1);
        MoveStep(heap, heads, from, F, sizemask, n[..], to, T, mask2, hash, i, h);
        SameData(heap, ids, contents, he, n[h]);
        heads, from, F := heads[i := nextHe], from[i := from[i][1..]], F - {he};
        to, T := to[h := [he] + to[h]], T + {he};
        heap := heap[he := heap[he].(next := n[h])];
        n[h] := he;
        left := left - 1;
        he := nextHe;
      }
      HeadOf(heap, heads, from, F, hash, sizemask, i);
    }

    /** _dictExpandIfNeeded */
    method ExpandIfNeeded() returns (ok: bool)
      requires Valid()
      modifies this
      ensures Valid() && contents == old(contents) && used == old(used)
      ensures ok <==> old(Room())
      ensures if ok then size > 0 && used < size else size == old(size) > 0
      ensures table == old(table) || fresh(table)
    {
      if size == 0 {
        ok := Expand(INITIAL_SIZE);
      } else if used == size {
        ok := Expand(size * 2);
      } else {
        ok := true;
      }
    }

    /** _dictKeyIndex: the bucket for a new entry, or -1. */
    method KeyIndex(key: string) returns (index: int)
      requires Valid()
      modifies this
      ensures Valid() && contents == old(contents) && (table == old(table) || fresh(table))
      ensures index == -1 <==> !old(Room()) || key in contents
      ensures index != -1 ==> index == And(hash(key), sizemask) && 0 <= index < size && used < size
    {
      var ok := ExpandIfNeeded();
      if !ok { return -1; }
      hide Chained, Represents, PowerOfTwo;
      var h := Index(key);
      var he, prevde, p := Walk(key, h);
      return if he == -1 then h else -1;
    }

    /** dictAdd */
    method Add(key: string, val: V) returns (ok: bool)
      requires Valid()
      modifies this, table
      ensures Valid() && (table == old(table) || fresh(table))
      ensures ok <==> old(Room()) && key !in old(contents)
      ensures contents == if ok then old(contents)[key := val] else old(contents)
    {
      hide Chained, Represents, PowerOfTwo;
      var index := KeyIndex(key);
      if index == -1 { return false; }
      ghost var e, x := Entry(key, val, table[index]), |heap|;
      Added(heap, table[..], chains, ids, hash, sizemask, contents, e, index, used);
      heap := heap + [Entry(key, val, table[index])];
      table[index] := |heap| - 1;
      used := used + 1;
      chains, ids, contents := chains[index := [x] + chains[index]], ids + {x}, contents[key := val];
      return true;
    }

    /** dictReplace: 1 when the key is new. When the table would have to grow and cannot, a
        new key is silently not stored. */
    method Replace(key: string, val: V) returns (added: bool)
      requires Valid()
      modifies this, table
      ensures Valid() && (table == old(table) || fresh(table))
      ensures added <==> old(Room()) && key !in old(contents)
      ensures contents == if old(Room()) || key in old(contents) then old(contents)[key := val] else old(contents)
    {
      hide Chained, Represents, PowerOfTwo;
      added := Add(key, val);
      if added { return; }
      var entry := Find(key);
      if entry == -1 { return; }
      Revalued(heap, table[..], chains, ids, hash, sizemask, entry, val);
      RecordChanged(heap, ids, contents, entry, val);
      heap := heap[entry := heap[entry].(val := val)];
      contents := contents[key := val];
    }

    /** dictDelete; `p` is the position of the entry in its chain. */
    method Delete(key: string) returns (ok: bool, ghost p: nat)
      requires Valid()
      modifies this, table
      ensures Valid() && table == old(table) && size == old(size) && sizemask == old(sizemask)
      ensures SameRecord(old(heap), heap)
      ensures ok <==> key in old(contents)
      ensures contents == old(contents) - {key}
      ensures if !ok then chains == old(chains) && ids == old(ids)
              else var h := And(hash(key), sizemask);
                && h < |old(chains)| && p < |old(chains)[h]|
                && 0 <= old(chains)[h][p] < |old(heap)| && old(heap)[old(chains)[h][p]].key == key
                && chains == old(chains)[h := Without(old(chains)[h], p)] && ids == old(ids) - {old(chains)[h][p]}
    {
      ok, p := false, 0;
      if size == 0 {
        NoTable();
        return;
      }
      hide Chained, Represents, PowerOfTwo, SameRecord;
      var h := Index(key);
      var de, prevde;
      de, prevde, p := Walk(key, h);
      if de != -1 {
        Unlink(de, prevde, h, p);
        ok := true;
      } else {
        Unchanged(heap, contents, key);
      }
    }

    /** Its part that unlinks the entry found. */
    method Unlink(de: nat, prevde: int, h: nat, ghost p: nat)
      requires Valid() && h < size && de < |heap| && -1 <= prevde < |heap| && (p > 0 ==> prevde != -1)
      requires p < |chains[h]| && de == chains[h][p] && prevde == (if p == 0 then -1 else chains[h][p - 1])
      modifies this, table
      ensures Valid() && table == old(table) && size == old(size) && sizemask == old(sizemask)
      ensures SameRecord(old(heap), heap)
      ensures de < |old(heap)| && contents == old(contents) - {old(heap)[de].key}
      ensures chains == old(chains)[h := Without(old(chains)[h], p)] && ids == old(ids) - {de}
    {
      hide Chained, Represents, PowerOfTwo, Without;
      ghost var heap', heads' :=
        if p == 0 then heap else heap[prevde := heap[prevde].(next := heap[de].next)],
        if p == 0 then table[..][h := heap[de].next] else table[..];
      Gone(heap, table[..], chains, ids, hash, sizemask, contents, h, p, heap', heads');
      if prevde != -1 {
        heap := heap[prevde := heap[prevde].(next := heap[de].next)];
      } else {
        table[h] := heap[de].next;
      }
      used := used - 1;
      chains, ids, contents := chains[h := Without(chains[h], p)], ids - {de}, contents - {heap[de].key};
      assert heap == heap' && table[..] == heads';
    }

    /** _dictClear */
    method Clear()
      requires Valid()
      modifies this
      ensures Valid() && contents == map[] && fresh(table) && size == 0
    {
      hide Chained, Represents, PowerOfTwo;
      table := new int[0];
      size, sizemask, used := 0, 0, 0;
      chains, ids, contents := [], {}, map[];
      EmptyTable(heap, table[..], [], hash, 0);
      NothingStored(heap);
    }
  }

  lemma Unchanged<V>(heap: seq<Entry<V>>, m: map<string, V>, key: string)
    requires key !in m
    ensures SameRecord(heap, heap) && m - {key} == m
  {}

  lemma NothingStored<V>(heap: seq<Entry<V>>)
    ensures Represents(heap, {}, map[])
  {}

  lemma Skipped<V>(heap: seq<Entry<V>>, x: int, next: int)
    requires 0 <= x < |heap|
    ensures SameRecord(heap, heap) && SameRecord(heap, heap[x := heap[x].(next := next)])
  {}

  lemma ChainMember<V>(heap: seq<Entry<V>>, heads: seq<int>, chains: seq<seq<int>>, ids: set<int>,
                       hash: string -> nat, mask: nat,
                       h: int, p: nat)
    requires Chained(heap, heads, chains, ids, hash, mask) && 0 <= h < |chains| && p < |chains[h]|
    ensures chains[h][p] in ids && forall i :: 0 <= i < |chains[h]| ==> 0 <= chains[h][i] < |heap|
  {
    assert Bucket(heap, heads[h], chains[h], ids, hash, mask, h);
  }

  /** The entry at position `p` of bucket `h` leaves table and map. */
  lemma Gone<V>(heap: seq<Entry<V>>, heads: seq<int>, chains: seq<seq<int>>, ids: set<int>, hash: string -> nat,
                mask: nat,
                m: map<string, V>, h: int, p: nat, heap': seq<Entry<V>>, heads': seq<int>)
    requires Chained(heap, heads, chains, ids, hash, mask) && Represents(heap, ids, m)
    requires 0 <= h < |chains| && p < |chains[h]| && 0 <= chains[h][p] < |heap| && h < |heads|
    requires p > 0 ==> 0 <= chains[h][p - 1] < |heap|
    requires heap' == if p == 0 then heap
                      else heap[chains[h][p - 1] := heap[chains[h][p - 1]].(next := heap[chains[h][p]].next)]
    requires heads' == if p == 0 then heads[h := heap[chains[h][p]].next] else heads
    ensures var x := chains[h][p];
            && x in ids && SameRecord(heap, heap')
            && Chained(heap', heads', chains[h := Without(chains[h], p)], ids - {x}, hash, mask)
            && Represents(heap', ids - {x}, m - {heap[x].key})
            && |ids - {x}| == |ids| - 1 && |m - {heap[x].key}| == |m| - 1
  {
    ChainMember(heap, heads, chains, ids, hash, mask, h, p);
    hide Chained, Bucket, Represents, SameRecord, Without;
    var x := chains[h][p];
    Skipped(heap, if p == 0 then x else chains[h][p - 1], heap[x].next);
    Removed(heap, heads, chains, ids, hash, mask, h, p, heap', heads');
    RecordGone(heap, heap', ids, m, x);
  }

  /** Two heaps with the same keys and values. */
  ghost predicate SameRecord<V>(heap: seq<Entry<V>>, heap': seq<Entry<V>>) {
    |heap'| == |heap| && forall y :: 0 <= y < |heap| ==> heap'[y].key == heap[y].key && heap'[y].val == heap[y].val
  }

  /** A new entry at the head of its bucket. */
  lemma Added<V>(heap: seq<Entry<V>>, heads: seq<int>, chains: seq<seq<int>>, ids: set<int>, hash: string -> nat,
                 mask: nat,
                 m: map<string, V>, e: Entry<V>, b: int, used: nat)
    requires Chained(heap, heads, chains, ids, hash, mask) && Represents(heap, ids, m) && used == |ids| == |m|
    requires 0 <= b < |chains| && b < |heads| && b == And(hash(e.key), mask) && e.next == heads[b] && e.key !in m
    ensures var x := |heap|;
            && Chained(heap + [e], heads[b := x], chains[b := [x] + chains[b]], ids + {x}, hash, mask)
            && Represents(heap + [e], ids + {x}, m[e.key := e.val])
            && |ids + {x}| == used + 1 == |m[e.key := e.val]|
  {
    var x := |heap|;
    FreshId(heap, ids, m);
    hide Chained, Represents;
    Allocated(heap, heads, chains, ids, hash, mask, e);
    PushFront(heap + [e], heads, chains, ids, hash, mask, x, b);
    RecordAdded(heap, ids, m, e);
    OneKeyMore(m, e.key, e.val);
  }

  lemma FreshId<V>(heap: seq<Entry<V>>, ids: set<int>, m: map<string, V>)
    requires Represents(heap, ids, m)
    ensures |heap| !in ids
  {}

  lemma OneKeyMore<V>(m: map<string, V>, k: string, v: V)
    requires k !in m
    ensures |m[k := v]| == |m| + 1
  {
    assert m[k := v].Keys == m.Keys + {k};
    assert |m[k := v]| == |m.Keys + {k}|;
  }

  lemma RecordAdded<V>(heap: seq<Entry<V>>, ids: set<int>, m: map<string, V>, e: Entry<V>)
    requires Represents(heap, ids, m) && e.key !in m
    ensures Represents(heap + [e], ids + {|heap|}, m[e.key := e.val])
  {
    var heap', m' := heap + [e], m[e.key := e.val];
    forall k | k in m' ensures exists y :: y in ids + {|heap|} && heap'[y].key == k {
      if k == e.key {
        assert heap'[|heap|].key == k;
      } else {
        var y :| y in ids && heap[y].key == k;
        assert heap'[y].key == k;
      }
    }
  }

  lemma RecordChanged<V>(heap: seq<Entry<V>>, ids: set<int>, m: map<string, V>, x: int, v: V)
    requires Represents(heap, ids, m) && x in ids && 0 <= x < |heap|
    ensures heap[x].key in m && Represents(heap[x := heap[x].(val := v)], ids, m[heap[x].key := v])
    ensures |m[heap[x].key := v]| == |m|
  {
    var heap', m' := heap[x := heap[x].(val := v)], m[heap[x].key := v];
    forall y | y in ids ensures 0 <= y < |heap'| && heap'[y].key in m' && m'[heap'[y].key] == heap'[y].val {
      if y != x { assert heap[y].key != heap[x].key; }
    }
    assert forall y :: 0 <= y < |heap| ==> heap'[y].key == heap[y].key;
    hide *;
    Rekeyed(heap, heap', ids, m, m', x);
  }

  lemma Rekeyed<V>(heap: seq<Entry<V>>, heap': seq<Entry<V>>, ids: set<int>, m: map<string, V>, m': map<string, V>,
                   x: int)
    requires Represents(heap, ids, m) && x in ids && 0 <= x < |heap| == |heap'| && m'.Keys == m.Keys + {heap[x].key}
    requires forall y :: 0 <= y < |heap| ==> heap'[y].key == heap[y].key
    requires forall y :: y in ids ==> 0 <= y < |heap'| && heap'[y].key in m' && m'[heap'[y].key] == heap'[y].val
    ensures heap[x].key in m && Represents(heap', ids, m') && |m'| == |m|
  {
    forall k | k in m' ensures exists y :: y in ids && heap'[y].key == k {
      assert k in m.Keys;
      var y :| y in ids && heap[y].key == k;
      assert heap'[y].key == k;
    }
    assert m'.Keys == m.Keys;
    assert |m'| == |m'.Keys| == |m.Keys| == |m|;
  }

  lemma RecordGone<V>(heap: seq<Entry<V>>, heap': seq<Entry<V>>, ids: set<int>, m: map<string, V>, x: int)
    requires Represents(heap, ids, m) && SameRecord(heap, heap') && x in ids && 0 <= x < |heap|
    ensures Represents(heap', ids - {x}, m - {heap[x].key})
    ensures |ids - {x}| == |ids| - 1 && |m - {heap[x].key}| == |m| - 1
  {
    var m' := m - {heap[x].key};
    forall k | k in m' ensures exists y :: y in ids - {x} && heap'[y].key == k {
      var y :| y in ids && heap[y].key == k;
      assert heap'[y].key == k;
    }
    assert m'.Keys == m.Keys - {heap[x].key};
    assert |m'| == |m'.Keys| && |m| == |m.Keys|;
  }

  /** Which sizes calloc delivers. */
  lemma Fits(size: nat, realsize: nat)
    requires if size >= LONG_MAX then realsize == LONG_MAX
             else PowerOfTwo(realsize) && INITIAL_SIZE <= realsize && size <= realsize
                  && (realsize == INITIAL_SIZE || realsize < 2 * size)
    ensures realsize <= MAX_POINTERS <==> size <= MAX_SIZE
    ensures realsize <= MAX_POINTERS ==> realsize <= MAX_SIZE
  {
    if size < LONG_MAX && realsize > MAX_SIZE { NextSize(realsize); }
  }

  lemma EmptyTable<V>(heap: seq<Entry<V>>, heads: seq<int>, chains: seq<seq<int>>, hash: string -> nat, mask: nat)
    requires |heads| == |chains| && forall h :: 0 <= h < |heads| ==> heads[h] == -1 && chains[h] == []
    ensures Chained(heap, heads, chains, {}, hash, mask)
  {
    forall h | 0 <= h < |heads| ensures Bucket(heap, heads[h], chains[h], {}, hash, mask, h) {}
  }

  /** When all chains are empty, or no entry is left, all entries have moved. */
  lemma NoneLeft<V>(heap: seq<Entry<V>>, heads: seq<int>, from: seq<seq<int>>, F: set<int>, hash: string -> nat,
                    mask: nat, left: nat)
    requires Chained(heap, heads, from, F, hash, mask) && left == |F|
    requires left == 0 || forall b :: 0 <= b < |from| ==> from[b] == []
    ensures F == {} && left == 0
  {
    if exists x :: x in F {
      var x :| x in F;
      InItsChain(heap, heads, from, F, hash, mask, x);
    }
  }

  lemma InItsChain<V>(heap: seq<Entry<V>>, heads: seq<int>, chains: seq<seq<int>>, ids: set<int>, hash: string -> nat,
                      mask: nat, x: int)
    requires Chained(heap, heads, chains, ids, hash, mask) && x in ids
    ensures 0 <= x < |heap| && And(hash(heap[x].key), mask) < |chains| && x in chains[And(hash(heap[x].key), mask)]
  {
    var b := And(hash(heap[x].key), mask);
    assert Bucket(heap, heads[b], chains[b], ids, hash, mask, b);
  }

  /** What the head of a bucket says about its chain. */
  lemma HeadOf<V>(heap: seq<Entry<V>>, heads: seq<int>, chains: seq<seq<int>>, ids: set<int>, hash: string -> nat,
                  mask: nat, b: int)
    requires Chained(heap, heads, chains, ids, hash, mask) && 0 <= b < |chains|
    ensures |heads| == |chains|
    ensures if heads[b] == -1 then chains[b] == []
            else chains[b] != [] && chains[b][0] == heads[b] && 0 <= heads[b] < |heap| && heads[b] in ids
  {
    assert Bucket(heap, heads[b], chains[b], ids, hash, mask, b);
  }
}
