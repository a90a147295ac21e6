/** The resumable reply reader of hiredis/read.c, with the reply constructors of
    hiredis/hiredis.c that fill the reply tree while it is being read. */
module Reader {
  import opened Options
  import opened Decimal
  import opened RespGrammar
  import opened RespMachine

  const REDIS_READER_STACK_SIZE := 9

  /** Index of the first CRLF, or -1: the memchr loop of seekNewline. */
  method SeekNewline(s: string) returns (r: int)
    ensures r == match LineEnd(s) case None => -1 case Some(n) => n
  {
    var p := 0;
    while p + 1 < |s|
      invariant 0 <= p <= |s|
      invariant forall i :: 0 <= i < p && i + 1 < |s| ==> !(s[i] == '\r' && s[i + 1] == '\n')
    {
      if s[p] == '\r' && s[p + 1] == '\n' { return p; }
      p := p + 1;
    }
    return -1;
  }

  class RedisReader {
    const cfg: Config
    const maxbuf: nat
    var buf: string
    var pos: nat
    var err: Option<Error>
    var task: seq<Task>
    var ridx: int
    var objs: seq<Obj>
    var reply: int

    ghost var frames: seq<Frame>    // the open aggregates of the task stack
    ghost var fed: string           // every byte ever fed
    ghost var emitted: seq<Reply>   // every reply ever returned
    ghost var settled: nat          // objects below this number belong to returned replies

    ghost function Abstract(): State
      requires pos <= |buf| && -1 <= ridx < |task|
      requires err.None? && ridx == -1 && reply >= 0 ==> Built(objs, reply, |objs|)
      reads this
    {
      if err.Some? then Dead(err.value)
      else if ridx >= 0 then Running(frames, task[ridx].kind, buf[pos..])
      else if reply >= 0 then Holding(ValueOf(objs, reply, |objs|), buf[pos..])
      else Running([], None, buf[pos..])
    }

    /** The task stack and the reply tree agree, and ridx stays inside the stack. */
    ghost predicate Shape()
      reads this
    {
      && pos <= |buf|
      && -1 <= ridx < |task| && |task| > 0 && |frames| == (if ridx < 0 then 0 else ridx)
      && -1 <= reply < |objs|
      && (err.Some? ==> ridx == -1 && reply == -1 && buf == "")
      && (ridx >= 0 ==> Chain(task, objs, frames, -1))
      && (ridx == 0 ==> reply == -1)
      && (ridx > 0 ==> reply == task[0].obj)
      && (ridx == -1 && reply >= 0 ==> Built(objs, reply, |objs|))
      && settled <= |objs| && (ridx > 0 ==> settled <= task[0].obj)
    }

    /** Whatever arrives next, emitted replies and what is still to come add up to
        what the grammar finds in the whole byte stream. */
    ghost predicate Faithful()
      requires Shape()
      reads this
    {
      Tracks(cfg, fed, emitted, Abstract())
    }

    /** Between calls no finished reply is held back. */
    ghost predicate Valid()
      reads this
    {
      Shape() && Faithful() && (ridx == -1 ==> reply == -1)
    }

    constructor (cfg: Config, maxbuf: nat)
      ensures Valid() && fed == "" && emitted == [] && this.cfg == cfg && err == None && settled == 0
    {
      this.cfg, this.maxbuf := cfg, maxbuf;
      buf, pos, err, ridx, reply := "", 0, None, -1, -1;
      task := seq(REDIS_READER_STACK_SIZE, _ => Task(None, 0, 0, -1, -1));
      objs, frames, fed, emitted, settled := [], [], "", [], 0;
      new;
      forall t ensures Stream(cfg, fed + t) == Then(emitted, Future(cfg, Abstract(), t)) {
        assert fed + t == t && buf[pos..] + t == t;
      }
    }

    /** __redisReaderSetError: drops the partial reply and the input, for good. */
    method SetError(e: Error)
      requires |task| > 0 && settled <= |objs|
      modifies this`reply, this`buf, this`pos, this`ridx, this`err, this`frames
      ensures Shape() && err == Some(e) && Abstract() == Dead(e)
    {
      reply, buf, pos, ridx, err := -1, "", 0, -1, Some(e);
      frames := [];
    }

    /** moveToNextTask. The innermost element is finished: its object is `h`, its value `v`. */
    method MoveToNextTask(ghost h: int, ghost v: Reply, ghost rest: string)
      requires 0 <= ridx == |frames| && Chain(task, objs, frames, h)
      requires Built(objs, h, |objs|) && ValueOf(objs, h, |objs|) == v
      modifies this`ridx, this`task, this`frames
      ensures |task| == old(|task|)
      ensures match Deliver(old(frames), v, rest)
              case Holding(r, s) =>
                s == rest && ridx == -1 && frames == []
                && var root := if old(ridx) == 0 then h else old(task[0].obj);
                Built(objs, root, |objs|) && ValueOf(objs, root, |objs|) == r
              case Running(fs, p, s) =>
                p == None && s == rest && 0 < ridx == |frames| && fs == frames
                && Chain(task, objs, frames, -1) && task[ridx].kind == None
                && old(ridx) > 0 && task[0].obj == old(task[0].obj)
              case Dead(_) => false
    {
      ghost var top, val := h, v;
      while ridx >= 0
        invariant 0 <= ridx == |frames| && task == old(task)
        invariant Chain(task, objs, frames, top) && Built(objs, top, |objs|) && ValueOf(objs, top, |objs|) == val
        invariant ridx < old(ridx) ==> top == task[ridx].obj
        invariant ridx == old(ridx) ==> top == h
        invariant Deliver(frames, val, rest) == Deliver(old(frames), v, rest)
      {
        if ridx == 0 {
          ridx := ridx - 1;
          return;
        }
        var full := LastSlot(top);
        if full {
          top, val := PopTask(top, val);
        } else {
          NextTask(top, val);
          return;
        }
      }
    }

    /** Whether the current task fills the last slot of its parent. */
    method LastSlot(ghost top: int) returns (full: bool)
      requires 0 < ridx == |frames| && Chain(task, objs, frames, top)
      ensures full <==> var f := frames[ridx - 1]; |f.front| + 1 == f.total
    {
      assert Linked(task, objs, ridx, ridx - 1, frames[ridx - 1], top);
      var cur, prv := task[ridx], task[ridx - 1];
      assert IsAggregate(prv.kind.value) && cur.idx < prv.elements;
      full := cur.idx == prv.elements - 1;
    }

    /** The parent is full: it becomes the finished element. */
    method PopTask(ghost top: int, ghost val: Reply) returns (ghost top': int, ghost val': Reply)
      requires 0 < ridx == |frames| && Chain(task, objs, frames, top)
      requires Built(objs, top, |objs|) && ValueOf(objs, top, |objs|) == val
      requires var f := frames[ridx - 1]; |f.front| + 1 == f.total
      modifies this`ridx, this`frames
      ensures 0 <= ridx == |frames| == old(ridx) - 1 && frames == old(frames)[..ridx]
      ensures top' == task[ridx].obj && val' == Aggregate(old(frames)[ridx].kind, old(frames)[ridx].front + [val])
      ensures Chain(task, objs, frames, top') && Built(objs, top', |objs|) && ValueOf(objs, top', |objs|) == val'
    {
      FullCloses(task, objs, frames, top, val);
      ghost var f := frames[ridx - 1];
      top', val' := task[ridx - 1].obj, Aggregate(f.kind, f.front + [val]);
      frames := frames[..ridx - 1];
      ridx := ridx - 1;
    }

    /** The parent has another slot: the task stays and is reset for it. */
    method NextTask(ghost top: int, ghost val: Reply)
      requires 0 < ridx == |frames| && Chain(task, objs, frames, top)
      requires Built(objs, top, |objs|) && ValueOf(objs, top, |objs|) == val
      requires var f := frames[ridx - 1]; |f.front| + 1 != f.total
      modifies this`task, this`frames
      ensures var f := old(frames)[ridx - 1];
              ridx == |frames| && frames == old(frames)[..ridx - 1] + [Frame(f.kind, f.total, f.front + [val])]
      ensures |task| == old(|task|) && Chain(task, objs, frames, -1) && task[ridx].kind == None
      ensures task[0].obj == old(task[0].obj)
    {
      assert Linked(task, objs, ridx, ridx - 1, frames[ridx - 1], top);
      ghost var f, cur := frames[ridx - 1], task[ridx];
      NextSlot(task, task[ridx := Task(None, -1, cur.idx + 1, cur.obj, cur.parent)], objs, frames, top, val);
      task := task[ridx := task[ridx].(kind := None, elements := -1, idx := task[ridx].idx + 1)];
      frames := frames[..ridx - 1] + [Frame(f.kind, f.total, f.front + [val])];
    }

    /** createStringObject, createIntegerObject, ...: a leaf, stored in the parent's slot. */
    method CreateObject(o: Obj) returns (h: int)
      requires 0 <= ridx == |frames| && Chain(task, objs, frames, -1)
      requires settled <= |objs| && (ridx > 0 ==> settled <= task[0].obj)
      modifies this`objs
      ensures h == old(|objs|) && |objs| == h + 1 && objs[h] == o && Chain(task, objs, frames, h)
      ensures objs[..settled] == old(objs)[..settled]
    {
      if ridx > 1 { ObjsIncrease(task, objs, frames, -1, 0); }
      CreateKeepsChain(task, objs, frames, o);
      assert ridx > 0 ==> Linked(task, objs, ridx, ridx - 1, frames[ridx - 1], -1);
      h := |objs|;
      objs := objs + [o];
      if ridx > 0 {
        var parent := task[task[ridx].parent].obj;
        objs := objs[parent := ArrayObj(objs[parent].kind, objs[parent].element[task[ridx].idx := h])];
      }
    }

    /** readLine: the bytes before the next CRLF, consuming both. */
    method ReadLine() returns (line: Option<string>)
      requires pos <= |buf|
      modifies this`pos
      ensures pos <= |buf|
      ensures match LineEnd(old(buf[pos..]))
              case None => line == None && pos == old(pos)
              case Some(n) => line == Some(old(buf[pos..])[..n]) && pos == old(pos) + n + 2
    {
      var p := buf[pos..];
      var s := SeekNewline(p);
      if s < 0 { return None; }
      line := Some(p[..s]);
      pos := pos + s + 2;
    }

    /** The state an item handler of kind `k` starts from. */
    ghost predicate AtItem(k: Kind)
      reads this
    {
      Shape() && err == None && ridx >= 0 && task[ridx].kind == Some(k)
    }

    /** processLineItem */
    method ProcessLineItem(k: Kind) returns (ok: bool)
      requires AtItem(k) && !IsAggregate(k) && k != STRING && k != VERB
      modifies this`buf, this`pos, this`err, this`task, this`ridx, this`objs, this`reply, this`frames
      ensures Shape() && Abstract() == Step(cfg, old(frames), k, old(buf[pos..]))
      ensures ok <==> err == None && Body(cfg, k, old(buf[pos..])) != More
      ensures ok && ridx == -1 ==> reply >= 0
      ensures |buf| - pos <= old(|buf| - pos) && (ok ==> |buf| - pos < old(|buf| - pos))
      ensures objs[..settled] == old(objs)[..settled]
    {
      var item := TakeLine(k);
      ok := Complete(k, item, old(buf[pos..]));
    }

    method TakeLine(k: Kind) returns (item: Item)
      requires pos <= |buf| && !IsAggregate(k) && k != STRING && k != VERB
      modifies this`pos
      ensures item == Body(cfg, k, old(buf[pos..])) && Consumed(item, old(pos)) && !item.Open?
    {
      ghost var s := buf[pos..];
      var line := ReadLine();
      if line == None { return More; }
      item := ReadLineValue(k, line.value);
      BodyByKind(cfg, k, s);
    }

    /** A complete item has been skipped, an incomplete one has not. */
    ghost predicate Consumed(item: Item, before: nat)
      reads this
    {
      && before <= pos <= |buf|
      && (item.More? ==> pos == before)
      && (item.Leaf? || item.Open? ==> pos == before + item.n && item.n > 0)
    }

    /** What every handler does with the item it read: fail, wait, store a leaf or open
        an aggregate. */
    method Complete(k: Kind, item: Item, ghost s: string) returns (ok: bool)
      requires AtItem(k) && (item.Open? ==> IsAggregate(k) && ridx + 1 < |task|)
      requires item.Leaf? || item.Open? ==> item.n <= |s| && s[item.n..] == buf[pos..]
      requires item.More? ==> s == buf[pos..]
      modifies this`buf, this`pos, this`err, this`task, this`ridx, this`objs, this`reply, this`frames
      ensures Shape() && Abstract() == ItemStep(old(frames), k, item, s)
      ensures ok <==> err == None && !item.More?
      ensures ok && ridx == -1 ==> reply >= 0
      ensures err == None ==> buf == old(buf) && pos == old(pos)
      ensures objs[..settled] == old(objs)[..settled]
    {
      match item
      case More => ok := false;
      case Bad(e) => SetError(e); ok := false;
      case Leaf(v, n) => StoreLeaf(v); ok := true;
      case Open(count, n) => OpenAggregate(k, count, ridx == 0); ok := true;
    }

    /** The checks of processLineItem, type by type. */
    method ReadLineValue(k: Kind, line: string) returns (item: Item)
      ensures item == LineItem(cfg, k, line)
      ensures item.Bad? || (item.Leaf? && item.n == |line| + 2)
    {
      if k == INTEGER {
        var v := String2ll(line);
        if v == None { return Bad(BadInteger); }
        item := Leaf(Integer(v.value), |line| + 2);
      } else if k == DOUBLE {
        if |line| >= 326 { return Bad(DoubleTooLarge); }
        if !DoubleText(cfg, line) { return Bad(BadDouble); }
        item := Leaf(Double(line), |line| + 2);
      } else if k == NIL {
        if |line| != 0 { return Bad(BadNil); }
        item := Leaf(Nil, |line| + 2);
      } else if k == BOOL {
        if |line| != 1 || line[0] !in "tTfF\0" { return Bad(BadBool); }
        item := Leaf(Bool(line[0] == 't' || line[0] == 'T'), |line| + 2);
      } else if k == BIGNUM {
        for i := 0 to |line|
          invariant forall j :: 0 <= j < i ==> IsDigit(line[j]) || (j == 0 && line[j] == '-')
        {
          if i == 0 && line[0] == '-' { continue; }
          if line[i] < '0' || line[i] > '9' { return Bad(BadBignum); }
        }
        item := Leaf(Text(BIGNUM, line), |line| + 2);
      } else {
        for i := 0 to |line|
          invariant forall j :: 0 <= j < i ==> line[j] != '\r' && line[j] != '\n'
        {
          if line[i] == '\r' || line[i] == '\n' { return Bad(BadSimpleString); }
        }
        item := Leaf(Text(k, line), |line| + 2);
      }
    }

    /** An element without children: create the object, make it the reply when it is the
        root, and move on. */
    method StoreLeaf(value: Reply)
      requires Shape() && err == None && ridx >= 0
      modifies this`task, this`ridx, this`objs, this`reply, this`frames
      ensures Shape() && Abstract() == Deliver(old(frames), value, buf[pos..])
      ensures ridx == -1 ==> reply >= 0
      ensures objs[..settled] == old(objs)[..settled]
    {
      var obj := CreateObject(LeafObj(value));
      if ridx == 0 { reply := obj; }
      MoveToNextTask(obj, value, buf[pos..]);
    }

    /** processBulkItem: consumes nothing until the whole item is in the buffer. */
    method ProcessBulkItem(k: Kind) returns (ok: bool)
      requires AtItem(k) && (k == STRING || k == VERB)
      modifies this`buf, this`pos, this`err, this`task, this`ridx, this`objs, this`reply, this`frames
      ensures Shape() && Abstract() == Step(cfg, old(frames), k, old(buf[pos..]))
      ensures ok <==> err == None && Body(cfg, k, old(buf[pos..])) != More
      ensures ok && ridx == -1 ==> reply >= 0
      ensures |buf| - pos <= old(|buf| - pos) && (ok ==> |buf| - pos < old(|buf| - pos))
      ensures objs[..settled] == old(objs)[..settled]
    {
      var item := TakeBulk(k);
      ok := Complete(k, item, old(buf[pos..]));
    }

    method TakeBulk(k: Kind) returns (item: Item)
      requires pos <= |buf| && (k == STRING || k == VERB)
      modifies this`pos
      ensures item == Body(cfg, k, old(buf[pos..])) && Consumed(item, old(pos)) && !item.Open?
    {
      var p := buf[pos..];
      var n := SeekNewline(p);
      if n < 0 { return More; }
      item := ReadBulkValue(k, n, p);
      BodyByKind(cfg, k, p);
      if item.Leaf? { pos := pos + item.n; }
    }

    /** The length and content checks of processBulkItem; the length line ends at p[n]. */
    method ReadBulkValue(k: Kind, n: nat, p: string) returns (item: Item)
      requires n + 2 <= |p|
      ensures item == BulkItem(k, n, p) && !item.Open?
    {
      var bytelen := n + 2;
      var l := String2ll(p[..n]);
      if l == None { return Bad(BadBulkLength); }
      var len := l.value;
      if len < -1 { return Bad(BulkLengthOutOfRange); }
      if len == -1 { return Leaf(Nil, bytelen); }
      bytelen := bytelen + len + 2;
      if bytelen > |p| { return More; }
      var str := p[n + 2..n + 2 + len];
      if k == VERB && (len < 4 || p[n + 5] != ':') { return Bad(BadVerbatim); }
      item := Leaf(if k == VERB then Verb(str[..3], str[4..]) else Text(k, str), bytelen);
    }

    /** redisReaderGrow */
    method Grow()
      requires Shape() && err == None && ridx >= 0
      modifies this`task
      ensures Shape() && |task| == old(|task|) + REDIS_READER_STACK_SIZE
      ensures forall i :: 0 <= i < old(|task|) ==> task[i] == old(task[i])
    {
      ghost var before := task;
      task := task + seq(REDIS_READER_STACK_SIZE, _ => Task(None, 0, 0, 0, -1));
      forall i | 0 <= i < |frames|
        ensures Linked(task, objs, |frames|, i, frames[i], -1)
      {
        assert Linked(before, objs, |frames|, i, frames[i], -1);
      }
    }

    /** processAggregateItem */
    method ProcessAggregateItem(k: Kind) returns (ok: bool)
      requires AtItem(k) && IsAggregate(k)
      modifies this`buf, this`pos, this`err, this`task, this`ridx, this`objs, this`reply, this`frames
      ensures Shape() && Abstract() == Step(cfg, old(frames), k, old(buf[pos..]))
      ensures ok <==> err == None && Body(cfg, k, old(buf[pos..])) != More
      ensures ok && ridx == -1 ==> reply >= 0
      ensures |buf| - pos <= old(|buf| - pos) && (ok ==> |buf| - pos < old(|buf| - pos))
      ensures objs[..settled] == old(objs)[..settled]
    {
      if ridx == |task| - 1 { Grow(); }
      var item := TakeAggregate(k);
      ok := Complete(k, item, old(buf[pos..]));
    }

    method TakeAggregate(k: Kind) returns (item: Item)
      requires pos <= |buf| && IsAggregate(k)
      modifies this`pos
      ensures item == Body(cfg, k, old(buf[pos..])) && Consumed(item, old(pos))
    {
      ghost var s := buf[pos..];
      var line := ReadLine();
      if line == None { return More; }
      item := ReadCount(k, line.value);
      BodyByKind(cfg, k, s);
    }

    /** The element count checks of processAggregateItem; -1 is a nil leaf. */
    method ReadCount(k: Kind, line: string) returns (item: Item)
      ensures item == AggregateItem(cfg, k, line)
      ensures || item.Bad?
              || (item.Leaf? && item.reply == Nil && item.n == |line| + 2)
              || (item.Open? && item.n == |line| + 2)
    {
      var n := String2ll(line);
      if n == None { return Bad(BadMultiBulkLength); }
      var elements := n.value;
      if elements < -1 || (cfg.maxElements > 0 && elements > cfg.maxElements) {
        return Bad(MultiBulkLengthOutOfRange);
      }
      if elements == -1 { return Leaf(Nil, |line| + 2); }
      if k == MAP || k == ATTR { elements := elements * 2; }
      item := Open(elements, |line| + 2);
    }

    /** Creates the aggregate and enters it, or completes it at once when it is empty. */
    method OpenAggregate(k: Kind, elements: nat, root: bool)
      requires AtItem(k) && IsAggregate(k) && ridx + 1 < |task| && root == (ridx == 0)
      modifies this`task, this`ridx, this`objs, this`reply, this`frames
      ensures Shape()
      ensures Abstract() == if elements > 0 then Running(old(frames) + [Frame(k, elements, [])], None, buf[pos..])
                            else Deliver(old(frames), Aggregate(k, []), buf[pos..])
      ensures ridx == -1 ==> reply >= 0
      ensures objs[..settled] == old(objs)[..settled]
    {
      var obj := CreateObject(ArrayObj(k, seq(elements, _ => -1)));
      if elements > 0 {
        Push(k, elements, obj);
      } else {
        assert ValueOf(objs, obj, |objs|) == Aggregate(k, []);
        MoveToNextTask(obj, Aggregate(k, []), buf[pos..]);
      }
      if root { reply := obj; }
    }

    /** The part of processAggregateItem that enters a non-empty aggregate. */
    method Push(k: Kind, elements: nat, obj: int)
      requires 0 <= ridx == |frames| && ridx + 1 < |task| && Chain(task, objs, frames, obj)
      requires 0 <= obj == |objs| - 1 && elements > 0 && IsAggregate(k)
      requires task[ridx].kind == Some(k) && objs[obj] == ArrayObj(k, seq(elements, _ => -1))
      modifies this`task, this`ridx, this`frames
      ensures frames == old(frames) + [Frame(k, elements, [])] && ridx == old(ridx) + 1 < |task|
      ensures Chain(task, objs, frames, -1) && task[ridx].kind == None
      ensures task[0].obj == if old(ridx) == 0 then obj else old(task[0].obj)
    {
      ghost var before, n := task, ridx;
      task := task[ridx := task[ridx].(elements := elements, obj := obj)];
      ridx := ridx + 1;
      task := task[ridx := Task(None, -1, 0, -1, ridx - 1)];
      assert task == before[n := before[n].(kind := Some(k), elements := elements, obj := obj)]
                           [n + 1 := Task(None, -1, 0, -1, n)];
      Descend(before, task, objs, frames, k, elements, obj);
      frames := frames + [Frame(k, elements, [])];
    }

    /** processItem: read the type byte unless it was read before, then the item. */
    method ProcessItem() returns (ok: bool)
      requires Shape() && err == None && ridx >= 0
      modifies this`buf, this`pos, this`err, this`task, this`ridx, this`objs, this`reply, this`frames
      ensures Shape() && SameFuture(cfg, old(Abstract()), Abstract())
      ensures |buf| - pos <= old(|buf| - pos) && (ok ==> err == None && |buf| - pos < old(|buf| - pos))
      ensures !ok && err == None ==> ridx >= 0 && Future(cfg, Abstract(), "") == Outcome([], None)
      ensures ok && ridx == -1 ==> reply >= 0
      ensures objs[..settled] == old(objs)[..settled]
    {
      if task[ridx].kind == None {
        ok := ReadType();
        if !ok { return; }
      }
      var k := task[ridx].kind.value;
      ItemFuture(cfg, frames, k, buf[pos..], task, objs);
      if IsAggregate(k) {
        ok := ProcessAggregateItem(k);
      } else if k == STRING || k == VERB {
        ok := ProcessBulkItem(k);
      } else {
        ok := ProcessLineItem(k);
      }
    }

    /** The switch over the type byte in processItem. */
    method ReadType() returns (ok: bool)
      requires Shape() && err == None && ridx >= 0 && task[ridx].kind == None
      modifies this`buf, this`pos, this`err, this`task, this`ridx, this`reply, this`frames
      ensures Shape() && SameFuture(cfg, old(Abstract()), Abstract())
      ensures |buf| - pos <= old(|buf| - pos)
      ensures ok ==> err == None && ridx == old(ridx) && task[ridx].kind.Some?
      ensures !ok && err == None ==> ridx >= 0 && Future(cfg, Abstract(), "") == Outcome([], None)
    {
      ghost var s := buf[pos..];
      if pos == |buf| {
        StuckFuture(cfg, frames, None, s);
        return false;
      }
      forall t { TypeByteRefines(cfg, frames, s, t); }
      var kind := KindOfByte(buf[pos]);
      if kind == None {
        SetError(BadTypeByte(buf[pos]));
        return false;
      }
      SetKind(kind.value);
      pos := pos + 1;
      assert buf[pos..] == s[1..];
      ok := true;
    }

    method SetKind(k: Kind)
      requires Shape() && err == None && ridx >= 0
      modifies this`task
      ensures Shape() && task == old(task)[ridx := old(task)[ridx].(kind := Some(k))]
    {
      ghost var before := task;
      task := task[ridx := task[ridx].(kind := Some(k))];
      forall i | 0 <= i < |frames|
        ensures Linked(task, objs, |frames|, i, frames[i], -1)
      {
        assert Linked(before, objs, |frames|, i, frames[i], -1);
      }
    }

    /** redisReaderFeed. `drop` is whether the unused buffer is larger than maxbuf. */
    method Feed(chunk: string, drop: bool) returns (ok: bool)
      requires Valid()
      modifies this`buf, this`pos, this`fed
      ensures Valid() && fed == old(fed) + chunk && ok == (err == None)
    {
      FeedingTracks(cfg, fed, emitted, Abstract(), chunk);
      ok := Append(chunk, drop);
      fed := fed + chunk;
    }

    method Append(chunk: string, drop: bool) returns (ok: bool)
      requires Shape()
      modifies this`buf, this`pos
      ensures Shape() && Abstract() == Extend(old(Abstract()), chunk) && ok == (err == None)
    {
      ghost var rest := buf[pos..];
      if err.Some? { return false; }
      if |chunk| >= 1 {
        if |buf| == 0 && maxbuf != 0 && drop {
          buf, pos := "", 0;
        }
        buf := buf + chunk;
      }
      assert buf[pos..] == rest + chunk;
      ok := true;
    }

    /** The item loop of redisReaderGetReply. */
    method ProcessItems()
      requires Shape() && err == None && ridx >= 0
      modifies this`buf, this`pos, this`err, this`task, this`ridx, this`objs, this`reply, this`frames
      ensures Shape() && SameFuture(cfg, old(Abstract()), Abstract())
      ensures |buf| - pos <= old(|buf| - pos) && (ridx == -1 && err == None ==> |buf| - pos < old(|buf| - pos))
      ensures err == None && ridx >= 0 ==> Future(cfg, Abstract(), "") == Outcome([], None)
      ensures err == None && ridx == -1 ==> reply >= 0
      ensures objs[..settled] == old(objs)[..settled]
    {
      while ridx >= 0
        invariant Shape() && err == None && SameFuture(cfg, old(Abstract()), Abstract())
        invariant |buf| - pos <= old(|buf| - pos) && (ridx == -1 ==> reply >= 0 && |buf| - pos < old(|buf| - pos))
        invariant objs[..settled] == old(objs)[..settled]
        decreases |buf| - pos
      {
        var more := ProcessItem();
        if !more { break; }
      }
    }

    /** redisReaderGetReply: the next reply as a handle into `objs`, or -1. When it returns
        no reply, `emitted` is all the grammar finds in the bytes fed so far. The objects of
        replies returned earlier are left alone. */
    method GetReply() returns (ok: bool, r: int)
      requires Valid()
      modifies this`buf, this`pos, this`err, this`task, this`ridx, this`objs, this`reply, this`frames, this`emitted,
               this`settled
      ensures Valid() && ok == (err == None)
      ensures old(settled) <= settled && objs[..old(settled)] == old(objs[..settled])
      ensures r >= 0 ==> ok && Built(objs, r, settled) && emitted == old(emitted) + [ValueOf(objs, r, settled)]
      ensures |buf| - pos <= old(|buf| - pos) && (r >= 0 ==> |buf| - pos < old(|buf| - pos))
      ensures r < 0 ==> r == -1 && emitted == old(emitted) && Stream(cfg, fed) == Outcome(emitted, err)
    {
      ok, r := err == None, -1;
      if err == None && |buf| > 0 {
        Start();
        ProcessItems();
        SameFutureTracks(cfg, fed, emitted, old(Abstract()), Abstract());
        ok := err == None;
        if ok {
          Compact();
          if ridx == -1 { r := Emit(); }
        }
      } else if err == None {
        NothingToRead();
      }
      if r < 0 { Exhausted(cfg, fed, emitted, Abstract()); }
    }

    /** An empty stack gets a root task. */
    method Start()
      requires Shape() && err == None && (ridx == -1 ==> reply == -1)
      modifies this`task, this`ridx
      ensures Shape() && ridx >= 0 && Abstract() == old(Abstract())
    {
      if ridx == -1 {
        task := task[0 := Task(None, -1, -1, -1, -1)];
        ridx := 0;
      }
    }

    /** Discards the consumed part of the buffer once it is at least 1k: sdsrange(buf,pos,-1). */
    method Compact()
      requires Shape()
      modifies this`buf, this`pos
      ensures Shape() && Abstract() == old(Abstract()) && |buf| - pos == old(|buf| - pos)
    {
      if pos >= 1024 {
        buf, pos := buf[pos..], 0;
      }
    }

    lemma NothingToRead()
      requires Shape() && err == None && |buf| == 0 && (ridx == -1 ==> reply == -1)
      ensures Future(cfg, Abstract(), "") == Outcome([], None)
    {
      StuckFuture(cfg, frames, if ridx >= 0 then task[ridx].kind else None, "");
    }

    /** Hands the finished reply to the caller. */
    method Emit() returns (r: int)
      requires Shape() && Faithful() && err == None && ridx == -1 && reply >= 0
      modifies this`reply, this`emitted, this`settled
      ensures Valid() && r >= 0 && settled == |objs| && Built(objs, r, settled)
      ensures emitted == old(emitted) + [ValueOf(objs, r, settled)]
    {
      r := reply;
      ghost var v := ValueOf(objs, r, |objs|);
      EmittingTracks(cfg, fed, emitted, v, buf[pos..]);
      reply := -1;
      emitted, settled := emitted + [v], |objs|;
    }
  }

  function Then(front: seq<Reply>, o: Outcome): Outcome {
    Outcome(front + o.replies, o.failure)
  }

  /** The bytes `chunk` appended to the unread input of a state. */
  function Extend(st: State, chunk: string): State {
    match st
    case Running(frames, pending, rest) => Running(frames, pending, rest + chunk)
    case Holding(v, rest) => Holding(v, rest + chunk)
    case Dead(e) => Dead(e)
  }

  /** Reading an item does not change the future; an item that cannot be read yet has none. */
  lemma ItemFuture(cfg: Config, frames: seq<Frame>, k: Kind, rest: string, task: seq<Task>, objs: seq<Obj>)
    requires Chain(task, objs, frames, -1)
    ensures SameFuture(cfg, Running(frames, Some(k), rest), Step(cfg, frames, k, rest))
    ensures Body(cfg, k, rest) == More ==> Future(cfg, Running(frames, Some(k), rest), "") == Outcome([], None)
  {
    ChainOpens(task, objs, frames, -1);
    forall t { StepRefines(cfg, frames, k, rest, t); }
    if Body(cfg, k, rest) == More { StuckFuture(cfg, frames, Some(k), rest); }
  }

  ghost predicate SameFuture(cfg: Config, a: State, b: State) {
    forall t :: Future(cfg, a, t) == Future(cfg, b, t)
  }

  /** Whatever bytes arrive next, what was emitted and what state `st` still delivers
      add up to what the grammar finds in the whole stream. */
  ghost predicate Tracks(cfg: Config, fed: string, emitted: seq<Reply>, st: State) {
    forall t :: Stream(cfg, fed + t) == Then(emitted, Future(cfg, st, t))
  }

  /** A state with nothing more to deliver: the emitted replies are all there are. */
  lemma Exhausted(cfg: Config, fed: string, emitted: seq<Reply>, st: State)
    requires Tracks(cfg, fed, emitted, st) && (!st.Dead? ==> Future(cfg, st, "") == Outcome([], None))
    ensures Stream(cfg, fed) == Outcome(emitted, if st.Dead? then Some(st.error) else None)
  {
    assert fed + "" == fed;
    assert Stream(cfg, fed + "") == Then(emitted, Future(cfg, st, ""));
  }

  lemma SameFutureTracks(cfg: Config, fed: string, emitted: seq<Reply>, a: State, b: State)
    requires Tracks(cfg, fed, emitted, a) && SameFuture(cfg, a, b)
    ensures Tracks(cfg, fed, emitted, b)
  {}

  /** Feeding moves bytes from the future into the buffer. */
  lemma FeedingTracks(cfg: Config, fed: string, emitted: seq<Reply>, st: State, chunk: string)
    requires Tracks(cfg, fed, emitted, st)
    ensures Tracks(cfg, fed + chunk, emitted, Extend(st, chunk))
  {
    forall t ensures Stream(cfg, fed + chunk + t) == Then(emitted, Future(cfg, Extend(st, chunk), t)) {
      assert fed + (chunk + t) == fed + chunk + t;
      assert Stream(cfg, fed + (chunk + t)) == Then(emitted, Future(cfg, st, chunk + t));
      match st
      case Running(_, _, rest) => assert rest + (chunk + t) == rest + chunk + t;
      case Holding(_, rest) => assert rest + (chunk + t) == rest + chunk + t;
      case Dead(_) =>
    }
  }

  /** Returning a finished reply moves it from the future to the emitted ones. */
  lemma EmittingTracks(cfg: Config, fed: string, emitted: seq<Reply>, v: Reply, rest: string)
    requires Tracks(cfg, fed, emitted, Holding(v, rest))
    ensures Tracks(cfg, fed, emitted + [v], Running([], None, rest))
  {
    forall t ensures Stream(cfg, fed + t) == Then(emitted + [v], Future(cfg, Running([], None, rest), t)) {
      assert Stream(cfg, fed + t) == Then(emitted, Future(cfg, Holding(v, rest), t));
    }
  }

  function Concat(chunks: seq<string>): string {
    if chunks == [] then "" else Concat(chunks[..|chunks| - 1]) + chunks[|chunks| - 1]
  }

  /** The handles stand for the replies. */
  ghost predicate Handed(objs: seq<Obj>, handles: seq<int>, replies: seq<Reply>, hi: int) {
    && |handles| == |replies|
    && forall i :: 0 <= i < |handles| ==> Built(objs, handles[i], hi) && ValueOf(objs, handles[i], hi) == replies[i]
  }

  /** They go on doing so while objects are only added. */
  lemma HandedFrame(objs: seq<Obj>, objs': seq<Obj>, handles: seq<int>, replies: seq<Reply>, hi: nat, hi': int)
    requires Handed(objs, handles, replies, hi) && hi <= |objs| && hi <= hi' <= |objs'| && objs'[..hi] == objs[..hi]
    ensures Handed(objs', handles, replies, hi')
  {
    assert forall i :: 0 <= i < hi ==> objs'[i] == objs'[..hi][i] == objs[i];
    forall i | 0 <= i < |handles|
      ensures Built(objs', handles[i], hi') && ValueOf(objs', handles[i], hi') == replies[i]
    {
      BuiltFrame(objs, objs', handles[i], hi, hi');
    }
  }

  lemma HandedOne(objs: seq<Obj>, handles: seq<int>, replies: seq<Reply>, hi: int, h: int)
    requires Handed(objs, handles, replies, hi) && Built(objs, h, hi)
    ensures Handed(objs, handles + [h], replies + [ValueOf(objs, h, hi)], hi)
  {}

  /** The intended use: feed a chunk, then ask for replies until there is none. The replies
      and the final error are those of the whole byte stream, however it was cut, and at the
      end every handle is still the root of its complete reply. */
  method ReadAll(cfg: Config, maxbuf: nat, chunks: seq<string>, drop: nat -> bool)
    returns (reader: RedisReader, handles: seq<int>)
    ensures fresh(reader) && reader.Valid() && Handed(reader.objs, handles, reader.emitted, |reader.objs|)
    ensures Stream(cfg, Concat(chunks)) == Outcome(reader.emitted, reader.err)
  {
    reader := new RedisReader(cfg, maxbuf);
    handles := [];
    assert Stream(cfg, "") == Outcome([], None);
    for i := 0 to |chunks|
      invariant fresh(reader) && reader.Valid() && reader.cfg == cfg && reader.fed == Concat(chunks[..i])
      invariant Handed(reader.objs, handles, reader.emitted, reader.settled)
      invariant Stream(cfg, reader.fed) == Outcome(reader.emitted, reader.err)
    {
      var ok := reader.Feed(chunks[i], drop(i));
      assert chunks[..i + 1][..i] == chunks[..i];
      handles := Drain(reader, handles);
    }
    assert chunks[..|chunks|] == chunks;
    HandedFrame(reader.objs, reader.objs, handles, reader.emitted, reader.settled, |reader.objs|);
  }

  /** Asks for replies until there is none. */
  method Drain(reader: RedisReader, before: seq<int>) returns (handles: seq<int>)
    requires reader.Valid() && Handed(reader.objs, before, reader.emitted, reader.settled)
    modifies reader
    ensures reader.Valid() && reader.fed == old(reader.fed)
    ensures Handed(reader.objs, handles, reader.emitted, reader.settled)
    ensures Stream(reader.cfg, reader.fed) == Outcome(reader.emitted, reader.err)
  {
    handles := before;
    var more := true;
    while more
      invariant reader.Valid() && reader.fed == old(reader.fed)
      invariant Handed(reader.objs, handles, reader.emitted, reader.settled)
      invariant !more ==> Stream(reader.cfg, reader.fed) == Outcome(reader.emitted, reader.err)
      decreases |reader.buf| - reader.pos, more
    {
      ghost var objs, emitted, hi := reader.objs, reader.emitted, reader.settled;
      var ok, h := reader.GetReply();
      HandedFrame(objs, reader.objs, handles, emitted, hi, reader.settled);
      more := h >= 0;
      if more {
        HandedOne(reader.objs, handles, emitted, reader.settled, h);
        handles := handles + [h];
      }
    }
  }
}
