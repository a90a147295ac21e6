/** What a suspended parse stands for, and what the task stack and the reply objects
    of hiredis/read.c must look like for it. Reply objects live in an arena: a pointer
    is an index into `objs`, and -1 is NULL. */
module RespMachine {
  import opened Options
  import opened RespGrammar

  // ----- what a suspended parse stands for -----

  /** An aggregate under construction: `front` are its finished elements. */
  datatype Frame = Frame(kind: Kind, total: nat, front: seq<Reply>)

  /** Hands the parse of the current element to the enclosing aggregates. */
  function Finish(cfg: Config, frames: seq<Frame>, p: Parse<Reply>): Parse<Reply>
    decreases |frames|
  {
    if frames == [] then p
    else match p
      case Incomplete => Incomplete
      case Failed(e) => Failed(e)
      case Done(v, rest) =>
        var f, up := frames[|frames| - 1], frames[..|frames| - 1];
        if |f.front| >= f.total then Incomplete
        else Finish(cfg, up, Close(f.kind, f.front + [v], ParseMany(cfg, f.total - |f.front| - 1, rest)))
  }

  function Element(cfg: Config, pending: Option<Kind>, s: string): Parse<Reply> {
    match pending
    case None => ParseReply(cfg, s)
    case Some(k) => ParseBody(cfg, k, s)
  }

  /** A reader between two items: suspended inside a reply, holding a finished one, or failed. */
  datatype State =
    | Running(frames: seq<Frame>, pending: Option<Kind>, rest: string)
    | Holding(reply: Reply, rest: string)
    | Dead(error: Error)

  /** What the reader will still deliver when the bytes `t` arrive and nothing else. */
  function Future(cfg: Config, st: State, t: string): Outcome {
    match st
    case Running(frames, pending, rest) => After(cfg, Finish(cfg, frames, Element(cfg, pending, rest + t)))
    case Holding(v, rest) => After(cfg, Done(v, rest + t))
    case Dead(e) => Outcome([], Some(e))
  }

  /** Places a finished element in the innermost aggregate and closes those that become full. */
  function Deliver(frames: seq<Frame>, v: Reply, rest: string): State
    decreases |frames|
  {
    if frames == [] then Holding(v, rest)
    else
      var f, up := frames[|frames| - 1], frames[..|frames| - 1];
      if |f.front| + 1 == f.total then Deliver(up, Aggregate(f.kind, f.front + [v]), rest)
      else Running(up + [Frame(f.kind, f.total, f.front + [v])], None, rest)
  }

  predicate OpenFrames(frames: seq<Frame>) {
    forall i :: 0 <= i < |frames| ==> |frames[i].front| < frames[i].total
  }

  lemma {:induction false} FinishDelivers(cfg: Config, frames: seq<Frame>, v: Reply, rest: string)
    requires OpenFrames(frames)
    ensures match Deliver(frames, v, rest)
            case Holding(r, s) => s == rest && Finish(cfg, frames, Done(v, rest)) == Done(r, rest)
            case Running(fs, p, s) =>
              s == rest && p == None && OpenFrames(fs)
              && Finish(cfg, frames, Done(v, rest)) == Finish(cfg, fs, ParseReply(cfg, rest))
            case Dead(e) => false
    decreases |frames|
  {
    if frames != [] {
      var f, up := frames[|frames| - 1], frames[..|frames| - 1];
      if |f.front| + 1 == f.total {
        assert f.front + [v] + [] == f.front + [v];
        FinishDelivers(cfg, up, Aggregate(f.kind, f.front + [v]), rest);
      } else {
        FinishOpen(cfg, up, f, v, rest);
      }
    }
  }

  /** An element that does not fill its aggregate: the parse goes on with the next one. */
  lemma FinishOpen(cfg: Config, up: seq<Frame>, f: Frame, v: Reply, rest: string)
    requires |f.front| + 1 < f.total
    ensures var g := Frame(f.kind, f.total, f.front + [v]);
            Finish(cfg, up, Close(f.kind, f.front + [v], ParseMany(cfg, f.total - |f.front| - 1, rest)))
            == Finish(cfg, up + [g], ParseReply(cfg, rest))
  {
    var g, k := Frame(f.kind, f.total, f.front + [v]), f.total - |f.front| - 1;
    assert (up + [g])[..|up|] == up;
    match ParseReply(cfg, rest)
    case Done(w, rest') =>
      match ParseMany(cfg, k - 1, rest') {
        case Done(ws, _) => assert f.front + [v] + ([w] + ws) == g.front + [w] + ws;
        case _ =>
      }
    case Incomplete => FinishStuck(cfg, up, Incomplete);
    case Failed(e) => FinishStuck(cfg, up, Failed(e));
  }

  lemma FinishStuck(cfg: Config, frames: seq<Frame>, p: Parse<Reply>)
    requires !p.Done?
    ensures Finish(cfg, frames, p) == p
  {}

  /** Reading an aggregate header opens a frame. */
  lemma OpeningFrame(cfg: Config, frames: seq<Frame>, k: Kind, count: nat, s: string)
    requires count > 0
    ensures Finish(cfg, frames + [Frame(k, count, [])], ParseReply(cfg, s))
         == Finish(cfg, frames, Close(k, [], ParseMany(cfg, count, s)))
  {
    hide ParseReply;
    assert (frames + [Frame(k, count, [])])[..|frames|] == frames;
    match ParseReply(cfg, s)
    case Done(v, rest) =>
      match ParseMany(cfg, count - 1, rest) {
        case Done(vs, _) => assert [] + ([v] + vs) == [] + [v] + vs;
        case _ =>
      }
    case Incomplete => FinishStuck(cfg, frames, Incomplete);
    case Failed(e) => FinishStuck(cfg, frames, Failed(e));
  }

  /** One item of kind `k` read at the start of `s`: what the reader becomes. */
  function ItemStep(frames: seq<Frame>, k: Kind, item: Item, s: string): State
    requires item.Leaf? || item.Open? ==> item.n <= |s|
  {
    match item
    case More => Running(frames, Some(k), s)
    case Bad(e) => Dead(e)
    case Leaf(v, n) => Deliver(frames, v, s[n..])
    case Open(count, n) =>
      if count > 0 then Running(frames + [Frame(k, count, [])], None, s[n..])
      else Deliver(frames, Aggregate(k, []), s[n..])
  }

  /** It is what the grammar says, whatever bytes follow. */
  function Step(cfg: Config, frames: seq<Frame>, k: Kind, s: string): State {
    ItemStep(frames, k, Body(cfg, k, s), s)
  }

  lemma StepRefines(cfg: Config, frames: seq<Frame>, k: Kind, s: string, t: string)
    requires OpenFrames(frames)
    ensures Future(cfg, Running(frames, Some(k), s), t) == Future(cfg, Step(cfg, frames, k, s), t)
  {
    BodyParse(cfg, k, s, t);
    match Body(cfg, k, s)
    case More =>
    case Bad(e) => FinishStuck(cfg, frames, Failed(e));
    case Leaf(v, n) => DeliverRefines(cfg, frames, v, s[n..], t);
    case Open(count, n) =>
      if count > 0 {
        OpeningFrame(cfg, frames, k, count, s[n..] + t);
      } else {
        DeliverRefines(cfg, frames, Aggregate(k, []), s[n..], t);
      }
  }

  lemma BodyParse(cfg: Config, k: Kind, s: string, t: string)
    ensures var item := Body(cfg, k, s);
            && (item.Bad? ==> ParseBody(cfg, k, s + t) == Failed(item.error))
            && (item.Leaf? ==> ParseBody(cfg, k, s + t) == Done(item.reply, s[item.n..] + t))
            && (item.Open? && item.count == 0 ==> ParseBody(cfg, k, s + t) == Done(Aggregate(k, []), s[item.n..] + t))
            && (item.Open? && item.count > 0 ==>
                  ParseBody(cfg, k, s + t) == Close(k, [], ParseMany(cfg, item.count, s[item.n..] + t)))
  {
    var item := Body(cfg, k, s);
    if item != More { BodyStable(cfg, k, s, t); }
    if item.Leaf? || item.Open? { assert (s + t)[item.n..] == s[item.n..] + t; }
    var none: seq<Reply> := [];
    assert none + none == none;
  }

  lemma DeliverRefines(cfg: Config, frames: seq<Frame>, v: Reply, rest: string, t: string)
    requires OpenFrames(frames)
    ensures After(cfg, Finish(cfg, frames, Done(v, rest + t))) == Future(cfg, Deliver(frames, v, rest), t)
  {
    FinishDelivers(cfg, frames, v, rest + t);
    DeliverRest(frames, v, rest, rest + t);
  }

  lemma {:induction false} DeliverRest(frames: seq<Frame>, v: Reply, rest: string, rest': string)
    ensures match Deliver(frames, v, rest)
            case Running(fs, p, s) => p == None && s == rest && Deliver(frames, v, rest') == Running(fs, p, rest')
            case Holding(r, s) => s == rest && Deliver(frames, v, rest') == Holding(r, rest')
            case Dead(e) => false
    decreases |frames|
  {
    if frames != [] {
      var f := frames[|frames| - 1];
      DeliverRest(frames[..|frames| - 1], Aggregate(f.kind, f.front + [v]), rest, rest');
    }
  }

  /** Reading the type byte. */
  lemma TypeByteRefines(cfg: Config, frames: seq<Frame>, s: string, t: string)
    requires s != ""
    ensures match KindOfByte(s[0])
            case Some(k) => Future(cfg, Running(frames, None, s), t) == Future(cfg, Running(frames, Some(k), s[1..]), t)
            case None => Future(cfg, Running(frames, None, s), t) == Future(cfg, Dead(BadTypeByte(s[0])), t)
  {
    assert (s + t)[0] == s[0] && (s + t)[1..] == s[1..] + t;
    if KindOfByte(s[0]).None? { FinishStuck(cfg, frames, Failed(BadTypeByte(s[0]))); }
  }

  /** A reader that can make no step has delivered everything so far. */
  lemma StuckFuture(cfg: Config, frames: seq<Frame>, pending: Option<Kind>, s: string)
    requires if pending.Some? then Body(cfg, pending.value, s) == More else s == ""
    ensures Future(cfg, Running(frames, pending, s), "") == Outcome([], None)
  {
    assert s + "" == s;
    FinishStuck(cfg, frames, Incomplete);
  }

  // ----- reply objects in the arena -----

  datatype Obj = LeafObj(reply: Reply) | ArrayObj(kind: Kind, element: seq<int>)

  /** The object `h` and everything below it is filled in, using handles below `hi` only. */
  ghost predicate Built(objs: seq<Obj>, h: int, hi: int)
    decreases hi - h
  {
    0 <= h < hi <= |objs|
    && match objs[h]
       case LeafObj(_) => true
       case ArrayObj(_, el) => forall i :: 0 <= i < |el| ==> h < el[i] && Built(objs, el[i], hi)
  }

  ghost function ValueOf(objs: seq<Obj>, h: int, hi: int): Reply
    requires Built(objs, h, hi)
    decreases hi - h
  {
    match objs[h]
    case LeafObj(r) => r
    case ArrayObj(k, el) =>
      Aggregate(k, seq(|el|, i requires 0 <= i < |el| => ValueOf(objs, el[i], hi)))
  }

  lemma {:induction false} BuiltFrame(objs: seq<Obj>, objs': seq<Obj>, h: int, hi: int, hi': int)
    requires Built(objs, h, hi) && hi <= hi' <= |objs'|
    requires forall i :: h <= i < hi ==> objs'[i] == objs[i]
    ensures Built(objs', h, hi') && ValueOf(objs', h, hi') == ValueOf(objs, h, hi)
    decreases hi - h
  {
    if objs[h].ArrayObj? {
      var el := objs[h].element;
      forall i | 0 <= i < |el|
        ensures Built(objs', el[i], hi') && ValueOf(objs', el[i], hi') == ValueOf(objs, el[i], hi)
      {
        BuiltFrame(objs, objs', el[i], hi, hi');
      }
    }
  }

  /** A read task; `kind` None is the C type -1, `parent` is the index of the parent task. */
  datatype Task = Task(kind: Option<Kind>, elements: int, idx: int, obj: int, parent: int)

  /** What the slot the next task fills holds: the object opened below, or `top`. */
  function Below(task: seq<Task>, n: nat, i: nat, top: int): int
    requires n < |task| && i < n
  {
    if i + 1 < n then task[i + 1].obj else top
  }

  /** Task `i` is an open aggregate and represents frame `f`: parent is the task below,
      slots before the child's idx are complete, the child's slot holds the object being
      built (NULL while it does not exist yet), later slots are NULL. */
  ghost predicate Linked(task: seq<Task>, objs: seq<Obj>, n: nat, i: nat, f: Frame, top: int)
    requires n < |task| && i < n
  {
    var t, idx := task[i], task[i + 1].idx;
    var sub := Below(task, n, i, top);
    var bound := if sub < 0 then |objs| else sub;
    && t.kind == Some(f.kind) && IsAggregate(f.kind) && t.elements == f.total
    && task[i + 1].parent == i
    && 0 <= idx < t.elements && |f.front| == idx
    && 0 <= t.obj < bound <= |objs|
    && objs[t.obj].ArrayObj? && objs[t.obj].kind == f.kind
    && var el := objs[t.obj].element;
    && |el| == t.elements
    && el[idx] == sub
    && (forall k :: idx < k < |el| ==> el[k] == -1)
    && (forall k :: 0 <= k < idx ==>
          t.obj < el[k] && Built(objs, el[k], bound) && ValueOf(objs, el[k], bound) == f.front[k])
  }

  /** The whole task stack, with `top` the object of the innermost task (-1: none yet). */
  ghost predicate Chain(task: seq<Task>, objs: seq<Obj>, frames: seq<Frame>, top: int) {
    && |frames| < |task|
    && -1 <= top < |objs|
    && task[0].parent == -1
    && forall i :: 0 <= i < |frames| ==> Linked(task, objs, |frames|, i, frames[i], top)
  }

  /** Creating an object: allocate it and store it in the parent's slot. */
  function Create(task: seq<Task>, objs: seq<Obj>, n: nat, o: Obj): (r: seq<Obj>)
    requires n < |task|
    requires n > 0 ==> 0 <= task[n - 1].obj < |objs| && objs[task[n - 1].obj].ArrayObj?
                       && 0 <= task[n].idx < |objs[task[n - 1].obj].element|
    ensures |r| == |objs| + 1 && r[|objs|] == o
  {
    if n == 0 then objs + [o]
    else
      var p := task[n - 1].obj;
      (objs + [o])[p := ArrayObj(objs[p].kind, objs[p].element[task[n].idx := |objs|])]
  }

  lemma CreateKeepsChain(task: seq<Task>, objs: seq<Obj>, frames: seq<Frame>, o: Obj)
    requires Chain(task, objs, frames, -1)
    ensures |frames| > 0 ==> Linked(task, objs, |frames|, |frames| - 1, frames[|frames| - 1], -1)
    ensures Chain(task, Create(task, objs, |frames|, o), frames, |objs|)
  {
    var n := |frames|;
    assert n > 0 ==> Linked(task, objs, n, n - 1, frames[n - 1], -1);
    var objs' := Create(task, objs, n, o);
    forall i | 0 <= i < n
      ensures Linked(task, objs', n, i, frames[i], |objs|)
    {
      assert Linked(task, objs, n, i, frames[i], -1);
      var bound := if i + 1 < n then task[i + 1].obj else |objs|;
      if i + 1 < n {
        ObjsIncrease(task, objs, frames, -1, i);
        ObjsIncrease(task, objs, frames, -1, i + 1);
        assert Linked(task, objs, n, i + 1, frames[i + 1], -1);
      }
      var el := objs[task[i].obj].element;
      forall k | 0 <= k < task[i + 1].idx
        ensures Built(objs', el[k], bound) && ValueOf(objs', el[k], bound) == frames[i].front[k]
      {
        BuiltFrame(objs, objs', el[k], bound, bound);
      }
    }
  }

  /** Handles grow towards the innermost task. */
  lemma ObjsIncrease(task: seq<Task>, objs: seq<Obj>, frames: seq<Frame>, top: int, i: nat)
    requires Chain(task, objs, frames, top) && i < |frames|
    ensures forall j :: i < j < |frames| ==> task[i].obj < task[j].obj
    decreases |frames| - i
  {
    if i + 1 < |frames| {
      ObjsIncrease(task, objs, frames, top, i + 1);
      assert Linked(task, objs, |frames|, i, frames[i], top);
      assert Linked(task, objs, |frames|, i + 1, frames[i + 1], top);
      assert task[i].obj < task[i + 1].obj;
    }
  }

  /** The innermost aggregate is full: it is complete itself. */
  lemma FullCloses(task: seq<Task>, objs: seq<Obj>, frames: seq<Frame>, top: int, v: Reply)
    requires Chain(task, objs, frames, top) && |frames| > 0
    requires Built(objs, top, |objs|) && ValueOf(objs, top, |objs|) == v
    requires var f := frames[|frames| - 1]; |f.front| + 1 == f.total
    ensures var n, f := |frames|, frames[|frames| - 1];
            var h := task[n - 1].obj;
            && Built(objs, h, |objs|) && ValueOf(objs, h, |objs|) == Aggregate(f.kind, f.front + [v])
            && Chain(task, objs, frames[..n - 1], h)
  {
    var n, f := |frames|, frames[|frames| - 1];
    var h := task[n - 1].obj;
    assert Linked(task, objs, n, n - 1, f, top);
    var el := objs[h].element;
    forall k | 0 <= k < |el|
      ensures h < el[k] && Built(objs, el[k], |objs|) && ValueOf(objs, el[k], |objs|) == (f.front + [v])[k]
    {
      if k < |el| - 1 { BuiltFrame(objs, objs, el[k], top, |objs|); }
    }
    assert Built(objs, h, |objs|);
    assert ValueOf(objs, h, |objs|).elements == f.front + [v];
    var m, up := n - 1, frames[..n - 1];
    forall i | 0 <= i < m
      ensures Linked(task, objs, m, i, up[i], h)
    {
      assert Linked(task, objs, n, i, frames[i], top);
    }
  }

  /** The innermost aggregate is not full: move to its next slot. */
  lemma NextSlot(task: seq<Task>, task': seq<Task>, objs: seq<Obj>, frames: seq<Frame>, top: int, v: Reply)
    requires Chain(task, objs, frames, top) && |frames| > 0
    requires Built(objs, top, |objs|) && ValueOf(objs, top, |objs|) == v
    requires var f := frames[|frames| - 1]; |f.front| + 1 < f.total
    requires var n := |frames|; task' == task[n := Task(None, -1, task[n].idx + 1, task[n].obj, task[n].parent)]
    ensures var n, f := |frames|, frames[|frames| - 1];
            Chain(task', objs, frames[..n - 1] + [Frame(f.kind, f.total, f.front + [v])], -1)
  {
    var n, f := |frames|, frames[|frames| - 1];
    var frames' := frames[..n - 1] + [Frame(f.kind, f.total, f.front + [v])];
    forall i | 0 <= i < n
      ensures Linked(task', objs, n, i, frames'[i], -1)
    {
      assert Linked(task, objs, n, i, frames[i], top);
      if i == n - 1 {
        var el := objs[task[i].obj].element;
        forall k | 0 <= k < task[n].idx
          ensures Built(objs, el[k], |objs|) && ValueOf(objs, el[k], |objs|) == f.front[k]
        {
          BuiltFrame(objs, objs, el[k], top, |objs|);
        }
      }
    }
  }

  /** A fresh non-empty aggregate was created for the innermost task: descend into it. */
  lemma Descend(task: seq<Task>, task': seq<Task>, objs: seq<Obj>, frames: seq<Frame>, k: Kind, count: nat, h: int)
    requires Chain(task, objs, frames, h) && 0 <= h == |objs| - 1
    requires count > 0 && IsAggregate(k) && objs[h] == ArrayObj(k, seq(count, _ => -1))
    requires |frames| + 1 < |task|
    requires var n := |frames|;
             task' == task[n := task[n].(kind := Some(k), elements := count, obj := h)]
                          [n + 1 := Task(None, -1, 0, -1, n)]
    ensures Chain(task', objs, frames + [Frame(k, count, [])], -1)
  {
    var n := |frames|;
    forall i | 0 <= i < n + 1
      ensures Linked(task', objs, n + 1, i, (frames + [Frame(k, count, [])])[i], -1)
    {
      if i < n { assert Linked(task, objs, n, i, frames[i], h); }
    }
  }

  lemma ChainOpens(task: seq<Task>, objs: seq<Obj>, frames: seq<Frame>, top: int)
    requires Chain(task, objs, frames, top)
    ensures OpenFrames(frames)
  {
    forall i | 0 <= i < |frames|
      ensures |frames[i].front| < frames[i].total
    {
      assert Linked(task, objs, |frames|, i, frames[i], top);
    }
  }
}
