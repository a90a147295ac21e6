/** The asynchronous client of hiredis/async.c: two queues of pending callbacks, the
    subscription dictionaries, the connection flags, and the ways a connection ends. */
module Async {
  import opened Options
  import opened Ascii

  /** `fn` tells whether the function pointer is set; `privdata` identifies the command. */
  datatype Callback = Callback(privdata: int, fn: bool, pendingSubs: int, unsubscribeSent: bool)

  /** What user code does inside a callback. The first argument of a command is its name;
      `size` is the length of the formatted command. */
  datatype Action =
    | Send(name: string, args: seq<string>, fn: bool, privdata: int, size: nat)
    | Disconnect
    | Free

  datatype Kind = Array | Push | Error | Other

  /** A reply; `first` and `second` are the first two elements where those are strings,
      `count` the third where that is an integer. */
  datatype Reply = Reply(kind: Kind, elements: nat, first: Option<string>, second: Option<string>, count: Option<int>,
      id: int)

  /** What happens to callbacks and replies, in order. */
  datatype Event =
    | Answer(cb: Callback, reply: Reply)    // a queued callback got its reply
    | Abandon(cb: Callback)                 // a queued callback ran with NULL
    | Message(cb: Callback, reply: Reply)   // a subscription callback got a message
    | Ended(cb: Callback)                   // a subscription callback ran with NULL
    | Dropped(reply: Reply)                 // a reply for which there is no callback
    | Spontaneous(reply: Reply)             // a push message for the push handler
    | Refused(reply: Reply)                 // an error reply that closes the connection
    | Aborted(reply: Reply)                 // an assertion of the C code failed
    | Connected(ok: bool)                   // the connect callback
    | Disconnected(ok: bool)                // the disconnect callback
    | Freed

  /** The callbacks taken from the queues, in order. */
  function Taken(log: seq<Event>): seq<Callback> {
    if log == [] then []
    else
      var e := log[|log| - 1];
      Taken(log[..|log| - 1]) + if e.Answer? || e.Abandon? then [e.cb] else []
  }

  lemma TakenOne(log: seq<Event>, e: Event)
    ensures Taken(log + [e]) == Taken(log) + if e.Answer? || e.Abandon? then [e.cb] else []
  {
    assert (log + [e])[..|log|] == log;
  }

  /** The replies read from the connection, in order. */
  function Consumed(log: seq<Event>): seq<Reply> {
    if log == [] then []
    else
      var e := log[|log| - 1];
      Consumed(log[..|log| - 1])
      + if e.Answer? || e.Message? || e.Dropped? || e.Spontaneous? || e.Refused? || e.Aborted? then [e.reply] else []
  }

  lemma ConsumedOne(log: seq<Event>, e: Event)
    ensures Consumed(log + [e]) == Consumed(log)
      + if e.Answer? || e.Message? || e.Dropped? || e.Spontaneous? || e.Refused? || e.Aborted? then [e.reply] else []
  {
    assert (log + [e])[..|log|] == log;
  }

  // ----- command names -----

  /** A leading p or P, which is skipped whatever the command is. */
  predicate PVariant(name: string) {
    |name| > 0 && Lower(name[0]) == 'p'
  }

  function BaseName(name: string): string {
    if PVariant(name) then name[1..] else name
  }

  /** strncasecmp of the argument and the line end behind it with `what` and a line end. */
  predicate Is(name: string, what: string) {
    var line := LowerAll(BaseName(name)) + "\r\n";
    what + "\r\n" <= line
  }

  // ----- subscription bookkeeping -----

  type Subs = map<string, Callback>

  /** The (P)SUBSCRIBE loop: the counter of one channel carries over to the next. */
  function Subscribed(d: Subs, names: seq<string>, cb: Callback): Subs
    decreases |names|
  {
    if names == [] then d
    else
      var c := if names[0] in d then cb.(pendingSubs := d[names[0]].pendingSubs + 1) else cb;
      Subscribed(d[names[0] := c], names[1..], c)
  }

  /** The (P)UNSUBSCRIBE loop over named channels: entries are marked, and names without an
      unmarked entry are counted. */
  function Unsubscribed(d: Subs, names: seq<string>): (r: (Subs, nat))
    decreases |names|
  {
    if names == [] then (d, 0)
    else if names[0] in d && !d[names[0]].unsubscribeSent then
      Unsubscribed(d[names[0] := d[names[0]].(unsubscribeSent := true)], names[1..])
    else
      var r := Unsubscribed(d, names[1..]); (r.0, r.1 + 1)
  }

  function AllMarked(d: Subs): Subs {
    map k | k in d :: d[k].(unsubscribeSent := true)
  }

  lemma {:induction false} SubscribedKeys(d: Subs, names: seq<string>, cb: Callback)
    ensures Subscribed(d, names, cb).Keys == d.Keys + set n | n in names
    decreases |names|
  {
    if names != [] {
      var c := if names[0] in d then cb.(pendingSubs := d[names[0]].pendingSubs + 1) else cb;
      SubscribedKeys(d[names[0] := c], names[1..], c);
      assert names == [names[0]] + names[1..];
    }
  }

  lemma {:induction false} UnsubscribedKeys(d: Subs, names: seq<string>)
    ensures Unsubscribed(d, names).0.Keys == d.Keys && Unsubscribed(d, names).1 <= |names|
    decreases |names|
  {
    if names != [] {
      if names[0] in d && !d[names[0]].unsubscribeSent {
        UnsubscribedKeys(d[names[0] := d[names[0]].(unsubscribeSent := true)], names[1..]);
      } else {
        UnsubscribedKeys(d, names[1..]);
      }
    }
  }

  // ----- pub/sub replies -----

  /** The C string in a byte string: up to the first NUL. */
  function CString(s: string): string {
    if s == "" || s[0] == '\0' then "" else [s[0]] + CString(s[1..])
  }

  /** strcasecmp(s, what) == 0 */
  predicate SameWord(s: string, what: string) {
    LowerAll(CString(s)) == what
  }

  /** strncasecmp(s, what, strlen(s)) == 0: a prefix of the word is enough. */
  predicate WordPrefix(s: string, what: string) {
    if |s| <= |what| then LowerAll(s) == what[..|s|] else SameWord(s, what)
  }

  /** redisIsSubscribeReply */
  predicate IsSubscribeReply(r: Reply) {
    && r.elements >= 1 && r.first.Some? && |r.first.value| >= 7
    && (var word := BaseName(r.first.value);
        WordPrefix(word, "subscribe") || WordPrefix(word, "message") || WordPrefix(word, "unsubscribe"))
  }

  predicate IsSpontaneous(r: Reply) {
    r.kind == Push && !IsSubscribeReply(r)
  }

  /** What the assertions of __redisGetSubscribeCallback ask of a pub/sub message. */
  predicate GoodMessage(r: Reply, d: Subs) {
    && r.first.Some? && r.elements >= 2
    && (SameWord(BaseName(r.first.value), "subscribe") ==> r.second.Some? && r.second.value in d)
    && (SameWord(BaseName(r.first.value), "unsubscribe") ==> r.elements >= 3 && r.count.Some?)
  }

  // ----- which replies are in-band -----

  /** The replies that are no push messages for the push handler, in order. */
  function InBand(replies: seq<Reply>): seq<Reply> {
    if replies == [] then []
    else
      var r := replies[|replies| - 1];
      InBand(replies[..|replies| - 1]) + if IsSpontaneous(r) then [] else [r]
  }

  lemma InBandOne(replies: seq<Reply>, r: Reply)
    ensures InBand(replies + [r]) == InBand(replies) + if IsSpontaneous(r) then [] else [r]
  {
    assert (replies + [r])[..|replies|] == replies;
  }

  /** An event treats its reply as what it is: exactly the push messages go to the push handler. */
  predicate FitsReply(e: Event) {
    && (e.Spontaneous? ==> IsSpontaneous(e.reply))
    && (e.Answer? || e.Message? || e.Dropped? || e.Refused? || e.Aborted? ==> !IsSpontaneous(e.reply))
  }

  ghost predicate Labelled(log: seq<Event>) {
    forall i :: 0 <= i < |log| ==> FitsReply(log[i])
  }

  /** A reply for which nobody waited ended the connection or the process. */
  predicate Rejects(e: Event) {
    e.Refused? || e.Aborted?
  }

  ghost predicate AnyRejected(log: seq<Event>) {
    exists i :: 0 <= i < |log| && Rejects(log[i])
  }

  // ----- runs without SUBSCRIBE and MONITOR -----

  /** Nothing is answered after a callback was abandoned or a reply rejected. */
  predicate Plain(log: seq<Event>) {
    && (forall i :: 0 <= i < |log| ==> !log[i].Message? && !log[i].Ended? && !log[i].Dropped?)
    && (forall i, j :: 0 <= i < j < |log| && Stops(log[i]) ==> !log[j].Answer?)
  }

  predicate Stops(e: Event) {
    e.Abandon? || Rejects(e)
  }

  ghost predicate AnyStopped(log: seq<Event>) {
    exists i :: 0 <= i < |log| && Stops(log[i])
  }

  /** The replies that were handed to queued callbacks, in order, with those callbacks. */
  function Answers(log: seq<Event>): seq<(Callback, Reply)> {
    if log == [] then []
    else
      var e := log[|log| - 1];
      Answers(log[..|log| - 1]) + if e.Answer? then [(e.cb, e.reply)] else []
  }

  /** `received` are the in-band replies: the k-th went to the callback of the k-th accepted
      command, up to the one, if any, that was rejected because nobody waited for it. */
  ghost predicate InOrder(log: seq<Event>, accepted: seq<Callback>, received: seq<Reply>) {
    && |Answers(log)| <= |accepted| && |Answers(log)| <= |received|
    && (forall k :: 0 <= k < |Answers(log)| ==> Answers(log)[k] == (accepted[k], received[k]))
    && (|Answers(log)| < |received| ==> AnyRejected(log))
  }

  lemma AnyEarlier(log: seq<Event>)
    requires log != []
    ensures AnyStopped(log) <==> AnyStopped(log[..|log| - 1]) || Stops(log[|log| - 1])
    ensures AnyRejected(log) <==> AnyRejected(log[..|log| - 1]) || Rejects(log[|log| - 1])
  {
    var l := log[..|log| - 1];
    if AnyStopped(l) { var i :| 0 <= i < |l| && Stops(l[i]); assert Stops(log[i]); }
    if AnyRejected(l) { var i :| 0 <= i < |l| && Rejects(l[i]); assert Rejects(log[i]); }
    if Stops(log[|l|]) { assert Stops(log[|l|]); }
    if AnyStopped(log) && !Stops(log[|l|]) { var i :| 0 <= i < |log| && Stops(log[i]); assert Stops(l[i]); }
    if AnyRejected(log) && !Rejects(log[|l|]) { var i :| 0 <= i < |log| && Rejects(log[i]); assert Rejects(l[i]); }
  }

  /** Without SUBSCRIBE and MONITOR the k-th in-band reply goes to the callback of the k-th
      accepted command. */
  lemma {:induction false} KthReply(log: seq<Event>, accepted: seq<Callback>, waiting: seq<Callback>)
    requires Plain(log) && Labelled(log) && accepted == Taken(log) + waiting
    ensures InOrder(log, accepted, InBand(Consumed(log)))
    ensures !AnyStopped(log) ==> |Answers(log)| == |Taken(log)| == |InBand(Consumed(log))|
  {
    if log != [] {
      var l, e := log[..|log| - 1], log[|log| - 1];
      var w := (if e.Answer? || e.Abandon? then [e.cb] else []) + waiting;
      assert accepted == Taken(l) + w;
      PlainPrefix(log);
      KthReply(l, accepted, w);
      AnyEarlier(log);
      if e.Answer? { assert !AnyStopped(l); }
      hide Plain, Labelled, AnyStopped, AnyRejected, IsSpontaneous;
      assert log == l + [e];
      TakenOne(l, e);
      ConsumedOne(l, e);
      if e.Answer? || e.Spontaneous? || Rejects(e) {
        InBandOne(Consumed(l), e.reply);
      } else {
        assert Consumed(log) == Consumed(l) + [] == Consumed(l);
      }
      hide InBand, Consumed, Taken;
      assert Answers(log) == Answers(l) + if e.Answer? then [(e.cb, e.reply)] else [];
      assert InBand(Consumed(log)) == InBand(Consumed(l)) + if e.Answer? || Rejects(e) then [e.reply] else [];
    }
  }

  lemma PlainPrefix(log: seq<Event>)
    requires Plain(log) && Labelled(log) && log != []
    ensures Plain(log[..|log| - 1]) && Labelled(log[..|log| - 1])
    ensures FitsReply(log[|log| - 1]) && !log[|log| - 1].Message? && !log[|log| - 1].Dropped?
    ensures log[|log| - 1].Answer? ==> !AnyStopped(log[..|log| - 1])
  {
    var l := log[..|log| - 1];
    assert forall i :: 0 <= i < |l| ==> l[i] == log[i];
  }
}
