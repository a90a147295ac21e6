/** redisAsyncContext of hiredis/async.c. User code is a script: the i-th entry of `user` is
    what the next callback but i does, so every behaviour of user code is some script. */
module AsyncContext {
  import opened Async

  function Abandons(q: seq<Callback>): seq<Event> {
    seq(|q|, i requires 0 <= i < |q| => Abandon(q[i]))
  }

  function Endings(d: Subs, names: seq<string>): seq<Event>
    requires forall i :: 0 <= i < |names| ==> names[i] in d
  {
    seq(|names|, i requires 0 <= i < |names| => Ended(d[names[i]]))
  }

  /** The keys of `d` in some order, each once. */
  ghost predicate Lists(names: seq<string>, d: Subs) {
    && (forall i :: 0 <= i < |names| ==> names[i] in d) && (forall k :: k in d ==> k in names)
    && (forall i, j :: 0 <= i < j < |names| ==> names[i] != names[j])
  }

  /** How a command was sent: what becomes of queues and dictionaries. */
  datatype Queues = Queues(replies: seq<Callback>, subReplies: seq<Callback>, channels: Subs, patterns: Subs,
                           pendingUnsubs: int, subscribed: bool, monitoring: bool)

  /** A subscription dictionary and the counter after UNSUBSCRIBE. */
  function Marked(d: Subs, names: seq<string>): (Subs, int) {
    if names != [] then Unsubscribed(d, names)
    else (AllMarked(d), if forall k :: k in d ==> d[k].unsubscribeSent then 1 else 0)
  }

  /** What an accepted command does to them. */
  function Sent(q: Queues, name: string, args: seq<string>, cb: Callback): Queues {
    if args != [] && Is(name, "subscribe") then
      if PVariant(name) then q.(subscribed := true, patterns := Subscribed(q.patterns, args, cb))
      else q.(subscribed := true, channels := Subscribed(q.channels, args, cb))
    else if Is(name, "unsubscribe") then
      var r := Marked(if PVariant(name) then q.patterns else q.channels, args);
      if PVariant(name) then q.(patterns := r.0, pendingUnsubs := q.pendingUnsubs + r.1)
      else q.(channels := r.0, pendingUnsubs := q.pendingUnsubs + r.1)
    else if Is(name, "monitor") then q.(monitoring := true, replies := q.replies + [cb])
    else if q.subscribed then q.(subReplies := q.subReplies + [cb])
    else q.(replies := q.replies + [cb])
  }

  /** The commands that wait for a reply of their own. */
  predicate Queued(name: string, args: seq<string>) {
    !(args != [] && Is(name, "subscribe")) && !Is(name, "unsubscribe")
  }

  /** What holds of queues, dictionaries and history on every run without allocation failure. */
  ghost predicate Law(q: Queues, accepted: seq<Callback>, log: seq<Event>, everSubscribed: bool) {
    && (!q.monitoring ==> accepted == Taken(log) + q.replies + q.subReplies)
    && (!q.subscribed ==> q.channels == map[] && q.patterns == map[] && q.subReplies == [] && q.pendingUnsubs == 0)
    && (q.subscribed ==> everSubscribed)
    && (!everSubscribed && !q.monitoring ==> Plain(log))
    && Labelled(log)
  }

  /** Once a callback was abandoned or a reply rejected no command waits for a reply, */
  ghost predicate Drained(q: Queues, log: seq<Event>, everSubscribed: bool) {
    !everSubscribed && !q.monitoring && AnyStopped(log) ==> q.replies == []
  }

  /** and none is accepted any more. */
  ghost predicate Settled(q: Queues, log: seq<Event>, everSubscribed: bool, closing: bool) {
    && Drained(q, log, everSubscribed)
    && (!everSubscribed && !q.monitoring && AnyStopped(log) ==> closing)
    && (AnyRejected(log) ==> closing)
  }

  lemma SentKeepsLaw(q: Queues, accepted: seq<Callback>, log: seq<Event>, ever: bool,
                     name: string, args: seq<string>, cb: Callback)
    requires Law(q, accepted, log, ever) && (Is(name, "unsubscribe") ==> q.subscribed)
    ensures Law(Sent(q, name, args, cb), if Queued(name, args) then accepted + [cb] else accepted, log,
                ever || (args != [] && Is(name, "subscribe")))
    ensures q.replies <= Sent(q, name, args, cb).replies && q.subReplies <= Sent(q, name, args, cb).subReplies
  {}

  class AsyncContext {
    var replies: seq<Callback>
    var subReplies: seq<Callback>
    var channels: Subs
    var patterns: Subs
    var pendingUnsubs: int

    var subscribed: bool
    var monitoring: bool
    var disconnecting: bool
    var freeing: bool
    var inCallback: bool
    var connected: bool
    var supportsPush: bool
    var noAutoFree: bool
    var err: bool
    var obuf: nat

    const pushHandler: bool
    const connectHandler: bool
    const disconnectHandler: bool
    var user: seq<seq<Action>>

    ghost var accepted: seq<Callback>
    ghost var everSubscribed: bool
    ghost var log: seq<Event>

    /** The C code has released the context, or an assertion of it failed: the run is over. */
    var freed: bool
    var aborted: bool

    constructor (user: seq<seq<Action>>, noAutoFree: bool, pushHandler: bool, connectHandler: bool,
        disconnectHandler: bool)
      ensures Ready() && log == [] && accepted == [] && this.user == user
    {
      this.user, this.noAutoFree := user, noAutoFree;
      this.pushHandler, this.connectHandler, this.disconnectHandler := pushHandler, connectHandler, disconnectHandler;
      replies, subReplies, channels, patterns, pendingUnsubs, obuf := [], [], map[], map[], 0, 0;
      subscribed, monitoring, disconnecting, freeing, inCallback := false, false, false, false, false;
      connected, supportsPush, err := false, false, false;
      accepted, everSubscribed, log, freed, aborted := [], false, [], false, false;
    }

    function Q(): Queues
      reads this
    {
      Queues(replies, subReplies, channels, patterns, pendingUnsubs, subscribed, monitoring)
    }

    predicate Closing()
      reads this
    {
      disconnecting || freeing
    }

    /** The invariant. */
    ghost predicate Valid()
      reads this
    {
      && Law(Q(), accepted, log, everSubscribed)
      && Settled(Q(), log, everSubscribed, Closing() || aborted)
      && (freed ==> replies == [] && subReplies == [] && channels == map[] && patterns == map[])
    }

    /** An entry point may be called: the context is alive and no callback is running. */
    ghost predicate Ready()
      reads this
    {
      Valid() && !freed && !aborted && !inCallback
    }

    /** __redisAsyncCommand */
    method Send(name: string, args: seq<string>, fn: bool, privdata: int, size: nat) returns (ok: bool)
      requires Law(Q(), accepted, log, everSubscribed)
      modifies this`replies, this`subReplies, this`channels, this`patterns, this`pendingUnsubs,
               this`subscribed, this`monitoring, this`obuf, this`accepted, this`everSubscribed
      ensures ok <==> !Closing() && (Is(name, "unsubscribe") ==> old(subscribed))
      ensures var cb := Callback(privdata, fn, 1, false);
              && Q() == (if ok then Sent(old(Q()), name, args, cb) else old(Q()))
              && accepted == (if ok && Queued(name, args) then old(accepted) + [cb] else old(accepted))
      ensures everSubscribed == (old(everSubscribed) || (ok && args != [] && Is(name, "subscribe")))
      ensures obuf == old(obuf) + if ok then size else 0
      ensures Law(Q(), accepted, log, everSubscribed)
    {
      hide Law, Is, PVariant, Sent;
      if disconnecting || freeing { return false; }
      var cb := Callback(privdata, fn, 1, false);
      ok := Register(name, args, cb);
      if !ok { return; }
      SentKeepsLaw(old(Q()), old(accepted), log, old(everSubscribed), name, args, cb);
      if Queued(name, args) { accepted := accepted + [cb]; }
      if args != [] && Is(name, "subscribe") { everSubscribed := true; }
      obuf := obuf + size;
    }

    /** Its part that registers the callback. */
    method Register(name: string, args: seq<string>, cb: Callback) returns (ok: bool)
      modifies this`replies, this`subReplies, this`channels, this`patterns, this`pendingUnsubs, this`subscribed,
               this`monitoring
      ensures ok <==> (Is(name, "unsubscribe") ==> old(subscribed))
      ensures Q() == if ok then Sent(old(Q()), name, args, cb) else old(Q())
    {
      hide Is, PVariant, Marked, Subscribed, Unsubscribed;
      OneWord(name);
      ok := true;
      if args != [] && Is(name, "subscribe") {
        subscribed := true;
        var d := SubscribeAll(if PVariant(name) then patterns else channels, args, cb);
        if PVariant(name) { patterns := d; } else { channels := d; }
      } else if Is(name, "unsubscribe") {
        ok := subscribed;
        if ok { RegisterUnsubscribe(PVariant(name), args); }
      } else if Is(name, "monitor") {
        monitoring := true;
        replies := replies + [cb];
      } else if subscribed {
        subReplies := subReplies + [cb];
      } else {
        replies := replies + [cb];
      }
    }

    method RegisterUnsubscribe(pvariant: bool, args: seq<string>)
      modifies this`channels, this`patterns, this`pendingUnsubs
      ensures var r := Marked(if pvariant then old(patterns) else old(channels), args);
              Q() == if pvariant then old(Q()).(patterns := r.0, pendingUnsubs := old(pendingUnsubs) + r.1)
                     else old(Q()).(channels := r.0, pendingUnsubs := old(pendingUnsubs) + r.1)
    {
      var d, ignored := UnsubscribeAll(if pvariant then patterns else channels, args);
      if pvariant { patterns := d; } else { channels := d; }
      pendingUnsubs := pendingUnsubs + ignored;
    }

    /** The SUBSCRIBE loop. */
    static method SubscribeAll(callbacks: Subs, args: seq<string>, source: Callback) returns (d: Subs)
      ensures d == Subscribed(callbacks, args, source)
    {
      d := callbacks;
      var cb, i := source, 0;
      while i < |args|
        invariant 0 <= i <= |args| && Subscribed(d, args[i..], cb) == Subscribed(callbacks, args, source)
      {
        if args[i] in d { cb := cb.(pendingSubs := d[args[i]].pendingSubs + 1); }
        assert args[i..][1..] == args[i + 1..];
        d := d[args[i] := cb];
        i := i + 1;
      }
    }

    /** The UNSUBSCRIBE loops. */
    static method UnsubscribeAll(callbacks: Subs, args: seq<string>) returns (d: Subs, ignored: int)
      ensures (d, ignored) == Marked(callbacks, args)
    {
      d, ignored := callbacks, 0;
      if args != [] {
        var i := 0;
        while i < |args|
          invariant 0 <= i <= |args| && Unsubscribed(d, args[i..]).0 == Unsubscribed(callbacks, args).0
          invariant ignored + Unsubscribed(d, args[i..]).1 == Unsubscribed(callbacks, args).1
        {
          assert args[i..][1..] == args[i + 1..];
          if args[i] in d && !d[args[i]].unsubscribeSent {
            d := d[args[i] := d[args[i]].(unsubscribeSent := true)];
          } else {
            ignored := ignored + 1;
          }
          i := i + 1;
        }
      } else {
        var noSubs, rest := true, callbacks.Keys;
        while rest != {}
          invariant rest <= callbacks.Keys == d.Keys
          invariant forall k :: k in d ==>
                      d[k] == if k in rest then callbacks[k] else callbacks[k].(unsubscribeSent := true)
          invariant noSubs <==> forall k :: k in callbacks && k !in rest ==> callbacks[k].unsubscribeSent
        {
          var k :| k in rest;
          if !d[k].unsubscribeSent {
            d := d[k := d[k].(unsubscribeSent := true)];
            noSubs := false;
          }
          rest := rest - {k};
        }
        assert d == AllMarked(callbacks);
        if noSubs { ignored := 1; }
      }
    }

    // ----- user code -----

    /** What user code does inside a callback: redisAsyncDisconnect and redisAsyncFree only
        set flags there. */
    method Act(a: Action)
      requires inCallback && Law(Q(), accepted, log, everSubscribed)
      modifies this`replies, this`subReplies, this`channels, this`patterns, this`pendingUnsubs, this`subscribed,
               this`monitoring, this`obuf, this`accepted, this`everSubscribed, this`disconnecting, this`freeing,
               this`noAutoFree
      ensures Law(Q(), accepted, log, everSubscribed)
      ensures Before() == ActOn(old(Before()), a) && Stirred(old(Before()), Before())
    {
      hide Law, Is, Sent, Queued;
      match a {
        case Send(name, args, fn, privdata, size) =>
          ghost var cb := Callback(privdata, fn, 1, false);
          SentGrows(Q(), name, args, cb);
          var ok := Send(name, args, fn, privdata, size);
        case Disconnect =>
          disconnecting := true;
          noAutoFree := false;
        case Free =>
          freeing := true;
      }
    }

    ghost function Before(): Snapshot
      reads this
    {
      Snapshot(Q(), accepted, everSubscribed, disconnecting, freeing, noAutoFree)
    }

    /** One run of a user callback. */
    method RunUserCode()
      requires !inCallback && Law(Q(), accepted, log, everSubscribed)
      modifies this`replies, this`subReplies, this`channels, this`patterns, this`pendingUnsubs, this`subscribed,
               this`monitoring, this`obuf, this`accepted, this`everSubscribed, this`disconnecting, this`freeing,
               this`noAutoFree,
               this`inCallback, this`user
      ensures !inCallback && Law(Q(), accepted, log, everSubscribed)
      ensures Stirred(old(Before()), Before())
      ensures user == if old(user) == [] then [] else old(user)[1..]
      ensures Before() == if old(user) == [] then old(Before()) else ActAll(old(Before()), old(user)[0])
    {
      hide Law, Stirred, ActOn;
      ghost var s0 := Before();
      SameStirred(s0);
      if user == [] { return; }
      var script := user[0];
      user := user[1..];
      inCallback := true;
      for i := 0 to |script|
        invariant inCallback && Law(Q(), accepted, log, everSubscribed) && Stirred(s0, Before())
        invariant user == old(user)[1..]
        invariant Before() == ActAll(s0, script[..i])
      {
        ghost var s1 := Before();
        assert script[..i + 1][..i] == script[..i];
        Act(script[i]);
        StirredTwice(s0, s1, Before());
      }
      assert script[..|script|] == script;
      inCallback := false;
    }

    /** __redisRunCallback */
    method RunCallback(cb: Callback)
      requires !inCallback && Law(Q(), accepted, log, everSubscribed)
      modifies this`replies, this`subReplies, this`channels, this`patterns, this`pendingUnsubs, this`subscribed,
               this`monitoring, this`obuf, this`accepted, this`everSubscribed, this`disconnecting, this`freeing,
               this`noAutoFree,
               this`inCallback, this`user
      ensures !inCallback && Law(Q(), accepted, log, everSubscribed)
      ensures Stirred(old(Before()), Before())
      ensures if cb.fn && old(user) != [] then user == old(user)[1..] && Before() == ActAll(old(Before()), old(user)[0])
              else user == old(user) && Before() == old(Before())
    {
      hide Law, Stirred, ActAll;
      SameStirred(Before());
      if cb.fn { RunUserCode(); }
    }

    // ----- teardown -----

    /** A callback that runs while the connection is closing: its commands are refused. */
    method RunLast(cb: Callback)
      requires !inCallback && Closing() && Law(Q(), accepted, log, everSubscribed)
      modifies this`replies, this`subReplies, this`channels, this`patterns, this`pendingUnsubs, this`subscribed,
               this`monitoring, this`obuf, this`accepted, this`everSubscribed, this`disconnecting, this`freeing,
               this`noAutoFree,
               this`inCallback, this`user
      ensures !inCallback && Closing() && Law(Q(), accepted, log, everSubscribed)
      ensures Q() == old(Q()) && accepted == old(accepted) && everSubscribed == old(everSubscribed)
      ensures old(freeing) ==> freeing
    {
      hide Law;
      RunCallback(cb);
    }

    method AbandonNext()
      requires !inCallback && Closing() && Law(Q(), accepted, log, everSubscribed) && replies != []
      modifies this`replies, this`subReplies, this`channels, this`patterns, this`pendingUnsubs, this`subscribed,
               this`monitoring, this`obuf, this`accepted, this`everSubscribed, this`disconnecting, this`freeing,
               this`noAutoFree,
               this`inCallback, this`user, this`log
      ensures !inCallback && Closing() && Law(Q(), accepted, log, everSubscribed) && (old(freeing) ==> freeing)
      ensures Q() == old(Q()).(replies := old(replies)[1..]) && accepted == old(accepted)
      ensures everSubscribed == old(everSubscribed)
      ensures log == old(log) + [Abandon(old(replies)[0])]
    {
      hide Law;
      AbandonKeepsLaw(Q(), accepted, log, everSubscribed);
      var cb := replies[0];
      replies := replies[1..];
      log := log + [Abandon(cb)];
      RunLast(cb);
    }

    /** The first loop of __redisAsyncFree: pending callbacks run with NULL, in order. */
    method AbandonReplies()
      requires !inCallback && Closing() && Law(Q(), accepted, log, everSubscribed)
      modifies this`replies, this`subReplies, this`channels, this`patterns, this`pendingUnsubs, this`subscribed,
               this`monitoring, this`obuf, this`accepted, this`everSubscribed, this`disconnecting, this`freeing,
               this`noAutoFree,
               this`inCallback, this`user, this`log
      ensures !inCallback && Closing() && Law(Q(), accepted, log, everSubscribed)
      ensures Q() == old(Q()).(replies := []) && accepted == old(accepted) && everSubscribed == old(everSubscribed)
      ensures log == old(log) + Abandons(old(replies)) && (old(freeing) ==> freeing)
    {
      hide Law;
      ghost var r0, done := replies, 0;
      while replies != []
        invariant !inCallback && Closing() && Law(Q(), accepted, log, everSubscribed) && (old(freeing) ==> freeing)
        invariant accepted == old(accepted) && everSubscribed == old(everSubscribed)
        invariant 0 <= done <= |r0| && Q() == old(Q()).(replies := r0[done..]) && log == old(log) + Abandons(r0[..done])
        decreases |replies|
      {
        OneMore(r0, done);
        done := done + 1;
        AbandonNext();
      }
      assert r0[..done] == r0;
    }

    /** The second loop. */
    method AbandonSubReplies()
      requires !inCallback && Closing() && Law(Q(), accepted, log, everSubscribed) && replies == []
      modifies this`replies, this`subReplies, this`channels, this`patterns, this`pendingUnsubs, this`subscribed,
               this`monitoring, this`obuf, this`accepted, this`everSubscribed, this`disconnecting, this`freeing,
               this`noAutoFree,
               this`inCallback, this`user, this`log
      ensures !inCallback && Closing() && Law(Q(), accepted, log, everSubscribed)
      ensures Q() == old(Q()).(subReplies := []) && accepted == old(accepted) && everSubscribed == old(everSubscribed)
      ensures log == old(log) + Abandons(old(subReplies)) && (old(freeing) ==> freeing)
    {
      hide Law;
      ghost var r0, done := subReplies, 0;
      while subReplies != []
        invariant !inCallback && Closing() && Law(Q(), accepted, log, everSubscribed) && (old(freeing) ==> freeing)
        invariant accepted == old(accepted) && everSubscribed == old(everSubscribed)
        invariant 0 <= done <= |r0| && Q() == old(Q()).(subReplies := r0[done..])
        invariant log == old(log) + Abandons(r0[..done])
        decreases |subReplies|
      {
        AbandonSubKeepsLaw(Q(), accepted, log, everSubscribed);
        OneMore(r0, done);
        var cb := subReplies[0];
        subReplies := subReplies[1..];
        log := log + [Abandon(cb)];
        done := done + 1;
        RunLast(cb);
      }
      assert r0[..done] == r0;
    }

    /** A subscription dictionary is emptied: each of its callbacks runs once with NULL. */
    method EndSubscriptions(pvariant: bool) returns (ghost names: seq<string>)
      requires !inCallback && Closing() && Law(Q(), accepted, log, everSubscribed)
      modifies this`replies, this`subReplies, this`channels, this`patterns, this`pendingUnsubs, this`subscribed,
               this`monitoring, this`obuf, this`accepted, this`everSubscribed, this`disconnecting, this`freeing,
               this`noAutoFree,
               this`inCallback, this`user, this`log
      ensures !inCallback && Closing() && Law(Q(), accepted, log, everSubscribed)
      ensures accepted == old(accepted) && everSubscribed == old(everSubscribed) && (old(freeing) ==> freeing)
      ensures Q() == if pvariant then old(Q()).(patterns := map[]) else old(Q()).(channels := map[])
      ensures var d := if pvariant then old(patterns) else old(channels);
                Lists(names, d) && log == old(log) + Endings(d, names)
    {
      hide Law;
      var d := if pvariant then patterns else channels;
      var rest := d.Keys;
      names := [];
      while rest != {}
        invariant !inCallback && Closing() && Law(Q(), accepted, log, everSubscribed) && (old(freeing) ==> freeing)
        invariant accepted == old(accepted) && everSubscribed == old(everSubscribed)
        invariant Q() == old(Q()) && rest <= d.Keys && Listing(names, d, rest) && log == old(log) + Endings(d, names)
      {
        var k :| k in rest;
        HasSubscribed(Q(), accepted, log, everSubscribed, pvariant, k);
        OtherKeepsLaw(Q(), accepted, log, everSubscribed, Ended(d[k]));
        NextListed(names, d, rest, k);
        log := log + [Ended(d[k])];
        names := names + [k];
        rest := rest - {k};
        RunLast(d[k]);
      }
      EmptyKeepsLaw(Q(), accepted, log, everSubscribed);
      if pvariant { patterns := map[]; } else { channels := map[]; }
    }

    /** All callbacks that still wait run once with NULL. */
    method RunPending() returns (ghost chans: seq<string>, ghost pats: seq<string>)
      requires !inCallback && Closing() && Law(Q(), accepted, log, everSubscribed)
      modifies this`replies, this`subReplies, this`channels, this`patterns, this`pendingUnsubs, this`subscribed,
               this`monitoring, this`obuf, this`accepted, this`everSubscribed, this`disconnecting, this`freeing,
               this`noAutoFree,
               this`inCallback, this`user, this`log
      ensures !inCallback && Closing() && Law(Q(), accepted, log, everSubscribed)
      ensures accepted == old(accepted) && everSubscribed == old(everSubscribed) && (old(freeing) ==> freeing)
      ensures Q() == old(Q()).(replies := [], subReplies := [], channels := map[], patterns := map[])
      ensures Lists(chans, old(channels)) && Lists(pats, old(patterns))
      ensures log == Pending(old(log), old(Q()), chans, pats)
    {
      hide Law;
      AbandonReplies();
      AbandonSubReplies();
      chans := EndSubscriptions(false);
      pats := EndSubscriptions(true);
    }

    /** __redisAsyncFree: every callback that still waits runs once with NULL, those of the
        queues in the order of their commands, and then the context is gone. */
    method Teardown() returns (ghost chans: seq<string>, ghost pats: seq<string>)
      requires !inCallback && Closing() && !freed && Law(Q(), accepted, log, everSubscribed)
      modifies this`replies, this`subReplies, this`channels, this`patterns, this`pendingUnsubs, this`subscribed,
               this`monitoring, this`obuf, this`accepted, this`everSubscribed, this`disconnecting, this`freeing,
               this`noAutoFree,
               this`inCallback, this`user, this`log, this`freed
      ensures Valid() && Closing() && freed && !inCallback
      ensures accepted == old(accepted) && (!monitoring ==> Taken(log) == accepted) && monitoring == old(monitoring)
      ensures Lists(chans, old(channels)) && Lists(pats, old(patterns))
      ensures Finished(Pending(old(log), old(Q()), chans, pats), log, old(connected) && disconnectHandler,
                       !err || old(freeing))
    {
      hide Law, Pending, Taken, Abandons, Endings, Lists;
      chans, pats := RunPending();
      if connected && disconnectHandler { RunDisconnectCallback(!err || freeing); }
      OtherKeepsLaw(Q(), accepted, log, everSubscribed, Freed);
      log := log + [Freed];
      freed := true;
      AllGone(Q(), accepted, log, everSubscribed);
    }

    method RunDisconnectCallback(ghost ok: bool)
      requires !inCallback && Closing() && Law(Q(), accepted, log, everSubscribed)
      modifies this`replies, this`subReplies, this`channels, this`patterns, this`pendingUnsubs, this`subscribed,
               this`monitoring, this`obuf, this`accepted, this`everSubscribed, this`disconnecting, this`freeing,
               this`noAutoFree,
               this`inCallback, this`user, this`log
      ensures !inCallback && Closing() && Law(Q(), accepted, log, everSubscribed)
      ensures Q() == old(Q()) && accepted == old(accepted) && everSubscribed == old(everSubscribed)
      ensures log == old(log) + [Disconnected(ok)]
    {
      hide Law;
      OtherKeepsLaw(Q(), accepted, log, everSubscribed, Disconnected(ok));
      log := log + [Disconnected(ok)];
      RunUserCode();
    }

    /** redisAsyncFree, called from outside a callback. */
    method AsyncFree() returns (ghost chans: seq<string>, ghost pats: seq<string>)
      requires Ready()
      modifies this`replies, this`subReplies, this`channels, this`patterns, this`pendingUnsubs, this`subscribed,
               this`monitoring, this`obuf, this`accepted, this`everSubscribed, this`disconnecting, this`freeing,
               this`noAutoFree,
               this`inCallback, this`user, this`log, this`freed
      ensures Valid() && freed && !inCallback && accepted == old(accepted) && (!monitoring ==> Taken(log) == accepted)
      ensures Onward(old(Before()), Before())
      ensures old(log) <= log && Consumed(log) == Consumed(old(log))
      ensures Lists(chans, old(channels)) && Lists(pats, old(patterns))
      ensures Finished(Pending(old(log), old(Q()), chans, pats), log, connected && disconnectHandler, true)
    {
      hide Law, Finished, Pending, Lists, Consumed;
      freeing := true;
      ghost var q, l := Q(), log;
      chans, pats := Teardown();
      NothingConsumed(l, q, chans, pats, log, connected && disconnectHandler, true);
    }

    /** __redisAsyncDisconnect. A clean disconnect finds no pending callback, as the assertion
        of the C code demands. */
    method DisconnectNow() returns (ghost chans: seq<string>, ghost pats: seq<string>)
      requires !inCallback && !freed && Law(Q(), accepted, log, everSubscribed) && Drained(Q(), log, everSubscribed)
      requires err || (replies == [] && Closing())
      modifies this`replies, this`subReplies, this`channels, this`patterns, this`pendingUnsubs, this`subscribed,
               this`monitoring, this`obuf, this`accepted, this`everSubscribed, this`disconnecting, this`freeing,
               this`noAutoFree,
               this`inCallback, this`user, this`log, this`freed
      ensures Valid() && Closing() && !inCallback && accepted == old(accepted)
      ensures Onward(old(Before()), Before())
      ensures freed <==> !old(noAutoFree)
      ensures freed && !monitoring ==> Taken(log) == accepted
      ensures freed ==> Lists(chans, old(channels)) && Lists(pats, old(patterns))
      ensures freed ==> Finished(Pending(old(log), old(Q()), chans, pats), log, connected && disconnectHandler,
                                 !err || old(freeing))
      ensures !freed ==> Q() == old(Q()) && log == old(log) && noAutoFree
      ensures old(log) <= log && Consumed(log) == Consumed(old(log))
    {
      hide Law, Finished, Pending, Lists;
      chans, pats := [], [];
      if !err {
        assert replies == [];
      } else {
        disconnecting := true;
      }
      if !noAutoFree {
        chans, pats := Teardown();
        NothingConsumed(old(log), old(Q()), chans, pats, log, connected && disconnectHandler, !err || old(freeing));
      }
    }

    /** redisAsyncDisconnect, called from outside a callback. */
    method AsyncDisconnect() returns (ghost chans: seq<string>, ghost pats: seq<string>)
      requires Ready()
      modifies this`replies, this`subReplies, this`channels, this`patterns, this`pendingUnsubs, this`subscribed,
               this`monitoring, this`obuf, this`accepted, this`everSubscribed, this`disconnecting, this`freeing,
               this`noAutoFree,
               this`inCallback, this`user, this`log, this`freed
      ensures Valid() && Closing() && !inCallback && accepted == old(accepted)
      ensures Onward(old(Before()), Before())
      ensures freed <==> old(replies) == []
      ensures freed && !monitoring ==> Taken(log) == accepted
      ensures freed ==> Lists(chans, old(channels)) && Lists(pats, old(patterns))
      ensures freed ==> Finished(Pending(old(log), old(Q()), chans, pats), log, connected && disconnectHandler,
                                 !err || old(freeing))
      ensures !freed ==> Q() == old(Q()) && log == old(log)
      ensures old(log) <= log && Consumed(log) == Consumed(old(log))
    {
      hide Law, Finished, Pending, Lists;
      disconnecting := true;
      noAutoFree := false;
      chans, pats := [], [];
      if replies == [] { chans, pats := DisconnectNow(); }
    }

    // ----- replies -----

    /** __redisGetSubscribeCallback: the callback for a reply in subscribed mode; `what` is how
        the reply was used. */
    method GetSubscribeCallback(reply: Reply) returns (what: Event)
      requires !inCallback && !freed && subscribed && replies == [] && !IsSpontaneous(reply)
      requires Law(Q(), accepted, log, everSubscribed)
      modifies this`replies, this`subReplies, this`channels, this`patterns, this`pendingUnsubs, this`subscribed,
               this`log
      ensures Law(Q(), accepted, log, everSubscribed) && log == old(log) + [what]
      ensures Uses(reply, what)
      ensures Consumed(log) == Consumed(old(log)) + [reply]
      ensures what == if !IsMessage(reply, supportsPush)
                      then (if old(subReplies) == [] then Dropped(reply) else Answer(old(subReplies)[0], reply))
                      else PubSub(reply, if MessageP(reply) then old(patterns) else old(channels))
      ensures Q() == if !IsMessage(reply, supportsPush)
                     then old(Q()).(subReplies := if old(subReplies) == [] then [] else old(subReplies)[1..])
                     else if what.Aborted? then old(Q()) else AfterMessage(old(Q()), reply)
    {
      hide Law, IsMessage, AfterMessage, GoodMessage;
      EverSubscribed(Q(), accepted, log, everSubscribed);
      if IsMessage(reply, supportsPush) {
        what := PubSub(reply, if MessageP(reply) then patterns else channels);
        OtherKeepsLaw(Q(), accepted, log, everSubscribed, what);
        if !what.Aborted? {
          MessageKeepsLaw(Q(), accepted, log + [what], everSubscribed, reply);
          HandleMessage(reply);
        }
      } else if subReplies == [] {
        what := Dropped(reply);
        OtherKeepsLaw(Q(), accepted, log, everSubscribed, what);
      } else {
        what := Answer(subReplies[0], reply);
        AnswerSubKeepsLaw(Q(), accepted, log, everSubscribed, reply);
        subReplies := subReplies[1..];
      }
      ConsumedOne(log, what);
      log := log + [what];
    }

    /** What a (p)subscribe or (p)unsubscribe message changes. */
    method HandleMessage(reply: Reply)
      requires GoodMessage(reply, if MessageP(reply) then patterns else channels)
      modifies this`replies, this`subReplies, this`channels, this`patterns, this`pendingUnsubs, this`subscribed
      ensures Q() == AfterMessage(old(Q()), reply)
    {
      hide Bookkept, ModeLeft, BaseName, PVariant, SameWord;
      UpdateEntry(reply);
      if SameWord(BaseName(reply.first.value), "unsubscribe") { LeaveMode(reply.count.value); }
    }

    /** The entry of the channel, and the counter of replies to be ignored. */
    method UpdateEntry(reply: Reply)
      requires GoodMessage(reply, if MessageP(reply) then patterns else channels)
      modifies this`channels, this`patterns, this`pendingUnsubs
      ensures Q() == Bookkept(old(Q()), reply)
    {
      hide SameWord, BaseName, PVariant;
      var pvariant, word := MessageP(reply), BaseName(reply.first.value);
      var callbacks := if pvariant then patterns else channels;
      var found := reply.second.Some? && reply.second.value in callbacks;
      if SameWord(word, "subscribe") {
        var name := reply.second.value;
        callbacks := callbacks[name := callbacks[name].(pendingSubs := callbacks[name].pendingSubs - 1)];
      } else if SameWord(word, "unsubscribe") {
        if !found {
          pendingUnsubs := pendingUnsubs - 1;
        } else if callbacks[reply.second.value].pendingSubs == 0 {
          callbacks := callbacks - {reply.second.value};
        }
      }
      if pvariant { patterns := callbacks; } else { channels := callbacks; }
    }

    /** The last unsubscribe message ends the mode and moves the waiting callbacks. */
    method LeaveMode(count: int)
      modifies this`replies, this`subReplies, this`subscribed
      ensures Q() == ModeLeft(old(Q()), count)
    {
      if count == 0 && |channels| == 0 && |patterns| == 0 && pendingUnsubs == 0 {
        subscribed := false;
        while subReplies != []
          invariant !subscribed && replies + subReplies == old(replies) + old(subReplies)
          decreases |subReplies|
        {
          assert subReplies == [subReplies[0]] + subReplies[1..];
          replies, subReplies := replies + [subReplies[0]], subReplies[1..];
        }
        assert replies + [] == replies && channels == map[] && patterns == map[];
      }
    }

    /** One turn of the loop of redisProcessCallbacks; `go` tells whether it continues. */
    method ProcessReply(reply: Reply) returns (go: bool)
      requires Ready()
      modifies this`replies, this`subReplies, this`channels, this`patterns, this`pendingUnsubs, this`subscribed,
               this`monitoring, this`obuf, this`accepted, this`everSubscribed, this`disconnecting, this`freeing,
               this`noAutoFree,
               this`inCallback, this`user, this`log, this`freed, this`aborted, this`supportsPush, this`err
      ensures Valid() && !inCallback && (if go then Ready() else freed || aborted || (Closing() && noAutoFree))
      ensures old(log) + [Dispatch(old(Q()), reply, old(supportsPush) || reply.kind == Push)] <= log
      ensures go ==> Before() == AfterTurn(old(Before()), reply, old(supportsPush) || reply.kind == Push,
                                           Script(old(user), pushHandler, old(Q()), reply,
                                                  old(supportsPush) || reply.kind == Push))
      ensures Onward(old(Before()), Before())
      ensures Consumed(log) == Consumed(old(log)) + [reply]
    {
      hide Law, Settled, IsMessage, IsSpontaneous, PubSub, Consumed, Finished, Pending, Lists, AfterReply, Dispatch,
           ActAll, TurnEnd, CallbackOf, Onward;
      DispatchFirst(Q(), reply, supportsPush || reply.kind == Push);
      if reply.kind == Push { supportsPush := true; }
      if IsSpontaneous(reply) {
        ProcessPush(reply);
        return true;
      }
      if replies == [] && (reply.kind == Error || !subscribed) {
        Unexpected(reply);
        return false;
      }
      go := InBandTurn(reply);
    }

    /** The turn of a reply that somebody waits for or that is a message. */
    method InBandTurn(reply: Reply) returns (go: bool)
      requires Ready() && !IsSpontaneous(reply) && (replies == [] ==> reply.kind != Error && subscribed)
      modifies this`replies, this`subReplies, this`channels, this`patterns, this`pendingUnsubs, this`subscribed,
               this`monitoring, this`obuf, this`accepted, this`everSubscribed, this`disconnecting, this`freeing,
               this`noAutoFree,
               this`inCallback, this`user, this`log, this`freed, this`aborted
      ensures Valid() && !inCallback && (if go then Ready() else freed || aborted)
      ensures old(log) + [Dispatch(old(Q()), reply, supportsPush)] <= log
      ensures go ==>
                var cb := CallbackOf(Dispatch(old(Q()), reply, supportsPush));
                Before() == TurnEnd(old(Before()).(q := AfterReply(old(Q()), reply, supportsPush)), cb,
                                    if cb.fn && old(user) != [] then old(user)[0] else [])
      ensures Onward(old(Before()), Before())
      ensures Consumed(log) == Consumed(old(log)) + [reply]
    {
      hide Law, Settled, IsSpontaneous, Consumed, AfterReply, Dispatch, TurnEnd, CallbackOf, Onward;
      ghost var s := Before();
      var found, cb := FindCallback(reply);
      go := found;
      if go {
        ghost var t := Before();
        go := Deliver(cb);
        OnwardTwice(s, t, Before());
      }
    }

    /** The callback for a reply; `found` is false when an assertion failed. */
    method FindCallback(reply: Reply) returns (found: bool, cb: Callback)
      requires Ready() && !IsSpontaneous(reply) && (replies == [] ==> reply.kind != Error && subscribed)
      modifies this`replies, this`subReplies, this`channels, this`patterns, this`pendingUnsubs, this`subscribed,
               this`log, this`aborted
      ensures Valid() && !inCallback && !freed && (found <==> !aborted)
      ensures log == old(log) + [Dispatch(old(Q()), reply, supportsPush)]
      ensures found ==> Q() == AfterReply(old(Q()), reply, supportsPush)
                        && cb == CallbackOf(Dispatch(old(Q()), reply, supportsPush))
      ensures Onward(old(Before()), Before())
      ensures Consumed(log) == Consumed(old(log)) + [reply]
    {
      hide Law, Settled, IsMessage, AfterMessage, IsSpontaneous, PubSub, GoodMessage, Consumed;
      found, cb := true, Callback(0, false, 0, false);
      if replies != [] {
        cb := replies[0];
        AnswerKeepsLaw(Q(), accepted, log, everSubscribed, Closing(), reply);
        ConsumedOne(log, Answer(cb, reply));
        replies := replies[1..];
        log := log + [Answer(cb, reply)];
      } else {
        EverSubscribed(Q(), accepted, log, everSubscribed);
        ghost var q, l := Q(), log;
        var what := GetSubscribeCallback(reply);
        PubSubGood(reply, if MessageP(reply) then q.patterns else q.channels);
        SubscribedSettled(q, l, everSubscribed, Closing(), Q(), what);
        if what.Aborted? { aborted, found := true, false; } else if !what.Dropped? { cb := what.cb; }
      }
    }

    /** A reply nobody waits for: an error closes the connection, anything else fails the
        assertion that the context is subscribed. */
    method Unexpected(reply: Reply)
      requires Ready() && !IsSpontaneous(reply) && replies == [] && (reply.kind == Error || !subscribed)
      modifies this`replies, this`subReplies, this`channels, this`patterns, this`pendingUnsubs, this`subscribed,
               this`monitoring, this`obuf, this`accepted, this`everSubscribed, this`disconnecting, this`freeing,
               this`noAutoFree,
               this`inCallback, this`user, this`log, this`freed, this`aborted, this`err
      ensures Valid() && !inCallback && (freed || aborted || (Closing() && noAutoFree))
      ensures old(log) + [if reply.kind == Error then Refused(reply) else Aborted(reply)] <= log
      ensures Onward(old(Before()), Before())
      ensures Consumed(log) == Consumed(old(log)) + [reply]
    {
      hide Law, Settled, Consumed, Finished, Pending, Lists;
      ghost var e := if reply.kind == Error then Refused(reply) else Aborted(reply);
      OtherKeepsLaw(Q(), accepted, log, everSubscribed, e);
      RejectSettled(Q(), log, everSubscribed, Closing(), e);
      ConsumedOne(log, e);
      log := log + [e];
      if reply.kind == Error {
        err := true;
        var chans, pats := DisconnectNow();
      } else {
        aborted := true;
      }
    }

    method ProcessPush(reply: Reply)
      requires Ready() && IsSpontaneous(reply)
      modifies this`replies, this`subReplies, this`channels, this`patterns, this`pendingUnsubs, this`subscribed,
               this`monitoring, this`obuf, this`accepted, this`everSubscribed, this`disconnecting, this`freeing,
               this`noAutoFree,
               this`inCallback, this`user, this`log
      ensures Onward(old(Before()), Before())
      ensures Ready() && log == old(log) + [Spontaneous(reply)] && Consumed(log) == Consumed(old(log)) + [reply]
      ensures Before() == ActAll(old(Before()), if pushHandler && old(user) != [] then old(user)[0] else [])
    {
      hide Law, Settled, Stirred, Consumed, Taken;
      OtherKeepsLaw(Q(), accepted, log, everSubscribed, Spontaneous(reply));
      OtherSettled(Q(), log, everSubscribed, Closing(), Spontaneous(reply));
      ConsumedOne(log, Spontaneous(reply));
      log := log + [Spontaneous(reply)];
      ghost var s := Before();
      SameStirred(s);
      if pushHandler { RunUserCode(); }
      StirredSettled(s, Before(), log);
      StirredOnward(s, Before());
    }

    /** The end of that turn: run the callback, then free the context if it asked for that. */
    method Deliver(cb: Callback) returns (go: bool)
      requires Ready()
      modifies this`replies, this`subReplies, this`channels, this`patterns, this`pendingUnsubs, this`subscribed,
               this`monitoring, this`obuf, this`accepted, this`everSubscribed, this`disconnecting, this`freeing,
               this`noAutoFree,
               this`inCallback, this`user, this`log, this`freed
      ensures Valid() && !inCallback && (if go then Ready() else freed)
      ensures go ==> Before() == TurnEnd(old(Before()), cb, if cb.fn && old(user) != [] then old(user)[0] else [])
      ensures Onward(old(Before()), Before())
      ensures old(log) <= log && Consumed(log) == Consumed(old(log))
    {
      hide Law, Settled, Finished, Pending, Lists, Stirred, Onward, Consumed, Taken, ActAll;
      ghost var s := Before();
      SameStirred(s);
      NoScript(s);
      StirredOnward(s, s);
      if cb.fn {
        RunCallback(cb);
        StirredOnward(s, Before());
        StirredSettled(s, Before(), log);
        if freeing {
          ghost var t, l := Before(), log;
          var chans, pats := Teardown();
          NothingConsumed(l, t.q, chans, pats, log, connected && disconnectHandler, true);
          ClosedOnward(s, t, Before());
          return false;
        }
      }
      StirredSettled(s, Before(), log);
      ghost var t := Before();
      Requeue(cb);
      RequeuedOnward(s, t, Before());
      return true;
    }

    /** In monitor mode the callback is queued again. */
    method Requeue(cb: Callback)
      requires Ready()
      modifies this`replies
      ensures Ready()
      ensures Before() == if monitoring then old(Before()).(q := old(Q()).(replies := old(replies) + [cb]))
                          else old(Before())
    {
      hide Law, Settled;
      if monitoring {
        MonitoringKeepsLaw(Q(), accepted, log, everSubscribed, Closing(), cb);
        replies := replies + [cb];
      }
    }

    /** redisProcessCallbacks: `input` is what the reader holds, `failed` whether it ends in a
        protocol error. `n` replies are used. */
    method ProcessCallbacks(input: seq<Reply>, failed: bool) returns (n: nat)
      requires Ready()
      modifies this`replies, this`subReplies, this`channels, this`patterns, this`pendingUnsubs, this`subscribed,
               this`monitoring, this`obuf, this`accepted, this`everSubscribed, this`disconnecting, this`freeing,
               this`noAutoFree,
               this`inCallback, this`user, this`log, this`freed, this`aborted, this`supportsPush, this`err
      ensures Valid() && !inCallback
      ensures Onward(old(Before()), Before())
      ensures n <= |input| && Consumed(log) == Consumed(old(log)) + input[..n]
      ensures n < |input| || failed ==> freed || aborted || (Closing() && noAutoFree)
      ensures disconnecting && obuf == 0 && replies == [] ==> freed || aborted || noAutoFree
    {
      hide Law, Settled, Finished, Pending, Lists;
      n := 0;
      while n < |input|
        invariant Onward(old(Before()), Before())
        invariant 0 <= n <= |input| && Ready() && Consumed(log) == Consumed(old(log)) + input[..n]
      {
        assert input[..n + 1] == input[..n] + [input[n]];
        var go := ProcessReply(input[n]);
        n := n + 1;
        if !go { return; }
      }
      if failed || (disconnecting && obuf == 0 && replies == []) {
        if failed { err := true; }
        SettledDrained(Q(), log, everSubscribed, Closing());
        var chans, pats := DisconnectNow();
      }
    }

    // ----- events from the event loop -----

    /** __redisRunConnectCallback */
    method RunConnectCallback(ok: bool)
      requires Ready()
      modifies this`replies, this`subReplies, this`channels, this`patterns, this`pendingUnsubs, this`subscribed,
               this`monitoring, this`obuf, this`accepted, this`everSubscribed, this`disconnecting, this`freeing,
               this`noAutoFree,
               this`inCallback, this`user, this`log
      ensures Onward(old(Before()), Before())
      ensures Ready() && old(log) <= log && Consumed(log) == Consumed(old(log))
    {
      hide Law, Settled, Stirred, Consumed, Taken;
      if !connectHandler { return; }
      OtherKeepsLaw(Q(), accepted, log, everSubscribed, Connected(ok));
      OtherSettled(Q(), log, everSubscribed, Closing(), Connected(ok));
      ConsumedOne(log, Connected(ok));
      log := log + [Connected(ok)];
      ghost var s := Before();
      RunUserCode();
      StirredSettled(s, Before(), log);
      StirredOnward(s, Before());
    }

    /** __redisAsyncHandleConnect; `ok` tells whether the caller goes on. */
    method HandleConnect(result: ConnectResult) returns (ok: bool)
      requires Ready() && !connected
      modifies this`replies, this`subReplies, this`channels, this`patterns, this`pendingUnsubs, this`subscribed,
               this`monitoring, this`obuf, this`accepted, this`everSubscribed, this`disconnecting, this`freeing,
               this`noAutoFree,
               this`inCallback, this`user, this`log, this`freed, this`connected, this`err
      ensures Valid() && !inCallback
      ensures (if ok then Ready() && (connected <==> result == Success) else freed || Closing())
      ensures Onward(old(Before()), Before())
      ensures old(log) <= log && Consumed(log) == Consumed(old(log))
      ensures result == InProgress ==> ok && Q() == old(Q()) && log == old(log) && accepted == old(accepted)
      ensures result == Failure ==> !ok && err && Closing()
      ensures (result == Success <==> connected) && (result == Success && ok ==> !Closing())
    {
      hide Law, Settled, Consumed, Finished, Pending, Lists;
      if result == InProgress { return true; }
      if result == Failure {
        err := true;
        RunConnectCallback(false);
        SettledDrained(Q(), log, everSubscribed, Closing());
        var chans, pats := DisconnectNow();
        return false;
      }
      connected := true;
      RunConnectCallback(true);
      if disconnecting {
        var chans, pats := AsyncDisconnect();
        return false;
      } else if freeing {
        var chans, pats := AsyncFree();
        return false;
      }
      return true;
    }

    /** redisAsyncHandleRead: the socket is readable. */
    method HandleRead(result: ConnectResult, readable: bool, input: seq<Reply>, failed: bool) returns (n: nat)
      requires Ready()
      modifies this`replies, this`subReplies, this`channels, this`patterns, this`pendingUnsubs, this`subscribed,
               this`monitoring, this`obuf, this`accepted, this`everSubscribed, this`disconnecting, this`freeing,
               this`noAutoFree,
               this`inCallback, this`user, this`log, this`freed, this`aborted, this`supportsPush, this`err,
               this`connected
      ensures Valid() && !inCallback
      ensures Onward(old(Before()), Before())
      ensures n <= |input| && Consumed(log) == Consumed(old(log)) + input[..n]
      ensures connected <==> old(connected) || result == Success
      ensures connected && readable && (n < |input| || failed) ==> freed || aborted || Closing()
      ensures old(connected) && !readable ==>
                n == 0 && Closing() && (freed <==> !old(noAutoFree)) && accepted == old(accepted)
    {
      hide Law, Settled, Consumed, Finished, Pending, Lists;
      n := 0;
      if !connected {
        var ok := HandleConnect(result);
        if !ok || !connected { return; }
      }
      if !readable {
        err := true;
        SettledDrained(Q(), log, everSubscribed, Closing());
        var chans, pats := DisconnectNow();
      } else {
        n := ProcessCallbacks(input, failed);
      }
    }

    /** redisAsyncHandleWrite: the socket is writable; `left` bytes remain in the buffer. */
    method HandleWrite(result: ConnectResult, writable: bool, left: nat)
      requires Ready()
      modifies this`replies, this`subReplies, this`channels, this`patterns, this`pendingUnsubs, this`subscribed,
               this`monitoring, this`obuf, this`accepted, this`everSubscribed, this`disconnecting, this`freeing,
               this`noAutoFree,
               this`inCallback, this`user, this`log, this`freed, this`err, this`connected
      ensures Valid() && !inCallback && Consumed(log) == Consumed(old(log))
      ensures Onward(old(Before()), Before())
      ensures connected <==> old(connected) || result == Success
      ensures old(connected) && writable ==>
                Q() == old(Q()) && log == old(log) && accepted == old(accepted)
                && obuf == (if left <= old(obuf) then left else old(obuf))
      ensures old(connected) && !writable ==> Closing() && (freed <==> !old(noAutoFree)) && accepted == old(accepted)
    {
      hide Law, Settled, Consumed, Finished, Pending, Lists;
      if !connected {
        var ok := HandleConnect(result);
        if !ok || !connected { return; }
      }
      if !writable {
        err := true;
        SettledDrained(Q(), log, everSubscribed, Closing());
        var chans, pats := DisconnectNow();
      } else if left <= obuf {
        obuf := left;
      }
    }

    /** The loop of redisAsyncHandleTimeout over the regular callbacks. */
    method DrainReplies()
      requires !inCallback && Law(Q(), accepted, log, everSubscribed)
      modifies this`replies, this`subReplies, this`channels, this`patterns, this`pendingUnsubs, this`subscribed,
               this`monitoring, this`obuf, this`accepted, this`everSubscribed, this`disconnecting, this`freeing,
               this`noAutoFree,
               this`inCallback, this`user, this`log
      ensures !inCallback && Law(Q(), accepted, log, everSubscribed) && replies == []
      ensures Onward(old(Before()), Before())
      ensures old(log) <= log && Consumed(log) == Consumed(old(log))
    {
      hide Law, Consumed, Stirred;
      while replies != []
        invariant Onward(old(Before()), Before())
        invariant !inCallback && Law(Q(), accepted, log, everSubscribed)
        invariant old(log) <= log && Consumed(log) == Consumed(old(log))
        decreases |user|, |replies|
      {
        AbandonKeepsLaw(Q(), accepted, log, everSubscribed);
        var cb := replies[0];
        ConsumedOne(log, Abandon(cb));
        replies := replies[1..];
        log := log + [Abandon(cb)];
        ghost var s := Before();
        RunCallback(cb);
        StirredOnward(s, Before());
      }
    }

    /** redisAsyncHandleTimeout. User code may still send commands here; they are abandoned
        in the same loop. */
    method HandleTimeout(commandTimeout: bool)
      requires Ready()
      modifies this`replies, this`subReplies, this`channels, this`patterns, this`pendingUnsubs, this`subscribed,
               this`monitoring, this`obuf, this`accepted, this`everSubscribed, this`disconnecting, this`freeing,
               this`noAutoFree,
               this`inCallback, this`user, this`log, this`freed, this`err
      ensures Valid() && !inCallback && Consumed(log) == Consumed(old(log)) && old(log) <= log
      ensures Onward(old(Before()), Before())
      ensures if old(connected) && ((old(replies) == [] && old(subReplies) == []) || !commandTimeout)
              then log == old(log) && Q() == old(Q()) && accepted == old(accepted)
              else Closing() && err && (freed || replies == []) && (freed && !monitoring ==> Taken(log) == accepted)
    {
      hide Law, Settled, Drained, Consumed, Finished, Pending, Lists;
      if connected && ((replies == [] && subReplies == []) || !commandTimeout) { return; }
      err := true;
      if !connected { RunConnectCallback(false); }
      DrainReplies();
      EmptyDrained(Q(), log, everSubscribed);
      var chans, pats := DisconnectNow();
    }

    /** A command sent from outside a callback. */
    method Call(name: string, args: seq<string>, fn: bool, privdata: int, size: nat) returns (ghost sent: seq<Callback>)
      requires Ready()
      modifies this`replies, this`subReplies, this`channels, this`patterns, this`pendingUnsubs, this`subscribed,
               this`monitoring, this`obuf, this`accepted, this`everSubscribed
      ensures Valid() && Onward(old(Before()), Before()) && accepted == old(accepted) + sent
      ensures !Closing() ==> sent == if Queued(name, args) then [Callback(privdata, fn, 1, false)] else []
    {
      hide Law, Settled, Sent;
      SendSettled(Q(), log, everSubscribed, Closing(), name, args, Callback(privdata, fn, 1, false));
      var ok := Send(name, args, fn, privdata, size);
      sent := if ok && Queued(name, args) then [Callback(privdata, fn, 1, false)] else [];
    }

    /** One event of a run: `n` replies of its input are used, and `sent` are the commands
        accepted in it, by the program itself or by user code. */
    method Handle(e: Input) returns (ghost n: nat, ghost sent: seq<Callback>)
      requires Ready()
      modifies this`replies, this`subReplies, this`channels, this`patterns, this`pendingUnsubs, this`subscribed,
               this`monitoring, this`obuf, this`accepted, this`everSubscribed, this`disconnecting, this`freeing,
               this`noAutoFree,
               this`inCallback, this`user, this`log, this`freed, this`aborted, this`supportsPush, this`err,
               this`connected
      ensures Valid() && !inCallback && Onward(old(Before()), Before())
      ensures n <= |Received(e)| && Consumed(log) == Consumed(old(log)) + Received(e)[..n]
      ensures accepted == old(accepted) + sent
      ensures connected <==> old(connected) || Connects(e)
      ensures connected && !Closing() && !freed && !aborted ==> n == |Received(e)|
      ensures e.Call? && !Closing() ==>
                sent == if Queued(e.name, e.args) then [Callback(e.privdata, e.fn, 1, false)] else []
    {
      hide Pending, Lists, Consumed, Queued, AsyncContext.Valid;
      n := 0;
      match e {
        case Call(name, args, fn, privdata, size) =>
          sent := Call(name, args, fn, privdata, size);
        case Readable(result, readable, input, failed) =>
          n := HandleRead(result, readable, if readable then input else [], failed);
        case Writable(result, writable, left) =>
          HandleWrite(result, writable, left);
        case Timeout(commandTimeout) =>
          HandleTimeout(commandTimeout);
        case AskDisconnect =>
          var chans, pats := AsyncDisconnect();
        case AskFree =>
          var chans, pats := AsyncFree();
      }
      sent := accepted[|old(accepted)|..];
      assert Received(e)[..0] == [] && Consumed(old(log)) + [] == Consumed(old(log));
    }
  }

  /** What the reader holds at an event. */
  function Received(e: Input): seq<Reply> {
    if e.Readable? && e.readable then e.input else []
  }

  /** The connection is established at this event, if it was not before. */
  predicate Connects(e: Input) {
    (e.Readable? && e.result == Success) || (e.Writable? && e.writeResult == Success)
  }

  /** Of each event at most what it received was used. */
  predicate Used(events: seq<Input>, used: seq<nat>) {
    |used| <= |events| && forall i :: 0 <= i < |used| ==> used[i] <= |Received(events[i])|
  }

  /** The replies used in a run: of the i-th event the first `used[i]`. */
  function Delivered(events: seq<Input>, used: seq<nat>): seq<Reply>
    requires Used(events, used)
  {
    if used == [] then []
    else Delivered(events, used[..|used| - 1]) + Received(events[|used| - 1])[..used[|used| - 1]]
  }

  function Concat(parts: seq<seq<Callback>>): seq<Callback> {
    if parts == [] then [] else Concat(parts[..|parts| - 1]) + parts[|parts| - 1]
  }

  /** How much of a run took effect: `used` and `sent` say, event by event, how many replies
      were used and which commands were accepted. */
  ghost predicate Account(ac: AsyncContext, events: seq<Input>, used: seq<nat>, sent: seq<seq<Callback>>)
    reads ac
  {
    && |used| == |sent| <= |events| && Used(events, used)
    && Consumed(ac.log) == Delivered(events, used) && ac.accepted == Concat(sent)
    && (!ac.freed && !ac.aborted ==> |used| == |events|)
    && (!ac.freed && !ac.aborted && !ac.Closing() ==> Undisturbed(events, used, sent))
  }

  /** Every command was accepted in its place, and every reply was used once the connection
      was established. */
  ghost predicate Undisturbed(events: seq<Input>, used: seq<nat>, sent: seq<seq<Callback>>)
    requires |used| == |sent| <= |events|
  {
    && (forall i, j :: 0 <= j <= i < |used| && Connects(events[j]) ==> used[i] == |Received(events[i])|)
    && (forall i :: 0 <= i < |used| && events[i].Call? ==> sent[i] == OwnCall(events[i]))
  }

  function OwnCall(e: Input): seq<Callback>
    requires e.Call?
  {
    if Queued(e.name, e.args) then [Callback(e.privdata, e.fn, 1, false)] else []
  }

  /** Every run, from a fresh context, over any events and any user code. The replies read are
      those of the events, in order; `accepted` are the commands that wait for a reply of their
      own, in the order they were accepted. */
  method Run(ac: AsyncContext, events: seq<Input>) returns (ghost used: seq<nat>, ghost sent: seq<seq<Callback>>)
    requires ac.Ready() && ac.log == [] && ac.accepted == [] && !ac.connected
    modifies ac
    ensures Account(ac, events, used, sent)
    ensures !ac.monitoring ==> ac.accepted == Taken(ac.log) + ac.replies + ac.subReplies
    ensures ac.freed && !ac.monitoring ==> Taken(ac.log) == ac.accepted
    ensures !ac.subscribed ==>
              ac.channels == map[] && ac.patterns == map[] && ac.subReplies == [] && ac.pendingUnsubs == 0
    ensures !ac.everSubscribed && !ac.monitoring ==> InOrder(ac.log, ac.accepted, InBand(Delivered(events, used)))
    ensures !ac.everSubscribed && !ac.monitoring && !ac.freed && !ac.aborted && !ac.Closing() ==>
              |Answers(ac.log)| == |InBand(Delivered(events, used))|
  {
    hide Consumed, Delivered, Concat, Undisturbed, AnyConnects, Connects, InOrder, InBand, Taken, Answers, Received,
         Used;
    used, sent := [], [];
    NothingYet(ac, events);
    var i := 0;
    while i < |events| && !ac.freed && !ac.aborted
      invariant 0 <= i <= |events| && ac.Valid() && !ac.inCallback && |used| == |sent| == i && Used(events, used)
      invariant Consumed(ac.log) == Delivered(events, used) && ac.accepted == Concat(sent)
      invariant !ac.freed && !ac.aborted && !ac.Closing() ==> Undisturbed(events, used, sent)
      invariant ac.connected <==> AnyConnects(events, i)
    {
      ConnectsNext(events, i);
      ghost var n, marks := ac.Handle(events[i]);
      OneMoreEvent(events, used, sent, n, marks);
      used, sent := used + [n], sent + [marks];
      i := i + 1;
    }
    RunLaw(ac);
    RunEnds(ac, events, used, sent);
  }

  lemma RunEnds(ac: AsyncContext, events: seq<Input>, used: seq<nat>, sent: seq<seq<Callback>>)
    requires ac.Valid() && |used| == |sent| && Used(events, used)
    requires Consumed(ac.log) == Delivered(events, used) && ac.accepted == Concat(sent)
    requires !ac.freed && !ac.aborted ==> |used| == |events|
    requires !ac.freed && !ac.aborted && !ac.Closing() ==> Undisturbed(events, used, sent)
    ensures Account(ac, events, used, sent)
    ensures !ac.everSubscribed && !ac.monitoring ==> InOrder(ac.log, ac.accepted, InBand(Delivered(events, used)))
    ensures !ac.everSubscribed && !ac.monitoring && !ac.freed && !ac.aborted && !ac.Closing() ==>
              |Answers(ac.log)| == |InBand(Delivered(events, used))|
  {
    hide Consumed, Delivered, Concat, Undisturbed, InBand, Answers, Taken, Received;
    RunLaw(ac);
  }

  lemma NothingYet(ac: AsyncContext, events: seq<Input>)
    requires ac.log == [] && ac.accepted == []
    ensures Used(events, []) && !AnyConnects(events, 0)
    ensures Consumed(ac.log) == Delivered(events, []) && ac.accepted == Concat([]) && Undisturbed(events, [], [])
  {}

  lemma OneMoreEvent(events: seq<Input>, used: seq<nat>, sent: seq<seq<Callback>>, n: nat, marks: seq<Callback>)
    requires |used| == |sent| < |events| && Used(events, used) && n <= |Received(events[|used|])|
    ensures Used(events, used + [n])
    ensures Delivered(events, used + [n]) == Delivered(events, used) + Received(events[|used|])[..n]
    ensures Concat(sent + [marks]) == Concat(sent) + marks
    ensures Undisturbed(events, used, sent)
            && (AnyConnects(events, |used| + 1) ==> n == |Received(events[|used|])|)
            && (events[|used|].Call? ==> marks == OwnCall(events[|used|]))
            ==> Undisturbed(events, used + [n], sent + [marks])
  {
    hide Received, Connects, Undisturbed, AnyConnects, OwnCall;
    assert (used + [n])[..|used|] == used && (sent + [marks])[..|sent|] == sent;
    OneMoreUndisturbed(events, used, sent, n, marks);
  }

  lemma OneMoreUndisturbed(events: seq<Input>, used: seq<nat>, sent: seq<seq<Callback>>, n: nat, marks: seq<Callback>)
    requires |used| == |sent| < |events|
    ensures Undisturbed(events, used, sent)
            && (AnyConnects(events, |used| + 1) ==> n == |Received(events[|used|])|)
            && (events[|used|].Call? ==> marks == OwnCall(events[|used|]))
            ==> Undisturbed(events, used + [n], sent + [marks])
  {
    hide Received, Connects, OwnCall;
  }

  ghost predicate AnyConnects(events: seq<Input>, n: nat)
    requires n <= |events|
  {
    exists j :: 0 <= j < n && Connects(events[j])
  }

  lemma ConnectsNext(events: seq<Input>, n: nat)
    requires n < |events|
    ensures AnyConnects(events, n + 1) <==> AnyConnects(events, n) || Connects(events[n])
  {
    if AnyConnects(events, n) {
      var j :| 0 <= j < n && Connects(events[j]);
      assert 0 <= j < n + 1 && Connects(events[j]);
    }
  }

  lemma RunLaw(ac: AsyncContext)
    requires ac.Valid()
    ensures ac.freed && !ac.monitoring ==> Taken(ac.log) == ac.accepted
    ensures !ac.everSubscribed && !ac.monitoring ==> InOrder(ac.log, ac.accepted, InBand(Consumed(ac.log)))
    ensures AnyRejected(ac.log) ==> ac.Closing() || ac.aborted
  {
    if !ac.everSubscribed && !ac.monitoring {
      assert ac.accepted == Taken(ac.log) + (ac.replies + ac.subReplies);
      KthReply(ac.log, ac.accepted, ac.replies + ac.subReplies);
    }
    if ac.freed { AllGone(ac.Q(), ac.accepted, ac.log, ac.everSubscribed); }
  }

  datatype ConnectResult = InProgress | Success | Failure

  /** What the event loop and the program do to a context outside its callbacks. */
  datatype Input =
    | Call(name: string, args: seq<string>, fn: bool, privdata: int, size: nat)
    | Readable(result: ConnectResult, readable: bool, input: seq<Reply>, failed: bool)
    | Writable(writeResult: ConnectResult, writable: bool, left: nat)
    | Timeout(commandTimeout: bool)
    | AskDisconnect
    | AskFree

  lemma EmptyDrained(q: Queues, log: seq<Event>, ever: bool)
    requires q.replies == []
    ensures Drained(q, log, ever)
  {}

  lemma SendSettled(q: Queues, log: seq<Event>, ever: bool, closing: bool, name: string, args: seq<string>,
                    cb: Callback)
    requires Settled(q, log, ever, closing)
    ensures !closing ==> Settled(Sent(q, name, args, cb), log, ever || (args != [] && Is(name, "subscribe")), closing)
  {}

  /** How a reply is used. */
  function Dispatch(q: Queues, r: Reply, supportsPush: bool): Event {
    if IsSpontaneous(r) then Spontaneous(r)
    else if q.replies != [] then Answer(q.replies[0], r)
    else if r.kind == Error then Refused(r)
    else if !q.subscribed then Aborted(r)
    else if IsMessage(r, supportsPush) then PubSub(r, if MessageP(r) then q.patterns else q.channels)
    else if q.subReplies != [] then Answer(q.subReplies[0], r)
    else Dropped(r)
  }

  /** The callback that a reply is handed to; none for a reply nobody waits for. */
  function CallbackOf(e: Event): Callback {
    if e.Answer? || e.Message? then e.cb else Callback(0, false, 0, false)
  }

  lemma DispatchFirst(q: Queues, r: Reply, supportsPush: bool)
    ensures IsSpontaneous(r) ==> Dispatch(q, r, supportsPush) == Spontaneous(r)
    ensures !IsSpontaneous(r) && q.replies == [] && (r.kind == Error || !q.subscribed) ==>
              Dispatch(q, r, supportsPush) == if r.kind == Error then Refused(r) else Aborted(r)
  {}

  lemma PubSubGood(r: Reply, d: Subs)
    ensures PubSub(r, d).Aborted? <==> !GoodMessage(r, d)
    ensures PubSub(r, d).Dropped? || PubSub(r, d).Message? || PubSub(r, d).Aborted?
  {}

  /** What taking the callback for an in-band reply does to queues and dictionaries. */
  function AfterReply(q: Queues, r: Reply, supportsPush: bool): Queues {
    if q.replies != [] then q.(replies := q.replies[1..])
    else if !IsMessage(r, supportsPush) then q.(subReplies := if q.subReplies == [] then [] else q.subReplies[1..])
    else if GoodMessage(r, if MessageP(r) then q.patterns else q.channels) then AfterMessage(q, r)
    else q
  }

  /** The end of a turn: user code runs, and while MONITOR is on the callback is queued again. */
  function TurnEnd(s: Snapshot, cb: Callback, script: seq<Action>): Snapshot {
    var t := ActAll(s, script);
    if t.q.monitoring then t.(q := t.q.(replies := t.q.replies + [cb])) else t
  }

  /** What user code does in the turn of a reply: the push handler or the callback runs, if there
      is one. */
  function Script(user: seq<seq<Action>>, pushHandler: bool, q: Queues, r: Reply, supportsPush: bool): seq<Action> {
    var runs := if IsSpontaneous(r) then pushHandler else CallbackOf(Dispatch(q, r, supportsPush)).fn;
    if runs && user != [] then user[0] else []
  }

  /** A turn of the loop of redisProcessCallbacks that goes on to the next reply. */
  function AfterTurn(s: Snapshot, r: Reply, supportsPush: bool, script: seq<Action>): Snapshot {
    if IsSpontaneous(r) then ActAll(s, script)
    else TurnEnd(s.(q := AfterReply(s.q, r, supportsPush)), CallbackOf(Dispatch(s.q, r, supportsPush)), script)
  }

  /** Under MONITOR every in-band reply goes to the one callback waiting, and as long as user code
      does nothing it goes on waiting. */
  lemma MonitorFeeds(s: Snapshot, r: Reply, supportsPush: bool, cb: Callback)
    requires s.q.monitoring && s.q.replies == [cb] && !IsSpontaneous(r)
    ensures Dispatch(s.q, r, supportsPush) == Answer(cb, r) && AfterTurn(s, r, supportsPush, []) == s
  {
    assert [cb][1..] + [cb] == [cb];
  }

  lemma AnswerKeepsLaw(q: Queues, accepted: seq<Callback>, log: seq<Event>, ever: bool, closing: bool, r: Reply)
    requires Law(q, accepted, log, ever) && Settled(q, log, ever, closing) && q.replies != [] && !IsSpontaneous(r)
    ensures Law(q.(replies := q.replies[1..]), accepted, log + [Answer(q.replies[0], r)], ever)
    ensures Settled(q.(replies := q.replies[1..]), log + [Answer(q.replies[0], r)], ever, closing)
  {
    hide IsSpontaneous;
    TakenOne(log, Answer(q.replies[0], r));
    LabelledOne(log, Answer(q.replies[0], r));
    StillGoing(log, Answer(q.replies[0], r));
    if !ever && !q.monitoring { PlainOne(log, Answer(q.replies[0], r)); }
  }

  lemma StillGoing(log: seq<Event>, e: Event)
    ensures AnyStopped(log + [e]) <==> AnyStopped(log) || Stops(e)
    ensures AnyRejected(log + [e]) <==> AnyRejected(log) || Rejects(e)
  {
    AnyEarlier(log + [e]);
    assert (log + [e])[..|log|] == log;
  }

  lemma LabelledOne(log: seq<Event>, e: Event)
    requires Labelled(log) && FitsReply(e)
    ensures Labelled(log + [e])
  {}

  lemma OtherSettled(q: Queues, log: seq<Event>, ever: bool, closing: bool, e: Event)
    requires Settled(q, log, ever, closing) && !Stops(e)
    ensures Settled(q, log + [e], ever, closing)
  {
    StillGoing(log, e);
  }

  /** Rejecting a reply is possible only when no command waits for one. */
  lemma RejectSettled(q: Queues, log: seq<Event>, ever: bool, closing: bool, e: Event)
    requires Settled(q, log, ever, closing) && q.replies == []
    ensures Settled(q, log + [e], ever, true) && Drained(q, log + [e], ever)
  {}

  lemma SettledDrained(q: Queues, log: seq<Event>, ever: bool, closing: bool)
    requires Settled(q, log, ever, closing)
    ensures Drained(q, log, ever)
  {}

  lemma SubscribedSettled(q: Queues, log: seq<Event>, ever: bool, closing: bool, q': Queues, e: Event)
    requires ever && Settled(q, log, ever, closing)
    ensures Settled(q', log + [e], ever, closing || Rejects(e))
  {
    StillGoing(log, e);
  }

  lemma StirredSettled(s: Snapshot, t: Snapshot, log: seq<Event>)
    requires Settled(s.q, log, s.everSubscribed, s.disconnecting || s.freeing) && Stirred(s, t)
    ensures Settled(t.q, log, t.everSubscribed, t.disconnecting || t.freeing)
  {}

  lemma MonitoringKeepsLaw(q: Queues, accepted: seq<Callback>, log: seq<Event>, ever: bool, closing: bool, cb: Callback)
    requires Law(q, accepted, log, ever) && Settled(q, log, ever, closing) && q.monitoring
    ensures Law(q.(replies := q.replies + [cb]), accepted, log, ever)
    ensures Settled(q.(replies := q.replies + [cb]), log, ever, closing)
  {}

  // ----- pub/sub messages -----

  /** The reply has the form of a pushed message. */
  predicate IsMessage(r: Reply, supportsPush: bool) {
    (r.kind == Array && !supportsPush && r.elements >= 3) || r.kind == Push
  }

  predicate MessageP(r: Reply) {
    r.first.Some? && PVariant(r.first.value)
  }

  /** The event a message in subscribed mode causes. */
  function PubSub(r: Reply, d: Subs): Event {
    if !GoodMessage(r, d) then Aborted(r)
    else if r.second.Some? && r.second.value in d then Message(d[r.second.value], r)
    else Dropped(r)
  }

  /** What becomes of the bookkeeping. */
  function Bookkept(q: Queues, r: Reply): Queues
    requires GoodMessage(r, if MessageP(r) then q.patterns else q.channels)
  {
    var p, word := MessageP(r), BaseName(r.first.value);
    var d := if p then q.patterns else q.channels;
    var found := r.second.Some? && r.second.value in d;
    if SameWord(word, "subscribe") then
      var d' := d[r.second.value := d[r.second.value].(pendingSubs := d[r.second.value].pendingSubs - 1)];
      if p then q.(patterns := d') else q.(channels := d')
    else if SameWord(word, "unsubscribe") then
      var d' := if found && d[r.second.value].pendingSubs == 0 then d - {r.second.value} else d;
      (if p then q.(patterns := d') else q.(channels := d')).(pendingUnsubs := q.pendingUnsubs - if found then 0 else 1)
    else q
  }

  /** When the last subscription ends, the commands that were sent in subscribed mode move, in
      order, behind the regular ones. */
  function ModeLeft(q: Queues, count: int): Queues {
    if count == 0 && q.channels == map[] && q.patterns == map[] && q.pendingUnsubs == 0 then
      q.(subscribed := false, replies := q.replies + q.subReplies, subReplies := [])
    else q
  }

  function AfterMessage(q: Queues, r: Reply): Queues
    requires GoodMessage(r, if MessageP(r) then q.patterns else q.channels)
  {
    if SameWord(BaseName(r.first.value), "unsubscribe") then ModeLeft(Bookkept(q, r), r.count.value) else Bookkept(q, r)
  }

  predicate Uses(r: Reply, e: Event) {
    match e
    case Answer(_, r') => r' == r
    case Message(_, r') => r' == r
    case Dropped(r') => r' == r
    case Aborted(r') => r' == r
    case _ => false
  }

  lemma EverSubscribed(q: Queues, accepted: seq<Callback>, log: seq<Event>, ever: bool)
    requires Law(q, accepted, log, ever) && q.subscribed
    ensures ever
  {}

  /** Messages neither lose nor reorder queued callbacks, and the mode ends with the
      bookkeeping empty. */
  lemma MessageKeepsLaw(q: Queues, accepted: seq<Callback>, log: seq<Event>, ever: bool, r: Reply)
    requires Law(q, accepted, log, ever) && q.subscribed
    requires GoodMessage(r, if MessageP(r) then q.patterns else q.channels)
    ensures Law(AfterMessage(q, r), accepted, log, ever)
  {
    assert Taken(log) + q.replies + q.subReplies == Taken(log) + (q.replies + q.subReplies) + [];
  }

  lemma AnswerSubKeepsLaw(q: Queues, accepted: seq<Callback>, log: seq<Event>, ever: bool, r: Reply)
    requires Law(q, accepted, log, ever) && q.replies == [] && q.subReplies != [] && !IsSpontaneous(r)
    ensures Law(q.(subReplies := q.subReplies[1..]), accepted, log + [Answer(q.subReplies[0], r)], ever)
  {
    TakenOne(log, Answer(q.subReplies[0], r));
    LabelledOne(log, Answer(q.subReplies[0], r));
  }

  /** The log after all pending callbacks ran. */
  ghost function Pending(log: seq<Event>, q: Queues, chans: seq<string>, pats: seq<string>): seq<Event>
    requires Lists(chans, q.channels) && Lists(pats, q.patterns)
  {
    log + Abandons(q.replies) + Abandons(q.subReplies) + Endings(q.channels, chans) + Endings(q.patterns, pats)
  }

  /** How the log ends: the disconnect callback, if there was a connection, and the end. */
  ghost predicate Finished(l: seq<Event>, log: seq<Event>, connected: bool, clean: bool) {
    if connected then log == l + [Disconnected(true)] + [Freed]
        || (!clean && log == l + [Disconnected(false)] + [Freed])
    else log == l + [Freed]
  }

  lemma AllGone(q: Queues, accepted: seq<Callback>, log: seq<Event>, ever: bool)
    requires Law(q, accepted, log, ever) && q.replies == [] && q.subReplies == []
    ensures !q.monitoring ==> Taken(log) == accepted
  {
    assert Taken(log) + [] + [] == Taken(log);
  }

  /** Teardown reads no reply. */
  lemma NothingConsumed(l0: seq<Event>, q: Queues, chans: seq<string>, pats: seq<string>, l: seq<Event>,
                        connected: bool, clean: bool)
    requires Lists(chans, q.channels) && Lists(pats, q.patterns)
    requires Finished(Pending(l0, q, chans, pats), l, connected, clean)
    ensures l0 <= l && Consumed(l) == Consumed(l0)
  {
    hide Lists, Pending;
    PendingSilent(l0, q, chans, pats);
    FinishedSilent(Pending(l0, q, chans, pats), l, connected, clean);
  }

  lemma PendingSilent(l0: seq<Event>, q: Queues, chans: seq<string>, pats: seq<string>)
    requires Lists(chans, q.channels) && Lists(pats, q.patterns)
    ensures l0 <= Pending(l0, q, chans, pats) && Consumed(Pending(l0, q, chans, pats)) == Consumed(l0)
  {
    var a, b, c, d := Abandons(q.replies), Abandons(q.subReplies), Endings(q.channels, chans),
        Endings(q.patterns, pats);
    hide Lists, Consumed;
    Silent(l0, a);
    Silent(l0 + a, b);
    Silent(l0 + a + b, c);
    Silent(l0 + a + b + c, d);
  }

  lemma FinishedSilent(m: seq<Event>, l: seq<Event>, connected: bool, clean: bool)
    requires Finished(m, l, connected, clean)
    ensures m <= l && Consumed(l) == Consumed(m)
  {
    hide Consumed;
    var ok := l == m + [Disconnected(true)] + [Freed];
    var n := if connected then m + [Disconnected(ok)] else m;
    if connected { Silent(m, [Disconnected(ok)]); }
    Silent(n, [Freed]);
  }

  lemma {:induction false} Silent(l: seq<Event>, more: seq<Event>)
    requires forall i :: 0 <= i < |more| ==>
              more[i].Abandon? || more[i].Ended? || more[i].Disconnected? || more[i].Freed?
    ensures Consumed(l + more) == Consumed(l)
  {
    if more == [] {
      assert l + more == l;
    } else {
      var rest, e := more[..|more| - 1], more[|more| - 1];
      Silent(l, rest);
      ConsumedOne(l + rest, e);
      assert l + more == l + rest + [e];
    }
  }

  ghost predicate Listing(names: seq<string>, d: Subs, rest: set<string>) {
    && (forall i :: 0 <= i < |names| ==> names[i] in d && names[i] !in rest)
    && (forall k :: k in d && k !in rest ==> k in names)
    && (forall i, j :: 0 <= i < j < |names| ==> names[i] != names[j])
  }

  lemma OneMore(q: seq<Callback>, k: nat)
    requires k < |q|
    ensures q[..k + 1] == q[..k] + [q[k]] && q[k..][0] == q[k] && q[k..][1..] == q[k + 1..]
    ensures Abandons(q[..k + 1]) == Abandons(q[..k]) + [Abandon(q[k])]
  {
    assert q[..k + 1] == q[..k] + [q[k]];
  }

  lemma NextListed(names: seq<string>, d: Subs, rest: set<string>, k: string)
    requires Listing(names, d, rest) && k in rest && k in d
    ensures Listing(names + [k], d, rest - {k})
    ensures Endings(d, names + [k]) == Endings(d, names) + [Ended(d[k])]
  {}

  lemma PlainOne(log: seq<Event>, e: Event)
    requires Plain(log) && !e.Message? && !e.Ended? && !e.Dropped? && (e.Answer? ==> !AnyStopped(log))
    ensures Plain(log + [e])
  {}

  lemma AbandonKeepsLaw(q: Queues, accepted: seq<Callback>, log: seq<Event>, ever: bool)
    requires Law(q, accepted, log, ever) && q.replies != []
    ensures Law(q.(replies := q.replies[1..]), accepted, log + [Abandon(q.replies[0])], ever)
  {
    TakenOne(log, Abandon(q.replies[0]));
    LabelledOne(log, Abandon(q.replies[0]));
    if Plain(log) { PlainOne(log, Abandon(q.replies[0])); }
  }

  lemma AbandonSubKeepsLaw(q: Queues, accepted: seq<Callback>, log: seq<Event>, ever: bool)
    requires Law(q, accepted, log, ever) && q.replies == [] && q.subReplies != []
    ensures Law(q.(subReplies := q.subReplies[1..]), accepted, log + [Abandon(q.subReplies[0])], ever)
  {
    TakenOne(log, Abandon(q.subReplies[0]));
    LabelledOne(log, Abandon(q.subReplies[0]));
    if Plain(log) { PlainOne(log, Abandon(q.subReplies[0])); }
  }

  /** Events that concern no queued callback. */
  lemma OtherKeepsLaw(q: Queues, accepted: seq<Callback>, log: seq<Event>, ever: bool, e: Event)
    requires Law(q, accepted, log, ever) && !e.Answer? && !e.Abandon? && FitsReply(e)
    requires e.Message? || e.Ended? || e.Dropped? ==> ever || q.monitoring
    ensures Law(q, accepted, log + [e], ever)
  {
    TakenOne(log, e);
    LabelledOne(log, e);
    if Plain(log) && !e.Message? && !e.Ended? && !e.Dropped? { PlainOne(log, e); }
  }

  lemma HasSubscribed(q: Queues, accepted: seq<Callback>, log: seq<Event>, ever: bool, pvariant: bool, k: string)
    requires Law(q, accepted, log, ever) && k in (if pvariant then q.patterns else q.channels)
    ensures ever
  {}

  lemma EmptyKeepsLaw(q: Queues, accepted: seq<Callback>, log: seq<Event>, ever: bool)
    requires Law(q, accepted, log, ever)
    ensures Law(q.(patterns := map[]), accepted, log, ever) && Law(q.(channels := map[]), accepted, log, ever)
  {}

  /** The state user code can change. */
  datatype Snapshot = Snapshot(q: Queues, accepted: seq<Callback>, everSubscribed: bool, disconnecting: bool,
                               freeing: bool, noAutoFree: bool)

  /** What one action does to it: commands are refused once the connection is closing. */
  function ActOn(s: Snapshot, a: Action): Snapshot {
    match a
    case Send(name, args, fn, privdata, size) =>
      if s.disconnecting || s.freeing || (Is(name, "unsubscribe") && !s.q.subscribed) then s
      else
        var cb := Callback(privdata, fn, 1, false);
        s.(q := Sent(s.q, name, args, cb), accepted := if Queued(name, args) then s.accepted + [cb] else s.accepted,
           everSubscribed := s.everSubscribed || (args != [] && Is(name, "subscribe")))
    case Disconnect => s.(disconnecting := true, noAutoFree := false)
    case Free => s.(freeing := true)
  }

  function ActAll(s: Snapshot, script: seq<Action>): Snapshot {
    if script == [] then s else ActOn(ActAll(s, script[..|script| - 1]), script[|script| - 1])
  }

  /** How it can change it: queues grow at the end, and not at all once the connection is closing. */
  ghost predicate Stirred(s: Snapshot, t: Snapshot) {
    && s.q.replies <= t.q.replies && s.q.subReplies <= t.q.subReplies && s.accepted <= t.accepted
    && (s.everSubscribed ==> t.everSubscribed) && (s.q.monitoring ==> t.q.monitoring)
    && (s.disconnecting ==> t.disconnecting) && (s.freeing ==> t.freeing) && (t.noAutoFree ==> s.noAutoFree)
    && (s.disconnecting || s.freeing ==> t.q == s.q && t.accepted == s.accepted && t.everSubscribed == s.everSubscribed)
  }

  /** Accepted commands stay accepted, and a connection that is closing stays so. */
  ghost predicate Onward(s: Snapshot, t: Snapshot) {
    s.accepted <= t.accepted && (s.disconnecting || s.freeing ==> t.disconnecting || t.freeing)
  }

  lemma StirredOnward(s: Snapshot, t: Snapshot)
    requires Stirred(s, t)
    ensures Onward(s, t)
  {}

  lemma RequeuedOnward(s: Snapshot, t: Snapshot, u: Snapshot)
    requires Onward(s, t) && u.accepted == t.accepted && u.disconnecting == t.disconnecting && u.freeing == t.freeing
    ensures Onward(s, u)
  {}

  lemma ClosedOnward(s: Snapshot, t: Snapshot, u: Snapshot)
    requires Onward(s, t) && u.accepted == t.accepted && (u.disconnecting || u.freeing)
    ensures Onward(s, u)
  {}

  lemma OnwardTwice(s: Snapshot, t: Snapshot, u: Snapshot)
    requires Onward(s, t) && Onward(t, u)
    ensures Onward(s, u)
  {}

  lemma NoScript(s: Snapshot)
    ensures ActAll(s, []) == s
  {}

  lemma SameStirred(s: Snapshot)
    ensures Stirred(s, s)
  {}

  lemma StirredTwice(s: Snapshot, t: Snapshot, u: Snapshot)
    requires Stirred(s, t) && Stirred(t, u)
    ensures Stirred(s, u)
  {}

  lemma SentGrows(q: Queues, name: string, args: seq<string>, cb: Callback)
    ensures var r := Sent(q, name, args, cb);
            q.replies <= r.replies && q.subReplies <= r.subReplies && (q.monitoring ==> r.monitoring)
  {}

  /** No name is SUBSCRIBE and UNSUBSCRIBE at once. */
  lemma OneWord(name: string)
    ensures !(Is(name, "subscribe") && Is(name, "unsubscribe"))
  {
    assert ("subscribe" + "\r\n")[0] == 's' && ("unsubscribe" + "\r\n")[0] == 'u';
  }
}
