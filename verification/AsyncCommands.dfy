/** What the commands and messages of publish and subscribe mean to the client of hiredis/async.c:
    which words it knows, which dictionary and which callback they lead to. */
module AsyncCommands {
  import opened Ascii
  import opened Options
  import opened Async
  import opened AsyncContext

  // ----- words -----

  /** The command is this word in any mix of cases, or has a first line that is. */
  predicate Named(name: string, word: string) {
    && |word| <= |name| && Spells(name[..|word|], word)
    && (|name| == |word| || (|name| >= |word| + 2 && name[|word|] == '\r' && name[|word| + 1] == '\n'))
  }

  lemma LineNamed(b: string, word: string)
    requires LowerCase(word)
    ensures word + "\r\n" <= LowerAll(b) + "\r\n" <==> Named(b, word)
  {
    var n, line, all := |word|, word + "\r\n", LowerAll(b) + "\r\n";
    if n <= |b| {
      LowerSpells(b[..n], word);
      assert LowerAll(b)[..n] == LowerAll(b[..n]);
      assert all[..n] == LowerAll(b)[..n];
      if n + 2 <= |b| {
        assert all[n] == Lower(b[n]) && all[n + 1] == Lower(b[n + 1]);
        assert Named(b, word) ==> line == all[..n + 2];
      } else if n + 1 == |b| {
        assert all[n + 1] == '\r' && line[n + 1] == '\n';
      } else {
        assert Named(b, word) ==> line == all[..n + 2];
      }
      if line <= all { assert line[..n] == all[..n] && line[n] == all[n] && line[n + 1] == all[n + 1]; }
    }
  }

  /** The client knows a command by its word, with or without a p in front. */
  lemma IsNamed(name: string, word: string)
    requires LowerCase(word) && word != "" && word[0] != 'p'
    ensures Is(name, word) <==> Named(name, word) || Named(name, "p" + word)
    ensures Named(name, "p" + word) ==> PVariant(name)
    ensures Named(name, word) ==> !PVariant(name)
  {
    LineNamed(BaseName(name), word);
    hide LowerAll;
    var pword := "p" + word;
    if name != "" {
      assert forall k :: 0 <= k < |name| - 1 ==> name[1..][k] == name[k + 1];
      assert forall k :: 0 <= k < |word| ==> pword[k + 1] == word[k];
      if Named(name, word) { assert name[..|word|][0] == name[0]; }
      if Named(name, pword) {
        assert name[..|pword|][0] == name[0] && pword[0] == 'p';
        assert name[..|pword|][1..] == name[1..][..|word|];
        assert forall k :: 0 <= k < |word| ==> name[1..][..|word|][k] == name[..|pword|][k + 1];
        assert Named(name[1..], word);
      }
      if PVariant(name) && Named(name[1..], word) {
        assert forall k :: 0 <= k < |word| ==> name[1..][..|word|][k] == name[..|pword|][k + 1];
        assert forall k :: 1 <= k < |pword| ==>
                 name[..|pword|][k] == name[1..][..|word|][k - 1] && pword[k] == word[k - 1];
        assert Named(name, pword);
      }
    }
  }

  // ----- SUBSCRIBE -----

  /** Where a name occurs last, or -1. */
  function LastOf(names: seq<string>, n: string): (r: int)
    ensures -1 <= r < |names| && (r >= 0 ==> names[r] == n)
    ensures forall j :: r < j < |names| ==> names[j] != n
  {
    if names == [] then -1 else if names[|names| - 1] == n then |names| - 1 else LastOf(names[..|names| - 1], n)
  }

  lemma LastIs(names: seq<string>, n: string, r: int)
    requires -1 <= r < |names| && (r >= 0 ==> names[r] == n) && forall j :: r < j < |names| ==> names[j] != n
    ensures LastOf(names, n) == r
  {}

  lemma LastOfCons(n0: string, rest: seq<string>, n: string)
    ensures LastOf([n0] + rest, n) == if LastOf(rest, n) >= 0 then LastOf(rest, n) + 1 else if n == n0 then 0 else -1
  {
    var all, r := [n0] + rest, LastOf(rest, n);
    assert forall j :: 0 < j < |all| ==> all[j] == rest[j - 1];
    LastIs(all, n, if r >= 0 then r + 1 else if n == n0 then 0 else -1);
  }

  /** The number of subscribe replies a name waits for: one more than its entry had, or as many as
      the name before it in the command if it has no entry. */
  ghost predicate CountedAt(d: Subs, names: seq<string>, first: int, counts: seq<int>, i: int)
    requires 0 <= i < |names| == |counts|
  {
    var j := LastOf(names[..i], names[i]);
    counts[i] == if j >= 0 then counts[j] + 1
                 else if names[i] in d then d[names[i]].pendingSubs + 1
                 else if i == 0 then first else counts[i - 1]
  }

  ghost predicate Counted(d: Subs, names: seq<string>, first: int, counts: seq<int>) {
    |counts| == |names| && forall i :: 0 <= i < |names| ==> CountedAt(d, names, first, counts, i)
  }

  /** Every name leads to the callback of the command, all other entries stay. */
  ghost predicate Registered(d: Subs, names: seq<string>, cb: Callback, d': Subs, counts: seq<int>) {
    && Counted(d, names, cb.pendingSubs, counts)
    && (forall k :: k in d' <==> k in d || k in names)
    && (forall k :: k in d' && k !in names ==> d'[k] == d[k])
    && (forall k :: k in d' && k in names ==>
          var j := LastOf(names, k);
          j >= 0 && d'[k].privdata == cb.privdata && d'[k].fn == cb.fn && d'[k].unsubscribeSent == cb.unsubscribeSent
          && d'[k].pendingSubs == counts[j])
  }

  lemma {:induction false} SubscribedEntries(d: Subs, names: seq<string>, cb: Callback) returns (counts: seq<int>)
    ensures Registered(d, names, cb, Subscribed(d, names, cb), counts)
    decreases |names|
  {
    counts := [];
    if names != [] {
      var n0, rest := names[0], names[1..];
      var c := if n0 in d then cb.(pendingSubs := d[n0].pendingSubs + 1) else cb;
      var more := SubscribedEntries(d[n0 := c], rest, c);
      counts := [c.pendingSubs] + more;
      assert names == [n0] + rest;
      OneCounted(d, n0, rest, cb, c, more);
      OneRegistered(d, n0, rest, cb, c, Subscribed(d, names, cb), more);
    }
  }

  lemma OneCounted(d: Subs, n0: string, rest: seq<string>, cb: Callback, c: Callback, more: seq<int>)
    requires c == if n0 in d then cb.(pendingSubs := d[n0].pendingSubs + 1) else cb
    requires Counted(d[n0 := c], rest, c.pendingSubs, more)
    ensures Counted(d, [n0] + rest, cb.pendingSubs, [c.pendingSubs] + more)
  {
    hide CountedAt;
    var names, counts := [n0] + rest, [c.pendingSubs] + more;
    assert |counts| == |names|;
    forall i | 0 <= i < |names| ensures CountedAt(d, names, cb.pendingSubs, counts, i) {
      OneCountedAt(d, n0, rest, cb, c, more, i);
    }
  }

  lemma OneCountedAt(d: Subs, n0: string, rest: seq<string>, cb: Callback, c: Callback, more: seq<int>, i: nat)
    requires c == (if n0 in d then cb.(pendingSubs := d[n0].pendingSubs + 1) else cb) && |more| == |rest|
    requires Counted(d[n0 := c], rest, c.pendingSubs, more) && i <= |rest|
    ensures CountedAt(d, [n0] + rest, cb.pendingSubs, [c.pendingSubs] + more, i)
  {
    var names, counts := [n0] + rest, [c.pendingSubs] + more;
    if i == 0 {
      assert names[..0] == [];
    } else {
      assert CountedAt(d[n0 := c], rest, c.pendingSubs, more, i - 1);
      assert names[..i] == [n0] + rest[..i - 1];
      LastOfCons(n0, rest[..i - 1], names[i]);
      assert counts[i] == more[i - 1];
      if i > 1 { assert counts[i - 1] == more[i - 2]; }
    }
  }

  lemma OneRegistered(d: Subs, n0: string, rest: seq<string>, cb: Callback, c: Callback, d': Subs, more: seq<int>)
    requires c == if n0 in d then cb.(pendingSubs := d[n0].pendingSubs + 1) else cb
    requires Registered(d[n0 := c], rest, c, d', more)
    requires Counted(d, [n0] + rest, cb.pendingSubs, [c.pendingSubs] + more)
    ensures Registered(d, [n0] + rest, cb, d', [c.pendingSubs] + more)
  {
    hide Counted, LastOf;
    var names, counts := [n0] + rest, [c.pendingSubs] + more;
    CountsSize(d[n0 := c], rest, c.pendingSubs, more);
    assert forall k :: k in names <==> k == n0 || k in rest;
    forall k | k in d' && k in names
      ensures var j := LastOf(names, k);
              0 <= j < |counts| && d'[k].pendingSubs == counts[j] && d'[k].privdata == cb.privdata && d'[k].fn == cb.fn
              && d'[k].unsubscribeSent == cb.unsubscribeSent
    {
      LastOfCons(n0, rest, k);
      if k in rest { assert counts[LastOf(rest, k) + 1] == more[LastOf(rest, k)]; } else { NotLast(rest, k); }
    }
  }

  lemma NotLast(names: seq<string>, n: string)
    requires n !in names
    ensures LastOf(names, n) == -1
  {}

  lemma CountsSize(d: Subs, names: seq<string>, first: int, counts: seq<int>)
    requires Counted(d, names, first, counts)
    ensures |counts| == |names|
  {}

  // ----- UNSUBSCRIBE -----

  /** The entries that are marked now. */
  function NewlyMarked(d: Subs, names: seq<string>): set<string> {
    set k | k in d && k in names && !d[k].unsubscribeSent
  }

  /** Exactly the named entries are marked, and every name beyond the first for an unmarked entry
      is counted as a reply to be ignored. */
  lemma {:induction false} UnsubscribedEntries(d: Subs, names: seq<string>)
    ensures var r := Unsubscribed(d, names);
            && r.0.Keys == d.Keys && r.1 + |NewlyMarked(d, names)| == |names|
            && forall k :: k in d ==> r.0[k] == d[k].(unsubscribeSent := d[k].unsubscribeSent || k in names)
    decreases |names|
  {
    if names == [] {
      assert NewlyMarked(d, names) == {};
    } else {
      var n0, rest := names[0], names[1..];
      MarkOne(d, n0, rest);
      assert names == [n0] + rest;
      hide NewlyMarked;
      if n0 in d && !d[n0].unsubscribeSent {
        UnsubscribedEntries(d[n0 := d[n0].(unsubscribeSent := true)], rest);
      } else {
        UnsubscribedEntries(d, rest);
      }
    }
  }

  lemma MarkOne(d: Subs, n0: string, rest: seq<string>)
    ensures if n0 in d && !d[n0].unsubscribeSent then
              |NewlyMarked(d, [n0] + rest)| == |NewlyMarked(d[n0 := d[n0].(unsubscribeSent := true)], rest)| + 1
            else NewlyMarked(d, [n0] + rest) == NewlyMarked(d, rest)
  {
    var names := [n0] + rest;
    assert forall k :: k in names <==> k == n0 || k in rest;
    if n0 in d && !d[n0].unsubscribeSent {
      var e := d[n0 := d[n0].(unsubscribeSent := true)];
      assert NewlyMarked(d, names) == NewlyMarked(e, rest) + {n0} && n0 !in NewlyMarked(e, rest);
    }
  }

  // ----- commands -----

  function Dictionary(q: Queues, p: bool): Subs {
    if p then q.patterns else q.channels
  }

  function WithDictionary(q: Queues, p: bool, d: Subs): Queues {
    if p then q.(patterns := d) else q.(channels := d)
  }

  /** What an accepted command registers, by its word: SUBSCRIBE and UNSUBSCRIBE with names change
      the channels, with a p in front the patterns; any other command waits for a reply of its own,
      behind the commands of its mode. */
  ghost predicate Registers(q: Queues, name: string, args: seq<string>, cb: Callback, q': Queues) {
    if args != [] && (Named(name, "subscribe") || Named(name, "psubscribe")) then
      var p := Named(name, "psubscribe");
      && q' == WithDictionary(q, p, Dictionary(q', p)).(subscribed := true)
      && exists counts :: Registered(Dictionary(q, p), args, cb, Dictionary(q', p), counts)
    else if Named(name, "unsubscribe") || Named(name, "punsubscribe") then
      var p := Named(name, "punsubscribe");
      && q' == WithDictionary(q, p, Dictionary(q', p)).(pendingUnsubs := q'.pendingUnsubs)
      && Leaves(Dictionary(q, p), args, Dictionary(q', p), q'.pendingUnsubs - q.pendingUnsubs)
    else if Named(name, "monitor") || Named(name, "pmonitor") then
      q' == q.(monitoring := true, replies := q.replies + [cb])
    else if q.subscribed then q' == q.(subReplies := q.subReplies + [cb])
    else q' == q.(replies := q.replies + [cb])
  }

  /** UNSUBSCRIBE, of all channels if it names none. */
  ghost predicate Leaves(d: Subs, args: seq<string>, d': Subs, ignored: int) {
    && d'.Keys == d.Keys
    && (forall k :: k in d ==> d'[k] == d[k].(unsubscribeSent := d[k].unsubscribeSent || args == [] || k in args))
    && if args == [] then ignored == (if exists k :: k in d && !d[k].unsubscribeSent then 0 else 1)
       else ignored + |NewlyMarked(d, args)| == |args|
  }

  lemma MarkedLeaves(d: Subs, args: seq<string>)
    ensures Leaves(d, args, Marked(d, args).0, Marked(d, args).1)
  {
    if args != [] { UnsubscribedEntries(d, args); }
    hide Unsubscribed, NewlyMarked;
  }

  lemma CommandRegisters(q: Queues, name: string, args: seq<string>, cb: Callback)
    ensures Registers(q, name, args, cb, Sent(q, name, args, cb))
  {
    hide Is, Named, PVariant, Subscribed, Marked, Leaves, Registered, NewlyMarked;
    OneWord(name);
    assert "p" + "subscribe" == "psubscribe" && "p" + "unsubscribe" == "punsubscribe" && "p" + "monitor" == "pmonitor";
    IsNamed(name, "subscribe");
    IsNamed(name, "unsubscribe");
    IsNamed(name, "monitor");
    if args != [] && Is(name, "subscribe") {
      var p := PVariant(name);
      var counts := SubscribedEntries(Dictionary(q, p), args, cb);
      assert Registered(Dictionary(q, p), args, cb, Dictionary(Sent(q, name, args, cb), p), counts);
    } else if Is(name, "unsubscribe") {
      MarkedLeaves(if PVariant(name) then q.patterns else q.channels, args);
    }
  }

  // ----- messages -----

  /** A pushed message of this sort about channel `n`: the word has a p in front for patterns. */
  predicate Tells(r: Reply, p: bool, word: string, n: string) {
    && r.kind == Push && r.first.Some? && Spells(r.first.value, if p then "p" + word else word)
    && r.second == Some(n) && r.elements >= 3
  }

  lemma {:induction false} WholeString(s: string)
    requires forall i :: 0 <= i < |s| ==> s[i] as int != 0
    ensures CString(s) == s
  {
    if s != "" {
      WholeString(s[1..]);
      assert s == [s[0]] + s[1..];
    }
  }

  /** How the client reads the word of a message. */
  lemma WordRead(s: string, p: bool, word: string)
    requires LowerCase(word) && word != "" && word[0] != 'p' && Spells(s, if p then "p" + word else word)
    requires forall i :: 0 <= i < |word| ==> word[i] as int > 32
    ensures PVariant(s) == p && LowerAll(BaseName(s)) == word && CString(BaseName(s)) == BaseName(s)
  {
    var full := if p then "p" + word else word;
    assert s[0] == full[0] || s[0] as int + 32 == full[0] as int;
    assert p ==> forall i :: 0 <= i < |word| ==> full[i + 1] == word[i];
    assert PVariant(s) == p;
    assert forall i :: 0 <= i < |word| ==> BaseName(s)[i] == s[if p then i + 1 else i];
    LowerSpells(BaseName(s), word);
    WholeString(BaseName(s));
  }

  lemma WordIs(r: Reply, p: bool, word: string, n: string)
    requires (word == "message" || word == "subscribe" || word == "unsubscribe") && Tells(r, p, word, n)
    ensures PVariant(r.first.value) == p && |BaseName(r.first.value)| == |word|
    ensures SameWord(BaseName(r.first.value), "subscribe") <==> word == "subscribe"
    ensures SameWord(BaseName(r.first.value), "unsubscribe") <==> word == "unsubscribe"
    ensures WordPrefix(BaseName(r.first.value), word)
  {
    hide LowerAll, CString, Spells, LowerCase, PVariant, BaseName;
    WordShape(word);
    WordRead(r.first.value, p, word);
    assert word[..|word|] == word;
  }

  lemma WordShape(word: string)
    requires word == "message" || word == "subscribe" || word == "unsubscribe"
    ensures LowerCase(word) && word != "" && word[0] != 'p' && forall i :: 0 <= i < |word| ==> word[i] as int > 32
    ensures word == "subscribe" <==> word[0] == 's'
    ensures word == "unsubscribe" <==> word[0] == 'u'
  {}

  /** A message about a channel that is registered goes to its callback and changes nothing. */
  lemma MessageReaches(q: Queues, r: Reply, p: bool, n: string)
    requires n in Dictionary(q, p) && q.replies == [] && q.subscribed
    requires Tells(r, p, "message", n)
    ensures Dispatch(q, r, true) == Message(Dictionary(q, p)[n], r) && MessageP(r) == p
    ensures GoodMessage(r, Dictionary(q, p)) && AfterMessage(q, r) == q
  {
    WordIs(r, p, "message", n);
    Expected(r, p, "message", n);
    hide SameWord, WordPrefix, PVariant, BaseName, Spells, IsSubscribeReply;
  }

  /** No such message is left to the push handler. */
  lemma Expected(r: Reply, p: bool, word: string, n: string)
    requires word == "message" || word == "subscribe" || word == "unsubscribe"
    requires Tells(r, p, word, n)
    ensures !IsSpontaneous(r)
  {
    WordIs(r, p, word, n);
    hide SameWord, WordPrefix;
  }

  /** Any push message whose word begins with another letter is left to the push handler. */
  lemma LeftToHandler(r: Reply)
    requires r.kind == Push && r.first.Some? && r.first.value != ""
    requires var s := r.first.value; var b := if s[0] in "pP" then s[1..] else s; b == "" || b[0] !in "sSmMuU"
    ensures IsSpontaneous(r)
  {
    var b := BaseName(r.first.value);
    if b != "" && |b| >= 6 {
      assert LowerAll(b)[0] !in "smu";
      NoSuchWord(b, "subscribe");
      NoSuchWord(b, "message");
      NoSuchWord(b, "unsubscribe");
    }
  }

  lemma NoSuchWord(b: string, word: string)
    requires b != "" && word != "" && LowerAll(b)[0] != word[0]
    ensures !WordPrefix(b, word)
  {
    if |b| <= |word| {
      assert word[..|b|][0] == word[0];
    } else {
      var c := CString(b);
      assert c != "" ==> c[0] == b[0] && LowerAll(c)[0] == LowerAll(b)[0];
    }
  }

  /** The server confirms a subscription: one reply less is waited for. */
  lemma SubscribeConfirmed(q: Queues, r: Reply, p: bool, n: string)
    requires n in Dictionary(q, p) && Tells(r, p, "subscribe", n)
    ensures MessageP(r) == p && GoodMessage(r, Dictionary(q, p))
    ensures var cb := Dictionary(q, p)[n];
            AfterMessage(q, r) == WithDictionary(q, p, Dictionary(q, p)[n := cb.(pendingSubs := cb.pendingSubs - 1)])
  {
    hide SameWord, WordPrefix, PVariant, BaseName, Spells;
    WordIs(r, p, "subscribe", n);
  }

  /** Subscribed mode ends when nothing is registered or awaited any more. */
  function ModeOver(q: Queues, count: int): Queues {
    if count == 0 && q.channels == map[] && q.patterns == map[] && q.pendingUnsubs == 0 then
      q.(subscribed := false, replies := q.replies + q.subReplies, subReplies := [])
    else q
  }

  /** The server confirms that a channel was left for which no subscription is on its way. */
  lemma UnsubscribeConfirmed(q: Queues, r: Reply, p: bool, n: string)
    requires n in Dictionary(q, p) && Tells(r, p, "unsubscribe", n) && r.count.Some?
    requires Dictionary(q, p)[n].pendingSubs == 0
    ensures MessageP(r) == p && GoodMessage(r, Dictionary(q, p))
    ensures AfterMessage(q, r) == ModeOver(WithDictionary(q, p, Dictionary(q, p) - {n}), r.count.value)
  {
    hide SameWord, WordPrefix, PVariant, BaseName, Spells;
    WordIs(r, p, "unsubscribe", n);
  }

  /** A whole session on one channel: subscribing and unsubscribing, both confirmed, undo each
      other, and in between the messages go to the callback of the command. */
  lemma SessionRoundTrip(q: Queues, p: bool, n: string, sub: string, cb: Callback, joined: Reply, unsub: string,
                         last: Callback, left: Reply)
    requires !q.subscribed && q.channels == map[] && q.patterns == map[] && q.subReplies == [] && q.pendingUnsubs == 0
    requires Named(sub, if p then "psubscribe" else "subscribe") && cb.pendingSubs == 1 && !cb.unsubscribeSent
    requires Named(unsub, if p then "punsubscribe" else "unsubscribe")
    requires Tells(joined, p, "subscribe", n) && Tells(left, p, "unsubscribe", n) && left.count == Some(0)
    ensures var q1 := Sent(q, sub, [n], cb);
            && MessageP(joined) == p && GoodMessage(joined, Dictionary(q1, p))
            && var q2 := AfterMessage(q1, joined);
               && q2 == WithDictionary(q, p, map[n := cb.(pendingSubs := 0)]).(subscribed := true)
               && var q3 := Sent(q2, unsub, [n], last);
                  && MessageP(left) == p && GoodMessage(left, Dictionary(q3, p))
                  && AfterMessage(q3, left) == q
  {
    hide Sent, AfterMessage, Named, Tells, MessageP, GoodMessage;
    var d0: Subs, d1: Subs, d2: Subs := map[n := cb], map[n := cb.(pendingSubs := 0)],
                                        map[n := cb.(pendingSubs := 0, unsubscribeSent := true)];
    Joins(q, p, n, sub, cb);
    var q1 := Sent(q, sub, [n], cb);
    assert Dictionary(q1, p) == d0;
    SubscribeConfirmed(q1, joined, p, n);
    assert d0[n := cb.(pendingSubs := 0)] == d1;
    var q2 := AfterMessage(q1, joined);
    Parts(q2, p, n, unsub, last, cb.(pendingSubs := 0));
    var q3 := Sent(q2, unsub, [n], last);
    assert d1[n := cb.(pendingSubs := 0, unsubscribeSent := true)] == d2;
    assert Dictionary(q3, p) == d2;
    UnsubscribeConfirmed(q3, left, p, n);
    assert d2 - {n} == map[];
    assert q.replies + [] == q.replies;
  }

  lemma Joins(q: Queues, p: bool, n: string, name: string, cb: Callback)
    requires Named(name, if p then "psubscribe" else "subscribe") && n !in Dictionary(q, p)
    ensures Sent(q, name, [n], cb) == WithDictionary(q, p, Dictionary(q, p)[n := cb]).(subscribed := true)
  {
    assert "p" + "subscribe" == "psubscribe";
    IsNamed(name, "subscribe");
    hide Is, Named, PVariant, Subscribed, Registered;
    OneJoins(Dictionary(q, p), n, cb);
  }

  lemma OneJoins(d: Subs, n: string, cb: Callback)
    requires n !in d
    ensures Subscribed(d, [n], cb) == d[n := cb]
  {
    assert [n][1..] == [];
    assert Subscribed(d[n := cb], [], cb) == d[n := cb];
  }

  lemma OneParts(d: Subs, n: string)
    requires n in d && !d[n].unsubscribeSent
    ensures Marked(d, [n]) == (d[n := d[n].(unsubscribeSent := true)], 0)
  {
    assert [n][1..] == [];
    assert Unsubscribed(d[n := d[n].(unsubscribeSent := true)], []) == (d[n := d[n].(unsubscribeSent := true)], 0);
  }

  lemma Parts(q: Queues, p: bool, n: string, name: string, cb: Callback, at: Callback)
    requires Named(name, if p then "punsubscribe" else "unsubscribe") && n in Dictionary(q, p)
    requires Dictionary(q, p)[n] == at && !at.unsubscribeSent
    ensures Sent(q, name, [n], cb) == WithDictionary(q, p, Dictionary(q, p)[n := at.(unsubscribeSent := true)])
  {
    assert "p" + "unsubscribe" == "punsubscribe";
    IsNamed(name, "unsubscribe");
    OneWord(name);
    hide Is, Named, PVariant, Marked;
    OneParts(Dictionary(q, p), n);
  }
}
