/** Commands: the printer of hiredis/hiredis.c, the argument walk of hiredis/async.c, and
    the proof that the printer, the walk and the reply grammar agree. */
module Command {
  import opened Options
  import opened Decimal
  import opened RespGrammar
  import M = RespMachine
  import R = Reader

  const INT_MAX := 0x7FFF_FFFF

  function Bulk(a: string): string {
    "$" + Numeral(|a|) + "\r\n" + a + "\r\n"
  }

  function Bulks(argv: seq<string>): string {
    if argv == [] then "" else Bulk(argv[0]) + Bulks(argv[1..])
  }

  function Header(argc: nat): string {
    "*" + Numeral(argc) + "\r\n"
  }

  /** A command on the wire. */
  function Command(argv: seq<string>): string {
    Header(|argv|) + Bulks(argv)
  }

  lemma {:induction false} BulksSnoc(argv: seq<string>, a: string)
    ensures Bulks(argv + [a]) == Bulks(argv) + Bulk(a)
  {
    if argv == [] {
      assert Bulks([a]) == Bulk(a) + Bulks([]);
    } else {
      assert (argv + [a])[1..] == argv[1..] + [a];
      BulksSnoc(argv[1..], a);
    }
  }

  lemma BulksPrefix(argv: seq<string>, i: nat)
    requires i < |argv|
    ensures Bulks(argv[..i + 1]) == Bulks(argv[..i]) + Bulk(argv[i])
  {
    PrefixSnoc(argv, i);
    BulksSnoc(argv[..i], argv[i]);
  }

  /** bulklen */
  method BulkLen(len: nat) returns (r: nat)
    ensures forall a: string :: |a| == len ==> r == |Bulk(a)|
  {
    var d := CountDigits(len);
    r := 1 + d + 2 + len + 2;
  }

  /** redisFormatSdsCommandArgv: predict the length, then print. */
  method FormatSdsCommandArgv(argv: seq<string>) returns (cmd: string, totlen: nat)
    requires |argv| <= INT_MAX && forall a :: a in argv ==> |a| <= ULLONG_MAX
    ensures cmd == Command(argv) && totlen == |cmd|
  {
    var d := CountDigits(|argv|);
    totlen := 1 + d + 2;
    for j := 0 to |argv|
      invariant totlen == |Header(|argv|)| + |Bulks(argv[..j])|
    {
      BulksPrefix(argv, j);
      var n := BulkLen(|argv[j]|);
      totlen := totlen + n;
    }
    assert argv[..|argv|] == argv;
    cmd := PrintCommand(argv);
  }

  /** The printing half: "*argc", then "$length" and the bytes of every argument. */
  method PrintCommand(argv: seq<string>) returns (cmd: string)
    requires |argv| <= INT_MAX && forall a :: a in argv ==> |a| <= ULLONG_MAX
    ensures cmd == Command(argv)
  {
    var buf := new char[21];
    var l := Sdsll2str(buf, |argv|);
    cmd := "*" + buf[..l] + "\r\n";
    assert cmd == Header(|argv|) + Bulks(argv[..0]);
    for j := 0 to |argv|
      invariant cmd == Header(|argv|) + Bulks(argv[..j])
    {
      BulksPrefix(argv, j);
      Assoc(Header(|argv|), Bulks(argv[..j]), Bulk(argv[j]));
      assert argv[j] in argv;
      l := Sdsull2str(buf, |argv[j]|);
      BulkAppended(cmd, argv[j]);
      cmd := cmd + "$" + buf[..l] + "\r\n";
      cmd := cmd + argv[j];
      cmd := cmd + "\r\n";
    }
    assert argv[..|argv|] == argv;
  }

  lemma BulkAppended(cmd: string, a: string)
    ensures cmd + "$" + Numeral(|a|) + "\r\n" + a + "\r\n" == cmd + Bulk(a)
  {
    var d := Numeral(|a|);
    Assoc(cmd, "$", d);
    Assoc(cmd, "$" + d, "\r\n");
    Assoc(cmd, "$" + d + "\r\n", a);
    Assoc(cmd, "$" + d + "\r\n" + a, "\r\n");
  }

  lemma PrefixSnoc(argv: seq<string>, k: nat)
    requires k < |argv|
    ensures argv[..k + 1] == argv[..k] + [argv[k]]
  {}

  lemma Assoc(x: string, y: string, z: string)
    ensures x + y + z == x + (y + z)
  {}

  // ----- printer and reader -----

  function Strings(argv: seq<string>): seq<Reply> {
    seq(|argv|, i requires 0 <= i < |argv| => Text(STRING, argv[i]))
  }

  /** A printed number is a line of its own. */
  lemma NumeralLine(n: nat, t: string)
    ensures var s := Numeral(n) + "\r\n" + t;
            LineEnd(s) == Some(|Numeral(n)|) && s[..|Numeral(n)|] == Numeral(n)
  {
    NumeralShape(n);
    var s, m := Numeral(n) + "\r\n" + t, |Numeral(n)|;
    assert s[m] == '\r' && s[m + 1] == '\n';
    assert forall i :: 0 <= i < m ==> s[i] == Numeral(n)[i] && IsDigit(s[i]);
  }

  /** Where the parts of a bulk string are. */
  lemma BulkParts(a: string)
    ensures var d, b := |Numeral(|a|)|, Bulk(a);
            && |b| == 1 + d + 2 + |a| + 2 && b[0] == '$' && b[1..1 + d] == Numeral(|a|)
            && b[1 + d] == '\r' && b[2 + d] == '\n' && b[1 + d + 2..1 + d + 2 + |a|] == a
  {}

  lemma Inside(s: string, p: nat, b: string, i: nat, j: nat)
    requires p + |b| <= |s| && s[p..p + |b|] == b && i <= j <= |b|
    ensures s[p + i..p + j] == b[i..j]
  {
    var mid, left, right := s[p..p + |b|], s[p + i..p + j], b[i..j];
    assert forall k :: 0 <= k < |left| ==> left[k] == mid[i + k];
    assert |left| == |right| && forall k :: 0 <= k < |left| ==> left[k] == right[k];
  }

  /** The body of a bulk string whose length line ends at `n`. */
  lemma BulkBody(cfg: Config, a: string, n: nat, s: string)
    requires |a| <= LLONG_MAX && LineEnd(s) == Some(n) && s[..n] == Numeral(|a|)
    requires n + 2 + |a| + 2 <= |s| && s[n + 2..n + 2 + |a|] == a
    ensures ParseBody(cfg, STRING, s) == Done(Text(STRING, a), s[n + 2 + |a| + 2..])
  {
    ParsePrinted(|a|);
    assert BulkItem(STRING, n, s) == Leaf(Text(STRING, a), n + 2 + |a| + 2);
    BodyByKind(cfg, STRING, s);
  }

  lemma Append(x: string, y: string)
    ensures (x + y)[..|x|] == x && (x + y)[|x|..] == y
  {}

  lemma BulkRegrouped(a: string, t: string)
    ensures Bulk(a) + t == "$" + (Numeral(|a|) + "\r\n" + (a + "\r\n" + t))
  {
    var d, crlf := Numeral(|a|), "\r\n";
    Assoc("$" + d + crlf + a, crlf, t);
    Assoc("$" + d + crlf, a, crlf + t);
    Assoc(a, crlf, t);
    Assoc("$" + d, crlf, a + crlf + t);
    Assoc("$", d, crlf + (a + crlf + t));
    Assoc(d, crlf, a + crlf + t);
  }

  /** A bulk string followed by `t`, seen from behind its type byte. */
  lemma BulkThen(a: string, t: string)
    ensures var s, d := (Bulk(a) + t)[1..], |Numeral(|a|)|;
            && |s| == d + 2 + |a| + 2 + |t| && LineEnd(s) == Some(d) && s[..d] == Numeral(|a|)
            && s[d + 2..d + 2 + |a|] == a && s[d + 2 + |a| + 2..] == t
  {
    var d, rest := Numeral(|a|), a + "\r\n" + t;
    BulkRegrouped(a, t);
    Append("$", d + "\r\n" + rest);
    NumeralLine(|a|, rest);
    LineThen(d + "\r\n", a, t);
  }

  lemma LineThen(line: string, a: string, t: string)
    ensures var s := line + (a + "\r\n" + t);
            s[|line|..|line| + |a|] == a && s[|line| + |a| + 2..] == t
  {
    var s, rest := line + (a + "\r\n" + t), a + "\r\n" + t;
    Append(line, rest);
    Assoc(a, "\r\n", t);
    Append(a, "\r\n" + t);
    Append(a + "\r\n", t);
    assert s[|line|..|line| + |a|] == s[|line|..][..|a|];
    assert s[|line| + |a| + 2..] == s[|line|..][|a| + 2..];
  }

  lemma ReadBulk(cfg: Config, a: string, t: string)
    requires |a| <= LLONG_MAX
    ensures ParseReply(cfg, Bulk(a) + t) == Done(Text(STRING, a), t)
  {
    BulkThen(a, t);
    BulkBody(cfg, a, |Numeral(|a|)|, (Bulk(a) + t)[1..]);
    assert (Bulk(a) + t)[0] == '$';
  }

  lemma {:induction false} ReadBulks(cfg: Config, argv: seq<string>, t: string)
    requires forall a :: a in argv ==> |a| <= LLONG_MAX
    ensures ParseMany(cfg, |argv|, Bulks(argv) + t) == Done(Strings(argv), t)
  {
    if argv == [] {
      assert Bulks(argv) + t == t && Strings(argv) == [];
    } else {
      Assoc(Bulk(argv[0]), Bulks(argv[1..]), t);
      ReadBulk(cfg, argv[0], Bulks(argv[1..]) + t);
      ReadBulks(cfg, argv[1..], t);
      StringsCons(argv);
    }
  }

  lemma StringsCons(argv: seq<string>)
    requires argv != []
    ensures Strings(argv) == [Text(STRING, argv[0])] + Strings(argv[1..])
  {}

  lemma ReadHeader(cfg: Config, argc: nat, rest: string)
    requires argc <= INT_MAX
    ensures ParseReply(cfg, Header(argc) + rest)
         == if cfg.maxElements > 0 && argc > cfg.maxElements then Failed(MultiBulkLengthOutOfRange)
            else Close(ARRAY, [], ParseMany(cfg, argc, rest))
  {
    var s, n := Numeral(argc) + "\r\n" + rest, |Numeral(argc)|;
    HeaderSplit(argc, rest, s);
    NumeralLine(argc, rest);
    ParsePrinted(argc);
    hide Numeral, Header;
    BodyByKind(cfg, ARRAY, s);
    assert Body(cfg, ARRAY, s) == AggregateItem(cfg, ARRAY, Numeral(argc));
  }

  lemma HeaderSplit(argc: nat, rest: string, s: string)
    requires s == Numeral(argc) + "\r\n" + rest
    ensures Header(argc) + rest == ['*'] + s && (Header(argc) + rest)[1..] == s && s[|Numeral(argc)| + 2..] == rest
  {
    hide Numeral;
    assert Header(argc) + rest == ['*'] + s;
  }

  /** What is printed is read back as an array of exactly those strings, up to the element
      limit of the reader and not beyond. */
  lemma ReadCommand(cfg: Config, argv: seq<string>, t: string)
    requires |argv| <= INT_MAX && forall a :: a in argv ==> |a| <= LLONG_MAX
    ensures ParseReply(cfg, Command(argv) + t)
         == if cfg.maxElements > 0 && |argv| > cfg.maxElements then Failed(MultiBulkLengthOutOfRange)
            else Done(Aggregate(ARRAY, Strings(argv)), t)
  {
    assert Command(argv) + t == Header(|argv|) + (Bulks(argv) + t);
    ReadHeader(cfg, |argv|, Bulks(argv) + t);
    ReadBulks(cfg, argv, t);
    assert [] + Strings(argv) == Strings(argv);
  }

  /** Commands printed one after the other. */
  function Pipeline(commands: seq<seq<string>>): string {
    if commands == [] then "" else Command(commands[0]) + Pipeline(commands[1..])
  }

  /** A pipeline is read back command by command. */
  lemma {:induction false} ReadPipeline(cfg: Config, commands: seq<seq<string>>)
    requires forall i :: 0 <= i < |commands| ==>
               |commands[i]| <= INT_MAX && (cfg.maxElements > 0 ==> |commands[i]| <= cfg.maxElements)
               && forall a :: a in commands[i] ==> |a| <= LLONG_MAX
    ensures Stream(cfg, Pipeline(commands)).failure == None && |Stream(cfg, Pipeline(commands)).replies| == |commands|
    ensures forall i :: 0 <= i < |commands| ==>
              Stream(cfg, Pipeline(commands)).replies[i] == Aggregate(ARRAY, Strings(commands[i]))
    decreases |commands|
  {
    if commands != [] {
      var rest := Pipeline(commands[1..]);
      ReadPipeline(cfg, commands[1..]);
      ReadCommand(cfg, commands[0], rest);
      assert Stream(cfg, Command(commands[0]) + rest).replies
          == [Aggregate(ARRAY, Strings(commands[0]))] + Stream(cfg, rest).replies;
    }
  }

  /** The same with the reader: pipelined commands, cut into chunks in any way, come out one by
      one. */
  method ReadCommands(cfg: Config, maxbuf: nat, commands: seq<seq<string>>, chunks: seq<string>, drop: nat -> bool)
    returns (reader: R.RedisReader, handles: seq<int>)
    requires R.Concat(chunks) == Pipeline(commands)
    requires forall i :: 0 <= i < |commands| ==>
               |commands[i]| <= INT_MAX && (cfg.maxElements > 0 ==> |commands[i]| <= cfg.maxElements)
               && forall a :: a in commands[i] ==> |a| <= LLONG_MAX
    ensures fresh(reader) && reader.err == None && |handles| == |commands|
    ensures forall i :: 0 <= i < |commands| ==>
              && M.Built(reader.objs, handles[i], |reader.objs|)
              && M.ValueOf(reader.objs, handles[i], |reader.objs|) == Aggregate(ARRAY, Strings(commands[i]))
  {
    ReadPipeline(cfg, commands);
    reader, handles := R.ReadAll(cfg, maxbuf, chunks, drop);
  }

  // ----- printer and argument walk -----

  /** strchr on the NUL-terminated buffer `s`, starting at `p`. */
  function Strchr(s: string, p: nat, c: char): (r: Option<nat>)
    requires p <= |s| && c != '\0'
    ensures r.Some? ==> p <= r.value < |s| && s[r.value] == c
    decreases |s| - p
  {
    if p == |s| || s[p] == '\0' then None
    else if s[p] == c then Some(p)
    else Strchr(s, p + 1, c)
  }

  /** The digits at `p`, as strtol reads them. */
  function DigitRun(s: string, p: nat): (r: string)
    requires p <= |s|
    ensures AllDigits(r)
    decreases |s| - p
  {
    if p < |s| && IsDigit(s[p]) then [s[p]] + DigitRun(s, p + 1) else ""
  }

  /** (int) strtol(...), for the unsigned digit runs that follow a '$'. */
  function LengthAt(s: string, p: nat): int
    requires p <= |s|
  {
    var v := if Value(DigitRun(s, p)) > LLONG_MAX then LLONG_MAX else Value(DigitRun(s, p));
    (v + 0x8000_0000) % 0x1_0000_0000 - 0x8000_0000
  }

  /** nextArgument: where the argument starts, its length, where the next one starts. */
  datatype Argument = NoMore | Unterminated | Argument(str: int, len: int, next: int)

  function NextArgument(s: string, start: nat): Argument
    requires start <= |s|
  {
    match Strchr(s, start, '$')
    case None => NoMore
    case Some(p) =>
      match Strchr(s, p, '\r')
      case None => Unterminated
      case Some(q) => Argument(q + 2, LengthAt(s, p + 1), q + 2 + LengthAt(s, p + 1) + 2)
  }

  /** Where argument `i` of a printed command starts. */
  function ArgPos(argv: seq<string>, i: nat): nat
    requires i <= |argv|
  {
    |Header(|argv|)| + |Bulks(argv[..i])|
  }

  lemma {:induction false} StrchrSkips(s: string, p: nat, q: nat, c: char)
    requires p <= q <= |s| && c != '\0'
    requires forall i :: p <= i < q ==> s[i] != c && s[i] != '\0'
    ensures Strchr(s, p, c) == Strchr(s, q, c)
    decreases q - p
  {
    if p < q { StrchrSkips(s, p + 1, q, c); }
  }

  lemma {:induction false} DigitRunIs(s: string, p: nat, q: nat)
    requires p <= q < |s| && !IsDigit(s[q]) && AllDigits(s[p..q])
    ensures DigitRun(s, p) == s[p..q]
    decreases q - p
  {
    if p < q {
      assert s[p] == s[p..q][0];
      assert s[p + 1..q] == s[p..q][1..];
      DigitRunIs(s, p + 1, q);
    }
  }

  /** Arguments of a printed command, wherever the bytes continue. */
  lemma CommandSplit(argv: seq<string>, i: nat)
    requires i < |argv|
    ensures var front := Header(|argv|) + Bulks(argv[..i]);
            |front| == ArgPos(argv, i) && front + Bulk(argv[i]) + Bulks(argv[i + 1..]) == Command(argv)
  {
    BulksSplit(argv, i);
    assert argv[i..][1..] == argv[i + 1..];
    var b, tail := Bulk(argv[i]), Bulks(argv[i + 1..]);
    Assoc(Header(|argv|), Bulks(argv[..i]), b);
    Assoc(Header(|argv|), Bulks(argv[..i]) + b, tail);
    Assoc(Bulks(argv[..i]), b, tail);
  }

  lemma {:induction false} BulksSplit(argv: seq<string>, i: nat)
    requires i <= |argv|
    ensures Bulks(argv) == Bulks(argv[..i]) + Bulks(argv[i..])
    decreases |argv| - i
  {
    if i == |argv| {
      assert argv[..i] == argv && argv[i..] == [];
    } else {
      BulksSplit(argv, i + 1);
      BulksPrefix(argv, i);
      assert argv[i..][1..] == argv[i + 1..];
    }
  }

  /** nextArgument where a '$', a length and a CR stand. */
  lemma NextArgumentAtDollar(s: string, p: nat, n: nat)
    requires n <= INT_MAX && p + 1 + |Numeral(n)| < |s|
    requires s[p] == '$' && s[p + 1..p + 1 + |Numeral(n)|] == Numeral(n) && s[p + 1 + |Numeral(n)|] == '\r'
    ensures var str := p + 1 + |Numeral(n)| + 2; NextArgument(s, p) == Argument(str, n, str + n + 2)
  {
    NumeralShape(n);
    var q := p + 1 + |Numeral(n)|;
    forall j | p <= j < q ensures s[j] != '\r' && s[j] != '\0' {
      if j > p { assert s[j] == Numeral(n)[j - p - 1] && IsDigit(s[j]); }
    }
    StrchrSkips(s, p, q, '\r');
    DigitRunIs(s, p + 1, q);
  }

  /** nextArgument on a printed argument, whatever stands before and after it. */
  lemma NextArgumentIs(front: string, a: string, tail: string)
    requires |a| <= INT_MAX
    ensures var s, str := front + Bulk(a) + tail, |front| + 1 + |Numeral(|a|)| + 2;
            && NextArgument(s, |front|) == Argument(str, |a|, str + |a| + 2)
            && str + |a| + 2 == |front + Bulk(a)| && s[str..str + |a|] == a
  {
    var s, b, p, d := front + Bulk(a) + tail, Bulk(a), |front|, |Numeral(|a|)|;
    BulkParts(a);
    assert s[p..p + |b|] == b;
    Inside(s, p, b, 1, 1 + d);
    Inside(s, p, b, 1 + d + 2, 1 + d + 2 + |a|);
    assert s[p + 1 + d] == b[1 + d] && s[p] == b[0];
    NextArgumentAtDollar(s, p, |a|);
  }

  /** nextArgument at argument `i` yields exactly that argument and the position of the next. */
  lemma NextArgumentAt(argv: seq<string>, i: nat)
    requires i < |argv| && |argv[i]| <= INT_MAX
    ensures ArgPos(argv, i) < ArgPos(argv, i + 1) <= |Command(argv)|
    ensures var s, n, str := Command(argv), |argv[i]|, ArgPos(argv, i + 1) - |argv[i]| - 2;
            && NextArgument(s, ArgPos(argv, i)) == Argument(str, n, ArgPos(argv, i + 1))
            && 0 <= str && s[str..str + n] == argv[i]
  {
    CommandSplit(argv, i);
    BulksPrefix(argv, i);
    NextArgumentIs(Header(|argv|) + Bulks(argv[..i]), argv[i], Bulks(argv[i + 1..]));
  }

  /** Started at the beginning of the command it finds the first argument, and after the
      last one it finds none. */
  lemma NextArgumentEnds(argv: seq<string>)
    ensures ArgPos(argv, |argv|) == |Command(argv)|
    ensures NextArgument(Command(argv), ArgPos(argv, |argv|)) == NoMore
    ensures NextArgument(Command(argv), 0)
         == if argv == [] then NoMore else NextArgument(Command(argv), ArgPos(argv, 0))
  {
    var s, h := Command(argv), Header(|argv|);
    assert argv[..|argv|] == argv && argv[..0] == [];
    NumeralShape(|argv|);
    forall j | 0 <= j < |h| ensures s[j] != '$' && s[j] != '\0' {
      assert s[j] == h[j];
      if 0 < j <= |Numeral(|argv|)| { assert s[j] == Numeral(|argv|)[j - 1] && IsDigit(s[j]); }
    }
    StrchrSkips(s, 0, |h|, '$');
  }

  /** One turn of the walk over a printed command. */
  lemma WalkStep(argv: seq<string>, k: nat, p: nat)
    requires k <= |argv| && p == (if k == 0 then 0 else ArgPos(argv, k))
    requires forall a :: a in argv ==> |a| <= INT_MAX
    ensures p <= |Command(argv)|
    ensures var s := Command(argv); var arg := NextArgument(s, p);
            if k < |argv| then
              arg.Argument? && arg.next == ArgPos(argv, k + 1) && 0 <= arg.str <= arg.str + arg.len <= |s|
              && s[arg.str..arg.str + arg.len] == argv[k]
            else arg == NoMore
  {
    hide Command, NextArgument, ArgPos;
    NextArgumentEnds(argv);
    if k < |argv| {
      assert argv[k] in argv;
      NextArgumentAt(argv, k);
    }
  }

  /** The argument loop of __redisAsyncCommand: `while ((p = nextArgument(p,...)) != NULL)`. */
  method Arguments(s: string, ghost argv: seq<string>) returns (list: seq<string>)
    requires s == Command(argv) && forall a :: a in argv ==> |a| <= INT_MAX
    ensures list == argv
  {
    hide Command, NextArgument, ArgPos;
    list := [];
    var p: nat := 0;
    WalkStep(argv, 0, p);
    var arg := NextArgument(s, p);
    while arg.Argument?
      invariant |list| <= |argv| && list == argv[..|list|]
      invariant arg.Argument? <==> |list| < |argv|
      invariant arg.Argument? ==> arg.next == ArgPos(argv, |list| + 1) && 0 <= arg.str <= arg.str + arg.len <= |s|
                                  && s[arg.str..arg.str + arg.len] == argv[|list|]
      decreases |argv| - |list|
    {
      var a := s[arg.str..arg.str + arg.len];
      PrefixSnoc(argv, |list|);
      list, p := list + [a], arg.next;
      WalkStep(argv, |list|, p);
      arg := NextArgument(s, p);
    }
  }
}
