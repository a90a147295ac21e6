/** The Redis serialization protocol from the sender's side: every reply value has a wire form, and
    the grammar of module RespGrammar, hence the reader, gives the value back. */
module Wire {
  import opened Ascii
  import opened Options
  import D = Decimal
  import opened RespGrammar
  import opened Command
  import R = Reader

  function Line(c: char, line: string): string {
    [c] + (line + "\r\n")
  }

  function Counted(c: char, payload: string): string {
    Line(c, D.Numeral(|payload|)) + (payload + "\r\n")
  }

  /** Maps and attributes announce pairs. */
  function Announced(kind: Kind, n: nat): nat {
    if kind == MAP || kind == ATTR then n / 2 else n
  }

  /** What a server sends for a reply. */
  function WireForm(r: Reply): string {
    match r
    case Nil => "_\r\n"
    case Integer(v) => Line(':', D.Text(v))
    case Bool(b) => if b then "#t\r\n" else "#f\r\n"
    case Double(text) => Line(',', text)
    case Text(kind, str) =>
      if kind == STATUS then Line('+', str)
      else if kind == ERROR then Line('-', str)
      else if kind == BIGNUM then Line('(', str)
      else Counted('$', str)
    case Verb(vtype, str) => Counted('=', vtype + ":" + str)
    case Aggregate(kind, elements) =>
      Line(if kind == ARRAY then '*' else if kind == SET then '~' else if kind == PUSH then '>'
           else if kind == MAP then '%' else '|', D.Numeral(Announced(kind, |elements|))) + WireForms(elements)
  }

  function WireForms(rs: seq<Reply>): string {
    if rs == [] then "" else WireForm(rs[0]) + WireForms(rs[1..])
  }

  /** No CR LF inside. */
  predicate OneLine(s: string) {
    forall i :: 0 <= i < |s| - 1 ==> !(s[i] == '\r' && s[i + 1] == '\n')
  }

  /** The leaves that can be sent, and of which length. */
  predicate LeafSendable(cfg: Config, r: Reply)
    requires !r.Aggregate?
  {
    match r
    case Nil => true
    case Integer(v) => -0x8000_0000_0000_0000 <= v <= 0x7FFF_FFFF_FFFF_FFFF
    case Bool(_) => true
    case Double(text) =>
      && OneLine(text) && 0 < |text| < 326
      && (Spells(text, "inf") || Spells(text, "-inf") || Spells(text, "nan") || Spells(text, "-nan")
          || cfg.strtodFinite(text))
    case Text(kind, str) =>
      if kind == STATUS || kind == ERROR then '\r' !in str && '\n' !in str
      else if kind == BIGNUM then forall i :: 0 <= i < |str| ==> '0' <= str[i] <= '9' || (i == 0 && str[i] == '-')
      else kind == STRING && |str| <= 0x7FFF_FFFF_FFFF_FFFF
    case Verb(vtype, str) => |vtype| == 3 && 4 + |str| <= 0x7FFF_FFFF_FFFF_FFFF
  }

  /** An aggregate announces no more than the reader accepts, and its elements can be sent. */
  predicate Sendable(cfg: Config, r: Reply) {
    if r.Aggregate? then
      && r.kind in {ARRAY, SET, PUSH, MAP, ATTR} && (r.kind in {MAP, ATTR} ==> |r.elements| % 2 == 0)
      && Accepted(cfg, Announced(r.kind, |r.elements|))
      && forall i :: 0 <= i < |r.elements| ==> Sendable(cfg, r.elements[i])
    else LeafSendable(cfg, r)
  }

  predicate Accepted(cfg: Config, n: nat) {
    n <= 0x7FFF_FFFF_FFFF_FFFF && (cfg.maxElements > 0 ==> n <= cfg.maxElements)
  }

  // ----- lines -----

  /** A line ends at its first CRLF. */
  lemma LineAt(line: string, t: string)
    ensures var s := line + "\r\n" + t;
            if OneLine(line) then
              LineEnd(s) == Some(|line|) && s[..|line|] == line && s[|line| + 2..] == t
            else
              LineEnd(s).Some? && LineEnd(s).value < |line|
  {
    var s := line + "\r\n" + t;
    var e := LineEnd(s);
    assert s[|line|] == '\r' && s[|line| + 1] == '\n';
    assert forall i :: 0 <= i < |line| ==> s[i] == line[i];
    assert s[..|line|] == line && s[|line| + 2..] == t;
    assert e.Some?;
  }

  /** The body behind a type byte. */
  lemma Behind(cfg: Config, c: char, k: Kind, body: string)
    requires KindOfByte(c) == Some(k)
    ensures ParseReply(cfg, [c] + body) == ParseBody(cfg, k, body)
  {
    assert ([c] + body)[1..] == body;
  }

  lemma LineSplit(c: char, line: string, t: string)
    ensures Line(c, line) + t == [c] + (line + "\r\n" + t)
  {}

  function Taken(item: Item, t: string): Parse<Reply>
    requires item.Leaf? || item.Bad?
  {
    if item.Leaf? then Done(item.reply, t) else Failed(item.error)
  }

  lemma LineLength(cfg: Config, k: Kind, line: string)
    ensures var item := LineItem(cfg, k, line); item.Bad? || (item.Leaf? && item.n == |line| + 2)
  {
    hide D.LongLong, DoubleText, BignumText, SimpleText;
  }

  /** An element of one line. */
  lemma ReadLine(cfg: Config, c: char, k: Kind, line: string, t: string)
    requires KindOfByte(c) == Some(k) && !IsAggregate(k) && k != STRING && k != VERB
    ensures var p := ParseReply(cfg, Line(c, line) + t);
            if OneLine(line) then p == Taken(LineItem(cfg, k, line), t)
            else p.Done? ==> exists shorter: string ::
                   |shorter| < |line| && LineItem(cfg, k, shorter) == Leaf(p.value, |shorter| + 2)
  {
    hide OneLine, LineItem, KindOfByte;
    var s := line + "\r\n" + t;
    LineSplit(c, line, t);
    Behind(cfg, c, k, s);
    LineAt(line, t);
    BodyByKind(cfg, k, s);
    var n := LineEnd(s).value;
    LineLength(cfg, k, s[..n]);
    if !OneLine(line) { assert |s[..n]| == n; }
  }

  // ----- leaves -----

  lemma NumberLine(v: int)
    ensures OneLine(D.Text(v)) && OneLine(D.Numeral(if v < 0 then -v else v))
  {
    D.NumeralShape(if v < 0 then -v else v);
    hide D.Numeral;
  }

  lemma ReadInteger(cfg: Config, v: int, t: string)
    ensures ParseReply(cfg, WireForm(Integer(v)) + t) == Done(Integer(v), t) <==> LeafSendable(cfg, Integer(v))
  {
    NumberLine(v);
    ReadLine(cfg, ':', INTEGER, D.Text(v), t);
    if LeafSendable(cfg, Integer(v)) { D.ParsePrinted(v); }
    hide D.Text, OneLine, D.Canonical, D.IntValue;
  }

  lemma ReadShort(cfg: Config, r: Reply, t: string)
    requires r.Nil? || r.Bool?
    ensures ParseReply(cfg, WireForm(r) + t) == Done(r, t)
  {
    var c, k, line := if r.Nil? then '_' else '#', if r.Nil? then NIL else BOOL,
                      if r.Nil? then "" else if r.b then "t" else "f";
    assert WireForm(r) == Line(c, line);
    ReadLine(cfg, c, k, line, t);
  }

  lemma ReadDouble(cfg: Config, text: string, t: string)
    ensures ParseReply(cfg, WireForm(Double(text)) + t) == Done(Double(text), t) <==> LeafSendable(cfg, Double(text))
  {
    hide Spells, DoubleText, OneLine;
    ReadLine(cfg, ',', DOUBLE, text, t);
    DoubleSpells(cfg, text);
  }

  lemma DoubleSpells(cfg: Config, text: string)
    ensures DoubleText(cfg, text) <==>
              || Spells(text, "inf") || Spells(text, "-inf") || Spells(text, "nan") || Spells(text, "-nan")
              || (text != "" && cfg.strtodFinite(text))
    ensures DoubleText(cfg, text) ==> text != ""
  {
    hide Spells, LowerAll;
    LowerSpells(text, "inf");
    LowerSpells(text, "-inf");
    LowerSpells(text, "nan");
    LowerSpells(text, "-nan");
  }

  /** Status, error and bignum replies. */
  lemma ReadText(cfg: Config, kind: Kind, str: string, t: string)
    requires kind in {STATUS, ERROR, BIGNUM}
    ensures var r := Reply.Text(kind, str);
            ParseReply(cfg, WireForm(r) + t) == Done(r, t) <==> LeafSendable(cfg, r)
  {
    hide OneLine, SimpleText, BignumText, LineItem, KindOfByte, Line, ParseReply;
    var r := Reply.Text(kind, str);
    var c := if kind == STATUS then '+' else if kind == ERROR then '-' else '(';
    TextByte(kind, str);
    TextLine(str);
    TextItem(cfg, kind, str);
    ReadLine(cfg, c, kind, str, t);
    if !OneLine(str) && ParseReply(cfg, WireForm(r) + t) == Done(r, t) {
      var shorter: string :| |shorter| < |str| && LineItem(cfg, kind, shorter) == Leaf(r, |shorter| + 2);
      TextItem(cfg, kind, shorter);
    }
  }

  lemma TextByte(kind: Kind, str: string)
    requires kind in {STATUS, ERROR, BIGNUM}
    ensures var c := if kind == STATUS then '+' else if kind == ERROR then '-' else '(';
            KindOfByte(c) == Some(kind) && !IsAggregate(kind) && WireForm(Reply.Text(kind, str)) == Line(c, str)
  {}

  lemma TextItem(cfg: Config, kind: Kind, line: string)
    requires kind in {STATUS, ERROR, BIGNUM}
    ensures var item := LineItem(cfg, kind, line);
            if (if kind == BIGNUM then BignumText(line) else SimpleText(line))
            then item == Leaf(Reply.Text(kind, line), |line| + 2) else item.Bad?
  {
    hide BignumText, SimpleText;
  }

  lemma TextLine(str: string)
    ensures SimpleText(str) <==> '\r' !in str && '\n' !in str
    ensures BignumText(str) <==> forall i :: 0 <= i < |str| ==> '0' <= str[i] <= '9' || (i == 0 && str[i] == '-')
    ensures SimpleText(str) || BignumText(str) ==> OneLine(str)
  {}

  lemma ReadCounted(cfg: Config, c: char, k: Kind, payload: string, t: string)
    requires (c == '$' && k == STRING) || (c == '=' && k == VERB)
    ensures ParseReply(cfg, Counted(c, payload) + t)
         == if |payload| > D.LLONG_MAX then Failed(BadBulkLength)
            else if k == STRING then Done(Reply.Text(STRING, payload), t)
            else if |payload| < 4 || payload[3] != ':' then Failed(BadVerbatim)
            else Done(Verb(payload[..3], payload[4..]), t)
  {
    hide *;
    var s, n := CountedBody(payload, t), |D.Numeral(|payload|)|;
    CountedSplit(c, payload, t);
    CountedKind(c, k);
    Behind(cfg, c, k, s);
    CountedParts(payload, t);
    NumberRead(|payload|);
    BodyByKind(cfg, k, s);
    CountedItem(k, n, s, payload, t);
    CountedParse(cfg, k, s);
  }

  lemma CountedKind(c: char, k: Kind)
    requires (c == '$' && k == STRING) || (c == '=' && k == VERB)
    ensures KindOfByte(c) == Some(k) && !IsAggregate(k) && (k == STRING || k == VERB)
  {}

  lemma CountedParse(cfg: Config, k: Kind, s: string)
    requires Body(cfg, k, s).Leaf? || Body(cfg, k, s).Bad?
    ensures var b := Body(cfg, k, s);
            ParseBody(cfg, k, s) == if b.Leaf? then Done(b.reply, s[b.n..]) else Failed(b.error)
  {
    hide Body;
  }

  function CountedBody(payload: string, t: string): string {
    D.Numeral(|payload|) + "\r\n" + (payload + "\r\n" + t)
  }

  lemma CountedParts(payload: string, t: string)
    ensures var s, n := CountedBody(payload, t), |D.Numeral(|payload|)|;
            && LineEnd(s) == Some(n) && s[..n] == D.Numeral(|payload|) && |s| == n + 2 + |payload| + 2 + |t|
            && s[n + 2..n + 2 + |payload|] == payload && s[n + 2 + |payload| + 2..] == t
  {
    var line := D.Numeral(|payload|);
    NumberLine(|payload|);
    hide D.Numeral, OneLine, LineEnd;
    LineAt(line, payload + "\r\n" + t);
    LineThen(line + "\r\n", payload, t);
    assert |CountedBody(payload, t)| == |line| + 2 + |payload| + 2 + |t|;
  }

  lemma CountedItem(k: Kind, n: nat, s: string, payload: string, t: string)
    requires n + 2 + |payload| + 2 <= |s| && s[n + 2..n + 2 + |payload|] == payload
    requires D.LongLong(s[..n]) == if |payload| <= D.LLONG_MAX then Some(|payload|) else None
    ensures BulkItem(k, n, s)
         == if |payload| > D.LLONG_MAX then Bad(BadBulkLength)
            else if k != VERB then Leaf(Reply.Text(k, payload), n + 2 + |payload| + 2)
            else if |payload| < 4 || payload[3] != ':' then Bad(BadVerbatim)
            else Leaf(Verb(payload[..3], payload[4..]), n + 2 + |payload| + 2)
  {
    hide D.LongLong;
  }

  lemma NumberRead(n: nat)
    ensures D.LongLong(D.Numeral(n)) == if n <= D.LLONG_MAX then Some(n) else None
  {
    D.NumeralShape(n);
    if n <= D.LLONG_MAX { D.ParsePrinted(n); }
    assert n > 9 ==> D.Numeral(n) != "0";
    hide D.Numeral, D.Value;
  }

  lemma CountedSplit(c: char, payload: string, t: string)
    ensures Counted(c, payload) + t == [c] + CountedBody(payload, t)
  {
    var line := D.Numeral(|payload|);
    hide D.Numeral;
    Assoc(Line(c, line), payload + "\r\n", t);
    LineSplit(c, line, payload + "\r\n" + t);
  }

  /** Strings and verbatim strings. */
  lemma ReadString(cfg: Config, r: Reply, t: string)
    requires r.Verb? || (r.Text? && r.kind !in {STATUS, ERROR, BIGNUM})
    ensures ParseReply(cfg, WireForm(r) + t) == Done(r, t) <==> LeafSendable(cfg, r)
  {
    hide Counted;
    if r.Verb? {
      var payload := r.vtype + ":" + r.str;
      ReadCounted(cfg, '=', VERB, payload, t);
      if |r.vtype| == 3 { assert payload[..3] == r.vtype && payload[3] == ':' && payload[4..] == r.str; }
    } else {
      ReadCounted(cfg, '$', STRING, r.str, t);
    }
  }

  /** A leaf is read back exactly if it can be sent. */
  lemma LeafRoundTrip(cfg: Config, r: Reply, t: string)
    requires !r.Aggregate?
    ensures ParseReply(cfg, WireForm(r) + t) == Done(r, t) <==> LeafSendable(cfg, r)
  {
    match r
    case Nil => ReadShort(cfg, r, t);
    case Bool(_) => ReadShort(cfg, r, t);
    case Integer(v) => ReadInteger(cfg, v, t);
    case Double(text) => ReadDouble(cfg, text, t);
    case Text(kind, str) =>
      if kind in {STATUS, ERROR, BIGNUM} { ReadText(cfg, kind, str, t); } else { ReadString(cfg, r, t); }
    case Verb(_, _) => ReadString(cfg, r, t);
    case Aggregate(_, _) =>
  }

  // ----- aggregates -----

  /** The header of an aggregate. */
  lemma ReadOpen(cfg: Config, c: char, k: Kind, n: nat, rest: string)
    requires KindOfByte(c) == Some(k) && IsAggregate(k)
    ensures ParseReply(cfg, Line(c, D.Numeral(n)) + rest)
         == if n > D.LLONG_MAX then Failed(BadMultiBulkLength)
            else if cfg.maxElements > 0 && n > cfg.maxElements then Failed(MultiBulkLengthOutOfRange)
            else Close(k, [], ParseMany(cfg, if k == MAP || k == ATTR then 2 * n else n, rest))
  {
    var line := D.Numeral(n);
    var s := line + "\r\n" + rest;
    NumberLine(n);
    NumberRead(n);
    hide D.Numeral, D.LongLong, OneLine, KindOfByte, LineEnd;
    LineSplit(c, line, rest);
    Behind(cfg, c, k, s);
    LineAt(line, rest);
    BodyByKind(cfg, k, s);
  }

  lemma AggregateForm(k: Kind, elements: seq<Reply>, t: string) returns (c: char)
    requires k in {ARRAY, SET, PUSH, MAP, ATTR}
    ensures KindOfByte(c) == Some(k) && IsAggregate(k)
    ensures WireForm(Aggregate(k, elements)) + t
         == Line(c, D.Numeral(Announced(k, |elements|))) + (WireForms(elements) + t)
  {
    hide D.Numeral, Line, WireForms, Announced;
    c := if k == ARRAY then '*' else if k == SET then '~' else if k == PUSH then '>' else if k == MAP then '%' else '|';
    Assoc(Line(c, D.Numeral(Announced(k, |elements|))), WireForms(elements), t);
  }

  /** An aggregate that announces too much is refused; otherwise its elements follow. */
  lemma ReadAggregate(cfg: Config, k: Kind, elements: seq<Reply>, t: string)
    requires k in {ARRAY, SET, PUSH, MAP, ATTR} && (k in {MAP, ATTR} ==> |elements| % 2 == 0)
    ensures ParseReply(cfg, WireForm(Aggregate(k, elements)) + t)
         == if Announced(k, |elements|) > 0x7FFF_FFFF_FFFF_FFFF then Failed(BadMultiBulkLength)
            else if cfg.maxElements > 0 && Announced(k, |elements|) > cfg.maxElements then
              Failed(MultiBulkLengthOutOfRange)
            else Close(k, [], ParseMany(cfg, |elements|, WireForms(elements) + t))
  {
    hide WireForm, D.Numeral, Line, ParseReply, ParseMany, KindOfByte;
    var c := AggregateForm(k, elements, t);
    ReadOpen(cfg, c, k, Announced(k, |elements|), WireForms(elements) + t);
  }

  /** Every reply that can be sent is read back from its wire form, whatever follows. */
  lemma {:induction false} WireRoundTrip(cfg: Config, r: Reply, t: string)
    requires Sendable(cfg, r)
    ensures ParseReply(cfg, WireForm(r) + t) == Done(r, t)
    decreases r, 0
  {
    hide WireForm, ParseReply, ParseMany, LeafSendable;
    if r.Aggregate? {
      ReadAggregate(cfg, r.kind, r.elements, t);
      WiresRoundTrip(cfg, r.elements, t);
      assert [] + r.elements == r.elements;
    } else {
      LeafRoundTrip(cfg, r, t);
    }
  }

  lemma {:induction false} WiresRoundTrip(cfg: Config, rs: seq<Reply>, t: string)
    requires forall i :: 0 <= i < |rs| ==> Sendable(cfg, rs[i])
    ensures ParseMany(cfg, |rs|, WireForms(rs) + t) == Done(rs, t)
    decreases rs, 1
  {
    hide WireForm, ParseReply, Sendable;
    if rs == [] {
      assert WireForms(rs) + t == t;
    } else {
      Assoc(WireForm(rs[0]), WireForms(rs[1..]), t);
      WireRoundTrip(cfg, rs[0], WireForms(rs[1..]) + t);
      WiresRoundTrip(cfg, rs[1..], t);
      assert rs == [rs[0]] + rs[1..];
    }
  }

  /** A length of -1 is nil as well. */
  lemma NilLengths(cfg: Config, c: char, t: string)
    requires c in "$=*%|~>"
    ensures ParseReply(cfg, [c] + ("-1\r\n" + t)) == Done(Nil, t)
  {
    var line := "-1";
    var s := line + "\r\n" + t;
    assert s == "-1\r\n" + t;
    LineAt(line, t);
    MinusOne();
    hide D.LongLong, LineEnd;
    var k := KindOfByte(c).value;
    Behind(cfg, c, k, s);
    BodyByKind(cfg, k, s);
  }

  lemma MinusOne()
    ensures D.LongLong("-1") == Some(-1)
  {
    assert D.Magnitude("-1") == "1";
    assert D.Value("1") == D.Value("") * 10 + 1;
  }

  /** Any other first byte is an error. */
  lemma OtherBytes(cfg: Config, c: char, t: string)
    requires c !in "+-:,_$*%|~#=>("
    ensures ParseReply(cfg, [c] + t) == Failed(BadTypeByte(c))
  {
    assert forall x: char :: x in "+-:,_$*%|~#=>(" <==> KindOfByte(x) != None;
  }

  /** The command printer sends an array of strings. */
  lemma CommandForm(argv: seq<string>)
    ensures Command.Command(argv) == WireForm(Aggregate(ARRAY, Strings(argv)))
  {
    BulksForm(argv);
    hide D.Numeral;
    assert Header(|argv|) == Line('*', D.Numeral(|argv|));
  }

  lemma {:induction false} BulksForm(argv: seq<string>)
    ensures Bulks(argv) == WireForms(Strings(argv))
  {
    if argv != [] {
      StringsCons(argv);
      BulksForm(argv[1..]);
      assert Strings(argv)[1..] == Strings(argv[1..]);
      BulkForm(argv[0]);
      hide Bulk, WireForm;
    }
  }

  lemma BulkForm(a: string)
    ensures Bulk(a) == WireForm(Reply.Text(STRING, a))
  {
    hide D.Numeral;
    assert "$" + D.Numeral(|a|) + "\r\n" == Line('$', D.Numeral(|a|));
    Assoc(Line('$', D.Numeral(|a|)), a, "\r\n");
  }

  // ----- streams -----

  function Longer(p: Parse<Reply>, t: string): Parse<Reply> {
    if p.Done? then Done(p.value, p.rest + t) else p
  }

  function LongerAll(p: Parse<seq<Reply>>, t: string): Parse<seq<Reply>> {
    if p.Done? then Done(p.value, p.rest + t) else p
  }

  /** What is decided stays decided when more bytes follow. */
  lemma {:induction false} ReplyStable(cfg: Config, s: string, t: string)
    requires ParseReply(cfg, s) != Incomplete
    ensures ParseReply(cfg, s + t) == Longer(ParseReply(cfg, s), t)
    decreases |s|, 0
  {
    hide Body, KindOfByte, ParseMany;
    assert (s + t)[1..] == s[1..] + t;
    if KindOfByte(s[0]).Some? {
      var k := KindOfByte(s[0]).value;
      BodyStable(cfg, k, s[1..], t);
      var b := Body(cfg, k, s[1..]);
      if b.Leaf? || b.Open? { assert (s[1..] + t)[b.n..] == s[1..][b.n..] + t; }
      if b.Open? { ManyStable(cfg, b.count, s[1..][b.n..], t); }
    }
  }

  lemma {:induction false} ManyStable(cfg: Config, count: nat, s: string, t: string)
    requires ParseMany(cfg, count, s) != Incomplete
    ensures ParseMany(cfg, count, s + t) == LongerAll(ParseMany(cfg, count, s), t)
    decreases |s|, 1
  {
    hide ParseReply;
    if count > 0 {
      ReplyStable(cfg, s, t);
      var p := ParseReply(cfg, s);
      if p.Done? { ManyStable(cfg, count - 1, p.rest, t); }
    }
  }

  /** A reply is complete with its last byte and not before. */
  lemma NotBefore(cfg: Config, r: Reply, k: nat)
    requires Sendable(cfg, r) && k < |WireForm(r)|
    ensures ParseReply(cfg, WireForm(r)[..k]) == Incomplete
  {
    hide WireForm, ParseReply, Sendable;
    var front, back := WireForm(r)[..k], WireForm(r)[k..];
    assert front + back == WireForm(r) == WireForm(r) + "";
    WireRoundTrip(cfg, r, "");
    if ParseReply(cfg, front) != Incomplete { ReplyStable(cfg, front, back); }
  }

  /** A stream of replies, cut off anywhere inside the next one. */
  lemma {:induction false} WireStream(cfg: Config, rs: seq<Reply>, next: Reply, k: nat)
    requires (forall i :: 0 <= i < |rs| ==> Sendable(cfg, rs[i])) && Sendable(cfg, next) && k < |WireForm(next)|
    ensures Stream(cfg, WireForms(rs) + WireForm(next)[..k]) == Outcome(rs, None)
    decreases |rs|
  {
    hide WireForm, ParseReply, Sendable;
    var tail := WireForm(next)[..k];
    if rs == [] {
      NotBefore(cfg, next, k);
      assert WireForms(rs) + tail == tail;
    } else {
      Assoc(WireForm(rs[0]), WireForms(rs[1..]), tail);
      WireRoundTrip(cfg, rs[0], WireForms(rs[1..]) + tail);
      WireStream(cfg, rs[1..], next, k);
      assert rs == [rs[0]] + rs[1..];
    }
  }

  /** The reader on a stream of replies cut into chunks in any way: it hands out the replies in
      turn, each as soon as its last byte has been fed. */
  method ReadReplies(cfg: Config, maxbuf: nat, rs: seq<Reply>, next: Reply, k: nat, chunks: seq<string>,
                     drop: nat -> bool)
    returns (reader: R.RedisReader, handles: seq<int>)
    requires (forall i :: 0 <= i < |rs| ==> Sendable(cfg, rs[i])) && Sendable(cfg, next) && k < |WireForm(next)|
    requires R.Concat(chunks) == WireForms(rs) + WireForm(next)[..k]
    ensures fresh(reader) && reader.err == None
    ensures R.Handed(reader.objs, handles, rs, |reader.objs|)
  {
    hide WireForm, Sendable, Stream;
    WireStream(cfg, rs, next, k);
    reader, handles := R.ReadAll(cfg, maxbuf, chunks, drop);
  }
}
