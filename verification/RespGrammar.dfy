/** The reply grammar of the Redis serialization protocol (RESP2 and RESP3), as
    hiredis/read.c reads it. The reader of module Reader refines it. */
module RespGrammar {
  import opened Ascii
  import opened Options
  import opened Decimal

  datatype Kind =
    | STRING | ARRAY | INTEGER | NIL | STATUS | ERROR | DOUBLE | BOOL
    | MAP | SET | ATTR | PUSH | BIGNUM | VERB

  /** Reply values, as redisReply objects hold them. `Text` covers error, status,
      string and bignum replies; a double keeps its original text. */
  datatype Reply =
    | Nil
    | Integer(integer: int)
    | Bool(b: bool)
    | Double(text: string)
    | Text(kind: Kind, str: string)
    | Verb(vtype: string, str: string)
    | Aggregate(kind: Kind, elements: seq<Reply>)

  datatype Error =
    | BadTypeByte(byte: char) | BadInteger | DoubleTooLarge | BadDouble | BadNil | BadBool
    | BadBignum | BadSimpleString | BadBulkLength | BulkLengthOutOfRange | BadVerbatim
    | BadMultiBulkLength | MultiBulkLengthOutOfRange

  /** `maxElements` is redisReader.maxelements; `strtodFinite` says which texts
      strtod reads completely as a finite number. */
  datatype Config = Config(maxElements: int, strtodFinite: string -> bool)

  predicate IsAggregate(k: Kind) {
    k in {ARRAY, MAP, ATTR, SET, PUSH}
  }

  function KindOfByte(c: char): Option<Kind> {
    match c
    case '-' => Some(ERROR)
    case '+' => Some(STATUS)
    case ':' => Some(INTEGER)
    case ',' => Some(DOUBLE)
    case '_' => Some(NIL)
    case '$' => Some(STRING)
    case '*' => Some(ARRAY)
    case '%' => Some(MAP)
    case '|' => Some(ATTR)
    case '~' => Some(SET)
    case '#' => Some(BOOL)
    case '=' => Some(VERB)
    case '>' => Some(PUSH)
    case '(' => Some(BIGNUM)
    case _ => None
  }

  /** Length of the line at the start of `s`: the index of the first CRLF. */
  function LineEnd(s: string): (r: Option<nat>)
    ensures r.Some? ==> r.value + 2 <= |s| && s[r.value] == '\r' && s[r.value + 1] == '\n'
    ensures r.Some? ==> forall i :: 0 <= i < r.value ==> !(s[i] == '\r' && s[i + 1] == '\n')
    ensures r.None? ==> forall i :: 0 <= i < |s| - 1 ==> !(s[i] == '\r' && s[i + 1] == '\n')
  {
    if |s| < 2 then None
    else if s[0] == '\r' && s[1] == '\n' then Some(0)
    else match LineEnd(s[1..])
      case None =>
        assert forall i :: 0 <= i < |s| - 1 ==> i == 0 || (s[i] == s[1..][i - 1] && s[i + 1] == s[1..][i]);
        None
      case Some(n) =>
        assert forall i :: 0 < i <= n ==> s[i] == s[1..][i - 1] && s[i + 1] == s[1..][i];
        Some(n + 1)
  }

  /** One protocol element: a complete leaf, the header of an aggregate that still
      needs `count` elements, not enough bytes, or an error. `n` bytes are consumed. */
  datatype Item =
    | Leaf(reply: Reply, n: nat)
    | Open(count: nat, n: nat)
    | More
    | Bad(error: Error)

  predicate DoubleText(cfg: Config, line: string) {
    LowerAll(line) in {"inf", "-inf", "nan", "-nan"} || (line != "" && cfg.strtodFinite(line))
  }

  predicate BignumText(line: string) {
    forall i :: 0 <= i < |line| ==> IsDigit(line[i]) || (i == 0 && line[i] == '-')
  }

  predicate SimpleText(line: string) {
    forall i :: 0 <= i < |line| ==> line[i] != '\r' && line[i] != '\n'
  }

  /** processLineItem. The C test for a boolean is strchr, which also finds the
      terminating NUL of "tTfF". */
  function LineItem(cfg: Config, k: Kind, line: string): Item
  {
    match k
    case INTEGER =>
      if LongLong(line).Some? then Leaf(Integer(LongLong(line).value), |line| + 2) else Bad(BadInteger)
    case DOUBLE =>
      if |line| >= 326 then Bad(DoubleTooLarge)
      else if DoubleText(cfg, line) then Leaf(Double(line), |line| + 2)
      else Bad(BadDouble)
    case NIL =>
      if line == "" then Leaf(Nil, 2) else Bad(BadNil)
    case BOOL =>
      if |line| == 1 && line[0] in "tTfF\0" then Leaf(Bool(line[0] in "tT"), 3) else Bad(BadBool)
    case BIGNUM =>
      if BignumText(line) then Leaf(Text(BIGNUM, line), |line| + 2) else Bad(BadBignum)
    case _ =>
      if SimpleText(line) then Leaf(Text(k, line), |line| + 2) else Bad(BadSimpleString)
  }

  /** processBulkItem. `n` is the length of the length line; the two bytes after the
      payload are counted but not looked at. */
  function BulkItem(k: Kind, n: nat, s: string): Item
    requires n + 2 <= |s|
  {
    match LongLong(s[..n])
    case None => Bad(BadBulkLength)
    case Some(len) =>
      if len < -1 then Bad(BulkLengthOutOfRange)
      else if len == -1 then Leaf(Nil, n + 2)
      else if n + 2 + len + 2 > |s| then More
      else
        var payload := s[n + 2..n + 2 + len];
        if k != VERB then Leaf(Text(k, payload), n + 2 + len + 2)
        else if len < 4 || payload[3] != ':' then Bad(BadVerbatim)
        else Leaf(Verb(payload[..3], payload[4..]), n + 2 + len + 2)
  }

  /** processAggregateItem. */
  function AggregateItem(cfg: Config, k: Kind, line: string): Item {
    match LongLong(line)
    case None => Bad(BadMultiBulkLength)
    case Some(elements) =>
      if elements < -1 || (cfg.maxElements > 0 && elements > cfg.maxElements) then
        Bad(MultiBulkLengthOutOfRange)
      else if elements == -1 then Leaf(Nil, |line| + 2)
      else Open(if k == MAP || k == ATTR then 2 * elements else elements, |line| + 2)
  }

  /** The element of kind `k` whose body starts `s`. */
  function Body(cfg: Config, k: Kind, s: string): (r: Item)
    ensures r.Leaf? || r.Open? ==> 0 < r.n <= |s|
    ensures r.Open? ==> IsAggregate(k)
  {
    match LineEnd(s)
    case None => More
    case Some(n) =>
      if IsAggregate(k) then AggregateItem(cfg, k, s[..n])
      else if k == STRING || k == VERB then BulkItem(k, n, s)
      else LineItem(cfg, k, s[..n])
  }

  lemma BodyByKind(cfg: Config, k: Kind, s: string)
    requires LineEnd(s).Some?
    ensures var n := LineEnd(s).value;
            Body(cfg, k, s) == if IsAggregate(k) then AggregateItem(cfg, k, s[..n])
                               else if k == STRING || k == VERB then BulkItem(k, n, s)
                               else LineItem(cfg, k, s[..n])
  {}

  // ----- the recursive grammar -----

  datatype Parse<+T> = Done(value: T, rest: string) | Incomplete | Failed(error: Error)

  function ParseReply(cfg: Config, s: string): (r: Parse<Reply>)
    ensures r.Done? ==> |r.rest| < |s|
    decreases |s|, 0
  {
    if s == "" then Incomplete
    else match KindOfByte(s[0])
      case None => Failed(BadTypeByte(s[0]))
      case Some(k) => ParseBody(cfg, k, s[1..])
  }

  function ParseBody(cfg: Config, k: Kind, s: string): (r: Parse<Reply>)
    ensures r.Done? ==> |r.rest| < |s|
    decreases |s|, 2
  {
    match Body(cfg, k, s)
    case More => Incomplete
    case Bad(e) => Failed(e)
    case Leaf(v, n) => Done(v, s[n..])
    case Open(count, n) => Close(k, [], ParseMany(cfg, count, s[n..]))
  }

  function ParseMany(cfg: Config, count: nat, s: string): (r: Parse<seq<Reply>>)
    ensures r.Done? ==> |r.rest| <= |s| && |r.value| == count
    decreases |s|, 1
  {
    if count == 0 then Done([], s)
    else match ParseReply(cfg, s)
      case Incomplete => Incomplete
      case Failed(e) => Failed(e)
      case Done(v, rest) =>
        match ParseMany(cfg, count - 1, rest)
        case Incomplete => Incomplete
        case Failed(e) => Failed(e)
        case Done(vs, rest') => Done([v] + vs, rest')
  }

  function Close(k: Kind, front: seq<Reply>, tail: Parse<seq<Reply>>): (r: Parse<Reply>)
    ensures r.Done? ==> tail.Done? && r.rest == tail.rest
  {
    match tail
    case Incomplete => Incomplete
    case Failed(e) => Failed(e)
    case Done(vs, rest) => Done(Aggregate(k, front + vs), rest)
  }

  /** All replies in a byte stream, and how it ends. */
  datatype Outcome = Outcome(replies: seq<Reply>, failure: Option<Error>)

  function Stream(cfg: Config, s: string): Outcome {
    After(cfg, ParseReply(cfg, s))
  }

  function After(cfg: Config, p: Parse<Reply>): Outcome
    decreases if p.Done? then |p.rest| else 0, if p.Done? then 1 else 0
  {
    match p
    case Incomplete => Outcome([], None)
    case Failed(e) => Outcome([], Some(e))
    case Done(v, rest) =>
      var o := After(cfg, ParseReply(cfg, rest));
      Outcome([v] + o.replies, o.failure)
  }

  // ----- more bytes never change what was decided -----

  lemma {:induction false} LineEndStable(s: string, t: string)
    requires LineEnd(s).Some?
    ensures LineEnd(s + t) == LineEnd(s)
  {
    var m, n := LineEnd(s).value, LineEnd(s + t);
    assert forall i :: 0 <= i < |s| ==> (s + t)[i] == s[i];
    assert n.Some? by { assert (s + t)[m] == '\r' && (s + t)[m + 1] == '\n'; }
  }

  lemma BulkStable(k: Kind, n: nat, s: string, t: string)
    requires n + 2 <= |s| && BulkItem(k, n, s) != More
    ensures BulkItem(k, n, s + t) == BulkItem(k, n, s)
  {
    assert (s + t)[..n] == s[..n];
    if LongLong(s[..n]).Some? && LongLong(s[..n]).value >= 0 {
      var len := LongLong(s[..n]).value;
      assert (s + t)[n + 2..n + 2 + len] == s[n + 2..n + 2 + len];
    }
  }

  lemma BodyStable(cfg: Config, k: Kind, s: string, t: string)
    requires Body(cfg, k, s) != More
    ensures Body(cfg, k, s + t) == Body(cfg, k, s)
  {
    hide BulkItem, LineItem, AggregateItem;
    LineEndStable(s, t);
    var n := LineEnd(s).value;
    assert (s + t)[..n] == s[..n];
    if !IsAggregate(k) && (k == STRING || k == VERB) { BulkStable(k, n, s, t); }
  }
}
