/** The DFA decoder of gumbo-parser/src/utf8.c and the encoder of
    gumbo-parser/src/string_buffer.c, against sections 3 and 4 of RFC 3629. */
module Utf8 {
  type byte = b: int | 0 <= b < 256

  const ACCEPT := 0
  const REJECT := 12

  // ----- the table -----

  /** The first part of utf8d: bytes to character classes. */
  function Class(b: byte): (t: nat)
    ensures t < 12
  {
    if b < 0x80 then 0 else if b < 0x90 then 1 else if b < 0xA0 then 9 else if b < 0xC0 then 7
    else if b < 0xC2 then 8 else if b < 0xE0 then 2 else if b == 0xE0 then 10 else if b < 0xED then 3
    else if b == 0xED then 4 else if b < 0xF0 then 3 else if b == 0xF0 then 11 else if b < 0xF4 then 6
    else if b == 0xF4 then 5 else 8
  }

  predicate IsState(s: nat) {
    s in {0, 12, 24, 36, 48, 60, 72, 84, 96}
  }

  /** The second part, row by row. */
  function Transition(s: nat, t: nat): (r: nat)
    requires IsState(s) && t < 12
    ensures IsState(r)
  {
    if s == 0 then [0, 12, 24, 36, 60, 96, 84, 12, 12, 12, 48, 72][t]
    else if s == 24 then (if t in {1, 7, 9} then 0 else 12)
    else if s == 36 then (if t in {1, 7, 9} then 24 else 12)
    else if s == 48 then (if t == 7 then 24 else 12)
    else if s == 60 then (if t in {1, 9} then 24 else 12)
    else if s == 72 then (if t in {7, 9} then 36 else 12)
    else if s == 84 then (if t in {1, 7, 9} then 36 else 12)
    else if s == 96 then (if t == 1 then 36 else 12)
    else 12
  }

  /** The low bits of an octet. */
  function Bits(b: byte, m: nat): (r: nat)
    requires m > 0
    ensures r < m
  {
    var n: nat := b;
    n % m
  }

  /** (0xff >> t) & b: the low 8 - t bits. */
  function LowBits(t: nat, b: byte): nat
    requires t < 12
  {
    if t < 8 then Bits(b, [256, 128, 64, 32, 16, 8, 4, 2][t]) else 0
  }

  /** decode */
  method Decode(state: nat, codep: nat, b: byte) returns (state': nat, codep': nat)
    requires IsState(state)
    ensures state' == Transition(state, Class(b))
    ensures codep' == if state != ACCEPT then codep * 64 + Bits(b, 64) else LowBits(Class(b), b)
  {
    var t := Class(b);
    codep' := if state != ACCEPT then Bits(b, 64) + codep * 64 else LowBits(t, b);
    state' := Transition(state, t);
  }

  // ----- RFC 3629 -----

  predicate Tail(b: byte) {
    0x80 <= b <= 0xBF
  }

  /** UTF8-char of section 4. */
  predicate WellFormed(s: seq<byte>) {
    || (|s| == 1 && s[0] <= 0x7F)
    || (|s| == 2 && 0xC2 <= s[0] <= 0xDF && Tail(s[1]))
    || (|s| == 3 && Tail(s[2])
        && (|| (s[0] == 0xE0 && 0xA0 <= s[1] <= 0xBF) || (0xE1 <= s[0] <= 0xEC && Tail(s[1]))
            || (s[0] == 0xED && 0x80 <= s[1] <= 0x9F) || (0xEE <= s[0] <= 0xEF && Tail(s[1]))))
    || (|s| == 4 && Tail(s[2]) && Tail(s[3])
        && (|| (s[0] == 0xF0 && 0x90 <= s[1] <= 0xBF) || (0xF1 <= s[0] <= 0xF3 && Tail(s[1]))
            || (s[0] == 0xF4 && 0x80 <= s[1] <= 0x8F)))
  }

  /** The character number of section 3: the x bits of the octets. */
  function CodePoint(s: seq<byte>): nat
    requires WellFormed(s)
  {
    if |s| == 1 then s[0]
    else if |s| == 2 then Bits(s[0], 32) * 64 + Bits(s[1], 64)
    else if |s| == 3 then (Bits(s[0], 16) * 64 + Bits(s[1], 64)) * 64 + Bits(s[2], 64)
    else ((Bits(s[0], 8) * 64 + Bits(s[1], 64)) * 64 + Bits(s[2], 64)) * 64 + Bits(s[3], 64)
  }

  predicate Scalar(c: int) {
    0 <= c <= 0xD7FF || 0xE000 <= c <= 0x10FFFF
  }

  /** Some character starts with these octets. */
  ghost predicate Viable(p: seq<byte>) {
    exists t :: WellFormed(p + t)
  }

  // ----- the DFA accepts exactly these -----

  /** The octets `t` lead from state `s` to acceptance. */
  predicate Completes(s: nat, t: seq<byte>) {
    if s == 0 then t == []
    else if s == 24 then |t| == 1 && Tail(t[0])
    else if s == 36 then |t| == 2 && Tail(t[0]) && Tail(t[1])
    else if s == 48 then |t| == 2 && 0xA0 <= t[0] <= 0xBF && Tail(t[1])
    else if s == 60 then |t| == 2 && 0x80 <= t[0] <= 0x9F && Tail(t[1])
    else if s == 72 then |t| == 3 && 0x90 <= t[0] <= 0xBF && Tail(t[1]) && Tail(t[2])
    else if s == 84 then |t| == 3 && Tail(t[0]) && Tail(t[1]) && Tail(t[2])
    else if s == 96 then |t| == 3 && 0x80 <= t[0] <= 0x8F && Tail(t[1]) && Tail(t[2])
    else false
  }

  function Value(codep: nat, t: seq<byte>): nat
    decreases |t|
  {
    if t == [] then codep else Value(codep * 64 + Bits(t[0], 64), t[1..])
  }

  /** The octets `p` have led to `state` and `codep`: they are a character, or start one,
      just as the state says. */
  ghost predicate Tracks(p: seq<byte>, state: nat, codep: nat) {
    && (forall t :: WellFormed(p + t) <==> Completes(state, t))
    && (forall t :: Completes(state, t) && WellFormed(p + t) ==> CodePoint(p + t) == Value(codep, t))
  }

  lemma FirstOctet(b: byte)
    ensures Tracks([b], Transition(ACCEPT, Class(b)), LowBits(Class(b), b))
  {
    var s, v := Transition(ACCEPT, Class(b)), LowBits(Class(b), b);
    forall t ensures WellFormed([b] + t) <==> Completes(s, t) { FirstAccepts(b, t); }
    forall t | Completes(s, t) && WellFormed([b] + t) ensures CodePoint([b] + t) == Value(v, t) { FirstValue(b, t); }
  }

  lemma FirstAccepts(b: byte, t: seq<byte>)
    ensures WellFormed([b] + t) <==> Completes(Transition(ACCEPT, Class(b)), t)
  {
    var u := [b] + t;
    assert forall i :: 0 < i < |u| ==> u[i] == t[i - 1];
  }

  /** The mask of the class keeps just the x bits of a lead octet. */
  lemma LeadValue(b: byte)
    ensures b <= 0x7F ==> LowBits(Class(b), b) == b
    ensures 0xC2 <= b <= 0xDF ==> LowBits(Class(b), b) == Bits(b, 32)
    ensures 0xE0 <= b <= 0xEF ==> LowBits(Class(b), b) == Bits(b, 16)
    ensures 0xF0 <= b <= 0xF4 ==> LowBits(Class(b), b) == Bits(b, 8)
  {
    if 0xF0 <= b <= 0xF4 { LeadOfFour(b); } else if 0xE0 <= b <= 0xEF { LeadOfThree(b); }
  }

  lemma LeadOfThree(b: byte)
    requires 0xE0 <= b <= 0xEF
    ensures LowBits(Class(b), b) == Bits(b, 16)
  {
    assert Class(b) == if b == 0xE0 then 10 else if b == 0xED then 4 else 3;
  }

  lemma LeadOfFour(b: byte)
    requires 0xF0 <= b <= 0xF4
    ensures LowBits(Class(b), b) == Bits(b, 8)
  {
    assert Class(b) == if b == 0xF0 then 11 else if b == 0xF4 then 5 else 6;
  }

  lemma FirstValue(b: byte, t: seq<byte>)
    requires WellFormed([b] + t)
    ensures CodePoint([b] + t) == Value(LowBits(Class(b), b), t)
  {
    LeadValue(b);
    ValueUnfolds(LowBits(Class(b), b), t);
    hide Value, Bits, LowBits, Class;
    var u := [b] + t;
    assert forall i :: 0 < i < |u| ==> u[i] == t[i - 1];
  }

  lemma ValueUnfolds(v: nat, t: seq<byte>)
    ensures |t| == 0 ==> Value(v, t) == v
    ensures |t| == 1 ==> Value(v, t) == v * 64 + Bits(t[0], 64)
    ensures |t| == 2 ==> Value(v, t) == (v * 64 + Bits(t[0], 64)) * 64 + Bits(t[1], 64)
    ensures |t| == 3 ==> Value(v, t) == ((v * 64 + Bits(t[0], 64)) * 64 + Bits(t[1], 64)) * 64 + Bits(t[2], 64)
    decreases |t|
  {
    if |t| > 0 { ValueUnfolds(v * 64 + Bits(t[0], 64), t[1..]); }
  }

  lemma NextOctet(p: seq<byte>, state: nat, codep: nat, b: byte)
    requires Tracks(p, state, codep) && IsState(state) && state != ACCEPT
    ensures Tracks(p + [b], Transition(state, Class(b)), codep * 64 + Bits(b, 64))
  {
    var s, v := Transition(state, Class(b)), codep * 64 + Bits(b, 64);
    forall t ensures WellFormed(p + [b] + t) <==> Completes(s, t) {
      assert p + [b] + t == p + ([b] + t);
      CompletesStep(state, b, t);
    }
    forall t | Completes(s, t) && WellFormed(p + [b] + t) ensures CodePoint(p + [b] + t) == Value(v, t) {
      assert p + [b] + t == p + ([b] + t);
      assert ([b] + t)[1..] == t;
    }
  }

  lemma CompletesStep(state: nat, b: byte, t: seq<byte>)
    requires IsState(state) && state != ACCEPT
    ensures Completes(state, [b] + t) <==> Completes(Transition(state, Class(b)), t)
  {
    var u := [b] + t;
    assert |t| == 1 ==> u[1] == t[0];
    assert |t| == 2 ==> u[1] == t[0] && u[2] == t[1];
  }

  /** Every state but rejection can still reach acceptance. */
  lemma CanComplete(state: nat)
    requires IsState(state)
    ensures state != REJECT <==> exists t :: Completes(state, t)
  {
    assert Completes(0, []) && Completes(24, [0x80]) && Completes(36, [0x80, 0x80]) && Completes(48, [0xA0, 0x80]);
    assert Completes(60, [0x80, 0x80]) && Completes(72, [0x90, 0x80, 0x80]);
    assert Completes(84, [0x80, 0x80, 0x80]) && Completes(96, [0x80, 0x80, 0x80]);
  }

  lemma TracksViable(p: seq<byte>, state: nat, codep: nat)
    requires Tracks(p, state, codep) && IsState(state)
    ensures Viable(p) <==> state != REJECT
    ensures WellFormed(p) <==> state == ACCEPT
    ensures state == ACCEPT ==> CodePoint(p) == codep
  {
    CanComplete(state);
    if state != REJECT {
      var t :| Completes(state, t);
      assert WellFormed(p + t);
    }
    assert p + [] == p;
    assert WellFormed(p + []) <==> Completes(state, []);
    assert state == ACCEPT ==> CodePoint(p + []) == Value(codep, []);
  }

  // ----- the encoder -----

  /** The octets of a character number below 2^21, as the encoder writes them. */
  function Encode(c: nat): seq<byte>
    requires c < 0x20_0000
  {
    if c <= 0x7F then [c]
    else if c <= 0x7FF then [0xC0 + c / 64, 0x80 + c % 64]
    else if c <= 0xFFFF then [0xE0 + c / 4096, 0x80 + c / 64 % 64, 0x80 + c % 64]
    else [0xF0 + c / 262144, 0x80 + c / 4096 % 64, 0x80 + c / 64 % 64, 0x80 + c % 64]
  }

  lemma Digits(c: nat)
    ensures c / 4096 == c / 64 / 64 && c / 262144 == c / 64 / 64 / 64
    ensures c == c / 64 * 64 + c % 64 && c / 64 == c / 64 / 64 * 64 + c / 64 % 64
    ensures c / 64 / 64 == c / 64 / 64 / 64 * 64 + c / 64 / 64 % 64
  {}

  lemma LeadBits(x: nat)
    ensures x < 32 ==> Bits(0xC0 + x, 32) == x
    ensures x < 16 ==> Bits(0xE0 + x, 16) == x
    ensures x < 8 ==> Bits(0xF0 + x, 8) == x
    ensures x < 64 ==> Bits(0x80 + x, 64) == x
  {}

  /** It writes characters of RFC 3629 exactly for the scalar values, */
  lemma EncodeWellFormed(c: nat)
    requires c < 0x20_0000
    ensures WellFormed(Encode(c)) <==> Scalar(c)
    ensures Scalar(c) ==> CodePoint(Encode(c)) == c
  {
    hide Bits;
    if c > 0xFFFF {
      Digits(c);
      EncodeFour(c, c / 262144, c / 4096 % 64, c / 64 % 64, c % 64);
    } else if c > 0x7FF {
      Digits(c);
      EncodeThree(c, c / 4096, c / 64 % 64, c % 64);
    } else if c > 0x7F {
      EncodeTwo(c, c / 64, c % 64);
    }
  }

  lemma EncodeTwo(c: nat, x: nat, y: nat)
    requires 0x80 <= c <= 0x7FF && c == x * 64 + y && y < 64
    ensures x < 32
    ensures var s := [0xC0 + x, 0x80 + y]; WellFormed(s) && CodePoint(s) == c
  {
    LeadBits(x);
    LeadBits(y);
    hide Bits;
  }

  lemma EncodeThree(c: nat, x: nat, y: nat, z: nat)
    requires 0x800 <= c <= 0xFFFF && c == (x * 64 + y) * 64 + z && y < 64 && z < 64
    ensures x < 16
    ensures var s := [0xE0 + x, 0x80 + y, 0x80 + z]; (WellFormed(s) <==> Scalar(c)) && (Scalar(c) ==> CodePoint(s) == c)
  {
    LeadBits(x);
    LeadBits(y);
    LeadBits(z);
    hide Bits;
  }

  lemma EncodeFour(c: nat, w: nat, x: nat, y: nat, z: nat)
    requires 0x10000 <= c < 0x20_0000 && c == ((w * 64 + x) * 64 + y) * 64 + z && x < 64 && y < 64 && z < 64
    ensures w < 8
    ensures var s := [0xF0 + w, 0x80 + x, 0x80 + y, 0x80 + z];
            (WellFormed(s) <==> Scalar(c)) && (Scalar(c) ==> CodePoint(s) == c)
  {
    LeadBits(w);
    LeadBits(x);
    LeadBits(y);
    LeadBits(z);
    hide Bits;
  }

  /** and every character of RFC 3629 is what it writes for its number. */
  lemma EncodeCodePoint(s: seq<byte>)
    requires WellFormed(s)
    ensures Scalar(CodePoint(s)) && Encode(CodePoint(s)) == s
  {
    var c := CodePoint(s);
    OctetBits(s);
    hide Bits;
    if |s| == 2 {
      Two(c, s[0] - 0xC0, s[1] - 0x80);
    } else if |s| == 3 {
      Three(c, s[0] - 0xE0, s[1] - 0x80, s[2] - 0x80);
    } else if |s| == 4 {
      Four(c, s[0] - 0xF0, s[1] - 0x80, s[2] - 0x80, s[3] - 0x80);
    }
  }

  lemma OctetBits(s: seq<byte>)
    requires WellFormed(s)
    ensures |s| == 2 ==> Bits(s[0], 32) == s[0] - 0xC0
    ensures |s| == 3 ==> Bits(s[0], 16) == s[0] - 0xE0
    ensures |s| == 4 ==> Bits(s[0], 8) == s[0] - 0xF0
    ensures forall i :: 0 < i < |s| ==> Tail(s[i]) && Bits(s[i], 64) == s[i] - 0x80
  {}

  lemma Two(c: nat, x: nat, y: nat)
    requires c == x * 64 + y && y < 64
    ensures c / 64 == x && c % 64 == y
  {}

  lemma Three(c: nat, x: nat, y: nat, z: nat)
    requires c == (x * 64 + y) * 64 + z && y < 64 && z < 64
    ensures c / 4096 == x && c / 64 % 64 == y && c % 64 == z
  {
    Two(c, x * 64 + y, z);
    Two(x * 64 + y, x, y);
    Digits(c);
  }

  lemma Four(c: nat, w: nat, x: nat, y: nat, z: nat)
    requires c == ((w * 64 + x) * 64 + y) * 64 + z && x < 64 && y < 64 && z < 64
    ensures c / 262144 == w && c / 4096 % 64 == x && c / 64 % 64 == y && c % 64 == z
  {
    Two(c, (w * 64 + x) * 64 + y, z);
    Three((w * 64 + x) * 64 + y, w, x, y);
    Digits(c);
  }
}
