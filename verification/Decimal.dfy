/** The optional value used wherever the C code returns NULL or an error code. */
module Options {
  datatype Option<+T> = None | Some(value: T)
}

/** Decimal numerals: `string2ll` (hiredis/read.c), `sdsll2str` and `sdsull2str`
    (hiredis/sds.c) and `countDigits` (hiredis/hiredis.c). */
module Decimal {
  import opened Arithmetic
  import opened Options

  const LLONG_MAX := 0x7FFF_FFFF_FFFF_FFFF
  const LLONG_MIN := -0x8000_0000_0000_0000
  const ULLONG_MAX := 0xFFFF_FFFF_FFFF_FFFF

  predicate IsDigit(c: char) {
    '0' <= c <= '9'
  }

  function DigitValue(c: char): nat
    requires IsDigit(c)
  {
    c as int - '0' as int
  }

  function DigitChar(d: nat): char
    requires d < 10
  {
    ('0' as int + d) as char
  }

  predicate AllDigits(s: string) {
    forall i :: 0 <= i < |s| ==> IsDigit(s[i])
  }

  /** The number a digit string denotes, most significant digit first. */
  function Value(s: string): nat
    requires AllDigits(s)
  {
    if s == "" then 0 else Value(s[..|s| - 1]) * 10 + DigitValue(s[|s| - 1])
  }

  /** The digit string of a number, without leading zeros. */
  function Numeral(n: nat): string {
    if n < 10 then [DigitChar(n)] else Numeral(n / 10) + [DigitChar(n % 10)]
  }

  function Text(v: int): string {
    if v < 0 then "-" + Numeral(-v) else Numeral(v)
  }

  function Magnitude(s: string): string {
    if s != "" && s[0] == '-' then s[1..] else s
  }

  /** "0", or an optional minus sign and digits that do not start with 0. */
  predicate Canonical(s: string) {
    s == "0" || (Magnitude(s) != "" && Magnitude(s)[0] != '0' && AllDigits(Magnitude(s)))
  }

  function IntValue(s: string): int
    requires Canonical(s)
  {
    if s[0] == '-' then -(Value(Magnitude(s)) as int) else Value(Magnitude(s))
  }

  /** What `string2ll` accepts, and the value it stores. */
  function LongLong(s: string): Option<int> {
    if Canonical(s) && LLONG_MIN <= IntValue(s) <= LLONG_MAX then Some(IntValue(s)) else None
  }

  function Pow10(k: nat): nat {
    if k == 0 then 1 else 10 * Pow10(k - 1)
  }

  // ----- numerals and values -----

  lemma {:induction false} NumeralShape(n: nat)
    ensures AllDigits(Numeral(n)) && Numeral(n) != "" && Value(Numeral(n)) == n
    ensures n > 0 ==> Numeral(n)[0] != '0'
  {
    if n >= 10 {
      NumeralShape(n / 10);
      assert Numeral(n)[..|Numeral(n)| - 1] == Numeral(n / 10);
    } else {
      assert Numeral(n)[..0] == "";
    }
  }

  /** The digit for 10 to the power `i` is the character that many behind '0'. */
  lemma {:induction false} DigitAt(n: nat, i: nat)
    requires i < |Numeral(n)|
    ensures Pow10(i) > 0 && Numeral(n)[|Numeral(n)| - 1 - i] as int == 48 + n / Pow10(i) % 10
  {
    if i > 0 {
      DigitAt(n / 10, i - 1);
      assert n / 10 / Pow10(i - 1) == n / Pow10(i) by { DivideTwice(n, Pow10(i - 1)); }
    }
  }

  /** A digit string is determined by its value when it has no leading zero. */
  lemma {:induction false} NumeralUnique(s: string)
    requires s != "" && AllDigits(s) && s[0] != '0'
    ensures Value(s) > 0 && Numeral(Value(s)) == s
  {
    var front, last := s[..|s| - 1], DigitValue(s[|s| - 1]);
    assert s == front + [s[|s| - 1]] && DigitChar(last) == s[|s| - 1];
    if front == "" {
      assert Value(s) == last;
    } else {
      NumeralUnique(front);
      assert Value(s) / 10 == Value(front) && Value(s) % 10 == last;
    }
  }

  lemma {:induction false} PrefixValue(s: string, k: nat)
    requires AllDigits(s) && k <= |s|
    ensures Value(s[..k]) <= Value(s)
  {
    if k < |s| {
      PrefixValue(s[..|s| - 1], k);
      assert s[..|s| - 1][..k] == s[..k];
    } else {
      assert s[..k] == s;
    }
  }

  /** A number below 10^k needs at most k digits, and no fewer than its size demands. */
  lemma {:induction false} NumeralLength(n: nat, k: nat)
    requires k > 0
    ensures |Numeral(n)| <= k <==> n < Pow10(k)
  {
    if n >= 10 && k > 1 {
      NumeralLength(n / 10, k - 1);
    } else if n >= 10 {
      NumeralShape(n / 10);
      assert Pow10(1) == 10;
    } else {
      Pow10AtLeast10(k);
    }
  }

  lemma {:induction false} Pow10AtLeast10(k: nat)
    requires k > 0
    ensures Pow10(k) >= 10
  {
    if k > 1 { Pow10AtLeast10(k - 1); }
  }

  lemma TextShort(v: int)
    requires LLONG_MIN <= v <= ULLONG_MAX
    ensures |Text(v)| <= 20
  {
    assert Pow10(4) == 10000;
    assert Pow10(8) == 1_0000_0000;
    assert Pow10(12) == 1_0000_0000_0000;
    assert Pow10(16) == 1_0000_0000_0000_0000;
    assert Pow10(19) == 1000_0000_0000_0000_0000;
    NumeralLength(if v < 0 then -v else v, if v < 0 then 19 else 20);
  }

  /** `string2ll` reads back what `sdsll2str` prints. */
  lemma ParsePrinted(v: int)
    requires LLONG_MIN <= v <= LLONG_MAX
    ensures LongLong(Text(v)) == Some(v)
  {
    NumeralShape(if v < 0 then -v else v);
    assert Magnitude(Text(v)) == Numeral(if v < 0 then -v else v);
    if v == 0 { assert Value("0") == 0 by { assert "0"[..0] == ""; } }
  }

  /** and whatever it accepts is exactly what `sdsll2str` prints for the value it returns. */
  lemma PrintParsed(s: string)
    requires LongLong(s).Some?
    ensures s == Text(LongLong(s).value) && LLONG_MIN <= LongLong(s).value <= LLONG_MAX
  {
    if s == "0" {
      assert Value("0") == 0 by { assert "0"[..0] == ""; }
    } else {
      NumeralUnique(Magnitude(s));
    }
  }

  // ----- the C functions -----

  /** string2ll: digit by digit, with both 64-bit overflow guards. */
  method String2ll(s: string) returns (r: Option<int>)
    ensures r == LongLong(s)
  {
    var slen := |s|;
    if slen == 0 { return None; }
    if slen == 1 && s[0] == '0' {
      assert Value("0") == 0 by { assert "0"[..0] == ""; }
      return Some(0);
    }
    var p, negative := 0, false;
    if s[0] == '-' {
      negative, p := true, 1;
      if p == slen { return None; }
    }
    ghost var start := p;
    ghost var digits := Magnitude(s);
    assert digits == s[start..];
    var v: nat := 0;
    if '1' <= s[p] <= '9' {
      v := s[p] as int - '0' as int;
      SnocValue(digits, 0);
      p := p + 1;
    } else {
      return None;
    }
    while p < slen && '0' <= s[p] <= '9'
      invariant start < p <= slen
      invariant AllDigits(digits[..p - start]) && v == Value(digits[..p - start])
      invariant v <= ULLONG_MAX
    {
      SnocValue(digits, p - start);
      assert digits[p - start] == s[p];
      if v > ULLONG_MAX / 10 {
        TooBig(s, p + 1 - start);
        return None;
      }
      v := v * 10;
      if v > ULLONG_MAX - (s[p] as int - '0' as int) {
        TooBig(s, p + 1 - start);
        return None;
      }
      v := v + (s[p] as int - '0' as int);
      p := p + 1;
    }
    if p < slen {
      assert digits[p - start] == s[p];
      return None;
    }
    assert digits[..p - start] == digits;
    assert Canonical(s) && IntValue(s) == (if negative then -(v as int) else v);
    if negative {
      if v > LLONG_MAX + 1 { return None; }
      r := Some(-(v as int));
    } else {
      if v > LLONG_MAX { return None; }
      r := Some(v);
    }
  }

  lemma SnocValue(s: string, k: nat)
    requires k < |s| && AllDigits(s[..k]) && IsDigit(s[k])
    ensures AllDigits(s[..k + 1]) && Value(s[..k + 1]) == Value(s[..k]) * 10 + DigitValue(s[k])
  {
    assert s[..k + 1][..k] == s[..k];
    assert k == 0 ==> s[..k] == "";
  }

  lemma TooBig(s: string, k: nat)
    requires s != "0" && k <= |Magnitude(s)| && AllDigits(Magnitude(s)[..k]) && Value(Magnitude(s)[..k]) > ULLONG_MAX
    ensures LongLong(s) == None
  {
    if Canonical(s) { PrefixValue(Magnitude(s), k); }
  }

  function Reversed(s: string): (r: string)
    ensures |r| == |s| && forall i :: 0 <= i < |s| ==> r[i] == s[|s| - 1 - i]
  {
    if s == "" then "" else Reversed(s[1..]) + [s[0]]
  }

  lemma ReversedSnoc(s: string, c: char)
    ensures Reversed(s + [c]) == [c] + Reversed(s)
  {
    assert forall i :: 0 <= i <= |s| ==> Reversed(s + [c])[i] == ([c] + Reversed(s))[i];
  }

  /** The swap loop both printers end with: turns s[..l] around in place. */
  method ReverseInPlace(s: array<char>, l: nat)
    requires 0 < l <= s.Length
    modifies s
    ensures s[..l] == Reversed(old(s[..l]))
    ensures s[l..] == old(s[l..])
  {
    var a, p := 0, l - 1;
    while a < p
      invariant 0 <= a <= p + 1 <= l && a + p == l - 1
      invariant forall i :: 0 <= i < a || p < i < l ==> s[i] == old(s[l - 1 - i])
      invariant forall i :: a <= i <= p ==> s[i] == old(s[i])
      invariant forall i :: l <= i < s.Length ==> s[i] == old(s[i])
    {
      var aux := s[a];
      s[a] := s[p];
      s[p] := aux;
      a, p := a + 1, p - 1;
    }
    assert forall i :: 0 <= i < l ==> s[..l][i] == Reversed(old(s[..l]))[i];
  }

  /** sdsull2str */
  method Sdsull2str(s: array<char>, value: nat) returns (l: nat)
    requires value <= ULLONG_MAX && s.Length >= 21
    modifies s
    ensures l <= 20 && s[..l] == Numeral(value) && s[l] == '\0'
  {
    hide Text, Numeral, Reversed, DigitChar, Pow10, Value;
    TextShort(value);
    NotSigned(value);
    l := WriteDigits(s, value);
    s[l] := '\0';
    ghost var back := s[..l];
    ReverseInPlace(s, l);
    assert s[l] == s[l..][0];
  }

  /** sdsll2str. The C code negates in signed arithmetic; for the smallest value that is taken to
      wrap around, so that as an unsigned number the result is 2^63. */
  method Sdsll2str(s: array<char>, value: int) returns (l: nat)
    requires LLONG_MIN <= value <= LLONG_MAX && s.Length >= 21
    modifies s
    ensures l <= 20 && s[..l] == Text(value) && s[l] == '\0'
  {
    hide Text, Numeral, Reversed, DigitChar, Pow10, Value;
    TextShort(value);
    Signed(value);
    l := WriteDigits(s, if value < 0 then -value else value);
    if value < 0 {
      ghost var digits := s[..l];
      s[l] := '-';
      l := l + 1;
      assert s[..l] == digits + ['-'];
      ReversedSnoc(digits, '-');
    }
    s[l] := '\0';
    ReverseInPlace(s, l);
    assert s[l] == s[l..][0];
  }

  lemma NotSigned(value: nat)
    ensures Text(value) == Numeral(value)
  {}

  lemma Signed(value: int)
    ensures Text(value) == if value < 0 then ['-'] + Numeral(-value) else Numeral(value)
  {}

  /** The do-while both printers start with: least significant digit first. */
  method WriteDigits(s: array<char>, value: nat) returns (p: nat)
    requires value <= ULLONG_MAX && s.Length >= 21
    modifies s
    ensures 0 < p <= 20 && Reversed(s[..p]) == Numeral(value)
  {
    NumeralShort(value);
    FirstDigit(value);
    hide *;
    var v: nat := value / 10;
    s[0] := DigitChar(value % 10);
    p := 1;
    assert s[..p] == [DigitChar(value % 10)];
    while v != 0
      invariant 0 < p <= 20
      invariant Written(s[..p], v, value)
    {
      ghost var before := s[..p];
      NextDigit(before, v, value);
      s[p] := DigitChar(v % 10);
      assert s[..p + 1] == before + [DigitChar(v % 10)];
      v, p := v / 10, p + 1;
    }
    AllWritten(s[..p], value);
  }

  /** The digits written so far, reversed, behind the numeral of what is left are the numeral. */
  ghost predicate Written(before: string, v: nat, value: nat) {
    (if v == 0 then "" else Numeral(v)) + Reversed(before) == Numeral(value)
  }

  lemma NumeralShort(value: nat)
    requires value <= ULLONG_MAX
    ensures |Numeral(value)| <= 20
  {
    TextShort(value);
  }

  lemma FirstDigit(value: nat)
    ensures Written([DigitChar(value % 10)], value / 10, value)
  {
    if value > 0 { LastDigit(value); }
    assert Reversed([DigitChar(value % 10)]) == [DigitChar(value % 10)];
  }

  lemma AllWritten(before: string, value: nat)
    requires Written(before, 0, value)
    ensures Reversed(before) == Numeral(value)
  {
    hide Numeral, Reversed;
    assert "" + Reversed(before) == Reversed(before);
  }

  /** One more digit. */
  lemma NextDigit(before: string, v: nat, value: nat)
    requires v != 0 && Written(before, v, value) && |Numeral(value)| <= 20
    ensures |before| < 20 && Written(before + [DigitChar(v % 10)], v / 10, value)
  {
    var high, c := if v / 10 == 0 then "" else Numeral(v / 10), DigitChar(v % 10);
    LastDigit(v);
    ReversedSnoc(before, c);
    hide Numeral, DigitChar;
    Regrouped(high, [c], Reversed(before));
    assert |Numeral(v)| + |Reversed(before)| == |Numeral(value)|;
  }

  lemma LastDigit(v: nat)
    requires v != 0
    ensures Numeral(v) == (if v / 10 == 0 then "" else Numeral(v / 10)) + [DigitChar(v % 10)]
  {
    assert "" + [DigitChar(v % 10)] == [DigitChar(v % 10)];
  }

  lemma Regrouped(a: string, b: string, c: string)
    ensures a + (b + c) == a + b + c
  {}

  /** countDigits: four digits at a time. */
  method CountDigits(value: nat) returns (result: nat)
    ensures result == |Numeral(value)|
  {
    var v := value;
    result := 1;
    while true
      invariant result >= 1 && |Numeral(value)| == result - 1 + |Numeral(v)|
      decreases v
    {
      if v < 10 { return; }
      if v < 100 { return result + 1; }
      assert v >= 100 ==> |Numeral(v)| == 1 + |Numeral(v / 10)| && |Numeral(v / 10)| == 1 + |Numeral(v / 10 / 10)|;
      if v < 1000 { return result + 2; }
      FourDigits(v);
      if v < 10000 { return result + 3; }
      v := v / 10000;
      result := result + 4;
    }
  }

  lemma FourDigits(v: nat)
    requires v >= 1000
    ensures v < 10000 ==> |Numeral(v)| == 4
    ensures v >= 10000 ==> |Numeral(v)| == 4 + |Numeral(v / 10000)|
  {
    assert |Numeral(v)| == 1 + |Numeral(v / 10)|;
    assert |Numeral(v / 10)| == 1 + |Numeral(v / 10 / 10)|;
    assert |Numeral(v / 10 / 10)| == 1 + |Numeral(v / 10 / 10 / 10)|;
    if v >= 10000 {
      assert |Numeral(v / 10 / 10 / 10)| == 1 + |Numeral(v / 10 / 10 / 10 / 10)|;
      assert v / 10 / 10 / 10 / 10 == v / 10000;
    }
  }
}
