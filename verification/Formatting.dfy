/** The list of active formatting elements of gumbo-parser/src/parser.c: when two elements
    count as identical, and the Noah's Ark limit of three. */
module Formatting {
  import opened Ascii
  import opened Dom

  // ----- identical attributes -----

  /** gumbo_get_attribute: the first attribute of that name, whatever its case, or -1. */
  function GetAttribute(attributes: seq<Attribute>, name: string): (r: int)
    ensures -1 <= r < |attributes|
    ensures r != -1 ==> LowerAll(attributes[r].name) == LowerAll(name)
    ensures r != -1 ==> forall j :: 0 <= j < r ==> LowerAll(attributes[j].name) != LowerAll(name)
    ensures r == -1 ==> forall j :: 0 <= j < |attributes| ==> LowerAll(attributes[j].name) != LowerAll(name)
  {
    if attributes == [] then -1
    else if LowerAll(attributes[0].name) == LowerAll(name) then 0
    else
      var r := GetAttribute(attributes[1..], name);
      if r == -1 then -1 else r + 1
  }

  /** attribute_matches_case_sensitive */
  predicate AttributeMatches(attributes: seq<Attribute>, name: string, value: string) {
    var i := GetAttribute(attributes, name);
    i != -1 && attributes[i].value == value
  }

  /** all_attributes_match */
  method AllAttributesMatch(attr1: seq<Attribute>, attr2: seq<Attribute>) returns (same: bool)
    ensures same <==> Match(attr1, attr2)
    ensures UniqueNames(attr1) && UniqueNames(attr2) ==> (same <==> Pairs(attr1) == Pairs(attr2))
  {
    MatchIsEquality(attr1, attr2);
    var unmatched := |attr2|;
    for i := 0 to |attr1|
      invariant unmatched == |attr2| - i
      invariant forall j :: 0 <= j < i ==> AttributeMatches(attr2, attr1[j].name, attr1[j].value)
    {
      if !AttributeMatches(attr2, attr1[i].name, attr1[i].value) { return false; }
      unmatched := unmatched - 1;
    }
    return unmatched == 0;
  }

  ghost predicate Match(attr1: seq<Attribute>, attr2: seq<Attribute>) {
    |attr1| == |attr2| && forall j :: 0 <= j < |attr1| ==> AttributeMatches(attr2, attr1[j].name, attr1[j].value)
  }

  /** No two attributes whose names differ in case only; the tokenizer drops duplicates. */
  ghost predicate UniqueNames(attributes: seq<Attribute>) {
    forall i, j :: 0 <= i < j < |attributes| ==> LowerAll(attributes[i].name) != LowerAll(attributes[j].name)
  }

  /** Names and values, without order. */
  function Pairs(attributes: seq<Attribute>): set<(string, string)> {
    set i | 0 <= i < |attributes| :: (LowerAll(attributes[i].name), attributes[i].value)
  }

  lemma {:induction false} PairsCount(attributes: seq<Attribute>)
    requires UniqueNames(attributes)
    ensures |Pairs(attributes)| == |attributes|
    decreases |attributes|
  {
    if attributes != [] {
      var n := |attributes| - 1;
      var l, e := attributes[..n], (LowerAll(attributes[n].name), attributes[n].value);
      assert forall i :: 0 <= i < n ==> l[i] == attributes[i];
      PairsCount(l);
      assert e !in Pairs(l);
      assert Pairs(attributes) == Pairs(l) + {e};
    }
  }

  lemma {:induction false} SubsetOfSameSize<T>(a: set<T>, b: set<T>)
    requires a <= b && |a| == |b|
    ensures a == b
  {
    assert |b - a| == |b| - |a|;
  }

  lemma MatchIsPair(attributes: seq<Attribute>, name: string, value: string)
    requires UniqueNames(attributes)
    ensures AttributeMatches(attributes, name, value) <==> (LowerAll(name), value) in Pairs(attributes)
  {
    var i := GetAttribute(attributes, name);
    if i != -1 { assert (LowerAll(attributes[i].name), attributes[i].value) in Pairs(attributes); }
  }

  /** With unique names the one-sided comparison is equality, by counting. */
  lemma MatchIsEquality(attr1: seq<Attribute>, attr2: seq<Attribute>)
    ensures UniqueNames(attr1) && UniqueNames(attr2) ==> (Match(attr1, attr2) <==> Pairs(attr1) == Pairs(attr2))
  {
    if UniqueNames(attr1) && UniqueNames(attr2) {
      PairsCount(attr1);
      PairsCount(attr2);
      forall j | 0 <= j < |attr1|
        ensures AttributeMatches(attr2, attr1[j].name, attr1[j].value)
                <==> (LowerAll(attr1[j].name), attr1[j].value) in Pairs(attr2)
      {
        MatchIsPair(attr2, attr1[j].name, attr1[j].value);
      }
      if Match(attr1, attr2) { SubsetOfSameSize(Pairs(attr1), Pairs(attr2)); }
      if Pairs(attr1) == Pairs(attr2) {
        forall j | 0 <= j < |attr1| ensures AttributeMatches(attr2, attr1[j].name, attr1[j].value) {
          assert (LowerAll(attr1[j].name), attr1[j].value) in Pairs(attr1);
        }
      }
    }
  }

  /** Without unique names it is not even symmetric. The tokenizer drops an attribute whose name
      was there before (gumbo-parser/src/tokenizer.c:786-799), so such lists do not get here. */
  lemma RepeatedNames()
    ensures var a, b := [Attribute("x", "1"), Attribute("X", "1")], [Attribute("x", "1"), Attribute("y", "2")];
            Match(a, b) && !Match(b, a)
  {
    var a, b := [Attribute("x", "1"), Attribute("X", "1")], [Attribute("x", "1"), Attribute("y", "2")];
    assert LowerAll("x") == "x" && LowerAll("X") == "x" && LowerAll("y") == "y";
    assert GetAttribute(b, "x") == 0 && GetAttribute(b, "X") == 0;
    assert LowerAll("x")[0] == 'x' && LowerAll("y")[0] == 'y';
    assert !AttributeMatches(a, b[1].name, b[1].value);
  }

  // ----- Noah's Ark -----

  /** What makes two elements identical. */
  type Look = (int, int, set<(string, string)>)

  ghost predicate Good(c: Label) {
    c.Element? && UniqueNames(c.attributes)
  }

  lemma GoodIsElement(c: Label)
    requires Good(c)
    ensures c.Element?
  {}

  function LookOf(c: Label): Look
    requires c.Element?
  {
    (c.ns, c.tag, Pairs(c.attributes))
  }

  /** Entries of the list are markers or elements. */
  ghost predicate GoodList(d: Arena, list: seq<int>) {
    forall i :: 0 <= i < |list| && list[i] != -1 ==> 0 <= list[i] < |d| && Good(d[list[i]].content)
  }

  /** How many entries behind the last marker look like that. */
  ghost function Count(d: Arena, list: seq<int>, k: Look): nat
    requires GoodList(d, list)
  {
    if list == [] || list[|list| - 1] == -1 then 0
    else Count(d, list[..|list| - 1], k) + if LookOf(d[list[|list| - 1]].content) == k then 1 else 0
  }

  /** At most three identical elements between any two markers: whatever the list is cut to. */
  ghost predicate Noah(d: Arena, list: seq<int>)
    requires GoodList(d, list)
  {
    forall m, k :: 0 <= m <= |list| ==> Count(d, list[..m], k) <= 3
  }

  /** What the operations on the list keep. */
  ghost predicate Ark(d: Arena, list: seq<int>) {
    GoodList(d, list) && Noah(d, list)
  }

  /** Both entries, with no marker from the first one on, look the same. */
  ghost predicate Alike(d: Arena, list: seq<int>, i: int, j: int)
    requires GoodList(d, list)
  {
    && 0 <= i < j < |list| && (forall m :: i <= m <= j ==> list[m] != -1)
    && LookOf(d[list[i]].content) == LookOf(d[list[j]].content)
  }

  /** Another entry with the look, behind those counted so far. */
  lemma {:induction false} CountMore(d: Arena, list: seq<int>, k: Look, i: nat, m: nat)
    requires GoodList(d, list) && i < m <= |list| && (forall j :: i <= j < m ==> list[j] != -1)
    requires LookOf(d[list[i]].content) == k
    ensures Count(d, list[..m], k) >= Count(d, list[..i], k) + 1
    decreases m
  {
    assert list[..m][..m - 1] == list[..m - 1];
    if i < m - 1 { CountMore(d, list, k, i, m - 1); }
  }

  /** The last entry that was counted. */
  lemma {:induction false} LastCounted(d: Arena, list: seq<int>, k: Look, m: nat) returns (i: nat)
    requires GoodList(d, list) && m <= |list| && Count(d, list[..m], k) > 0
    ensures i < m && (forall j :: i <= j < m ==> list[j] != -1) && LookOf(d[list[i]].content) == k
    ensures Count(d, list[..i], k) == Count(d, list[..m], k) - 1
    decreases m
  {
    assert list[..m][..m - 1] == list[..m - 1];
    i := m - 1;
    if LookOf(d[list[i]].content) != k { i := LastCounted(d, list, k, m - 1); }
  }

  /** The limit, without counting: no four identical elements without a marker between them. */
  lemma NoFour(d: Arena, list: seq<int>)
    requires GoodList(d, list)
    ensures Noah(d, list) <==>
              !exists a, b, c, e :: Alike(d, list, a, b) && Alike(d, list, b, c) && Alike(d, list, c, e)
  {
    hide LookOf, Count;
    if a, b, c, e :| Alike(d, list, a, b) && Alike(d, list, b, c) && Alike(d, list, c, e) {
      var k := LookOf(d[list[a]].content);
      CountMore(d, list, k, a, b);
      CountMore(d, list, k, b, c);
      CountMore(d, list, k, c, e);
      CountMore(d, list, k, e, e + 1);
      assert Count(d, list[..e + 1], k) > 3;
    }
    if !Noah(d, list) {
      var m, k :| 0 <= m <= |list| && Count(d, list[..m], k) > 3;
      var e := LastCounted(d, list, k, m);
      var c := LastCounted(d, list, k, e);
      var b := LastCounted(d, list, k, c);
      var a := LastCounted(d, list, k, b);
      assert Alike(d, list, a, b) && Alike(d, list, b, c) && Alike(d, list, c, e);
    }
  }

  lemma NoahPrefix(d: Arena, list: seq<int>, m: nat)
    requires GoodList(d, list) && Noah(d, list) && m <= |list|
    ensures GoodList(d, list[..m]) && Noah(d, list[..m])
  {
    assert forall i :: 0 <= i <= m ==> list[..m][..i] == list[..i];
  }

  lemma CountPush(d: Arena, list: seq<int>, x: int, k: Look)
    requires GoodList(d, list) && (x != -1 ==> 0 <= x < |d| && Good(d[x].content))
    ensures GoodList(d, list + [x])
    ensures Count(d, list + [x], k)
         == if x == -1 then 0 else Count(d, list, k) + if LookOf(d[x].content) == k then 1 else 0
  {
    var v := list + [x];
    assert v[..|list|] == list;
  }

  /** Taking out an entry of the last segment takes it out of the count. */
  lemma {:induction false} CountRemoved(d: Arena, list: seq<int>, e: nat, k: Look)
    requires GoodList(d, list) && e < |list| && forall j :: e <= j < |list| ==> list[j] != -1
    ensures GoodList(d, RemoveAt(list, e))
    ensures Count(d, RemoveAt(list, e), k) == Count(d, list, k) - if LookOf(d[list[e]].content) == k then 1 else 0
    decreases |list|
  {
    var n := |list| - 1;
    if e == n {
      assert RemoveAt(list, e) == list[..n];
    } else {
      CountRemoved(d, list[..n], e, k);
      assert RemoveAt(list, e) == RemoveAt(list[..n], e) + [list[n]];
      assert list == list[..n] + [list[n]];
      CountPush(d, RemoveAt(list[..n], e), list[n], k);
      CountPush(d, list[..n], list[n], k);
    }
  }

  lemma NoahRemoved(d: Arena, list: seq<int>, e: nat)
    requires GoodList(d, list) && Noah(d, list) && e < |list| && forall j :: e <= j < |list| ==> list[j] != -1
    ensures GoodList(d, RemoveAt(list, e)) && Noah(d, RemoveAt(list, e))
  {
    var v := RemoveAt(list, e);
    forall m, k | 0 <= m <= |v| ensures GoodList(d, v[..m]) && Count(d, v[..m], k) <= 3 {
      if m <= e {
        assert v[..m] == list[..m];
      } else {
        assert v[..m] == RemoveAt(list[..m + 1], e);
        CountRemoved(d, list[..m + 1], e, k);
      }
    }
    assert GoodList(d, v) by { assert v[..|v|] == v; }
  }

  lemma NoahPush(d: Arena, list: seq<int>, x: int)
    requires GoodList(d, list) && Noah(d, list) && (x != -1 ==> 0 <= x < |d| && Good(d[x].content))
    requires x != -1 ==> Count(d, list, LookOf(d[x].content)) < 3
    ensures GoodList(d, list + [x]) && Noah(d, list + [x])
  {
    var v := list + [x];
    forall m, k | 0 <= m <= |v| ensures Count(d, v[..m], k) <= 3 {
      if m <= |list| {
        assert v[..m] == list[..m];
      } else {
        assert v[..m] == v && list[..|list|] == list;
        CountPush(d, list, x, k);
      }
    }
  }

  /** The count depends on markers and looks only. */
  ghost predicate SameLooks(d: Arena, list: seq<int>, d': Arena, list': seq<int>)
    requires GoodList(d, list) && GoodList(d', list')
  {
    && |list'| == |list|
    && (forall i :: 0 <= i < |list| ==> (list[i] == -1 <==> list'[i] == -1))
    && (forall i :: 0 <= i < |list| && list[i] != -1 && list'[i] != -1 ==>
          LookOf(d'[list'[i]].content) == LookOf(d[list[i]].content))
  }

  lemma {:induction false} CountSame(d: Arena, list: seq<int>, d': Arena, list': seq<int>, k: Look)
    requires GoodList(d, list) && GoodList(d', list') && SameLooks(d, list, d', list')
    ensures Count(d', list', k) == Count(d, list, k)
    decreases |list|
  {
    if list != [] { CountSame(d, list[..|list| - 1], d', list'[..|list| - 1], k); }
  }

  lemma NoahSame(d: Arena, list: seq<int>, d': Arena, list': seq<int>)
    requires GoodList(d, list) && GoodList(d', list') && SameLooks(d, list, d', list') && Noah(d, list)
    ensures Noah(d', list')
  {
    forall m, k | 0 <= m <= |list'|
      ensures Count(d', list'[..m], k) <= 3
    {
      CountSame(d, list[..m], d', list'[..m], k);
    }
  }

  /** The first entry of the last segment with that look. */
  ghost predicate EarliestMatch(d: Arena, list: seq<int>, k: Look, e: int)
    requires GoodList(d, list)
  {
    && 0 <= e < |list| && (forall j :: e <= j < |list| ==> list[j] != -1)
    && LookOf(d[list[e]].content) == k && Count(d, list[..e], k) == 0
  }

  /** What add_formatting_element makes of the list, for an entry `node` with the look of `c`. */
  ghost predicate Listed(d: Arena, list: seq<int>, c: Label, node: int, earliest: int, list': seq<int>) {
    && GoodList(d, list) && c.Element?
    && var k := Count(d, list, LookOf(c));
       && (k == 3 ==> EarliestMatch(d, list, LookOf(c), earliest))
       && list' == (if k == 3 then RemoveAt(list, earliest) else list) + [node]
  }

  /** add_formatting_element on the list: the earliest of three identical elements goes. */
  lemma NoahAdd(d: Arena, list: seq<int>, node: int, k: Look, e: int)
    requires GoodList(d, list) && Noah(d, list)
    requires (node != -1 ==> 0 <= node < |d| && Good(d[node].content) && LookOf(d[node].content) == k)
    requires Count(d, list, k) >= 3 ==> EarliestMatch(d, list, k, e)
    ensures var v := (if Count(d, list, k) >= 3 then RemoveAt(list, e) else list) + [node]; GoodList(d, v) && Noah(d, v)
  {
    assert list[..|list|] == list;
    assert Count(d, list, k) <= 3;
    if Count(d, list, k) >= 3 {
      NoahRemoved(d, list, e);
      CountRemoved(d, list, e, k);
      NoahPush(d, RemoveAt(list, e), node);
    } else {
      NoahPush(d, list, node);
    }
  }
}
