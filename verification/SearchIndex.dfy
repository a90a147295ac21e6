/** The inverted index of Indexer.cpp and the retrieval of Retriever.cpp agree with scanning
    every document. */
module SearchIndex {
  import opened Tokens

  datatype Docinfo = Docinfo(docID: int, frequency: nat)

  /** inverted_index, as a row lookup: term, document, frequency. */
  type Table = map<string, map<int, nat>>

  function Count(words: seq<string>, w: string): nat {
    if words == [] then 0 else Count(words[..|words| - 1], w) + if words[|words| - 1] == w then 1 else 0
  }

  lemma CountOne(words: seq<string>, x: string, w: string)
    ensures Count(words + [x], w) == Count(words, w) + if x == w then 1 else 0
  {
    assert (words + [x])[..|words|] == words;
  }

  /** How often `w` occurs in a document. */
  function Occurrences(content: string, w: string): nat {
    Count(TokensOf(content), w)
  }

  lemma {:induction false} CountMember(words: seq<string>, w: string)
    ensures Count(words, w) > 0 <==> w in words
  {
    if words != [] {
      CountMember(words[..|words| - 1], w);
      assert words == words[..|words| - 1] + [words[|words| - 1]];
    }
  }

  lemma {:induction false} CountIs(words: seq<string>, w: string)
    ensures Count(words, w) == multiset(words)[w]
  {
    if words != [] {
      CountIs(words[..|words| - 1], w);
      assert words == words[..|words| - 1] + [words[|words| - 1]];
    }
  }

  // ----- building -----

  ghost predicate DistinctIds(pages: seq<(int, string)>) {
    forall i, j :: 0 <= i < j < |pages| ==> pages[i].0 != pages[j].0
  }

  function One(id: int, n: nat): seq<Docinfo> {
    if n > 0 then [Docinfo(id, n)] else []
  }

  /** The postings of a term: the documents that contain it, in the order they were indexed. */
  function Postings(pages: seq<(int, string)>, w: string): seq<Docinfo> {
    if pages == [] then []
    else Postings(pages[..|pages| - 1], w) + One(pages[|pages| - 1].0, Occurrences(pages[|pages| - 1].1, w))
  }

  lemma PostingsOne(pages: seq<(int, string)>, p: (int, string), w: string)
    ensures Postings(pages + [p], w) == Postings(pages, w) + One(p.0, Occurrences(p.1, w))
  {
    assert (pages + [p])[..|pages|] == pages;
  }

  /** The frequency a list gives for a document, 0 when it is not listed. */
  function Listed(v: seq<Docinfo>, id: int): nat {
    if v == [] then 0 else if v[|v| - 1].docID == id then v[|v| - 1].frequency else Listed(v[..|v| - 1], id)
  }

  lemma ListedOne(v: seq<Docinfo>, d: Docinfo, id: int)
    ensures Listed(v + [d], id) == if d.docID == id then d.frequency else Listed(v, id)
  {
    assert (v + [d])[..|v|] == v;
  }

  /** How often a word occurs in the document with that id; 0 when there is no such document. */
  function Scan(pages: seq<(int, string)>, id: int, w: string): nat {
    if pages == [] then 0
    else if pages[|pages| - 1].0 == id then Occurrences(pages[|pages| - 1].1, w)
    else Scan(pages[..|pages| - 1], id, w)
  }

  /** The multiplicity of the word among the tokens of the document. */
  lemma {:induction false} ScanIs(pages: seq<(int, string)>, j: nat, w: string)
    requires DistinctIds(pages) && j < |pages|
    ensures Scan(pages, pages[j].0, w) == multiset(TokensOf(pages[j].1))[w]
    decreases |pages|
  {
    if j < |pages| - 1 { ScanIs(pages[..|pages| - 1], j, w); } else { CountIs(TokensOf(pages[j].1), w); }
  }

  lemma {:induction false} ScanMissing(pages: seq<(int, string)>, id: int, w: string)
    requires forall j :: 0 <= j < |pages| ==> pages[j].0 != id
    ensures Scan(pages, id, w) == 0 && Listed(Postings(pages, w), id) == 0
    decreases |pages|
  {
    if pages != [] {
      var n := |pages| - 1;
      ScanMissing(pages[..n], id, w);
      PostingsPush(pages, w, id);
    }
  }

  lemma PostingsPush(pages: seq<(int, string)>, w: string, id: int)
    requires pages != []
    ensures var l, p := pages[..|pages| - 1], pages[|pages| - 1];
            Listed(Postings(pages, w), id)
            == if p.0 == id && Occurrences(p.1, w) > 0 then Occurrences(p.1, w) else Listed(Postings(l, w), id)
  {
    var l, p := pages[..|pages| - 1], pages[|pages| - 1];
    var n := Occurrences(p.1, w);
    if n > 0 {
      ListedOne(Postings(l, w), Docinfo(p.0, n), id);
    } else {
      assert Postings(l, w) + [] == Postings(l, w);
    }
  }

  /** The postings list just the documents that contain the word, with its count. */
  lemma {:induction false} PostingsScan(pages: seq<(int, string)>, w: string, id: int)
    requires DistinctIds(pages)
    ensures Listed(Postings(pages, w), id) == Scan(pages, id, w)
    decreases |pages|
  {
    if pages != [] {
      var n := |pages| - 1;
      PostingsPush(pages, w, id);
      if pages[n].0 == id { ScanMissing(pages[..n], id, w); } else { PostingsScan(pages[..n], w, id); }
    }
  }

  /** They name no document twice, and no other than the pages. */
  lemma {:induction false} PostingsIds(pages: seq<(int, string)>, w: string)
    requires DistinctIds(pages)
    ensures Once(Postings(pages, w))
    ensures forall i :: 0 <= i < |Postings(pages, w)| ==>
              exists j :: 0 <= j < |pages| && pages[j].0 == Postings(pages, w)[i].docID
    decreases |pages|
  {
    if pages != [] {
      var n := |pages| - 1;
      var l, p, q := pages[..n], Postings(pages[..n], w), Postings(pages, w);
      PostingsIds(l, w);
      forall i | 0 <= i < |q| ensures exists j :: 0 <= j < |pages| && pages[j].0 == q[i].docID {
        if i < |p| {
          var j :| 0 <= j < |l| && l[j].0 == p[i].docID;
          assert pages[j].0 == q[i].docID;
        } else {
          assert pages[n].0 == q[i].docID;
        }
      }
      forall i, k | 0 <= i < k < |q| ensures q[i].docID != q[k].docID {
        if k == |p| { var j :| 0 <= j < |l| && l[j].0 == p[i].docID; assert pages[j].0 == p[i].docID; }
      }
    }
  }

  /** No document twice, and no empty posting. */
  ghost predicate Once(v: seq<Docinfo>) {
    && (forall i, j :: 0 <= i < j < |v| ==> v[i].docID != v[j].docID)
    && (forall i :: 0 <= i < |v| ==> v[i].frequency > 0)
  }

  function Stored(table: map<string, seq<Docinfo>>, w: string): seq<Docinfo> {
    if w in table then table[w] else []
  }

  /** What statstable_ holds for a word when `n` occurrences of it in document `id` were seen. */
  ghost predicate Counted(table: map<string, seq<Docinfo>>, pages: seq<(int, string)>, id: int, tokens: seq<string>) {
    forall w :: Stored(table, w) == Postings(pages, w) + One(id, Count(tokens, w))
  }

  class Indexer {
    var statstable: map<string, seq<Docinfo>>
    ghost var pages: seq<(int, string)>

    ghost predicate Valid()
      reads this
    {
      DistinctIds(pages) && forall w :: Stored(statstable, w) == Postings(pages, w)
    }

    constructor ()
      ensures Valid() && pages == []
    {
      statstable, pages := map[], [];
    }

    /** indexDocument */
    method IndexDocument(docID: int, content: string)
      requires Valid() && forall j :: 0 <= j < |pages| ==> pages[j].0 != docID
      modifies this
      ensures Valid() && pages == old(pages) + [(docID, content)]
    {
      hide Postings, TokensAfter;
      var tokens := GetStrs(content);
      NothingCounted(statstable, pages, docID);
      hide Counted, DistinctIds, Count, Stored;
      for i := 0 to |tokens|
        invariant pages == old(pages) && Counted(statstable, pages, docID, tokens[..i])
      {
        assert tokens[..i + 1] == tokens[..i] + [tokens[i]];
        IndexToken(docID, tokens[i], tokens[..i]);
      }
      assert tokens[..|tokens|] == tokens;
      AllCounted(statstable, pages, docID, content);
      MorePages(pages, docID, content);
      pages := pages + [(docID, content)];
    }

    /** The body of its loop. */
    method IndexToken(docID: int, token: string, ghost before: seq<string>)
      requires Counted(statstable, pages, docID, before) && DistinctIds(pages)
      requires forall j :: 0 <= j < |pages| ==> pages[j].0 != docID
      modifies this`statstable
      ensures Counted(statstable, pages, docID, before + [token])
    {
      hide Counted, DistinctIds, Stored;
      CountedOne(statstable, pages, docID, before, token);
      var vec := Stored(statstable, token);
      if vec == [] || vec[|vec| - 1].docID != docID {
        vec := vec + [Docinfo(docID, 1)];
      } else {
        vec := vec[|vec| - 1 := vec[|vec| - 1].(frequency := vec[|vec| - 1].frequency + 1)];
      }
      statstable := statstable[token := vec];
    }

    /** buildAll, without the saving; `input` are all pages. */
    method BuildAll(input: seq<(int, string)>)
      requires Valid() && pages == [] && DistinctIds(input)
      modifies this
      ensures Valid() && pages == input
    {
      for i := 0 to |input|
        invariant Valid() && pages == input[..i]
      {
        assert input[..i + 1] == input[..i] + [(input[i].0, input[i].1)];
        IndexDocument(input[i].0, input[i].1);
      }
      assert input[..|input|] == input;
    }

    /** saveIndexToDB: every posting becomes a row, or overwrites one. */
    method SaveIndex(before: Table) returns (table: Table)
      requires Valid() && Positive(before)
      ensures Positive(table)
      ensures forall w, id :: Frequency(table, w, id) ==
                if Scan(pages, id, w) > 0 then Scan(pages, id, w) else Frequency(before, w, id)
    {
      table := before;
      var rest := statstable.Keys;
      while rest != {}
        invariant rest <= statstable.Keys && Positive(table)
        invariant forall w, id :: Frequency(table, w, id) ==
                    if w in statstable && w !in rest && Listed(statstable[w], id) > 0 then Listed(statstable[w], id)
                    else Frequency(before, w, id)
      {
        var term :| term in rest;
        assert Stored(statstable, term) == Postings(pages, term);
        PostingsIds(pages, term);
        var rows := SaveTerm(statstable[term], if term in table then table[term] else map[]);
        table := table[term := rows];
        rest := rest - {term};
      }
      forall w, id ensures Listed(Stored(statstable, w), id) == Scan(pages, id, w) { PostingsScan(pages, w, id); }
    }
  }

  /** The rows of one term. */
  method SaveTerm(v: seq<Docinfo>, before: map<int, nat>) returns (rows: map<int, nat>)
    requires Once(v) && forall id :: id in before ==> before[id] > 0
    ensures forall id :: id in rows ==> rows[id] > 0
    ensures forall id :: Row(rows, id) == if Listed(v, id) > 0 then Listed(v, id) else Row(before, id)
  {
    rows := before;
    for i := 0 to |v|
      invariant Overwritten(rows, v[..i], before)
    {
      assert v[..i + 1] == v[..i] + [v[i]];
      Overwrite(rows, v[..i], before, v[i]);
      rows := rows[v[i].docID := v[i].frequency];
    }
    assert v[..|v|] == v;
  }

  ghost predicate Overwritten(rows: map<int, nat>, v: seq<Docinfo>, before: map<int, nat>) {
    && (forall id :: id in rows ==> rows[id] > 0)
    && (forall id :: Row(rows, id) == if Listed(v, id) > 0 then Listed(v, id) else Row(before, id))
  }

  lemma Overwrite(rows: map<int, nat>, v: seq<Docinfo>, before: map<int, nat>, d: Docinfo)
    requires Overwritten(rows, v, before) && d.frequency > 0
    ensures Overwritten(rows[d.docID := d.frequency], v + [d], before)
  {
    var rows' := rows[d.docID := d.frequency];
    forall id ensures Row(rows', id) == if Listed(v + [d], id) > 0 then Listed(v + [d], id) else Row(before, id) {
      ListedOne(v, d, id);
      assert Row(rows, id) == if Listed(v, id) > 0 then Listed(v, id) else Row(before, id);
    }
  }

  lemma NonEmpty(s: set<int>)
    requires s != {}
    ensures exists x :: x in s
  {
    if forall x: int :: x !in s { assert false; }
  }

  function Row(rows: map<int, nat>, id: int): nat {
    if id in rows then rows[id] else 0
  }

  function Frequency(table: Table, w: string, id: int): nat {
    if w in table then Row(table[w], id) else 0
  }

  lemma NothingCounted(table: map<string, seq<Docinfo>>, pages: seq<(int, string)>, id: int)
    requires forall w :: Stored(table, w) == Postings(pages, w)
    ensures Counted(table, pages, id, [])
  {
    forall w ensures Postings(pages, w) + One(id, Count([], w)) == Postings(pages, w) {}
  }

  /** One more token of the document. */
  lemma CountedOne(table: map<string, seq<Docinfo>>, pages: seq<(int, string)>, id: int, tokens: seq<string>, t: string)
    requires Counted(table, pages, id, tokens) && DistinctIds(pages)
    requires forall j :: 0 <= j < |pages| ==> pages[j].0 != id
    ensures var vec := Stored(table, t);
            var vec' := if vec == [] || vec[|vec| - 1].docID != id then vec + [Docinfo(id, 1)]
                        else vec[|vec| - 1 := vec[|vec| - 1].(frequency := vec[|vec| - 1].frequency + 1)];
            Counted(table[t := vec'], pages, id, tokens + [t])
  {
    var vec, p, n := Stored(table, t), Postings(pages, t), Count(tokens, t);
    hide Postings, Count, DistinctIds, Counted, Stored, One;
    LastPosting(pages, t, id);
    StoredIs(table, pages, id, tokens, t);
    var vec' := if vec == [] || vec[|vec| - 1].docID != id then vec + [Docinfo(id, 1)]
                else vec[|vec| - 1 := vec[|vec| - 1].(frequency := vec[|vec| - 1].frequency + 1)];
    Bumped(p, id, n, vec, vec');
    hide *;
    CountedUpdate(table, pages, id, tokens, t, vec');
  }

  lemma StoredIs(table: map<string, seq<Docinfo>>, pages: seq<(int, string)>, id: int, tokens: seq<string>, w: string)
    requires Counted(table, pages, id, tokens)
    ensures Stored(table, w) == Postings(pages, w) + One(id, Count(tokens, w))
  {}

  lemma CountedUpdate(table: map<string, seq<Docinfo>>, pages: seq<(int, string)>, id: int, tokens: seq<string>,
                      t: string, vec: seq<Docinfo>)
    requires Counted(table, pages, id, tokens) && vec == Postings(pages, t) + One(id, Count(tokens, t) + 1)
    ensures Counted(table[t := vec], pages, id, tokens + [t])
  {
    hide Postings, Count, Stored, One;
    forall w ensures Stored(table[t := vec], w) == Postings(pages, w) + One(id, Count(tokens + [t], w)) {
      CountOne(tokens, t, w);
      StoredUpdate(table, t, vec, w);
    }
  }

  lemma StoredUpdate(table: map<string, seq<Docinfo>>, t: string, vec: seq<Docinfo>, w: string)
    ensures Stored(table[t := vec], w) == if w == t then vec else Stored(table, w)
  {}

  lemma MorePages(pages: seq<(int, string)>, id: int, content: string)
    requires DistinctIds(pages) && forall j :: 0 <= j < |pages| ==> pages[j].0 != id
    ensures DistinctIds(pages + [(id, content)])
  {}

  lemma Bumped(p: seq<Docinfo>, id: int, n: nat, vec: seq<Docinfo>, vec': seq<Docinfo>)
    requires (p == [] || p[|p| - 1].docID != id) && vec == p + One(id, n)
    requires vec' == if vec == [] || vec[|vec| - 1].docID != id then vec + [Docinfo(id, 1)]
                     else vec[|vec| - 1 := vec[|vec| - 1].(frequency := vec[|vec| - 1].frequency + 1)]
    ensures vec' == p + One(id, n + 1)
  {
    if n > 0 { assert vec[|vec| - 1] == Docinfo(id, n); }
  }

  lemma LastPosting(pages: seq<(int, string)>, w: string, id: int)
    requires DistinctIds(pages) && forall j :: 0 <= j < |pages| ==> pages[j].0 != id
    ensures var p := Postings(pages, w); p == [] || p[|p| - 1].docID != id
  {
    PostingsIds(pages, w);
  }

  lemma AllCounted(table: map<string, seq<Docinfo>>, pages: seq<(int, string)>, id: int, content: string)
    requires Counted(table, pages, id, TokensOf(content))
    ensures forall w :: Stored(table, w) == Postings(pages + [(id, content)], w)
  {
    forall w ensures Stored(table, w) == Postings(pages + [(id, content)], w) { PostingsOne(pages, (id, content), w); }
  }

  // ----- retrieval -----

  type Results = map<int, seq<Docinfo>>

  /** The rows of a document for the terms, in the order of the terms. */
  function Gather(table: Table, terms: seq<string>, id: int): seq<Docinfo> {
    if terms == [] then []
    else Gather(table, terms[..|terms| - 1], id) + One(id, Frequency(table, terms[|terms| - 1], id))
  }

  function At(results: Results, id: int): seq<Docinfo> {
    if id in results then results[id] else []
  }

  ghost predicate HasAll(table: Table, terms: seq<string>, id: int) {
    forall i :: 0 <= i < |terms| ==> Frequency(table, terms[i], id) > 0
  }

  ghost predicate HasAny(table: Table, terms: seq<string>, id: int) {
    exists i :: 0 <= i < |terms| && Frequency(table, terms[i], id) > 0
  }

  lemma {:induction false} GatherFacts(table: Table, terms: seq<string>, id: int)
    ensures |Gather(table, terms, id)| <= |terms|
    ensures |Gather(table, terms, id)| == |terms| <==> HasAll(table, terms, id)
    ensures |Gather(table, terms, id)| > 0 <==> HasAny(table, terms, id)
    ensures HasAll(table, terms, id) ==>
              forall i :: 0 <= i < |terms| && i < |Gather(table, terms, id)| ==>
                Gather(table, terms, id)[i] == Docinfo(id, Frequency(table, terms[i], id))
    decreases |terms|
  {
    if terms != [] {
      var n := |terms| - 1;
      var l := terms[..n];
      GatherFacts(table, l, id);
      OneTermMore(table, terms, id);
      assert forall i :: 0 <= i < n ==> l[i] == terms[i];
      hide Frequency, HasAll, HasAny;
    }
  }

  lemma OneTermMore(table: Table, terms: seq<string>, id: int)
    requires terms != []
    ensures var n := |terms| - 1;
            && (HasAll(table, terms, id) <==> HasAll(table, terms[..n], id) && Frequency(table, terms[n], id) > 0)
            && (HasAny(table, terms, id) <==> HasAny(table, terms[..n], id) || Frequency(table, terms[n], id) > 0)
  {
    var n := |terms| - 1;
    var l := terms[..n];
    assert forall i :: 0 <= i < n ==> l[i] == terms[i];
    hide Frequency;
    if HasAny(table, l, id) {
      var i :| 0 <= i < |l| && Frequency(table, l[i], id) > 0;
      assert Frequency(table, terms[i], id) > 0;
    }
  }

  /** getPostingList: the rows of a term, each once. */
  method GetPostingList(table: Table, term: string) returns (v: seq<Docinfo>)
    requires Positive(table)
    ensures Once(v) && forall id :: Listed(v, id) == Frequency(table, term, id)
  {
    v := [];
    if term !in table { return; }
    var rows := table[term];
    var rest := rows.Keys;
    while rest != {}
      invariant rest <= rows.Keys && Once(v)
      invariant forall i :: 0 <= i < |v| ==> v[i].docID !in rest
      invariant forall id :: Listed(v, id) == if id in rest then 0 else Row(rows, id)
    {
      NonEmpty(rest);
      var id :| id in rest;
      forall k
        ensures Listed(v + [Docinfo(id, rows[id])], k) == if id == k then rows[id] else Listed(v, k)
      {
        ListedOne(v, Docinfo(id, rows[id]), k);
      }
      v := v + [Docinfo(id, rows[id])];
      rest := rest - {id};
    }
  }

  ghost predicate Positive(table: Table) {
    forall w, id :: w in table && id in table[w] ==> table[w][id] > 0
  }

  /** retrieve, its first part: all rows of all terms, by document. */
  method Collect(table: Table, terms: seq<string>) returns (results: Results)
    requires Positive(table)
    ensures forall id :: At(results, id) == Gather(table, terms, id)
    ensures forall id :: id in results ==> results[id] != []
  {
    results := map[];
    for i := 0 to |terms|
      invariant forall id :: At(results, id) == Gather(table, terms[..i], id)
      invariant forall id :: id in results ==> results[id] != []
    {
      assert terms[..i + 1][..i] == terms[..i];
      var plist := GetPostingList(table, terms[i]);
      results := AddList(results, plist);
    }
    assert terms[..|terms|] == terms;
  }

  method AddList(before: Results, plist: seq<Docinfo>) returns (results: Results)
    requires Once(plist) && forall id :: id in before ==> before[id] != []
    ensures forall id :: At(results, id) == At(before, id) + One(id, Listed(plist, id))
    ensures forall id :: id in results ==> results[id] != []
  {
    results := before;
    for j := 0 to |plist|
      invariant Appended(results, before, plist[..j])
    {
      assert plist[..j + 1] == plist[..j] + [plist[j]];
      NotYetListed(plist, j);
      Append(results, before, plist[..j], plist[j]);
      results := results[plist[j].docID := At(results, plist[j].docID) + [plist[j]]];
    }
    assert plist[..|plist|] == plist;
  }

  ghost predicate Appended(results: Results, before: Results, v: seq<Docinfo>) {
    && (forall id :: At(results, id) == At(before, id) + One(id, Listed(v, id)))
    && (forall id :: id in results ==> results[id] != [])
  }

  lemma Append(results: Results, before: Results, v: seq<Docinfo>, d: Docinfo)
    requires Appended(results, before, v) && Listed(v, d.docID) == 0 && d.frequency > 0
    ensures Appended(results[d.docID := At(results, d.docID) + [d]], before, v + [d])
  {
    var results' := results[d.docID := At(results, d.docID) + [d]];
    forall id ensures At(results', id) == At(before, id) + One(id, Listed(v + [d], id)) {
      ListedOne(v, d, id);
      assert At(results, id) == At(before, id) + One(id, Listed(v, id));
    }
  }

  lemma NotYetListed(v: seq<Docinfo>, j: nat)
    requires Once(v) && j < |v|
    ensures Listed(v[..j], v[j].docID) == 0
  {
    Unlisted(v[..j], v[j].docID);
  }

  lemma {:induction false} Unlisted(v: seq<Docinfo>, id: int)
    requires forall i :: 0 <= i < |v| ==> v[i].docID != id
    ensures Listed(v, id) == 0
    decreases |v|
  {
    if v != [] { Unlisted(v[..|v| - 1], id); }
  }

  /** The second part: documents that miss a term go. */
  method EraseIncomplete(copy: Results, terms: seq<string>) returns (results: Results)
    ensures forall id :: id in results <==> id in copy && |copy[id]| >= |terms|
    ensures forall id :: id in results ==> results[id] == copy[id]
  {
    results := copy;
    var rest := copy.Keys;
    while rest != {}
      invariant rest <= copy.Keys
      invariant forall id :: id in results <==> id in copy && (id in rest || |copy[id]| >= |terms|)
      invariant forall id :: id in results ==> results[id] == copy[id]
    {
      NonEmpty(rest);
      var id :| id in rest;
      if |results[id]| < |terms| { results := results - {id}; }
      rest := rest - {id};
    }
  }

  ghost predicate SomeHasAll(table: Table, terms: seq<string>) {
    exists id :: HasAll(table, terms, id) && HasAny(table, terms, id)
  }

  /** retrieve: the documents with all terms, or else, when there is none, those with some. */
  method Retrieve(table: Table, terms: seq<string>) returns (results: Results)
    requires Positive(table)
    ensures forall id :: id in results <==>
              HasAny(table, terms, id) && (SomeHasAll(table, terms) ==> HasAll(table, terms, id))
    ensures forall id :: id in results ==> results[id] == Gather(table, terms, id)
  {
    hide HasAll, HasAny;
    var copy := Collect(table, terms);
    forall id
      ensures id in copy <==> HasAny(table, terms, id)
      ensures id in copy ==>
                copy[id] == Gather(table, terms, id) && (|copy[id]| >= |terms| <==> HasAll(table, terms, id))
    {
      GatherFacts(table, terms, id);
      assert At(copy, id) == Gather(table, terms, id);
    }
    hide Gather;
    results := EraseIncomplete(copy, terms);
    if results.Keys == {} {
      assert forall id :: id !in results.Keys;
      results := copy;
    } else {
      NonEmpty(results.Keys);
      var id :| id in results.Keys;
      assert HasAll(table, terms, id) && HasAny(table, terms, id);
    }
  }

  // ----- search equals scanning -----

  ghost predicate ContainsAll(pages: seq<(int, string)>, terms: seq<string>, id: int) {
    forall i :: 0 <= i < |terms| ==> Scan(pages, id, terms[i]) > 0
  }

  ghost predicate ContainsAny(pages: seq<(int, string)>, terms: seq<string>, id: int) {
    exists i :: 0 <= i < |terms| && Scan(pages, id, terms[i]) > 0
  }

  ghost predicate SomeContainsAll(pages: seq<(int, string)>, terms: seq<string>) {
    exists id :: ContainsAll(pages, terms, id)
  }

  /** Building the index of all pages and querying it: for a query with at least one term the
      answer is exactly the documents that contain all terms, each with the count of every
      term; when there is none, those that contain some. */
  method Search(pages: seq<(int, string)>, terms: seq<string>) returns (results: Results)
    requires DistinctIds(pages) && terms != []
    ensures forall id :: id in results <==>
              if SomeContainsAll(pages, terms) then ContainsAll(pages, terms, id) else ContainsAny(pages, terms, id)
    ensures forall id :: id in results && ContainsAll(pages, terms, id) ==>
              |results[id]| == |terms|
              && forall i :: 0 <= i < |terms| ==> results[id][i] == Docinfo(id, Scan(pages, id, terms[i]))
  {
    var indexer := new Indexer();
    indexer.BuildAll(pages);
    var table := indexer.SaveIndex(map[]);
    results := Retrieve(table, terms);
    assert forall w, id :: Frequency(table, w, id) == Scan(pages, id, w);
    forall id
      ensures HasAll(table, terms, id) <==> ContainsAll(pages, terms, id)
      ensures HasAny(table, terms, id) <==> ContainsAny(pages, terms, id)
      ensures HasAll(table, terms, id) ==> HasAny(table, terms, id)
    {
      SameScan(table, pages, terms, id);
    }
    assert SomeHasAll(table, terms) <==> SomeContainsAll(pages, terms);
    forall id | id in results && ContainsAll(pages, terms, id)
      ensures |results[id]| == |terms|
      ensures forall i :: 0 <= i < |terms| ==> results[id][i] == Docinfo(id, Scan(pages, id, terms[i]))
    {
      GatherFacts(table, terms, id);
    }
  }

  lemma SameScan(table: Table, pages: seq<(int, string)>, terms: seq<string>, id: int)
    requires terms != [] && forall w :: Frequency(table, w, id) == Scan(pages, id, w)
    ensures HasAll(table, terms, id) <==> ContainsAll(pages, terms, id)
    ensures HasAny(table, terms, id) <==> ContainsAny(pages, terms, id)
    ensures HasAll(table, terms, id) ==> HasAny(table, terms, id)
  {
    if HasAll(table, terms, id) { assert Frequency(table, terms[0], id) > 0; }
    if HasAny(table, terms, id) {
      var i :| 0 <= i < |terms| && Frequency(table, terms[i], id) > 0;
      assert Scan(pages, id, terms[i]) > 0;
    }
    if ContainsAny(pages, terms, id) {
      var i :| 0 <= i < |terms| && Scan(pages, id, terms[i]) > 0;
      assert Frequency(table, terms[i], id) > 0;
    }
  }
}
