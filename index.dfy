/**
 * `build_index` (tfidf.py:82-108): document frequencies, `freq * idf` weights, one
 * postings list per term filled in document order, then each list sorted by weight,
 * descending. The natural logarithm is a parameter `ln`.
 */
module IndexBuilder {
  import opened Tokenizer
  import opened OrderedDict
  import opened Frequencies
  import opened Postings

  /** term -> postings list */
  type Index = map<Term, seq<Posting>>

  /** `math.log(num_articles / (1 + all_term_freqs[term]))` (tfidf.py:97). */
  function Idf(ln: real -> real, numArticles: nat, df: nat): real {
    ln(numArticles as real / (1 + df) as real)
  }

  /** `freq * idf` (tfidf.py:98). */
  function Weight(freq: nat, idf: real): real {
    freq as real * idf
  }

  /** Document id is in the dict and its counts contain t. */
  predicate Has(entries: map<DocId, Counts>, id: DocId, t: Term) {
    id in entries && t in entries[id]
  }

  /** The terms of the listed documents. */
  function TermsIn(ids: seq<DocId>, entries: map<DocId, Counts>): set<Term> {
    if ids == [] then {}
    else
      var last := ids[|ids| - 1];
      TermsIn(ids[..|ids| - 1], entries) + (if last in entries then entries[last].Keys else {})
  }

  lemma {:induction false} TermsInMembers(ids: seq<DocId>, entries: map<DocId, Counts>, t: Term)
    ensures t in TermsIn(ids, entries) <==> exists k :: 0 <= k < |ids| && Has(entries, ids[k], t)
  {
    if ids != [] {
      var prev := ids[..|ids| - 1];
      TermsInMembers(prev, entries, t);
      if exists k :: 0 <= k < |ids| && Has(entries, ids[k], t) {
        var k :| 0 <= k < |ids| && Has(entries, ids[k], t);
        if k < |prev| {
          assert prev[k] == ids[k];
        }
      }
      if exists k :: 0 <= k < |prev| && Has(entries, prev[k], t) {
        var k :| 0 <= k < |prev| && Has(entries, prev[k], t);
        assert ids[k] == prev[k];
      }
    }
  }

  /** `all_term_freqs[t]`: how many of the listed documents contain t (tfidf.py:87-92). */
  function DocFreq(ids: seq<DocId>, entries: map<DocId, Counts>, t: Term): (n: nat)
    ensures n <= |ids|
    ensures n > 0 <==> t in TermsIn(ids, entries)
  {
    if ids == [] then 0
    else
      var last := ids[|ids| - 1];
      DocFreq(ids[..|ids| - 1], entries, t) + (if Has(entries, last, t) then 1 else 0)
  }

  /** `idx[t]` after the loop of tfidf.py:95-103: one entry per listed document containing t. */
  function Unsorted(ids: seq<DocId>, entries: map<DocId, Counts>, t: Term, idf: real): (ps: seq<Posting>)
    ensures |ps| == DocFreq(ids, entries, t)
  {
    if ids == [] then []
    else
      var prev := Unsorted(ids[..|ids| - 1], entries, t, idf);
      var id := ids[|ids| - 1];
      if Has(entries, id, t) then prev + [Posting(Weight(entries[id][t], idf), id)] else prev
  }

  /** An entry for term t: its document contains t, and its weight is that count times idf. */
  predicate WeightedAs(p: Posting, entries: map<DocId, Counts>, t: Term, idf: real) {
    Has(entries, p.docId, t) && p.weight == Weight(entries[p.docId][t], idf)
  }

  /**
   * What each appended entry holds: a document of the list containing t, weighted by its
   * count times the shared idf; every such document is listed, and listed once.
   */
  lemma {:induction false} UnsortedEntries(ids: seq<DocId>, entries: map<DocId, Counts>, t: Term, idf: real)
    ensures forall k :: 0 <= k < |Unsorted(ids, entries, t, idf)| ==>
      WeightedAs(Unsorted(ids, entries, t, idf)[k], entries, t, idf)
    ensures forall id :: id in DocIds(Unsorted(ids, entries, t, idf)) <==> id in ids && Has(entries, id, t)
    ensures NoDup(ids) ==> NoDup(DocIds(Unsorted(ids, entries, t, idf)))
  {
    if ids != [] {
      var prefix := ids[..|ids| - 1];
      var id := ids[|ids| - 1];
      UnsortedEntries(prefix, entries, t, idf);
      var prev := Unsorted(prefix, entries, t, idf);
      assert forall k :: 0 <= k < |prev| ==> WeightedAs(prev[k], entries, t, idf);
      assert ids == prefix + [id];
      if Has(entries, id, t) {
        var e := Posting(Weight(entries[id][t], idf), id);
        assert Unsorted(ids, entries, t, idf) == prev + [e];
        assert DocIds(prev + [e]) == DocIds(prev) + [id];
        forall k | 0 <= k < |prev| + 1 ensures WeightedAs((prev + [e])[k], entries, t, idf) {
          if k < |prev| {
            assert (prev + [e])[k] == prev[k];
          } else {
            assert (prev + [e])[k] == e;
          }
        }

        if NoDup(ids) {
          assert id !in prefix;
          NoDupSnoc(DocIds(prev), id);
        }
      } else {
        assert Unsorted(ids, entries, t, idf) == prev;
      }
      if NoDup(ids) {
        assert NoDup(prefix);
      }
    }
  }

  /** The index build_index returns for a dict of counts and a document count. */
  function IndexOf(tbl: Dict<DocId, Counts>, numArticles: nat, ln: real -> real): Index {
    map t | t in TermsIn(tbl.keys, tbl.entries) ::
      SortDesc(Unsorted(tbl.keys, tbl.entries, t, Idf(ln, numArticles, DocFreq(tbl.keys, tbl.entries, t))))
  }

  /** The index build_index returns for the enumerated documents. */
  function IndexFor(docs: seq<Document>, ln: real -> real): Index {
    IndexOf(Table(docs), |docs|, ln)
  }

  /**
   * tfidf.py:87-92: the document frequency of every term. The source sorts the chained
   * `(term, count)` items of all documents by term and takes the length of each group;
   * the model walks the same items document by document and counts them per term.
   */
  method DocumentFrequencies(terms: Dict<DocId, Counts>) returns (df: map<Term, nat>)
    requires terms.Valid()
    ensures df.Keys == TermsIn(terms.keys, terms.entries)
    ensures forall t :: t in df ==> df[t] == DocFreq(terms.keys, terms.entries, t)
  {
    df := map[];
    for i := 0 to |terms.keys|
      invariant df.Keys == TermsIn(terms.keys[..i], terms.entries)
      invariant forall t :: t in df ==> df[t] == DocFreq(terms.keys[..i], terms.entries, t)
    {
      var id := terms.keys[i];
      assert terms.keys[..i + 1] == terms.keys[..i] + [id];
      df := CountDocument(df, terms.entries[id]);
      forall t | t in df
        ensures df[t] == DocFreq(terms.keys[..i + 1], terms.entries, t)
      {
        assert DocFreq(terms.keys[..i + 1], terms.entries, t)
          == DocFreq(terms.keys[..i], terms.entries, t) + (if Has(terms.entries, id, t) then 1 else 0);
      }
    }
    assert terms.keys[..|terms.keys|] == terms.keys;
  }

  /** One document's share of tfidf.py:87-92: every term it contains counts once more. */
  method CountDocument(df: map<Term, nat>, docTerms: Counts) returns (df': map<Term, nat>)
    ensures df'.Keys == df.Keys + docTerms.Keys
    ensures forall t :: t in df' ==>
      df'[t] == (if t in df then df[t] else 0) + (if t in docTerms then 1 else 0)
  {
    df' := df;
    var todo := docTerms.Keys;
    while todo != {}
      invariant todo <= docTerms.Keys
      invariant df'.Keys == df.Keys + (docTerms.Keys - todo)
      invariant forall t :: t in df' ==>
        df'[t] == (if t in df then df[t] else 0) + (if t in docTerms.Keys - todo then 1 else 0)
      decreases todo
    {
      var t :| t in todo;
      df' := df'[t := (if t in df' then df'[t] else 0) + 1];
      todo := todo - {t};
    }
  }

  /** tfidf.py:94-103: append `(freq * idf, doc_id)` to the list of every term of every document. */
  method BuildPostings(terms: Dict<DocId, Counts>, numArticles: nat, ln: real -> real, df: map<Term, nat>)
    returns (idx: Index)
    requires terms.Valid()
    requires TermsIn(terms.keys, terms.entries) <= df.Keys
    ensures idx.Keys == TermsIn(terms.keys, terms.entries)
    ensures forall t :: t in idx ==>
      idx[t] == Unsorted(terms.keys, terms.entries, t, Idf(ln, numArticles, df[t]))
  {
    idx := map[];
    for i := 0 to |terms.keys|
      invariant idx.Keys == TermsIn(terms.keys[..i], terms.entries) <= df.Keys
      invariant forall t :: t in idx ==>
        idx[t] == Unsorted(terms.keys[..i], terms.entries, t, Idf(ln, numArticles, df[t]))
    {
      var docId := terms.keys[i];
      var docTerms := terms.entries[docId];
      ListedTermsIn(terms.keys, terms.entries, i);
      TermsInStep(terms.keys, terms.entries, i);
      idx := AppendDocument(idx, docId, docTerms, numArticles, ln, df);
      forall t | t in idx
        ensures idx[t] == Unsorted(terms.keys[..i + 1], terms.entries, t, Idf(ln, numArticles, df[t]))
      {
        UnsortedStep(terms.keys, terms.entries, i, t, Idf(ln, numArticles, df[t]));
      }
    }
    assert terms.keys[..|terms.keys|] == terms.keys;
  }

  /** One more listed document adds its terms. */
  lemma TermsInStep(ids: seq<DocId>, entries: map<DocId, Counts>, i: nat)
    requires i < |ids| && ids[i] in entries
    ensures TermsIn(ids[..i + 1], entries) == TermsIn(ids[..i], entries) + entries[ids[i]].Keys
  {
    assert ids[..i + 1][..i] == ids[..i];
  }

  /** One more listed document appends its entry for t, if it contains t. */
  lemma UnsortedStep(ids: seq<DocId>, entries: map<DocId, Counts>, i: nat, t: Term, idf: real)
    requires i < |ids|
    ensures Unsorted(ids[..i + 1], entries, t, idf) == Unsorted(ids[..i], entries, t, idf)
      + (if Has(entries, ids[i], t) then [Posting(Weight(entries[ids[i]][t], idf), ids[i])] else [])
  {
    assert ids[..i + 1][..i] == ids[..i];
  }

  /** The terms of any listed document are among the terms of the list. */
  lemma ListedTermsIn(ids: seq<DocId>, entries: map<DocId, Counts>, i: nat)
    requires i < |ids| && ids[i] in entries
    ensures entries[ids[i]].Keys <= TermsIn(ids, entries)
  {
    forall t | t in entries[ids[i]] ensures t in TermsIn(ids, entries) {
      TermsInMembers(ids, entries, t);
      assert Has(entries, ids[i], t);
    }
  }

  /** One document's share of tfidf.py:96-103: each of its terms gets one entry appended. */
  method AppendDocument(idx: Index, docId: DocId, docTerms: Counts, numArticles: nat, ln: real -> real,
                        df: map<Term, nat>)
    returns (idx': Index)
    requires docTerms.Keys <= df.Keys
    ensures idx'.Keys == idx.Keys + docTerms.Keys
    ensures forall t :: t in idx' ==>
      idx'[t] == (if t in idx then idx[t] else [])
        + (if t in docTerms then [Posting(Weight(docTerms[t], Idf(ln, numArticles, df[t])), docId)] else [])
  {
    idx' := idx;
    var todo := docTerms.Keys;
    while todo != {}
      invariant todo <= docTerms.Keys
      invariant idx'.Keys == idx.Keys + (docTerms.Keys - todo)
      invariant forall t :: t in idx' ==>
        idx'[t] == (if t in idx then idx[t] else [])
          + (if t in docTerms.Keys - todo
             then [Posting(Weight(docTerms[t], Idf(ln, numArticles, df[t])), docId)] else [])
      decreases todo
    {
      var t :| t in todo;
      var tfidf := Weight(docTerms[t], Idf(ln, numArticles, df[t]));
      if t !in idx' {
        idx' := idx'[t := []];
      }
      idx' := idx'[t := idx'[t] + [Posting(tfidf, docId)]];
      todo := todo - {t};
    }
  }

  /** tfidf.py:105-106: replace every list by its sorted version. */
  method SortPostings(idx: Index) returns (ranked: Index)
    ensures ranked.Keys == idx.Keys
    ensures forall t :: t in ranked ==> ranked[t] == SortDesc(idx[t])
  {
    ranked := idx;
    var todo := idx.Keys;
    while todo != {}
      invariant todo <= idx.Keys && ranked.Keys == idx.Keys
      invariant forall t :: t in ranked ==> ranked[t] == if t in todo then idx[t] else SortDesc(idx[t])
      decreases todo
    {
      var t :| t in todo;
      ranked := ranked[t := SortDesc(ranked[t])];
      todo := todo - {t};
    }
  }

  /** `build_index` (tfidf.py:82-108) over the enumerated documents. */
  method BuildIndex(docs: seq<Document>, ln: real -> real) returns (idx: Index)
    ensures idx == IndexFor(docs, ln)
  {
    var terms, numArticles := BuildTermFrequencies(docs);
    var allTermFreqs := DocumentFrequencies(terms);
    var unsorted := BuildPostings(terms, numArticles, ln, allTermFreqs);
    idx := SortPostings(unsorted);
    forall t | t in idx
      ensures idx[t] == SortDesc(Unsorted(terms.keys, terms.entries, t,
                          Idf(ln, numArticles, DocFreq(terms.keys, terms.entries, t))))
    {
      assert allTermFreqs[t] == DocFreq(terms.keys, terms.entries, t);
    }
    IndexOfExt(terms, numArticles, ln, idx);
  }

  /** A map with the index's keys and the index's list for each of them is the index. */
  lemma IndexOfExt(tbl: Dict<DocId, Counts>, numArticles: nat, ln: real -> real, idx: Index)
    requires idx.Keys == TermsIn(tbl.keys, tbl.entries)
    requires forall t :: t in idx ==>
      idx[t] == SortDesc(Unsorted(tbl.keys, tbl.entries, t, Idf(ln, numArticles, DocFreq(tbl.keys, tbl.entries, t))))
    ensures idx == IndexOf(tbl, numArticles, ln)
  {
  }

  /** No documents give an empty index rather than an error. */
  lemma EmptyCorpus(ln: real -> real)
    ensures IndexFor([], ln) == map[]
  {
    assert Table([]).keys == [];
  }

  /** `all_term_freqs[t]` for the enumerated documents. */
  function DfFor(docs: seq<Document>, t: Term): nat {
    DocFreq(Table(docs).keys, Table(docs).entries, t)
  }

  /** `idx[t]` for the enumerated documents before the sort of tfidf.py:105-106. */
  function UnsortedFor(docs: seq<Document>, ln: real -> real, t: Term): seq<Posting> {
    Unsorted(Table(docs).keys, Table(docs).entries, t, Idf(ln, |docs|, DfFor(docs, t)))
  }

  /** The documents of the list whose counts contain t. */
  function DocsWith(ids: seq<DocId>, entries: map<DocId, Counts>, t: Term): set<DocId> {
    set id | id in ids && Has(entries, id, t)
  }

  /** Over distinct ids, the document frequency is the number of documents containing t. */
  lemma {:induction false} DocFreqCountsDocuments(ids: seq<DocId>, entries: map<DocId, Counts>, t: Term)
    requires NoDup(ids)
    ensures DocFreq(ids, entries, t) == |DocsWith(ids, entries, t)|
  {
    if ids != [] {
      var prefix := ids[..|ids| - 1];
      var last := ids[|ids| - 1];
      assert ids == prefix + [last];
      assert NoDup(prefix);
      DocFreqCountsDocuments(prefix, entries, t);
      assert last !in prefix;
      if Has(entries, last, t) {
        assert DocsWith(ids, entries, t) == DocsWith(prefix, entries, t) + {last};
      } else {
        assert DocsWith(ids, entries, t) == DocsWith(prefix, entries, t);
      }
    }
  }

  /** Over a dict's key order, the terms listed are those of any entry. */
  lemma TermsOfDict(tbl: Dict<DocId, Counts>, t: Term)
    requires tbl.Valid()
    ensures t in TermsIn(tbl.keys, tbl.entries) <==> exists id :: Has(tbl.entries, id, t)
  {
    TermsInMembers(tbl.keys, tbl.entries, t);
    if exists id :: Has(tbl.entries, id, t) {
      var id :| Has(tbl.entries, id, t);
      assert id in tbl.keys;
      var k :| 0 <= k < |tbl.keys| && tbl.keys[k] == id;
    }
  }

  /** The index has a key for t exactly when some document's counts contain t. */
  lemma IndexKeys(docs: seq<Document>, ln: real -> real, t: Term)
    ensures t in IndexFor(docs, ln) <==> exists id :: Has(Table(docs).entries, id, t)
  {
    IndexForKeys(docs, ln, t);
    TermsOfDict(Table(docs), t);
  }

  lemma IndexForKeys(docs: seq<Document>, ln: real -> real, t: Term)
    ensures t in IndexFor(docs, ln) <==> t in TermsIn(Table(docs).keys, Table(docs).entries)
  {
  }

  /**
   * For every key: 1 <= df(t) <= N, df(t) is the number of documents whose counts
   * contain t, and the postings list has exactly df(t) entries.
   */
  lemma DocFreqBounds(docs: seq<Document>, ln: real -> real, t: Term)
    ensures t in IndexFor(docs, ln) ==> 1 <= DfFor(docs, t) <= |docs|
    ensures t in IndexFor(docs, ln) ==> DfFor(docs, t) == |DocsWith(Table(docs).keys, Table(docs).entries, t)|
    ensures t in IndexFor(docs, ln) ==> |IndexFor(docs, ln)[t]| == DfFor(docs, t)
  {
    if t in IndexFor(docs, ln) {
      var ps := UnsortedFor(docs, ln, t);
      assert |SortDesc(ps)| == |multiset(SortDesc(ps))| == |multiset(ps)| == |ps|;
      DocFreqCountsDocuments(Table(docs).keys, Table(docs).entries, t);
    }
  }

  /**
   * Every postings list names each document whose counts contain the term exactly once,
   * and no other document; every entry weighs that document's count times the idf the
   * whole list shares.
   */
  lemma PostingsContent(docs: seq<Document>, ln: real -> real, t: Term)
    ensures t in IndexFor(docs, ln) ==>
      forall id :: id in DocIds(IndexFor(docs, ln)[t]) <==> Has(Table(docs).entries, id, t)
    ensures t in IndexFor(docs, ln) ==> NoDup(DocIds(IndexFor(docs, ln)[t]))
    ensures t in IndexFor(docs, ln) ==> forall k :: 0 <= k < |IndexFor(docs, ln)[t]| ==>
      WeightedAs(IndexFor(docs, ln)[t][k], Table(docs).entries, t, Idf(ln, |docs|, DfFor(docs, t)))
  {
    if t in IndexFor(docs, ln) {
      var tbl := Table(docs);
      assert IndexFor(docs, ln)[t] == SortDesc(UnsortedFor(docs, ln, t));
      SortedEntries(tbl.keys, tbl.entries, t, Idf(ln, |docs|, DfFor(docs, t)));
    }
  }

  /** Sorting the appended list of a dict's documents keeps what UnsortedEntries states. */
  lemma SortedEntries(ids: seq<DocId>, entries: map<DocId, Counts>, t: Term, idf: real)
    requires NoDup(ids)
    requires forall id :: id in entries ==> id in ids
    ensures forall id :: id in DocIds(SortDesc(Unsorted(ids, entries, t, idf))) <==> Has(entries, id, t)
    ensures NoDup(DocIds(SortDesc(Unsorted(ids, entries, t, idf))))
    ensures forall k :: 0 <= k < |SortDesc(Unsorted(ids, entries, t, idf))| ==>
      WeightedAs(SortDesc(Unsorted(ids, entries, t, idf))[k], entries, t, idf)
  {
    var ps := Unsorted(ids, entries, t, idf);
    var sorted := SortDesc(ps);
    UnsortedEntries(ids, entries, t, idf);
    SortDescKeepsDocIds(ps);
    forall k | 0 <= k < |sorted| ensures WeightedAs(sorted[k], entries, t, idf) {
      assert sorted[k] in multiset(ps);
      var j :| 0 <= j < |ps| && ps[j] == sorted[k];
    }
  }

  /**
   * Every postings list is the appended list reordered: weights never increase, and
   * entries of equal weight stay in the order their documents were enumerated.
   */
  lemma PostingsOrder(docs: seq<Document>, ln: real -> real, t: Term)
    ensures t in IndexFor(docs, ln) ==> NonIncreasing(IndexFor(docs, ln)[t])
    ensures t in IndexFor(docs, ln) ==>
      multiset(IndexFor(docs, ln)[t]) == multiset(UnsortedFor(docs, ln, t))
    ensures t in IndexFor(docs, ln) ==>
      forall w :: WithWeight(IndexFor(docs, ln)[t], w) == WithWeight(UnsortedFor(docs, ln, t), w)
  {
    if t in IndexFor(docs, ln) {
      forall w ensures WithWeight(IndexFor(docs, ln)[t], w) == WithWeight(UnsortedFor(docs, ln, t), w) {
        SortDescStable(UnsortedFor(docs, ln, t), w);
      }
    }
  }

  /** The counts of one body hold only well-formed terms. */
  lemma CountsWellFormed(body: string)
    ensures forall t :: t in CountsOf(Tokens(body)) ==> WellFormed(t)
  {
    TermsOfShape(Split(body));
    forall t | t in CountsOf(Tokens(body)) ensures WellFormed(t) {
      var k :| 0 <= k < |Tokens(body)| && Tokens(body)[k] == t;
    }
  }

  /** Every term any document's counts hold is well formed. */
  lemma {:induction false} TableTermsWellFormed(docs: seq<Document>)
    ensures forall id, t :: Has(Table(docs).entries, id, t) ==> WellFormed(t)
  {
    if docs != [] {
      var d := docs[|docs| - 1];
      var prev := Table(docs[..|docs| - 1]);
      TableTermsWellFormed(docs[..|docs| - 1]);
      CountsWellFormed(d.body);
      var entries := prev.entries[d.id := CountsOf(Tokens(d.body))];
      assert Table(docs).entries == entries;
      forall id, t | Has(entries, id, t) ensures WellFormed(t) {
        if id != d.id {
          assert Has(prev.entries, id, t);
        }
      }
    }
  }

  /**
   * Every key of the index is a well-formed term: non-empty, free of upper-case letters
   * and not starting with punctuation.
   */
  lemma IndexTermsWellFormed(docs: seq<Document>, ln: real -> real, t: Term)
    ensures t in IndexFor(docs, ln) ==> WellFormed(t)
  {
    IndexKeys(docs, ln, t);
    TableTermsWellFormed(docs);
  }
}
