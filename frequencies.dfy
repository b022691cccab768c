/**
 * `_build_term_frequencies` (tfidf.py:51-79): one pass over the documents that records,
 * per document id, how often each counted term occurs in the body, and how many
 * documents were enumerated.
 */
module Frequencies {
  import opened Tokenizer
  import opened OrderedDict

  type DocId = string

  /** tfidf.py:9-13; the title is carried but never read by the core. */
  datatype Document = Document(id: DocId, title: string, body: string)

  /** One document's `article_terms`: term to number of occurrences. */
  type Counts = map<Term, nat>

  /** How many times t occurs in ts. */
  function Occurrences(ts: seq<Term>, t: Term): (n: nat)
    ensures n <= |ts|
    ensures n > 0 <==> t in ts
  {
    if ts == [] then 0
    else
      var prev := ts[..|ts| - 1];
      assert ts == prev + [ts[|ts| - 1]];
      Occurrences(prev, t) + (if ts[|ts| - 1] == t then 1 else 0)
  }

  /** The map tfidf.py:75-78 builds from a sequence of counted terms. */
  function CountsOf(ts: seq<Term>): (m: Counts)
    ensures forall t :: t in m <==> t in ts
    ensures forall t :: t in m ==> m[t] == Occurrences(ts, t)
  {
    if ts == [] then map[]
    else
      var prev := ts[..|ts| - 1];
      var t := ts[|ts| - 1];
      assert ts == prev + [t];
      var m := CountsOf(prev);
      m[t := (if t in m then m[t] else 0) + 1]
  }

  lemma CountsOfSnoc(ts: seq<Term>, t: Term)
    ensures var m := CountsOf(ts);
      CountsOf(ts + [t]) == m[t := (if t in m then m[t] else 0) + 1]
  {
    assert (ts + [t])[..|ts|] == ts;
  }

  /** `if w not in m: m[w] = 0` followed by `m[w] += 1` is one increment from zero. */
  lemma IncrementAfterInit(m: Counts, w: Term)
    ensures var c := if w in m then m else m[w := 0];
      c[w := c[w] + 1] == m[w := (if w in m then m[w] else 0) + 1]
  {
  }

  /** Sum of all counts of a map. */
  ghost function Total(m: Counts): nat
    decreases |m|
  {
    if m == map[] then 0
    else
      var t :| t in m;
      assert |m - {t}| < |m| by {
        assert (m - {t}).Keys == m.Keys - {t};
      }
      m[t] + Total(m - {t})
  }

  /** The sum can be taken starting from any key. */
  lemma {:induction false} TotalRemove(m: Counts, t: Term)
    requires t in m
    ensures Total(m) == m[t] + Total(m - {t})
    decreases |m|
  {
    var u :| u in m && Total(m) == m[u] + Total(m - {u});
    if u != t {
      assert (m - {u}).Keys == m.Keys - {u};
      assert (m - {t}).Keys == m.Keys - {t};
      TotalRemove(m - {u}, t);
      TotalRemove(m - {t}, u);
      assert m - {u} - {t} == m - {t} - {u};
    }
  }

  /** One more occurrence of t adds one to the sum. */
  lemma TotalIncrement(m: Counts, t: Term)
    ensures Total(m[t := (if t in m then m[t] else 0) + 1]) == Total(m) + 1
  {
    var m' := m[t := (if t in m then m[t] else 0) + 1];
    TotalRemove(m', t);
    assert m' - {t} == m - {t};
    if t in m {
      TotalRemove(m, t);
    } else {
      assert m - {t} == m;
    }
  }

  /** Every count is at least one, and the counts add up to the number of counted terms. */
  lemma {:induction false} CountsSum(ts: seq<Term>)
    ensures forall t :: t in CountsOf(ts) ==> CountsOf(ts)[t] >= 1
    ensures Total(CountsOf(ts)) == |ts|
  {
    if ts != [] {
      var prev := ts[..|ts| - 1];
      var t := ts[|ts| - 1];
      CountsSum(prev);
      assert ts == prev + [t];
      CountsOfSnoc(prev, t);
      TotalIncrement(CountsOf(prev), t);
    }
  }

  /** The counting loop of tfidf.py:64-78 over one document body. */
  method CountTerms(body: string) returns (counts: Counts)
    ensures counts == CountsOf(Tokens(body))
  {
    var words := Split(body);
    counts := map[];
    for i := 0 to |words|
      invariant counts == CountsOf(TermsOf(words[..i]))
    {
      assert words[..i + 1][..i] == words[..i];
      ghost var before := TermsOf(words[..i]);
      var term := NormalizeToken(words[i]);
      if term.Some? {
        var w := term.value;
        assert TermsOf(words[..i + 1]) == before + [w];
        CountsOfSnoc(before, w);
        IncrementAfterInit(counts, w);
        if w !in counts {
          counts := counts[w := 0];
        }
        counts := counts[w := counts[w] + 1];
      } else {
        assert TermsOf(words[..i + 1]) == before;
      }
    }
    assert words[..|words|] == words;
  }

  /**
   * The `terms` dict after the loop of tfidf.py:58-78: for each document, in order,
   * `terms[doc.id]` is (re)assigned that document's counts.
   */
  function Table(docs: seq<Document>): (tbl: Dict<DocId, Counts>)
    ensures tbl.Valid()
    ensures |tbl.keys| <= |docs|
  {
    if docs == [] then Empty()
    else
      var d := docs[|docs| - 1];
      Table(docs[..|docs| - 1]).Put(d.id, CountsOf(Tokens(d.body)))
  }

  /** The ids of the enumerated documents. */
  function Ids(docs: seq<Document>): (ids: set<DocId>)
    ensures forall i :: 0 <= i < |docs| ==> docs[i].id in ids
    ensures forall id :: id in ids ==> exists i :: 0 <= i < |docs| && docs[i].id == id
  {
    if docs == [] then {} else Ids(docs[..|docs| - 1]) + {docs[|docs| - 1].id}
  }

  /** The dict has an entry for exactly the ids of the enumerated documents. */
  lemma {:induction false} TableKeys(docs: seq<Document>)
    ensures Table(docs).entries.Keys == Ids(docs)
  {
    if docs != [] {
      TableKeys(docs[..|docs| - 1]);
    }
  }

  /**
   * The entry for a document id holds the counts of the last document with that id;
   * a document without counted terms still has an entry, the empty map.
   */
  lemma {:induction false} TableEntry(docs: seq<Document>, i: nat)
    requires i < |docs|
    requires forall j :: i < j < |docs| ==> docs[j].id != docs[i].id
    ensures docs[i].id in Table(docs).entries
    ensures Table(docs).entries[docs[i].id] == CountsOf(Tokens(docs[i].body))
    ensures Tokens(docs[i].body) == [] ==> Table(docs).entries[docs[i].id] == map[]
  {
    var prefix := docs[..|docs| - 1];
    var last := docs[|docs| - 1];
    assert Table(docs).entries == Table(prefix).entries[last.id := CountsOf(Tokens(last.body))];
    if i < |docs| - 1 {
      assert prefix[i] == docs[i];
      TableEntry(prefix, i);
      assert last.id != docs[i].id;
    }
    if Tokens(docs[i].body) == [] {
      assert CountsOf([]) == map[];
    }
  }

  /** `_build_term_frequencies` (tfidf.py:51-79) over the enumerated documents. */
  method BuildTermFrequencies(docs: seq<Document>) returns (terms: Dict<DocId, Counts>, numArticles: nat)
    ensures terms == Table(docs)
    ensures numArticles == |docs|
  {
    terms := Empty();
    numArticles := 0;
    for i := 0 to |docs|
      invariant terms == Table(docs[..i])
      invariant numArticles == i
    {
      assert docs[..i + 1][..i] == docs[..i];
      numArticles := numArticles + 1;
      var articleTerms := CountTerms(docs[i].body);
      terms := terms.Put(docs[i].id, articleTerms);
    }
    assert docs[..|docs|] == docs;
  }
}
