/**
 * `search` (tfidf.py:111-126): the query is split on whitespace as it is, every word
 * that is a key of the index contributes the ordered set of the document ids of its
 * postings list, and the result is the intersection of all those sets. Words that are
 * not keys are skipped, so they do not empty the result.
 *
 * `OrderedSet` comes from a module that is not part of this model. Its `&` is modelled
 * as the `Set.__and__` mixin method computes it: the elements of the right operand, in
 * the right operand's order, that are also in the left operand. Only membership and the
 * absence of duplicates are stated about it.
 */
module QueryEngine {
  import opened Tokenizer
  import opened OrderedDict
  import opened Frequencies
  import opened Postings
  import opened IndexBuilder

  /** `OrderedSet(xs)`: the elements of xs at their first occurrence. */
  function OrderedSetOf(xs: seq<DocId>): (r: seq<DocId>)
    ensures NoDup(r)
    ensures forall x :: x in r <==> x in xs
  {
    if xs == [] then []
    else
      var prev := OrderedSetOf(xs[..|xs| - 1]);
      var last := xs[|xs| - 1];
      assert xs == xs[..|xs| - 1] + [last];
      if last in prev then prev else prev + [last]
  }

  /** A sequence without repetitions is its own ordered set. */
  lemma {:induction false} OrderedSetOfDistinct(xs: seq<DocId>)
    requires NoDup(xs)
    ensures OrderedSetOf(xs) == xs
  {
    if xs != [] {
      var prev := xs[..|xs| - 1];
      assert NoDup(prev);
      OrderedSetOfDistinct(prev);
      assert xs[|xs| - 1] !in prev;
      assert prev + [xs[|xs| - 1]] == xs;
    }
  }

  /** `a & b`: the elements of b that are also in a, in b's order. */
  function Intersect(a: seq<DocId>, b: seq<DocId>): (r: seq<DocId>)
    ensures forall x :: x in r <==> x in a && x in b
    ensures NoDup(b) ==> NoDup(r)
  {
    if b == [] then []
    else
      var prev := b[..|b| - 1];
      var last := b[|b| - 1];
      assert b == prev + [last];
      assert NoDup(b) ==> NoDup(prev) && last !in prev;
      Intersect(a, prev) + (if last in a then [last] else [])
  }

  /** `functools.reduce(lambda s1, s2: s1 & s2, sets)`. */
  function Reduce(sets: seq<seq<DocId>>): (r: seq<DocId>)
    requires sets != []
  {
    if |sets| == 1 then sets[0] else Intersect(Reduce(sets[..|sets| - 1]), sets[|sets| - 1])
  }

  /** The reduction keeps exactly what every set holds, and repeats nothing. */
  lemma {:induction false} ReduceMembers(sets: seq<seq<DocId>>)
    requires sets != []
    requires forall k :: 0 <= k < |sets| ==> NoDup(sets[k])
    ensures forall x :: x in Reduce(sets) <==> forall k :: 0 <= k < |sets| ==> x in sets[k]
    ensures NoDup(Reduce(sets))
  {
    if |sets| > 1 {
      var prev := sets[..|sets| - 1];
      ReduceMembers(prev);
      forall x ensures x in Reduce(sets) <==> forall k :: 0 <= k < |sets| ==> x in sets[k] {
        if forall k :: 0 <= k < |prev| ==> x in prev[k] {
          assert forall k :: 0 <= k < |prev| ==> x in sets[k];
        } else {
          var k :| 0 <= k < |prev| && x !in prev[k];
          assert x !in sets[k];
        }
      }
    }
  }

  /** `term_sets` after the loop of tfidf.py:114-117 over the query words. */
  function TermSets(words: seq<string>, idx: Index): seq<seq<DocId>> {
    if words == [] then []
    else
      var prev := TermSets(words[..|words| - 1], idx);
      var term := words[|words| - 1];
      if term in idx then prev + [OrderedSetOf(DocIds(idx[term]))] else prev
  }

  /** The query words that are keys of the index. */
  predicate AnyPresent(words: seq<string>, idx: Index) {
    exists k :: 0 <= k < |words| && words[k] in idx
  }

  /** id is in the postings of every query word the index has. */
  predicate MatchesAll(id: DocId, words: seq<string>, idx: Index) {
    forall k :: 0 <= k < |words| && words[k] in idx ==> id in DocIds(idx[words[k]])
  }

  /** The ids tfidf.py:119-126 looks up, for the split query words. */
  function SearchWords(words: seq<string>, idx: Index): seq<DocId> {
    var sets := TermSets(words, idx);
    if sets == [] then [] else Reduce(sets)
  }

  /** The ids `search(query, idx)` looks up, in the order they are looked up. */
  function SearchSpec(query: string, idx: Index): seq<DocId> {
    SearchWords(Split(query), idx)
  }

  /**
   * There is a set for each query word the index has, each without repetitions, and a
   * document is in all of them exactly when it is in the postings of every such word.
   */
  lemma {:induction false} TermSetsMembers(words: seq<string>, idx: Index)
    ensures TermSets(words, idx) == [] <==> !AnyPresent(words, idx)
    ensures forall k :: 0 <= k < |TermSets(words, idx)| ==> NoDup(TermSets(words, idx)[k])
    ensures forall id :: MatchesAll(id, words, idx) <==>
      forall k :: 0 <= k < |TermSets(words, idx)| ==> id in TermSets(words, idx)[k]
  {
    if words != [] {
      var prev := words[..|words| - 1];
      var term := words[|words| - 1];
      TermSetsMembers(prev, idx);
      var sets := TermSets(prev, idx);
      assert forall k :: 0 <= k < |prev| ==> prev[k] == words[k];
      if AnyPresent(prev, idx) {
        var k :| 0 <= k < |prev| && prev[k] in idx;
        assert words[k] in idx;
      }
      forall id ensures MatchesAll(id, words, idx) <==>
        forall k :: 0 <= k < |TermSets(words, idx)| ==> id in TermSets(words, idx)[k]
      {
        if MatchesAll(id, words, idx) {
          assert MatchesAll(id, prev, idx);
        } else if MatchesAll(id, prev, idx) {
          assert term in idx && id !in DocIds(idx[term]);
          assert TermSets(words, idx)[|sets|] == OrderedSetOf(DocIds(idx[term]));
        } else {
          var k :| 0 <= k < |sets| && id !in sets[k];
          assert TermSets(words, idx)[k] == sets[k];
        }
      }
    }
  }

  /** A query word the index does not have changes nothing. */
  lemma SkipsMissingTerm(words: seq<string>, term: string, idx: Index)
    requires term !in idx
    ensures SearchWords(words + [term], idx) == SearchWords(words, idx)
  {
    assert (words + [term])[..|words|] == words;
  }

  /**
   * tfidf.py:111-120: the ids whose documents `search` goes on to look up with
   * `find_by_id`, in the order it looks them up.
   */
  method Search(query: string, idx: Index) returns (ids: seq<DocId>)
    ensures ids == SearchSpec(query, idx)
    ensures NoDup(ids)
    ensures !AnyPresent(Split(query), idx) ==> ids == []
    ensures AnyPresent(Split(query), idx) ==>
      forall id :: id in ids <==> MatchesAll(id, Split(query), idx)
  {
    var queryTerms := Split(query);
    var termSets: seq<seq<DocId>> := [];
    for i := 0 to |queryTerms|
      invariant termSets == TermSets(queryTerms[..i], idx)
    {
      assert queryTerms[..i + 1][..i] == queryTerms[..i];
      var term := queryTerms[i];
      if term in idx {
        var docs := OrderedSetOf(DocIds(idx[term]));
        termSets := termSets + [docs];
      }
    }
    assert queryTerms[..|queryTerms|] == queryTerms;
    if termSets != [] {
      var acc := termSets[0];
      for k := 1 to |termSets|
        invariant acc == Reduce(termSets[..k])
      {
        assert termSets[..k + 1][..k] == termSets[..k];
        acc := Intersect(acc, termSets[k]);
      }
      assert termSets[..|termSets|] == termSets;
      ids := acc;
    } else {
      ids := [];
    }
    TermSetsMembers(queryTerms, idx);
    if termSets != [] {
      ReduceMembers(termSets);
    }
  }

  /** A document is found exactly when some query word is indexed and it is listed for every indexed query word. */
  lemma SearchWordsMembers(words: seq<string>, idx: Index, id: DocId)
    ensures id in SearchWords(words, idx) <==> AnyPresent(words, idx) && MatchesAll(id, words, idx)
    ensures NoDup(SearchWords(words, idx))
  {
    TermSetsMembers(words, idx);
    if TermSets(words, idx) != [] {
      ReduceMembers(TermSets(words, idx));
    }
  }

  /** Some document's counts contain t. */
  ghost predicate Counted(docs: seq<Document>, t: Term) {
    exists id :: Has(Table(docs).entries, id, t)
  }

  /**
   * Over the index of a corpus, a search finds a document exactly when some query word
   * occurs in the corpus and the document's counts contain every query word that does.
   */
  lemma SearchFinds(docs: seq<Document>, ln: real -> real, query: string, id: DocId)
    ensures id in SearchSpec(query, IndexFor(docs, ln)) <==>
      && (exists k :: 0 <= k < |Split(query)| && Counted(docs, Split(query)[k]))
      && (forall k :: 0 <= k < |Split(query)| && Counted(docs, Split(query)[k]) ==>
            Has(Table(docs).entries, id, Split(query)[k]))
  {
    var idx := IndexFor(docs, ln);
    var words := Split(query);
    SearchWordsMembers(words, idx, id);
    forall k | 0 <= k < |words|
      ensures words[k] in idx <==> Counted(docs, words[k])
      ensures words[k] in idx ==> (id in DocIds(idx[words[k]]) <==> Has(Table(docs).entries, id, words[k]))
    {
      IndexedWordKey(docs, ln, words[k]);
      if words[k] in idx {
        IndexedWordPostings(docs, ln, words[k], id);
      }
    }
    MatchTransfer(docs, words, idx, id);
  }

  /** Restates AnyPresent and MatchesAll over an index whose keys and postings follow the corpus. */
  lemma MatchTransfer(docs: seq<Document>, words: seq<string>, idx: Index, id: DocId)
    requires forall k :: 0 <= k < |words| ==> (words[k] in idx <==> Counted(docs, words[k]))
    requires forall k :: 0 <= k < |words| && words[k] in idx ==>
      (id in DocIds(idx[words[k]]) <==> Has(Table(docs).entries, id, words[k]))
    ensures AnyPresent(words, idx) <==> exists k :: 0 <= k < |words| && Counted(docs, words[k])
    ensures MatchesAll(id, words, idx) <==>
      forall k :: 0 <= k < |words| && Counted(docs, words[k]) ==> Has(Table(docs).entries, id, words[k])
  {
  }

  /** A word is a key of the index exactly when the corpus counts it. */
  lemma IndexedWordKey(docs: seq<Document>, ln: real -> real, w: string)
    ensures w in IndexFor(docs, ln) <==> Counted(docs, w)
  {
    IndexKeys(docs, ln, w);
    if w in IndexFor(docs, ln) {
      var d :| Has(Table(docs).entries, d, w);
    }
    if Counted(docs, w) {
      var d :| Has(Table(docs).entries, d, w);
    }
  }

  /** The postings of an indexed word list exactly the documents whose counts contain it. */
  lemma IndexedWordPostings(docs: seq<Document>, ln: real -> real, w: string, id: DocId)
    ensures w in IndexFor(docs, ln) ==>
      (id in DocIds(IndexFor(docs, ln)[w]) <==> Has(Table(docs).entries, id, w))
  {
    PostingsContent(docs, ln, w);
  }

  /**
   * Query words are not normalised: a word with an upper-case letter is never a key of
   * the index, so it is skipped like any other missing word.
   */
  lemma UpperCaseWordSkipped(docs: seq<Document>, ln: real -> real, words: seq<string>, w: string, i: nat)
    requires i < |w| && IsUpper(w[i])
    ensures SearchWords(words + [w], IndexFor(docs, ln)) == SearchWords(words, IndexFor(docs, ln))
  {
    if w in IndexFor(docs, ln) {
      IndexTermsWellFormed(docs, ln, w);
      assert false;
    }
    SkipsMissingTerm(words, w, IndexFor(docs, ln));
  }
}
