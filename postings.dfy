/**
 * Postings entries `(tfidf, doc_id)` (tfidf.py:103) and the ordering tfidf.py:106 puts
 * them in: `sorted(..., key=lambda x: x[0], reverse=True)`, a stable sort on the weight
 * alone, descending, so entries of equal weight keep the order they were appended in.
 */
module Postings {
  import opened OrderedDict
  import opened Frequencies

  datatype Posting = Posting(weight: real, docId: DocId)

  /** The document ids of a postings list, in order (`x[1] for x in idx[term]`). */
  function DocIds(ps: seq<Posting>): (ids: seq<DocId>)
    ensures |ids| == |ps|
    ensures forall k :: 0 <= k < |ps| ==> ids[k] == ps[k].docId
  {
    seq(|ps|, k requires 0 <= k < |ps| => ps[k].docId)
  }

  /** Weights never increase along the list. */
  predicate NonIncreasing(ps: seq<Posting>) {
    forall i, j :: 0 <= i < j < |ps| ==> ps[i].weight >= ps[j].weight
  }

  /** The entries of weight w, in their order in ps. */
  function WithWeight(ps: seq<Posting>, w: real): seq<Posting> {
    if ps == [] then []
    else (if ps[0].weight == w then [ps[0]] else []) + WithWeight(ps[1..], w)
  }

  /** Puts p in front of the first entry whose weight is not larger than p's. */
  function Insert(p: Posting, ps: seq<Posting>): (r: seq<Posting>)
    ensures multiset(r) == multiset(ps) + multiset{p}
    ensures NonIncreasing(ps) ==> NonIncreasing(r)
  {
    if ps == [] || ps[0].weight <= p.weight then [p] + ps
    else
      var rest := Insert(p, ps[1..]);
      assert ps == [ps[0]] + ps[1..];
      InsertBelow(ps[0], p, ps[1..], rest);
      [ps[0]] + rest
  }

  /** Helper for Insert: a head heavier than everything inserted below it stays in front. */
  lemma InsertBelow(head: Posting, p: Posting, tail: seq<Posting>, rest: seq<Posting>)
    requires head.weight > p.weight
    requires multiset(rest) == multiset(tail) + multiset{p}
    requires NonIncreasing([head] + tail) ==> NonIncreasing(rest)
    ensures NonIncreasing([head] + tail) ==> NonIncreasing([head] + rest)
  {
    if NonIncreasing([head] + tail) {
      forall q | q in rest ensures head.weight >= q.weight {
        assert q in multiset(rest);
        if q != p {
          assert q in multiset(tail);
          var k :| 0 <= k < |tail| && tail[k] == q;
          assert ([head] + tail)[0] == head && ([head] + tail)[k + 1] == q;
        }
      }
      forall i, j | 0 <= i < j < |[head] + rest|
        ensures ([head] + rest)[i].weight >= ([head] + rest)[j].weight
      {
        if i == 0 {
          assert ([head] + rest)[j] == rest[j - 1];
          assert rest[j - 1] in rest;
        }
      }
    }
  }

  /** `sorted(ps, key=weight, reverse=True)`, written as an insertion sort. */
  function SortDesc(ps: seq<Posting>): (r: seq<Posting>)
    ensures multiset(r) == multiset(ps)
    ensures NonIncreasing(r)
  {
    if ps == [] then []
    else
      assert ps == [ps[0]] + ps[1..];
      Insert(ps[0], SortDesc(ps[1..]))
  }

  lemma {:induction false} InsertStable(p: Posting, ps: seq<Posting>, w: real)
    requires NonIncreasing(ps)
    ensures WithWeight(Insert(p, ps), w) == WithWeight([p] + ps, w)
  {
    if ps != [] && ps[0].weight > p.weight {
      InsertStable(p, ps[1..], w);
      var rest := Insert(p, ps[1..]);
      assert ([ps[0]] + rest)[1..] == rest;
      assert ([p] + ps[1..])[1..] == ps[1..];
      assert ([p] + ps)[1..] == ps;
      assert ps[1..] == ps[1..];
    }
  }

  /**
   * The sort is stable: for every weight, the entries of that weight appear in the
   * same relative order before and after sorting.
   */
  lemma {:induction false} SortDescStable(ps: seq<Posting>, w: real)
    ensures WithWeight(SortDesc(ps), w) == WithWeight(ps, w)
  {
    if ps != [] {
      SortDescStable(ps[1..], w);
      InsertStable(ps[0], SortDesc(ps[1..]), w);
      assert ([ps[0]] + SortDesc(ps[1..]))[1..] == SortDesc(ps[1..]);
    }
  }

  /** Inserting adds exactly the inserted entry's id. */
  lemma {:induction false} InsertDocIds(p: Posting, ps: seq<Posting>)
    ensures forall id :: id in DocIds(Insert(p, ps)) <==> id == p.docId || id in DocIds(ps)
    ensures NoDup(DocIds(ps)) && p.docId !in DocIds(ps) ==> NoDup(DocIds(Insert(p, ps)))
  {
    if ps != [] && ps[0].weight > p.weight {
      InsertDocIds(p, ps[1..]);
      var rest := Insert(p, ps[1..]);
      assert DocIds([ps[0]] + rest) == [ps[0].docId] + DocIds(rest);
      assert DocIds(ps) == [ps[0].docId] + DocIds(ps[1..]);
      if NoDup(DocIds(ps)) && p.docId !in DocIds(ps) {
        NoDupCons(ps[0].docId, DocIds(ps[1..]));
        NoDupCons(ps[0].docId, DocIds(rest));
      }
    } else {
      assert DocIds([p] + ps) == [p.docId] + DocIds(ps);
      NoDupCons(p.docId, DocIds(ps));
    }
  }

  /** Sorting neither adds nor loses a document id, and keeps ids distinct. */
  lemma {:induction false} SortDescKeepsDocIds(ps: seq<Posting>)
    ensures forall id :: id in DocIds(SortDesc(ps)) <==> id in DocIds(ps)
    ensures NoDup(DocIds(ps)) ==> NoDup(DocIds(SortDesc(ps)))
  {
    if ps != [] {
      SortDescKeepsDocIds(ps[1..]);
      InsertDocIds(ps[0], SortDesc(ps[1..]));
      assert DocIds(ps) == [ps[0].docId] + DocIds(ps[1..]);
    }
  }

  /** Equal weights keep their order: "a" stays ahead of "c" behind the heavier "b". */
  lemma SortDescTieExample()
    ensures SortDesc([Posting(1.0, "a"), Posting(2.0, "b"), Posting(1.0, "c")])
      == [Posting(2.0, "b"), Posting(1.0, "a"), Posting(1.0, "c")]
  {
  }
}
