# tfidf.py core: tokenizer, term counts, TF-IDF index, conjunctive search

This project models the indexing and query core of `tfidf.py` in Dafny and proves what
it computes.

- **Tokenizer** (`tokenizer.dfy`): the loop inside `_build_term_frequencies`. It splits a
  body on whitespace, lowercases each word and strips trailing punctuation. If anything is
  left, it strips leading punctuation and drops one trailing `'s`. `NormalizeToken` is the
  loop; `NormalizedTerm` is the function it is proved equal to.
- **Term frequencies** (`frequencies.dfy`, `ordered_dict.dfy`): one counts map per
  document id, kept in a Python-style insertion-ordered dict, and the number of documents
  enumerated.
- **Index** (`postings.dfy`, `index.dfy`): document frequencies, the weight
  `freq * ln(N / (1 + df))`, one postings list per term in document order, then each list
  stably sorted by weight, descending.
- **Search** (`search.dfy`): the whitespace-split query, skipping words the index lacks.
  Each remaining word gives an ordered set of the ids in its postings list, and the sets
  are intersected with a left fold.

Each imperative routine is a method with loops. Its `ensures` ties the result to a
specification function: `CountTerms`, `BuildTermFrequencies`, `DocumentFrequencies`,
`BuildPostings`, `SortPostings`, `BuildIndex` and `Search`. The properties are proved as
lemmas about those functions.

Documents are given as a sequence of `(id, title, body)` values, standing in for what the
corpus parser yields. The natural logarithm is a parameter `ln: real -> real`, and weights
are `real`. `Search` returns the ids whose documents the source would go on to fetch.

The model follows what the code does, not an idealised search engine:

- The query is not lowercased or stripped of punctuation. A query word with an upper-case
  letter never matches (`UpperCaseWordSkipped`).
- A query word missing from the index is skipped. It does not empty the result
  (`SkipsMissingTerm`).
- Entries of equal weight keep their insertion order: the order of the `terms` dict's
  keys, where a repeated document id keeps the position of its first enumeration. There
  is no tie-break by document id (`SortDescStable`).
- No documents give an empty index rather than an error (`EmptyCorpus`).

## Model

| member | source | states |
|---|---|---|
| Tokenizer.Lower | tfidf.py:64 | lowercasing keeps the length, maps each letter `A`-`Z` to the same letter `a`-`z`, leaves every other character unchanged, and so leaves no upper-case letter and keeps which characters are punctuation |
| Tokenizer.Split | tfidf.py:64 | `str.split()` with no argument, used on bodies and on the query (tfidf.py:112); its words are non-empty runs free of whitespace (SplitYieldsWords), a run is one word (SplitWord), a separator always ends a word (SplitAtSpace), and only separators are lost (SplitLosesOnlySpaces) |
| Tokenizer.SplitYieldsWords | tfidf.py:64 | every word of `str.split()` is non-empty and contains no whitespace |
| Tokenizer.SplitLosesOnlySpaces | tfidf.py:64 | the split words put back together are the body with exactly its whitespace removed; with SplitWord and SplitAtSpace this fixes the words as the maximal runs of non-separator characters |
| Tokenizer.SplitWord | tfidf.py:64 | a non-empty run without separators splits into itself alone |
| Tokenizer.SplitAtSpace | tfidf.py:64 | splitting text around a separator gives the words before it followed by the words after it |
| Tokenizer.TrimEnd | tfidf.py:65-66 | the result is a prefix that does not end in punctuation, and everything removed was punctuation |
| Tokenizer.TrimStart | tfidf.py:69-70 | the result is a suffix that does not start with punctuation, and everything removed was punctuation |
| Tokenizer.DropPossessive | tfidf.py:72-73 | one trailing `'s` is removed when present; otherwise the word is unchanged |
| Tokenizer.NormalizeToken | tfidf.py:64-73 | the two stripping loops and the possessive step compute `NormalizedTerm` |
| Tokenizer.NormalizedTermShape | tfidf.py:64-73 | a counted term is non-empty, has no upper-case letter and does not start with punctuation; before the possessive step it ends in a non-punctuation character, and at most one `'s` is removed |
| Tokenizer.PunctuationOnlyVanishes | tfidf.py:65-68 | a word yields no term if and only if every character of it is punctuation |
| Tokenizer.PossessiveExample | tfidf.py:64-73 | `Dog's!` is counted as `dog` |
| Tokenizer.TermsOfShape | tfidf.py:64-73 | each word yields at most one term, and every term of a body is well formed |
| OrderedDict.Empty | tfidf.py:52 | a new dict has no keys |
| OrderedDict.Dict.Put | tfidf.py:61 | assigning a key keeps the dict consistent; a new key goes last, and an existing key keeps its place and gets the new value |
| Frequencies.Occurrences | tfidf.py:75-78 | a term's occurrence count is at most the number of terms, and positive exactly when the term occurs |
| Frequencies.CountsOf | tfidf.py:75-78 | the counts map has a key for exactly the terms that occur, each mapped to its number of occurrences |
| Frequencies.CountsSum | tfidf.py:75-78 | every count is at least 1, and the counts add up to the number of terms that survive the tokenizer |
| Frequencies.CountTerms | tfidf.py:64-78 | the counting loop over one body computes the counts of its tokens |
| Frequencies.Table | tfidf.py:58-62 | the dict built over the documents stays consistent and has at most one key per document |
| Frequencies.Ids | tfidf.py:58 | the set of document ids holds exactly the ids of the enumerated documents |
| Frequencies.TableKeys | tfidf.py:58-61 | the dict has an entry for exactly the ids of the enumerated documents |
| Frequencies.TableEntry | tfidf.py:58-78 | a document id's entry is the counts of the last document with that id; a document with no surviving tokens has the empty map |
| Frequencies.BuildTermFrequencies | tfidf.py:51-79 | the loop builds that dict, and `num_articles` equals the number of documents enumerated |
| Postings.DocIds | tfidf.py:116 | the ids of a postings list are its entries' ids, in order |
| Postings.Insert | tfidf.py:106 | inserting adds exactly one entry and keeps a non-increasing list non-increasing |
| Postings.SortDesc | tfidf.py:106 | the sorted list is a permutation of its input, with weights that never increase |
| Postings.SortDescStable | tfidf.py:106 | for every weight, the entries of that weight keep their relative order through the sort |
| Postings.SortDescKeepsDocIds | tfidf.py:106 | sorting neither adds nor loses an id, and keeps ids distinct |
| Postings.SortDescTieExample | tfidf.py:106 | two entries of equal weight stay in insertion order behind a heavier one |
| IndexBuilder.TermsInMembers | tfidf.py:94-101 | a term belongs to the listed documents' terms exactly when one of their counts contains it |
| IndexBuilder.Idf | tfidf.py:97 | `ln(N / (1 + df))`, one value per term; PostingsContent proves every entry of a list uses the idf of its term |
| IndexBuilder.Weight | tfidf.py:98 | `freq * idf`; PostingsContent proves every entry weighs its document's count times that idf |
| IndexBuilder.DocFreq | tfidf.py:87-92 | document frequency is at most the number of documents, and positive exactly for terms that occur |
| IndexBuilder.Unsorted | tfidf.py:94-103 | a term's appended list has one entry per document containing it |
| IndexBuilder.UnsortedEntries | tfidf.py:94-103 | every appended entry is a document containing the term, weighted by its count times the shared idf; every such document is listed, once when the ids are distinct |
| IndexBuilder.DocumentFrequencies | tfidf.py:85-92 | the df dict has exactly the terms of all documents, each mapped to its number of documents |
| IndexBuilder.CountDocument | tfidf.py:87-92 | one document adds one to the document frequency of each of its terms and of no other |
| IndexBuilder.BuildPostings | tfidf.py:94-103 | the loop creates a list for exactly the terms that occur, each holding that term's appended entries in document order |
| IndexBuilder.AppendDocument | tfidf.py:95-103 | one document appends exactly one `(count * idf, id)` entry to the list of each of its terms |
| IndexBuilder.SortPostings | tfidf.py:105-106 | every list is replaced by its sorted version, with the same keys |
| IndexBuilder.BuildIndex | tfidf.py:82-108 | `build_index` computes `IndexFor`, the index of the enumerated documents |
| IndexBuilder.DocFreqCountsDocuments | tfidf.py:87-92 | over distinct ids, document frequency is the number of documents whose counts contain the term |
| IndexBuilder.IndexKeys | tfidf.py:94-103 | the index has a key for exactly the terms some document contains |
| IndexBuilder.DocFreqBounds | tfidf.py:87-103 | for every key, 1 <= df <= N, df is the number of documents containing the term, and the postings list has df entries |
| IndexBuilder.PostingsContent | tfidf.py:94-106 | every postings list names each document containing the term exactly once, and no other; each entry weighs that document's count times the one idf of the term |
| IndexBuilder.SortedEntries | tfidf.py:94-106 | over distinct ids covering the dict, the sorted list names exactly the documents containing the term, once each, each weighted by its count times the idf |
| IndexBuilder.PostingsOrder | tfidf.py:105-106 | every postings list is a permutation of the appended list, non-increasing in weight, with equal weights in document order |
| IndexBuilder.EmptyCorpus | tfidf.py:82-108 | no documents give the empty index |
| IndexBuilder.IndexTermsWellFormed | tfidf.py:64-103 | every key of the index is a well-formed term |
| QueryEngine.OrderedSetOf | tfidf.py:116 | the ordered set has no repetition and the same members as its input |
| QueryEngine.OrderedSetOfDistinct | tfidf.py:116 | the ordered set of a list without repetitions is that list itself |
| QueryEngine.Intersect | tfidf.py:120 | `a & b` holds exactly what is in both, and repeats nothing when b does not |
| QueryEngine.Reduce | tfidf.py:120 | `functools.reduce` of `&` over the term sets, a left fold; ReduceMembers proves it keeps exactly what every set holds, without repetition |
| QueryEngine.ReduceMembers | tfidf.py:120 | the reduction keeps exactly what every set holds, and repeats nothing |
| QueryEngine.TermSets | tfidf.py:113-117 | one ordered set per query word that is a key, in query order; TermSetsMembers proves what they hold |
| QueryEngine.TermSetsMembers | tfidf.py:112-117 | there is a set exactly when some query word is a key; each set is free of repetition; a document is in all sets exactly when it is listed for every query word that is a key |
| QueryEngine.SkipsMissingTerm | tfidf.py:115 | a query word that is not a key does not change the result |
| QueryEngine.SearchWordsMembers | tfidf.py:112-120 | a document is found exactly when some query word is a key and the document is listed for every query word that is a key; the result has no repetition |
| QueryEngine.Search | tfidf.py:111-126 | the loops compute `SearchSpec`; nothing is found when no query word is a key; otherwise the result is exactly the documents listed for every query word that is a key, without repetition |
| QueryEngine.SearchFinds | tfidf.py:111-120 | over the index of a corpus, a document is found exactly when some query word occurs in the corpus and the document's counts contain every query word that does |
| QueryEngine.UpperCaseWordSkipped | tfidf.py:112-115 | a query word with an upper-case letter is never a key, so it is skipped |

## Left out

- The corpus parser (`ReutersArchiveParser`, BeautifulSoup) and `find_by_id` are not
  modelled: they depend on a foreign HTML/SGML library. Documents are an input sequence,
  and `Search` returns the ids the source would fetch.
- Because of that, the parser's skipping of articles without a body is not modelled. Every
  document in the input sequence is counted.
- The hard-coded file opens in `_build_term_frequencies` and `search` are not modelled:
  they are file I/O.
- `math.log` and floating-point weights are not modelled. The logarithm is the parameter
  `ln`, weights are exact reals, and rounding is not captured.
- Tokenizer.Lower: lowercases ASCII letters only. Python's `str.lower()` also maps
  non-ASCII letters, and Unicode case mapping is outside the model.
- The result order of `OrderedSet &`: `customtypes.OrderedSet` is not part of this model.
  `Intersect` keeps the right operand's order, as the `Set.__and__` mixin does. The
  contracts state only membership and the absence of repetition.
- IndexBuilder.DocumentFrequencies: the sort and `groupby` of `(term, count)` items are
  replaced by direct per-term counting over the same items, which gives the same numbers.
- IndexBuilder.AppendDocument: visits a document's terms in an unspecified order rather
  than the dict's insertion order. Each term gets one entry per document, so the lists
  come out the same.
- `Document.__repr__` and `to_dict` are not modelled: they are presentation helpers.
- `search.py` is not modelled: it holds the interactive loop, highlighting and the HTTP
  server, and no index or query logic of its own.
