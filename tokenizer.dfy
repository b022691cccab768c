/**
 * The tokenizer that the term-frequency loop of tfidf.py applies inline to every
 * whitespace-separated word of a document body: lowercase, strip trailing
 * punctuation, and if anything is left strip leading punctuation and drop one
 * trailing possessive "'s".
 */
module Tokenizer {
  import opened Wrappers

  type Term = string

  /** The characters Python's str.isspace() accepts, which str.split() separates on. */
  predicate IsSpace(c: char) {
    var k := c as int;
    (9 <= k <= 13) || (28 <= k <= 32) || k == 0x85 || k == 0xA0 || k == 0x1680
    || (0x2000 <= k <= 0x200A) || k == 0x2028 || k == 0x2029 || k == 0x202F
    || k == 0x205F || k == 0x3000
  }

  /** The 32 characters of Python's string.punctuation. */
  predicate IsPunct(c: char) {
    ('!' <= c <= '/') || (':' <= c <= '@') || ('[' <= c <= '`') || ('{' <= c <= '~')
  }

  predicate IsUpper(c: char) {
    'A' <= c <= 'Z'
  }

  function LowerChar(c: char): char {
    if IsUpper(c) then (c as int + 32) as char else c
  }

  /** str.lower(), restricted to the ASCII letters. */
  function Lower(s: string): (r: string)
    ensures |r| == |s|
    ensures forall i :: 0 <= i < |r| ==> !IsUpper(r[i])
    ensures forall i :: 0 <= i < |r| ==> IsPunct(r[i]) == IsPunct(s[i])
    ensures forall i :: 0 <= i < |r| && !IsUpper(s[i]) ==> r[i] == s[i]
    ensures forall i :: 0 <= i < |r| && IsUpper(s[i]) ==>
      'a' <= r[i] <= 'z' && r[i] as int - 'a' as int == s[i] as int - 'A' as int
  {
    seq(|s|, i requires 0 <= i < |s| => LowerChar(s[i]))
  }

  /** Length of the leading run of non-separator characters of s. */
  function WordLen(s: string): (n: nat)
    ensures n <= |s|
    ensures forall i :: 0 <= i < n ==> !IsSpace(s[i])
    ensures n < |s| ==> IsSpace(s[n])
  {
    if s == [] || IsSpace(s[0]) then 0 else 1 + WordLen(s[1..])
  }

  /** str.split() with no argument: the maximal runs of non-separator characters. */
  function Split(s: string): seq<string>
    decreases |s|
  {
    if s == [] then []
    else if IsSpace(s[0]) then Split(s[1..])
    else
      var n := WordLen(s);
      [s[..n]] + Split(s[n..])
  }

  /** A word of the split is a non-empty run without separators. */
  predicate IsWord(w: string) {
    w != [] && forall i :: 0 <= i < |w| ==> !IsSpace(w[i])
  }

  lemma {:induction false} SplitYieldsWords(s: string)
    ensures forall k :: 0 <= k < |Split(s)| ==> IsWord(Split(s)[k])
    decreases |s|
  {
    if s != [] {
      if IsSpace(s[0]) {
        SplitYieldsWords(s[1..]);
      } else {
        var n := WordLen(s);
        SplitYieldsWords(s[n..]);
        assert IsWord(s[..n]);
      }
    }
  }

  /** A run without separators is split into itself alone. */
  lemma SplitWord(w: string)
    requires IsWord(w)
    ensures Split(w) == [w]
  {
    assert WordLen(w) == |w|;
    assert w[..|w|] == w && w[|w|..] == [];
  }

  /** The leading run of a text does not reach past a separator that follows it. */
  lemma WordLenBeforeSpace(a: string, rest: string)
    requires rest != [] && IsSpace(rest[0])
    ensures WordLen(a + rest) == WordLen(a)
  {
    var s := a + rest;
    assert forall i :: 0 <= i < |a| ==> s[i] == a[i];
    assert s[|a|] == rest[0];
  }

  /**
   * A separator always ends a word: splitting around one splits the text on each side
   * of it separately, so no word spans a separator and none is cut anywhere else.
   */
  lemma {:induction false} SplitAtSpace(a: string, c: char, b: string)
    requires IsSpace(c)
    ensures Split(a + [c] + b) == Split(a) + Split(b)
    decreases |a|
  {
    var s := a + [c] + b;
    assert s == a + ([c] + b);
    if a == [] {
      assert s[1..] == b;
    } else if IsSpace(a[0]) {
      assert s[0] == a[0] && s[1..] == a[1..] + [c] + b;
      SplitAtSpace(a[1..], c, b);
    } else {
      var m := WordLen(a);
      WordLenBeforeSpace(a, [c] + b);
      assert s[..m] == a[..m] && s[m..] == a[m..] + [c] + b;
      SplitAtSpace(a[m..], c, b);
    }
  }

  /** The characters of s that are not separators, in order. */
  function NonSpace(s: string): string {
    if s == [] then [] else (if IsSpace(s[0]) then [] else [s[0]]) + NonSpace(s[1..])
  }

  function Concat(words: seq<string>): string {
    if words == [] then [] else words[0] + Concat(words[1..])
  }

  lemma {:induction false} NonSpaceOfWord(s: string, n: nat)
    requires n <= |s|
    requires forall i :: 0 <= i < n ==> !IsSpace(s[i])
    ensures NonSpace(s) == s[..n] + NonSpace(s[n..])
    decreases n
  {
    if n > 0 {
      NonSpaceOfWord(s[1..], n - 1);
      assert s[1..][n - 1..] == s[n..];
      assert s[..n] == [s[0]] + s[1..][..n - 1];
    }
  }

  /** Splitting loses exactly the separators: the words put back together are the text without them. */
  lemma {:induction false} SplitLosesOnlySpaces(s: string)
    ensures Concat(Split(s)) == NonSpace(s)
    decreases |s|
  {
    if s == [] {
    } else if IsSpace(s[0]) {
      SplitLosesOnlySpaces(s[1..]);
    } else {
      var n := WordLen(s);
      SplitLosesOnlySpaces(s[n..]);
      NonSpaceOfWord(s, n);
      var words := [s[..n]] + Split(s[n..]);
      assert words[0] == s[..n] && words[1..] == Split(s[n..]);
    }
  }

  /** tfidf.py:65-66: drop trailing punctuation one character at a time. */
  function TrimEnd(w: string): (r: string)
    ensures r <= w
    ensures r != [] ==> !IsPunct(r[|r| - 1])
    ensures forall i :: |r| <= i < |w| ==> IsPunct(w[i])
    decreases |w|
  {
    if w != [] && IsPunct(w[|w| - 1]) then TrimEnd(w[..|w| - 1]) else w
  }

  /** tfidf.py:69-70: drop leading punctuation one character at a time. */
  function TrimStart(w: string): (r: string)
    ensures |r| <= |w| && r == w[|w| - |r|..]
    ensures r != [] ==> !IsPunct(r[0])
    ensures forall i :: 0 <= i < |w| - |r| ==> IsPunct(w[i])
    decreases |w|
  {
    if w != [] && IsPunct(w[0]) then TrimStart(w[1..]) else w
  }

  /** word[-2:] == "'s" in Python: slicing a shorter word yields the word itself. */
  predicate EndsPossessive(w: string) {
    |w| >= 2 && w[|w| - 2..] == "'s"
  }

  /** tfidf.py:72-73: remove one trailing "'s". */
  function DropPossessive(w: string): (r: string)
    ensures EndsPossessive(w) ==> r + "'s" == w
    ensures !EndsPossessive(w) ==> r == w
  {
    if EndsPossessive(w) then w[..|w| - 2] else w
  }

  /** The word after both punctuation loops, before the possessive step. */
  function Core(token: string): string {
    TrimStart(TrimEnd(Lower(token)))
  }

  /**
   * What tfidf.py:64-73 makes of one whitespace-separated word: None when the
   * `if word:` test fails, otherwise the term that is counted.
   */
  function NormalizedTerm(token: string): Option<Term> {
    var w := TrimEnd(Lower(token));
    if w == [] then None else Some(DropPossessive(TrimStart(w)))
  }

  /** The loops of tfidf.py:64-73 for one word. */
  method NormalizeToken(token: string) returns (term: Option<Term>)
    ensures term == NormalizedTerm(token)
  {
    var word := Lower(token);
    while word != [] && IsPunct(word[|word| - 1])
      invariant TrimEnd(word) == TrimEnd(Lower(token))
      decreases |word|
    {
      word := word[..|word| - 1];
    }
    if word != [] {
      while word != [] && IsPunct(word[0])
        invariant TrimStart(word) == Core(token)
        decreases |word|
      {
        word := word[1..];
      }
      if |word| >= 2 && word[|word| - 2..] == "'s" {
        word := word[..|word| - 2];
      }
      term := Some(word);
    } else {
      term := None;
    }
  }

  /** Core is a slice of the lowered word, so it has no upper-case letter either. */
  lemma CoreIsLower(token: string)
    ensures forall i :: 0 <= i < |Core(token)| ==> !IsUpper(Core(token)[i])
  {
    var l := Lower(token);
    var w := TrimEnd(l);
    var core := TrimStart(w);
    forall i | 0 <= i < |core| ensures !IsUpper(core[i]) {
      assert core[i] == w[|w| - |core| + i];
      assert w[|w| - |core| + i] == l[|w| - |core| + i];
    }
  }

  /** When anything survives the trailing strip, Core is non-empty and bounded by non-punctuation. */
  lemma CoreShape(token: string)
    requires TrimEnd(Lower(token)) != []
    ensures var core := Core(token);
      core != [] && !IsPunct(core[0]) && !IsPunct(core[|core| - 1])
  {
    var w := TrimEnd(Lower(token));
    var core := TrimStart(w);
    assert !IsPunct(w[|w| - 1]);
    assert core != [];
    assert core[|core| - 1] == w[|w| - 1];
  }

  /** Dropping the possessive keeps a prefix that still starts with the same character. */
  lemma DropPossessiveKeepsHead(core: string)
    requires core != [] && !IsPunct(core[0])
    ensures var t := DropPossessive(core);
      t != [] && t[0] == core[0] && forall i :: 0 <= i < |t| ==> t[i] == core[i]
  {
    if EndsPossessive(core) {
      assert core[|core| - 2] == '\'';
      assert core[0] != '\'';
    }
  }

  /**
   * Shape of every counted term: non-empty, no upper-case letter, first character not
   * punctuation; the word before the possessive step ends in a non-punctuation character,
   * and at most one "'s" is removed from it.
   */
  lemma NormalizedTermShape(token: string)
    requires NormalizedTerm(token).Some?
    ensures var t, core := NormalizedTerm(token).value, Core(token);
      && core != [] && !IsPunct(core[0]) && !IsPunct(core[|core| - 1])
      && (t == core || t + "'s" == core)
      && t != [] && !IsPunct(t[0])
      && forall i :: 0 <= i < |t| ==> !IsUpper(t[i])
  {
    CoreShape(token);
    CoreIsLower(token);
    DropPossessiveKeepsHead(Core(token));
  }

  /** "Dog's!" loses its exclamation mark, its capital and its possessive. */
  lemma PossessiveExample()
    ensures NormalizedTerm("Dog's!") == Some("dog")
  {
    var l := Lower("Dog's!");
    assert l[0] == 'd' && l[1] == 'o' && l[2] == 'g' && l[3] == '\'' && l[4] == 's' && l[5] == '!';
    assert l == "dog's!";
    assert TrimEnd("dog's!") == TrimEnd("dog's") == "dog's";
    assert TrimStart("dog's") == "dog's";
    assert EndsPossessive("dog's") && "dog's"[..3] == "dog";
  }

  /** A word vanishes exactly when every one of its characters is punctuation. */
  lemma PunctuationOnlyVanishes(token: string)
    ensures NormalizedTerm(token).None? <==> forall i :: 0 <= i < |token| ==> IsPunct(token[i])
  {
    var l := Lower(token);
    if TrimEnd(l) == [] {
      assert forall i :: 0 <= i < |token| ==> IsPunct(l[i]);
    } else {
      var w := TrimEnd(l);
      assert !IsPunct(l[|w| - 1]);
    }
  }

  /** The counted terms of a sequence of words, in order (the `if word:` branch of tfidf.py:68). */
  function TermsOf(words: seq<string>): seq<Term> {
    if words == [] then []
    else
      var prev := TermsOf(words[..|words| - 1]);
      match NormalizedTerm(words[|words| - 1])
      case None => prev
      case Some(t) => prev + [t]
  }

  /** The shape every counted term has: non-empty, no upper-case letter, no leading punctuation. */
  predicate WellFormed(t: Term) {
    t != [] && !IsPunct(t[0]) && forall i :: 0 <= i < |t| ==> !IsUpper(t[i])
  }

  /** Every counted term of a sequence of words is well formed, and each word yields at most one. */
  lemma {:induction false} TermsOfShape(words: seq<string>)
    ensures |TermsOf(words)| <= |words|
    ensures forall k :: 0 <= k < |TermsOf(words)| ==> WellFormed(TermsOf(words)[k])
  {
    if words != [] {
      var prev := words[..|words| - 1];
      var last := words[|words| - 1];
      TermsOfShape(prev);
      if NormalizedTerm(last).Some? {
        NormalizedTermShape(last);
        var ts := TermsOf(prev);
        assert TermsOf(words) == ts + [NormalizedTerm(last).value];
      }
    }
  }

  /** The terms counted for a document body. */
  function Tokens(body: string): seq<Term> {
    TermsOf(Split(body))
  }
}
