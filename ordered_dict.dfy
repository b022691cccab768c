/**
 * A Python dict as the source uses it: a map together with the order in which its keys
 * were first inserted (the order `dict.items()` and `dict.values()` iterate in).
 */
module OrderedDict {

  /** No element is listed twice. */
  predicate NoDup<T(==)>(s: seq<T>) {
    forall i, j :: 0 <= i < j < |s| ==> s[i] != s[j]
  }

  /** A list with a new head repeats nothing exactly when the head is new and the tail repeats nothing. */
  lemma NoDupCons<T>(x: T, s: seq<T>)
    ensures NoDup([x] + s) <==> x !in s && NoDup(s)
  {
    if NoDup([x] + s) {
      forall k | 0 <= k < |s| ensures s[k] != x {
        assert ([x] + s)[0] == x && ([x] + s)[k + 1] == s[k];
      }
      forall i, j | 0 <= i < j < |s| ensures s[i] != s[j] {
        assert ([x] + s)[i + 1] == s[i] && ([x] + s)[j + 1] == s[j];
      }
    }
  }

  /** Appending an element not yet listed keeps a list free of repetition. */
  lemma NoDupSnoc<T>(s: seq<T>, x: T)
    requires NoDup(s) && x !in s
    ensures NoDup(s + [x])
  {
  }

  datatype Dict<K(!new), V> = Dict(keys: seq<K>, entries: map<K, V>) {

    /** Keys are listed once each, and exactly the keys of the map are listed. */
    ghost predicate Valid() {
      && NoDup(keys)
      && (forall k :: k in entries <==> k in keys)
    }

    /**
     * `d[k] = v`: a new key goes to the end of the iteration order, an existing key
     * keeps its place and only its value is replaced.
     */
    function Put(k: K, v: V): (d: Dict<K, V>)
      requires Valid()
      ensures d.Valid()
      ensures d.entries == entries[k := v]
      ensures k in entries ==> d.keys == keys
      ensures k !in entries ==> d.keys == keys + [k]
    {
      if k in entries then Dict(keys, entries[k := v]) else Dict(keys + [k], entries[k := v])
    }
  }

  /** `{}` */
  function Empty<K(!new), V>(): (d: Dict<K, V>)
    ensures d.Valid() && d.keys == [] && d.entries == map[]
  {
    Dict([], map[])
  }
}
