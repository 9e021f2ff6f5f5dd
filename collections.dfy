/** Facts about sequence slices and map updates, proved once so that callers need not redo them. */
module Collections {
  /** The elements up to and including the `i`th are those before it and then it. */
  lemma PrefixSnoc<T>(xs: seq<T>, i: nat)
    requires i < |xs|
    ensures xs[..i + 1] == xs[..i] + [xs[i]]
  {
  }

  /** Appending one element and cutting it off again gives back the sequence. */
  lemma SnocParts<T>(xs: seq<T>, x: T)
    ensures (xs + [x])[..|xs|] == xs && (xs + [x])[|xs|] == x
  {
  }

  /** A non-empty sequence is its front followed by its last element. */
  lemma FrontLast<T>(xs: seq<T>)
    requires xs != []
    ensures xs == xs[..|xs| - 1] + [xs[|xs| - 1]]
  {
  }

  /** An index into the first part of a concatenation. */
  lemma AppendAt<T>(a: seq<T>, b: seq<T>, i: nat)
    requires i < |a|
    ensures (a + b)[i] == a[i]
  {
  }

  /** The first element, then the rest of `a` and two more parts, is `a` and those parts. */
  lemma ConsAppend<T>(a: seq<T>, m: seq<T>, n: seq<T>)
    requires a != []
    ensures [a[0]] + (a[1..] + m + n) == a + m + n
  {
  }

  /** Setting a key adds it to the keys and adds no other. */
  lemma UpdateKeys<K, V>(m: map<K, V>, k: K, v: V)
    ensures m[k := v].Keys == m.Keys + {k}
  {
  }
}
