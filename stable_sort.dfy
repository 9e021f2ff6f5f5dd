/**
 * `Array.prototype.sort` with a comparator of the form
 * `(a, b) => key(a) - key(b)`, as both sorts of the source use it.
 *
 * ECMA-262 requires the sort to be stable when the comparator is
 * consistent, which it is when every key is a number; then
 * `SortByKeyUnique` shows that this sort gives the one order a stable sort
 * can give. The comparator is NaN when either key is NaN (None here), and
 * the order is then implementation-defined: engines differ, and V8's
 * TimSort may move an element past one with a NaN key. This model fixes
 * one such order, that of linear insertion from the end (each element
 * stops behind the first one that does not compare greater), which is
 * V8's insertion sort for short arrays before version 7.0. The
 * sortedness lemmas below need every key to be a number; the stability
 * lemmas hold of the chosen order.
 */
module StableSort {
  import opened Wrappers
  import Collections

  /** The comparator `key(a) - key(b)` is positive: `a` must come after `b`. */
  predicate Greater<T>(key: T -> Option<int>, a: T, b: T) {
    key(a).Some? && key(b).Some? && key(a).value > key(b).value
  }

  /** Every element has a numeric key. */
  predicate AllKeyed<T>(s: seq<T>, key: T -> Option<int>) {
    forall i :: 0 <= i < |s| ==> key(s[i]).Some?
  }

  /** No element is followed by one its comparator puts before it. */
  predicate Sorted<T>(s: seq<T>, key: T -> Option<int>) {
    forall i, j :: 0 <= i < j < |s| ==> !Greater(key, s[i], s[j])
  }

  /** Places `x` after the last element of `s` that does not compare greater than it. */
  function Insert<T>(s: seq<T>, x: T, key: T -> Option<int>): (r: seq<T>)
    ensures multiset(r) == multiset(s) + multiset{x}
  {
    if s == [] then [x]
    else if Greater(key, s[|s| - 1], x) then
      assert s == s[..|s| - 1] + [s[|s| - 1]];
      Insert(s[..|s| - 1], x, key) + [s[|s| - 1]]
    else s + [x]
  }

  /** The stable sort of `s` under the comparator `key(a) - key(b)`. */
  function SortByKey<T>(s: seq<T>, key: T -> Option<int>): (r: seq<T>)
    ensures multiset(r) == multiset(s)
  {
    if s == [] then []
    else
      assert s == s[..|s| - 1] + [s[|s| - 1]];
      Insert(SortByKey(s[..|s| - 1], key), s[|s| - 1], key)
  }

  /** The elements of `s` whose key is `k`, in their order in `s`. */
  function Ties<T>(s: seq<T>, key: T -> Option<int>, k: Option<int>): seq<T> {
    if s == [] then []
    else Ties(s[..|s| - 1], key, k) + (if key(s[|s| - 1]) == k then [s[|s| - 1]] else [])
  }

  lemma {:induction false} TiesAppend<T>(a: seq<T>, b: seq<T>, key: T -> Option<int>, k: Option<int>)
    ensures Ties(a + b, key, k) == Ties(a, key, k) + Ties(b, key, k)
    decreases |b|
  {
    if b == [] {
      assert a + b == a;
    } else {
      var b' := b[..|b| - 1];
      TiesAppend(a, b', key, k);
      assert (a + b)[..|a + b| - 1] == a + b';
    }
  }

  /** The front of a sorted sequence is sorted. */
  lemma SortedFront<T>(s: seq<T>, key: T -> Option<int>)
    requires s != [] && Sorted(s, key) && AllKeyed(s, key)
    ensures Sorted(s[..|s| - 1], key) && AllKeyed(s[..|s| - 1], key)
  {
  }

  /** A sorted sequence stays sorted when an element no earlier one compares greater than is appended. */
  lemma SortedSnoc<T>(s: seq<T>, x: T, key: T -> Option<int>)
    requires Sorted(s, key)
    requires forall i :: 0 <= i < |s| ==> !Greater(key, s[i], x)
    ensures Sorted(s + [x], key)
  {
    var r := s + [x];
    forall i, j | 0 <= i < j < |r| ensures !Greater(key, r[i], r[j]) {
      assert r[i] == s[i];
      if j < |s| { assert r[j] == s[j]; }
    }
  }

  lemma {:induction false} InsertSorted<T>(s: seq<T>, x: T, key: T -> Option<int>)
    requires Sorted(s, key) && AllKeyed(s, key) && key(x).Some?
    ensures Sorted(Insert(s, x, key), key)
  {
    if s != [] {
      var init, last := s[..|s| - 1], s[|s| - 1];
      if Greater(key, last, x) {
        SortedFront(s, key);
        InsertSorted(init, x, key);
        var r := Insert(init, x, key);
        forall i | 0 <= i < |r| ensures !Greater(key, r[i], last) {
          assert r[i] in multiset(init) + multiset{x};
          if r[i] != x {
            var j :| 0 <= j < |init| && init[j] == r[i];
            assert s[j] == r[i];
          }
        }
        SortedSnoc(r, last, key);
        assert Insert(s, x, key) == r + [last];
      } else {
        forall i | 0 <= i < |s| ensures !Greater(key, s[i], x) {
          if i < |s| - 1 { assert !Greater(key, s[i], last); }
        }
        SortedSnoc(s, x, key);
      }
    }
  }


  /** When every key is a number, the sorted sequence is non-decreasing by key. */
  lemma {:induction false} SortByKeySorted<T>(s: seq<T>, key: T -> Option<int>)
    requires AllKeyed(s, key)
    ensures Sorted(SortByKey(s, key), key)
  {
    if s != [] {
      var init := s[..|s| - 1];
      SortByKeySorted(init, key);
      var r := SortByKey(init, key);
      forall i | 0 <= i < |r| ensures key(r[i]).Some? {
        assert r[i] in multiset(init);
      }
      InsertSorted(r, s[|s| - 1], key);
    }
  }

  /**
   * When every key is a number, the sort result is non-decreasing by key
   * and its first element has the least key.
   */
  lemma SortByKeyAscending<T>(s: seq<T>, key: T -> Option<int>)
    requires AllKeyed(SortByKey(s, key), key)
    ensures Sorted(SortByKey(s, key), key)
    ensures forall i :: 0 < i < |SortByKey(s, key)| ==> key(SortByKey(s, key)[0]).value <= key(SortByKey(s, key)[i]).value
  {
    var r := SortByKey(s, key);
    assert AllKeyed(s, key) by {
      forall i | 0 <= i < |s| ensures key(s[i]).Some? {
        assert s[i] in multiset(r);
      }
    }
    SortByKeySorted(s, key);
    forall i | 0 < i < |r| ensures key(r[0]).value <= key(r[i]).value {
      assert !Greater(key, r[0], r[i]);
    }
  }

  lemma TiesOne<T>(x: T, key: T -> Option<int>, k: Option<int>)
    ensures Ties([x], key, k) == if key(x) == k then [x] else []
  {
    assert [x][..0] == [];
  }

  /** Two elements with different keys never both belong to one class of ties. */
  lemma TiesCommute<T>(x: T, y: T, key: T -> Option<int>, k: Option<int>)
    requires key(x) != key(y)
    ensures Ties([x], key, k) + Ties([y], key, k) == Ties([y], key, k) + Ties([x], key, k)
  {
    TiesOne(x, key, k);
    TiesOne(y, key, k);
  }

  lemma InsertStableGreater<T>(init: seq<T>, last: T, x: T, key: T -> Option<int>, k: Option<int>)
    requires Greater(key, last, x)
    requires Ties(Insert(init, x, key), key, k) == Ties(init, key, k) + Ties([x], key, k)
    ensures Ties(Insert(init, x, key) + [last], key, k) == Ties(init + [last], key, k) + Ties([x], key, k)
  {
    var r := Insert(init, x, key);
    TiesAppend(r, [last], key, k);
    TiesAppend(init, [last], key, k);
    TiesCommute(x, last, key, k);
    var a, tx, tl := Ties(init, key, k), Ties([x], key, k), Ties([last], key, k);
    assert Ties(r + [last], key, k) == a + tx + tl;
    assert a + tx + tl == a + (tx + tl);
    assert a + tl + tx == a + (tl + tx);
  }

  lemma {:induction false} InsertStable<T>(s: seq<T>, x: T, key: T -> Option<int>, k: Option<int>)
    ensures Ties(Insert(s, x, key), key, k) == Ties(s, key, k) + Ties([x], key, k)
  {
    if s == [] {
      assert Insert(s, x, key) == [x];
      assert Ties(s, key, k) == [];
    } else {
      var init, last := s[..|s| - 1], s[|s| - 1];
      Collections.FrontLast(s);
      if Greater(key, last, x) {
        assert Insert(s, x, key) == Insert(init, x, key) + [last];
        InsertStable(init, x, key, k);
        InsertStableGreater(init, last, x, key, k);
      } else {
        assert Insert(s, x, key) == s + [x];
        TiesAppend(s, [x], key, k);
      }
    }
  }

  /**
   * The sort is stable: the elements with any one key, NaN included, keep
   * their relative order.
   */
  lemma {:induction false} SortByKeyStable<T>(s: seq<T>, key: T -> Option<int>, k: Option<int>)
    ensures Ties(SortByKey(s, key), key, k) == Ties(s, key, k)
  {
    if s != [] {
      var init, last := s[..|s| - 1], s[|s| - 1];
      SortByKeyStable(init, key, k);
      InsertStable(SortByKey(init, key), last, key, k);
      TiesAppend(init, [last], key, k);
      Collections.FrontLast(s);
    }
  }

  /** A sequence already in order is left as it is. */
  lemma {:induction false} SortByKeyOfSorted<T>(s: seq<T>, key: T -> Option<int>)
    requires Sorted(s, key)
    ensures SortByKey(s, key) == s
  {
    if s != [] {
      var init, last := s[..|s| - 1], s[|s| - 1];
      Collections.FrontLast(s);
      assert Sorted(init, key) by {
        forall i, j | 0 <= i < j < |init| ensures !Greater(key, init[i], init[j]) {
          assert init[i] == s[i] && init[j] == s[j];
        }
      }
      SortByKeyOfSorted(init, key);
      assert SortByKey(s, key) == Insert(init, last, key);
      if init != [] {
        assert init[|init| - 1] == s[|s| - 2];
        assert !Greater(key, init[|init| - 1], last);
      }
    }
  }

  /**
   * No element is directly followed by one the comparator puts before it.
   * Unlike `Sorted`, this holds of every sort result, NaN keys included.
   */
  predicate Settled<T>(s: seq<T>, key: T -> Option<int>) {
    forall i :: 0 <= i < |s| - 1 ==> !Greater(key, s[i], s[i + 1])
  }

  /** The inserted element ends the result, or the old last element does. */
  lemma InsertLast<T>(s: seq<T>, x: T, key: T -> Option<int>)
    ensures |Insert(s, x, key)| == |s| + 1
    ensures var r := Insert(s, x, key); r[|r| - 1] == x || (s != [] && r[|r| - 1] == s[|s| - 1])
  {
    var r := Insert(s, x, key);
    assert |r| == |multiset(r)|;
  }

  lemma {:induction false} InsertSettled<T>(s: seq<T>, x: T, key: T -> Option<int>)
    requires Settled(s, key)
    ensures Settled(Insert(s, x, key), key)
  {
    if s != [] {
      var init, last := s[..|s| - 1], s[|s| - 1];
      if Greater(key, last, x) {
        assert Settled(init, key) by {
          forall i | 0 <= i < |init| - 1 ensures !Greater(key, init[i], init[i + 1]) {
            assert init[i] == s[i] && init[i + 1] == s[i + 1];
          }
        }
        InsertSettled(init, x, key);
        var r := Insert(init, x, key);
        InsertLast(init, x, key);
        if init != [] { assert init[|init| - 1] == s[|s| - 2]; }
        assert !Greater(key, r[|r| - 1], last);
        var r' := r + [last];
        assert Insert(s, x, key) == r';
        forall i | 0 <= i < |r'| - 1 ensures !Greater(key, r'[i], r'[i + 1]) {
          if i < |r| - 1 { assert r'[i] == r[i] && r'[i + 1] == r[i + 1]; }
        }
      } else {
        var r' := s + [x];
        assert Insert(s, x, key) == r';
        forall i | 0 <= i < |r'| - 1 ensures !Greater(key, r'[i], r'[i + 1]) {
          if i < |s| - 1 { assert r'[i] == s[i] && r'[i + 1] == s[i + 1]; }
        }
      }
    }
  }

  /** Every sort result is settled. */
  lemma {:induction false} SortByKeySettled<T>(s: seq<T>, key: T -> Option<int>)
    ensures Settled(SortByKey(s, key), key)
  {
    if s != [] {
      SortByKeySettled(s[..|s| - 1], key);
      InsertSettled(SortByKey(s[..|s| - 1], key), s[|s| - 1], key);
    }
  }

  /** A settled sequence is left as it is by the sort. */
  lemma {:induction false} SortByKeyOfSettled<T>(s: seq<T>, key: T -> Option<int>)
    requires Settled(s, key)
    ensures SortByKey(s, key) == s
  {
    if s != [] {
      var init, last := s[..|s| - 1], s[|s| - 1];
      Collections.FrontLast(s);
      assert Settled(init, key) by {
        forall i | 0 <= i < |init| - 1 ensures !Greater(key, init[i], init[i + 1]) {
          assert init[i] == s[i] && init[i + 1] == s[i + 1];
        }
      }
      SortByKeyOfSettled(init, key);
      if init != [] {
        assert init[|init| - 1] == s[|s| - 2];
      }
    }
  }

  /**
   * Sorting again after appending one element gives what one sort of the
   * whole sequence gives: the re-sort on every push amounts to a single
   * stable sort of everything pushed, in push order.
   */
  lemma ResortAppend<T>(s: seq<T>, x: T, key: T -> Option<int>)
    ensures SortByKey(SortByKey(s, key) + [x], key) == SortByKey(s + [x], key)
  {
    var r := SortByKey(s, key);
    SortByKeySettled(s, key);
    SortByKeyOfSettled(r, key);
    Collections.SnocParts(r, x);
    Collections.SnocParts(s, x);
  }
  /** A class of ties is empty exactly when no element has that key. */
  lemma {:induction false} TiesEmpty<T>(s: seq<T>, key: T -> Option<int>, k: Option<int>)
    ensures Ties(s, key, k) == [] <==> forall i :: 0 <= i < |s| ==> key(s[i]) != k
  {
    if s != [] {
      var init := s[..|s| - 1];
      TiesEmpty(init, key, k);
      if Ties(s, key, k) == [] {
        forall i | 0 <= i < |s| ensures key(s[i]) != k {
          if i < |s| - 1 { assert s[i] == init[i]; }
        }
      } else if key(s[|s| - 1]) != k {
        var i :| 0 <= i < |init| && key(init[i]) == k;
        assert s[i] == init[i];
      }
    }
  }

  /**
   * Two sequences ordered by numeric keys that list each class of ties in
   * the same order are the same sequence.
   */
  lemma {:induction false} SortedTiesUnique<T>(a: seq<T>, b: seq<T>, key: T -> Option<int>)
    requires AllKeyed(a, key) && AllKeyed(b, key) && Sorted(a, key) && Sorted(b, key)
    requires forall k :: Ties(a, key, k) == Ties(b, key, k)
    ensures a == b
    decreases |a|
  {
    if a == [] || b == [] {
      if a != [] || b != [] {
        var k := if a != [] then key(a[0]) else key(b[0]);
        TiesEmpty(a, key, k);
        TiesEmpty(b, key, k);
      }
    } else {
      var ia, x, ib, y := a[..|a| - 1], a[|a| - 1], b[..|b| - 1], b[|b| - 1];
      var kx, ky := key(x), key(y);
      TiesEmpty(a, key, kx);
      TiesEmpty(b, key, kx);
      var j :| 0 <= j < |b| && key(b[j]) == kx;
      assert kx.value <= ky.value by {
        if j < |b| - 1 { assert !Greater(key, b[j], y); }
      }
      TiesEmpty(a, key, ky);
      TiesEmpty(b, key, ky);
      var i :| 0 <= i < |a| && key(a[i]) == ky;
      assert ky.value <= kx.value by {
        if i < |a| - 1 { assert !Greater(key, a[i], x); }
      }
      assert Ties(a, key, kx) == Ties(ia, key, kx) + [x];
      assert Ties(b, key, kx) == Ties(ib, key, kx) + [y];
      assert x == y by {
        var t := Ties(a, key, kx);
        assert t[|t| - 1] == x;
      }
      forall k ensures Ties(ia, key, k) == Ties(ib, key, k) {
        var p, q, tail := Ties(ia, key, k), Ties(ib, key, k), if key(x) == k then [x] else [];
        assert Ties(a, key, k) == p + tail && Ties(b, key, k) == q + tail;
        assert p == (p + tail)[..|p|] && q == (q + tail)[..|q|];
      }
      assert AllKeyed(ia, key) && Sorted(ia, key) by {
        forall m | 0 <= m < |ia| ensures ia[m] == a[m] { }
      }
      assert AllKeyed(ib, key) && Sorted(ib, key) by {
        forall m | 0 <= m < |ib| ensures ib[m] == b[m] { }
      }
      SortedTiesUnique(ia, ib, key);
      Collections.FrontLast(a);
      Collections.FrontLast(b);
    }
  }

  /**
   * When every key is a number, the order this sort gives is the only one
   * a stable sort can give: any sequence ordered by key that keeps each
   * class of ties in input order is this sort's result.
   */
  lemma SortByKeyUnique<T>(s: seq<T>, r: seq<T>, key: T -> Option<int>)
    requires AllKeyed(s, key) && Sorted(r, key)
    requires forall k :: Ties(r, key, k) == Ties(s, key, k)
    ensures r == SortByKey(s, key)
  {
    var sorted := SortByKey(s, key);
    TiesEmpty(s, key, None);
    TiesEmpty(r, key, None);
    SortByKeyStable(s, key, None);
    TiesEmpty(sorted, key, None);
    SortByKeySorted(s, key);
    forall k ensures Ties(r, key, k) == Ties(sorted, key, k) {
      SortByKeyStable(s, key, k);
    }
    SortedTiesUnique(r, sorted, key);
  }
}
