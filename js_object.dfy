/**
 * The order in which `Object.keys` lists the own properties of an ordinary
 * object (OrdinaryOwnPropertyKeys, section 10.1.11.1 of ECMA-262): first the
 * keys that are array indices, in ascending numeric order, then the other
 * string keys in the order they were created. An object is modelled by its
 * entries and the sequence of its keys in creation order.
 */
module JsObject {
  import opened Wrappers
  import JsNumber
  import StableSort
  import Collections

  /** The largest array index, 2^32 - 2. */
  const MaxArrayIndex: int := 4294967294

  /** All code units of `k` are decimal digits. */
  predicate AllDecimal(k: string) {
    forall i :: 0 <= i < |k| ==> '0' <= k[i] <= '9'
  }

  /**
   * The numeric value of a key that is an array index, that is the
   * canonical decimal text of an integer from 0 to 2^32 - 2; None otherwise.
   */
  function ArrayIndex(k: string): Option<int> {
    if k != [] && AllDecimal(k) && (|k| == 1 || k[0] != '0') && JsNumber.DigitsValue(k, 10) <= MaxArrayIndex
    then Some(JsNumber.DigitsValue(k, 10))
    else None
  }

  /** The decimal text of every integer in range is an array index with that value (an album named "1999" is one). */
  lemma ArrayIndexOfDecimal(n: nat)
    requires n <= MaxArrayIndex
    ensures ArrayIndex(JsNumber.Decimal(n)) == Some(n)
  {
    JsNumber.DecimalValue(n);
  }

  /** The keys of `order` that are array indices, in creation order. */
  function IndexKeys(order: seq<string>): seq<string> {
    if order == [] then []
    else IndexKeys(order[..|order| - 1]) + (if ArrayIndex(order[|order| - 1]).Some? then [order[|order| - 1]] else [])
  }

  /** The keys of `order` that are not array indices, in creation order. */
  function OtherKeys(order: seq<string>): seq<string> {
    if order == [] then []
    else OtherKeys(order[..|order| - 1]) + (if ArrayIndex(order[|order| - 1]).None? then [order[|order| - 1]] else [])
  }

  /** `Object.keys` of an object whose keys were created in the order `order`. */
  function OwnKeys(order: seq<string>): seq<string> {
    StableSort.SortByKey(IndexKeys(order), ArrayIndex) + OtherKeys(order)
  }

  lemma {:induction false} PartitionKeys(order: seq<string>)
    ensures multiset(IndexKeys(order)) + multiset(OtherKeys(order)) == multiset(order)
    ensures forall k :: k in IndexKeys(order) ==> ArrayIndex(k).Some?
    ensures forall k :: k in OtherKeys(order) ==> ArrayIndex(k).None?
  {
    if order != [] {
      PartitionKeys(order[..|order| - 1]);
      Collections.FrontLast(order);
    }
  }

  /** `Object.keys` lists every key exactly as often as it was created. */
  lemma OwnKeysPermutation(order: seq<string>)
    ensures multiset(OwnKeys(order)) == multiset(order)
  {
    PartitionKeys(order);
  }

  /**
   * Array-index keys come first, in ascending numeric order; every other
   * key comes after them.
   */
  lemma OwnKeysIndicesFirst(order: seq<string>)
    ensures forall i, j :: 0 <= i < j < |OwnKeys(order)| && ArrayIndex(OwnKeys(order)[j]).Some? ==>
      ArrayIndex(OwnKeys(order)[i]).Some? && ArrayIndex(OwnKeys(order)[i]).value <= ArrayIndex(OwnKeys(order)[j]).value
  {
    PartitionKeys(order);
    var idx := IndexKeys(order);
    var sorted := StableSort.SortByKey(idx, ArrayIndex);
    var r := OwnKeys(order);
    assert StableSort.AllKeyed(idx, ArrayIndex) by {
      forall i | 0 <= i < |idx| ensures ArrayIndex(idx[i]).Some? {
        assert idx[i] in idx;
      }
    }
    StableSort.SortByKeySorted(idx, ArrayIndex);
    forall i | 0 <= i < |sorted| ensures ArrayIndex(sorted[i]).Some? {
      assert sorted[i] in multiset(idx);
    }
    forall i, j | 0 <= i < j < |r| && ArrayIndex(r[j]).Some?
      ensures ArrayIndex(r[i]).Some? && ArrayIndex(r[i]).value <= ArrayIndex(r[j]).value
    {
      assert r[i] == sorted[i] && r[j] == sorted[j];
      assert !StableSort.Greater(ArrayIndex, sorted[i], sorted[j]);
    }
  }

  lemma {:induction false} NoIndexKeys(order: seq<string>)
    requires forall i :: 0 <= i < |order| ==> ArrayIndex(order[i]).None?
    ensures IndexKeys(order) == [] && OtherKeys(order) == order
  {
    if order != [] {
      var init := order[..|order| - 1];
      NoIndexKeys(init);
      Collections.FrontLast(order);
    }
  }

  /** An object with no array-index key lists its keys in creation order. */
  lemma OwnKeysInCreationOrder(order: seq<string>)
    requires forall k :: k in order ==> ArrayIndex(k).None?
    ensures OwnKeys(order) == order
  {
    assert forall i :: 0 <= i < |order| ==> order[i] in order;
    NoIndexKeys(order);
  }
}
