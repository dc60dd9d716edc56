/**
 * The Python list of directives that `process_documents` receives from its
 * caller and changes in place: `extend` appends, `sort(key=...)` reorders by a
 * key. The key function and the order on keys are parameters; the order is a
 * total preorder, as the comparison of sort keys is.
 */
module EntryLists {
  import opened Data

  /** `lessEq` is reflexive, transitive and relates any two keys one way or the other. */
  ghost predicate TotalPreorder<K(!new)>(lessEq: (K, K) -> bool)
  {
    && (forall a, b :: lessEq(a, b) || lessEq(b, a))
    && (forall a, b, c :: lessEq(a, b) && lessEq(b, c) ==> lessEq(a, c))
  }

  /** Non-decreasing under the key. */
  ghost predicate SortedBy<K>(s: seq<Directive>, key: Directive -> K, lessEq: (K, K) -> bool)
  {
    forall i, j :: 0 <= i < j < |s| ==> lessEq(key(s[i]), key(s[j]))
  }

  /** Inserts `x` into a sorted sequence after every element whose key is not
      greater than that of `x`. */
  method Insert<K(!new)>(sorted: seq<Directive>, x: Directive, key: Directive -> K, lessEq: (K, K) -> bool)
    returns (r: seq<Directive>)
    requires TotalPreorder(lessEq)
    requires SortedBy(sorted, key, lessEq)
    ensures SortedBy(r, key, lessEq)
    ensures multiset(r) == multiset(sorted) + multiset{x}
  {
    var j := 0;
    while j < |sorted| && lessEq(key(sorted[j]), key(x))
      invariant 0 <= j <= |sorted|
      invariant forall k :: 0 <= k < j ==> lessEq(key(sorted[k]), key(x))
    {
      j := j + 1;
    }
    // every element from j on has a key at least that of x
    forall k | j <= k < |sorted|
      ensures lessEq(key(x), key(sorted[k]))
    {
      assert lessEq(key(sorted[j]), key(sorted[k])) || j == k;
    }
    r := sorted[..j] + [x] + sorted[j..];
    assert sorted == sorted[..j] + sorted[j..];
    InsertAtSorted(sorted, j, x, key, lessEq);
  }

  /** Putting `x` between the elements whose keys are at most its key and
      those whose keys are at least its key keeps the sequence sorted. */
  lemma InsertAtSorted<K(!new)>(sorted: seq<Directive>, j: nat, x: Directive, key: Directive -> K, lessEq: (K, K) -> bool)
    requires j <= |sorted|
    requires SortedBy(sorted, key, lessEq)
    requires forall k :: 0 <= k < j ==> lessEq(key(sorted[k]), key(x))
    requires forall k :: j <= k < |sorted| ==> lessEq(key(x), key(sorted[k]))
    ensures SortedBy(sorted[..j] + [x] + sorted[j..], key, lessEq)
  {
    var r := sorted[..j] + [x] + sorted[j..];
    forall a, b | 0 <= a < b < |r|
      ensures lessEq(key(r[a]), key(r[b]))
    {
      if b < j {
        assert r[a] == sorted[a] && r[b] == sorted[b];
      } else if a > j {
        assert r[a] == sorted[a - 1] && r[b] == sorted[b - 1];
      } else if a == j {
        assert r[b] == sorted[b - 1];
      } else if b == j {
        assert r[a] == sorted[a];
      } else {
        assert r[a] == sorted[a] && r[b] == sorted[b - 1];
      }
    }
  }

  /** A Python list of directives. */
  class EntryList {
    var items: seq<Directive>

    constructor (initial: seq<Directive>)
      ensures items == initial
    {
      items := initial;
    }

    /** `list.extend`. */
    method Extend(more: seq<Directive>)
      modifies this
      ensures items == old(items) + more
    {
      items := items + more;
    }

    /** `list.sort(key=key)`: the same directives, now non-decreasing by key. */
    method Sort<K(!new)>(key: Directive -> K, lessEq: (K, K) -> bool)
      requires TotalPreorder(lessEq)
      modifies this
      ensures multiset(items) == multiset(old(items))
      ensures SortedBy(items, key, lessEq)
    {
      var unsorted := items;
      var sorted: seq<Directive> := [];
      var i := 0;
      while i < |unsorted|
        invariant 0 <= i <= |unsorted|
        invariant multiset(sorted) == multiset(unsorted[..i])
        invariant SortedBy(sorted, key, lessEq)
      {
        sorted := Insert(sorted, unsorted[i], key, lessEq);
        assert unsorted[..i + 1] == unsorted[..i] + [unsorted[i]];
        i := i + 1;
      }
      assert unsorted[..i] == unsorted;
      items := sorted;
    }
  }
}
