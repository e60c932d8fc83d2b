/** Sorting as the source uses it. Every comparator in the core compares
    one or two integer fields (`a.position - b.position`,
    `b.runs - a.runs || b.key - a.key`, a database `.order(...)` on one or two
    columns), so a comparator is modelled by a key of two integers compared
    lexicographically; a descending column is a negated key component.
    SortBy is a stable insertion sort: ECMAScript's `Array.prototype.sort`
    is required to be stable, so ties keep their input order here as well. */
module Ordering {

  datatype Key = Key(major: int, minor: int)

  predicate KeyLe(a: Key, b: Key) {
    a.major < b.major || (a.major == b.major && a.minor <= b.minor)
  }

  ghost predicate SortedBy<T>(s: seq<T>, key: T -> Key) {
    forall i, j :: 0 <= i < j < |s| ==> KeyLe(key(s[i]), key(s[j]))
  }

  /** Inserts x after the last element whose key is not above x's key,
      scanning from the right, so that an equal key stays behind x. */
  function Insert<T>(s: seq<T>, x: T, key: T -> Key): (r: seq<T>)
    ensures |r| == |s| + 1
  {
    if s == [] || KeyLe(key(s[|s| - 1]), key(x)) then
      s + [x]
    else
      Insert(s[..|s| - 1], x, key) + [s[|s| - 1]]
  }

  /** The stable sort of s by key: insert the elements one by one, left to right. */
  function SortBy<T>(s: seq<T>, key: T -> Key): (r: seq<T>)
    ensures |r| == |s|
  {
    if s == [] then []
    else Insert(SortBy(s[..|s| - 1], key), s[|s| - 1], key)
  }

  /** Insertion adds exactly x. */
  lemma {:induction false} InsertPermutes<T>(s: seq<T>, x: T, key: T -> Key)
    ensures multiset(Insert(s, x, key)) == multiset(s) + multiset{x}
  {
    if !(s == [] || KeyLe(key(s[|s| - 1]), key(x))) {
      var init := s[..|s| - 1];
      assert s == init + [s[|s| - 1]];
      InsertPermutes(init, x, key);
    }
  }

  /** A bound above every key of s and above x's key bounds the insertion. */
  lemma {:induction false} InsertBounded<T>(s: seq<T>, x: T, key: T -> Key, b: Key)
    requires forall i :: 0 <= i < |s| ==> KeyLe(key(s[i]), b)
    requires KeyLe(key(x), b)
    ensures forall i :: 0 <= i < |s| + 1 ==> KeyLe(key(Insert(s, x, key)[i]), b)
  {
    if !(s == [] || KeyLe(key(s[|s| - 1]), key(x))) {
      InsertBounded(s[..|s| - 1], x, key, b);
    }
  }

  /** Insertion into a sorted sequence keeps it sorted. */
  lemma {:induction false} InsertSorted<T>(s: seq<T>, x: T, key: T -> Key)
    requires SortedBy(s, key)
    ensures SortedBy(Insert(s, x, key), key)
  {
    if !(s == [] || KeyLe(key(s[|s| - 1]), key(x))) {
      var init := s[..|s| - 1];
      var last := s[|s| - 1];
      assert SortedBy(init, key);
      InsertSorted(init, x, key);
      InsertBounded(init, x, key, key(last));
    }
  }

  /** SortBy returns its input in key order ... */
  lemma {:induction false} SortBySorted<T>(s: seq<T>, key: T -> Key)
    ensures SortedBy(SortBy(s, key), key)
  {
    if s != [] {
      SortBySorted(s[..|s| - 1], key);
      InsertSorted(SortBy(s[..|s| - 1], key), s[|s| - 1], key);
    }
  }

  /** ... and is a permutation of it. */
  lemma {:induction false} SortByPermutes<T>(s: seq<T>, key: T -> Key)
    ensures multiset(SortBy(s, key)) == multiset(s)
  {
    if s != [] {
      var init := s[..|s| - 1];
      assert s == init + [s[|s| - 1]];
      SortByPermutes(init, key);
      InsertPermutes(SortBy(init, key), s[|s| - 1], key);
    }
  }

  /** An input that is already in order comes back unchanged. */
  lemma {:induction false} SortByOfSorted<T>(s: seq<T>, key: T -> Key)
    requires SortedBy(s, key)
    ensures SortBy(s, key) == s
  {
    if s != [] {
      var init := s[..|s| - 1];
      assert SortedBy(init, key);
      SortByOfSorted(init, key);
      assert s == init + [s[|s| - 1]];
    }
  }

  /** Sorting twice is sorting once. */
  lemma SortByIdempotent<T>(s: seq<T>, key: T -> Key)
    ensures SortBy(SortBy(s, key), key) == SortBy(s, key)
  {
    SortBySorted(s, key);
    SortByOfSorted(SortBy(s, key), key);
  }
}
