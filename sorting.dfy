/**
 * Python's `sorted(xs, key=k)`: a stable sort by a numeric key. Both the
 * server (`reverse=True` on an integer confidence) and the scheduler (a
 * real average) sort this way; the descending case sorts by the negated key.
 */
module Sorting {

  /** The keys of `s` never decrease from left to right. */
  predicate SortedBy<T>(s: seq<T>, key: T -> real)
  {
    forall i, j :: 0 <= i < j < |s| ==> key(s[i]) <= key(s[j])
  }

  /** Inserts `x` into sorted `s` before the first element whose key is not smaller. */
  function Insert<T>(x: T, s: seq<T>, key: T -> real): (r: seq<T>)
    requires SortedBy(s, key)
    ensures |r| == |s| + 1
    ensures multiset(r) == multiset(s) + multiset{x}
    ensures SortedBy(r, key)
  {
    if s == [] || key(x) <= key(s[0]) then
      PrependSorted(x, s, key);
      [x] + s
    else
      var rest := Insert(x, s[1..], key);
      assert s == [s[0]] + s[1..];
      ConsSorted(s[0], rest, x, s[1..], key);
      [s[0]] + rest
  }

  /** A head no larger than the first element of a sorted sequence keeps it sorted. */
  lemma PrependSorted<T>(x: T, s: seq<T>, key: T -> real)
    requires SortedBy(s, key)
    requires s == [] || key(x) <= key(s[0])
    ensures SortedBy([x] + s, key)
  {
    forall j | 0 < j < |s| ensures key(x) <= key(s[j]) {
      assert key(s[0]) <= key(s[j]);
    }
  }

  /** A head no larger than every element of `rest` (which holds `x` and `tail`) keeps `rest` sorted. */
  lemma ConsSorted<T>(h: T, rest: seq<T>, x: T, tail: seq<T>, key: T -> real)
    requires SortedBy(rest, key)
    requires multiset(rest) == multiset(tail) + multiset{x}
    requires key(h) <= key(x)
    requires forall y :: y in tail ==> key(h) <= key(y)
    ensures SortedBy([h] + rest, key)
  {
    forall j | 0 <= j < |rest| ensures key(h) <= key(rest[j]) {
      assert rest[j] in multiset(rest);
      if rest[j] != x {
        assert rest[j] in multiset(tail);
      }
    }
  }

  /** The elements of `s` in non-decreasing key order; equal keys keep their order. */
  function SortBy<T>(s: seq<T>, key: T -> real): (r: seq<T>)
    ensures |r| == |s|
    ensures multiset(r) == multiset(s)
    ensures SortedBy(r, key)
  {
    if s == [] then []
    else
      assert s == [s[0]] + s[1..];
      Insert(s[0], SortBy(s[1..], key), key)
  }

  /** The elements of `s` whose key is `k`, in their order in `s`. */
  function Keep<T>(s: seq<T>, key: T -> real, k: real): seq<T>
  {
    if s == [] then [] else (if key(s[0]) == k then [s[0]] else []) + Keep(s[1..], key, k)
  }

  /** The kept elements of a sequence with a head are the kept head, if any, then those of the tail. */
  lemma KeepCons<T>(y: T, t: seq<T>, key: T -> real, k: real)
    ensures Keep([y] + t, key, k) == (if key(y) == k then [y] else []) + Keep(t, key, k)
  {
    assert ([y] + t)[1..] == t;
  }

  /** The tail of a sorted sequence is sorted. */
  lemma SortedTail<T>(s: seq<T>, key: T -> real)
    requires s != [] && SortedBy(s, key)
    ensures SortedBy(s[1..], key)
  {
  }

  /** Inserting `x` puts it before every element of `s` with the same key. */
  lemma {:induction false} InsertKeep<T>(x: T, s: seq<T>, key: T -> real, k: real)
    requires SortedBy(s, key)
    ensures Keep(Insert(x, s, key), key, k) == (if key(x) == k then [x] else []) + Keep(s, key, k)
  {
    if s == [] || key(x) <= key(s[0]) {
      assert Insert(x, s, key) == [x] + s;
      KeepCons(x, s, key, k);
    } else {
      var kx := if key(x) == k then [x] else [];
      var k0 := if key(s[0]) == k then [s[0]] else [];
      var rest := Insert(x, s[1..], key);
      SortedTail(s, key);
      InsertKeep(x, s[1..], key, k);
      assert Insert(x, s, key) == [s[0]] + rest;
      KeepCons(s[0], rest, key, k);
      assert [s[0]] + s[1..] == s;
      KeepCons(s[0], s[1..], key, k);
      // x's key is larger than s[0]'s, so at most one of them is kept
      assert k0 == [] || kx == [];
    }
  }

  /** The sort is stable: the elements with any one key keep their relative order. */
  lemma {:induction false} SortByStable<T>(s: seq<T>, key: T -> real, k: real)
    ensures Keep(SortBy(s, key), key, k) == Keep(s, key, k)
  {
    if s != [] {
      SortByStable(s[1..], key, k);
      InsertKeep(s[0], SortBy(s[1..], key), key, k);
    }
  }

  /** No element of `s` occurs twice. */
  predicate Distinct<T(==)>(s: seq<T>)
  {
    forall i, j :: 0 <= i < j < |s| ==> s[i] != s[j]
  }

  lemma {:induction false} DistinctCount<T>(s: seq<T>, x: T)
    requires Distinct(s)
    ensures multiset(s)[x] <= 1
  {
    if s != [] {
      var front := s[..|s| - 1];
      assert s == front + [s[|s| - 1]];
      assert Distinct(front);
      DistinctCount(front, x);
      if s[|s| - 1] == x {
        assert x !in front;
      }
    }
  }

  lemma RepeatCount<T>(s: seq<T>, i: int, j: int)
    requires 0 <= i < j < |s| && s[i] == s[j]
    ensures multiset(s)[s[i]] >= 2
  {
    assert s == s[..j] + [s[j]] + s[j + 1..];
    assert s[i] in s[..j];
  }

  /** A rearrangement of a sequence without repeats has no repeats either. */
  lemma PermutationDistinct<T>(s: seq<T>, r: seq<T>)
    requires Distinct(s) && multiset(r) == multiset(s)
    ensures Distinct(r)
  {
    forall i, j | 0 <= i < j < |r| ensures r[i] != r[j] {
      if r[i] == r[j] {
        RepeatCount(r, i, j);
        DistinctCount(s, r[i]);
        assert false;
      }
    }
  }

}
