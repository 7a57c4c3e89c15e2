/** Stable sorting by a key, as Kotlin's `sortedBy` / `sortedByDescending`
    do it: a new list ordered by the key in which elements with equal keys
    keep their input order. */
module Ordering {

  /** Places `x` before the first element whose key is not below its own. */
  function Insert<T>(x: T, s: seq<T>, key: T -> real): (r: seq<T>)
    ensures |r| == |s| + 1
  {
    if s == [] || key(x) <= key(s[0]) then [x] + s
    else [s[0]] + Insert(x, s[1..], key)
  }

  /** `s` ordered by ascending `key`; stable. */
  function SortedBy<T>(s: seq<T>, key: T -> real): (r: seq<T>)
    ensures |r| == |s|
  {
    if s == [] then [] else Insert(s[0], SortedBy(s[1..], key), key)
  }

  ghost predicate Ascending<T>(s: seq<T>, key: T -> real)
  {
    forall i, j :: 0 <= i < j < |s| ==> key(s[i]) <= key(s[j])
  }

  /** The elements of `s` that satisfy `p`, in their order in `s`. */
  function Filter<T>(s: seq<T>, p: T -> bool): (r: seq<T>)
    ensures |r| <= |s|
  {
    if s == [] then [] else (if p(s[0]) then [s[0]] else []) + Filter(s[1..], p)
  }

  lemma {:induction false} InsertAscending<T>(x: T, s: seq<T>, key: T -> real)
    requires Ascending(s, key)
    ensures Ascending(Insert(x, s, key), key)
    ensures forall i :: 0 <= i < |Insert(x, s, key)| ==>
              Insert(x, s, key)[i] == x || Insert(x, s, key)[i] in s
  {
    if s != [] && key(x) > key(s[0]) {
      InsertAscending(x, s[1..], key);
      var r := Insert(x, s, key);
      forall i, j | 0 <= i < j < |r| ensures key(r[i]) <= key(r[j]) {
        if i == 0 {
          assert r[j] == x || r[j] in s[1..];
        }
      }
    }
  }

  /** The result of SortedBy is in ascending key order. */
  lemma {:induction false} SortedByAscending<T>(s: seq<T>, key: T -> real)
    ensures Ascending(SortedBy(s, key), key)
  {
    if s != [] {
      SortedByAscending(s[1..], key);
      InsertAscending(s[0], SortedBy(s[1..], key), key);
    }
  }

  lemma {:induction false} InsertPermutation<T>(x: T, s: seq<T>, key: T -> real)
    ensures multiset(Insert(x, s, key)) == multiset(s) + multiset{x}
  {
    if s != [] && key(x) > key(s[0]) {
      InsertPermutation(x, s[1..], key);
      assert s == [s[0]] + s[1..];
    }
  }

  /** SortedBy only reorders: it is a permutation of its input. */
  lemma {:induction false} SortedByPermutation<T>(s: seq<T>, key: T -> real)
    ensures multiset(SortedBy(s, key)) == multiset(s)
  {
    if s != [] {
      SortedByPermutation(s[1..], key);
      InsertPermutation(s[0], SortedBy(s[1..], key), key);
      assert s == [s[0]] + s[1..];
    }
  }

  /** Sorting neither adds nor loses an element. */
  lemma SortedByMembers<T>(s: seq<T>, key: T -> real)
    ensures forall j :: 0 <= j < |SortedBy(s, key)| ==> SortedBy(s, key)[j] in s
    ensures forall j :: 0 <= j < |s| ==> s[j] in SortedBy(s, key)
  {
    SortedByPermutation(s, key);
    forall j | 0 <= j < |SortedBy(s, key)| ensures SortedBy(s, key)[j] in s {
      assert SortedBy(s, key)[j] in multiset(SortedBy(s, key));
    }
    forall j | 0 <= j < |s| ensures s[j] in SortedBy(s, key) {
      assert s[j] in multiset(s);
    }
  }

  /** No element occurs twice. */
  ghost predicate Distinct<T>(s: seq<T>)
  {
    forall i, j :: 0 <= i < j < |s| ==> s[i] != s[j]
  }

  /** In a list without repeats, every element occurs at most once. */
  lemma {:induction false} DistinctCounts<T>(s: seq<T>, x: T)
    requires Distinct(s)
    ensures multiset(s)[x] <= 1
  {
    if s != [] {
      assert s == [s[0]] + s[1..];
      assert forall k :: 0 <= k < |s[1..]| ==> s[1..][k] == s[k + 1];
      DistinctCounts(s[1..], x);
      assert s[0] !in s[1..];
    }
  }

  /** A permutation of a list without repeats has no repeats. */
  lemma PermutationDistinct<T>(s: seq<T>, t: seq<T>)
    requires Distinct(s) && multiset(t) == multiset(s)
    ensures Distinct(t)
  {
    forall a, b | 0 <= a < b < |t| ensures t[a] != t[b] {
      DistinctCounts(s, t[a]);
      assert t == t[..a] + [t[a]] + t[a + 1..b] + [t[b]] + t[b + 1..];
      assert multiset(t)[t[a]] >= 1 + multiset([t[b]])[t[a]];
    }
  }

  /** Sorting a list without repeats gives a list without repeats. */
  lemma SortedByDistinct<T>(s: seq<T>, key: T -> real)
    requires Distinct(s)
    ensures Distinct(SortedBy(s, key))
  {
    SortedByPermutation(s, key);
    PermutationDistinct(s, SortedBy(s, key));
  }

  /** Filtering a sequence extended by one element. */
  lemma {:induction false} FilterSnoc<T>(s: seq<T>, x: T, p: T -> bool)
    ensures Filter(s + [x], p) == Filter(s, p) + (if p(x) then [x] else [])
  {
    if s != [] {
      FilterSnoc(s[1..], x, p);
      assert (s + [x])[1..] == s[1..] + [x];
    } else {
      assert [x][1..] == [];
    }
  }

  lemma {:induction false} FilterInsert<T>(x: T, s: seq<T>, key: T -> real, p: T -> bool, v: real)
    requires forall y :: p(y) ==> key(y) == v
    ensures Filter(Insert(x, s, key), p) == (if p(x) then [x] else []) + Filter(s, p)
  {
    if s != [] && key(x) > key(s[0]) {
      var rest := Insert(x, s[1..], key);
      FilterInsert(x, s[1..], key, p, v);
      assert Insert(x, s, key) == [s[0]] + rest;
      assert ([s[0]] + rest)[1..] == rest;
      assert Filter(Insert(x, s, key), p) == (if p(s[0]) then [s[0]] else []) + Filter(rest, p);
      if p(s[0]) {
        assert key(s[0]) == v;
        assert !p(x);
      }
    } else {
      assert Insert(x, s, key) == [x] + s;
      assert ([x] + s)[1..] == s;
    }
  }

  /** Stability: among the elements that share one key value, and in
      particular among any selection of them, SortedBy keeps the input order. */
  lemma {:induction false} SortedByStable<T>(s: seq<T>, key: T -> real, p: T -> bool, v: real)
    requires forall y :: p(y) ==> key(y) == v
    ensures Filter(SortedBy(s, key), p) == Filter(s, p)
  {
    if s != [] {
      SortedByStable(s[1..], key, p, v);
      FilterInsert(s[0], SortedBy(s[1..], key), key, p, v);
    }
  }
}
