/**
 * Sequence operations the application leans on: `Array.prototype.filter`,
 * `[...new Set(xs)]` and the database's `order(...)`, which the model reads as
 * a stable sort by a given total preorder.
 */
module Seqs {

  /** Order-preserving selection of the elements that satisfy `keep`. */
  function Filter<T(!new)>(s: seq<T>, keep: T -> bool): (r: seq<T>)
    ensures |r| <= |s|
    ensures forall x :: x in r <==> x in s && keep(x)
  {
    if s == [] then []
    else
      var rest := Filter(s[1..], keep);
      assert forall x :: x in s <==> x == s[0] || x in s[1..];
      if keep(s[0]) then [s[0]] + rest else rest
  }

  /** `Array.prototype.map`. */
  function Map<T, U>(s: seq<T>, f: T -> U): (r: seq<U>)
    ensures |r| == |s|
    ensures forall i :: 0 <= i < |s| ==> r[i] == f(s[i])
  {
    seq(|s|, i requires 0 <= i < |s| => f(s[i]))
  }

  lemma MapConcat<T, U>(a: seq<T>, b: seq<T>, f: T -> U)
    ensures Map(a + b, f) == Map(a, f) + Map(b, f)
  {
  }

  /** Mapping a permutation gives a permutation: the bag of images depends only on the bag of elements. */
  lemma {:induction false} MapPermutation<T, U>(s: seq<T>, t: seq<T>, f: T -> U)
    requires multiset(s) == multiset(t)
    ensures multiset(Map(s, f)) == multiset(Map(t, f))
    decreases |s|
  {
    if s == [] {
      assert |t| == |multiset(t)| == 0;
    } else {
      var x := s[0];
      assert x in multiset(t);
      var j :| 0 <= j < |t| && t[j] == x;
      var rest := t[..j] + t[j + 1..];
      assert t == t[..j] + [x] + t[j + 1..];
      assert s == [x] + s[1..];
      assert multiset(s) == multiset{x} + multiset(s[1..]);
      assert multiset(t) == multiset(t[..j]) + multiset{x} + multiset(t[j + 1..]);
      assert multiset(rest) == multiset(t[..j]) + multiset(t[j + 1..]);
      assert multiset(s[1..]) == multiset(s) - multiset{x};
      assert multiset(rest) == multiset(t) - multiset{x};
      MapPermutation(s[1..], rest, f);
      MapConcat([x], s[1..], f);
      MapConcat(t[..j] + [x], t[j + 1..], f);
      MapConcat(t[..j], [x], f);
      MapConcat(t[..j], t[j + 1..], f);
    }
  }

  /** Filtering distributes over concatenation, so the kept elements keep their relative order. */
  lemma {:induction false} FilterConcat<T(!new)>(a: seq<T>, b: seq<T>, keep: T -> bool)
    ensures Filter(a + b, keep) == Filter(a, keep) + Filter(b, keep)
  {
    if a == [] {
      assert a + b == b;
    } else {
      assert (a + b)[1..] == a[1..] + b;
      FilterConcat(a[1..], b, keep);
    }
  }

  /** A filter that every element passes returns the sequence unchanged. */
  lemma {:induction false} FilterKeepsAll<T(!new)>(s: seq<T>, keep: T -> bool)
    requires forall i :: 0 <= i < |s| ==> keep(s[i])
    ensures Filter(s, keep) == s
  {
    if s != [] {
      FilterKeepsAll(s[1..], keep);
    }
  }

  /** Filtering twice with the same predicate is filtering once. */
  lemma {:induction false} FilterIdempotent<T(!new)>(s: seq<T>, keep: T -> bool)
    ensures Filter(Filter(s, keep), keep) == Filter(s, keep)
  {
    var r := Filter(s, keep);
    forall i | 0 <= i < |r| ensures keep(r[i]) {
      assert r[i] in r;
    }
    FilterKeepsAll(r, keep);
  }

  /** True when no element occurs twice. */
  predicate NoDuplicates<T(==)>(s: seq<T>) {
    forall i, j :: 0 <= i < j < |s| ==> s[i] != s[j]
  }

  /** Index of the first occurrence of `x` in `s`. */
  function FirstIndex<T(==)>(s: seq<T>, x: T): (k: nat)
    requires x in s
    ensures k < |s| && s[k] == x && x !in s[..k]
  {
    if s[0] == x then 0 else 1 + FirstIndex(s[1..], x)
  }

  /**
   * The distinct elements of `s` in order of first occurrence, which is what
   * spreading a JavaScript `Set` built from `s` yields.
   */
  function Distinct<T(==,!new)>(s: seq<T>): (r: seq<T>)
    ensures forall x :: x in r <==> x in s
    ensures NoDuplicates(r)
    ensures forall i, j :: 0 <= i < j < |r| ==> FirstIndex(s, r[i]) < FirstIndex(s, r[j])
    decreases |s|
  {
    if s == [] then []
    else
      var init := s[..|s| - 1];
      var last := s[|s| - 1];
      var d := Distinct(init);
      assert s == init + [last];
      FirstIndexExtend(init, last);
      if last in d then d
      else
        assert forall i :: 0 <= i < |d| ==> FirstIndex(s, d[i]) < |init|;
        assert FirstIndex(s, last) == |init|;
        d + [last]
  }

  /** Appending an element does not move the first occurrence of what was already there. */
  lemma {:induction false} FirstIndexExtend<T>(s: seq<T>, x: T)
    ensures forall y :: y in s ==> FirstIndex(s + [x], y) == FirstIndex(s, y)
    ensures x !in s ==> FirstIndex(s + [x], x) == |s|
  {
    if s != [] {
      assert (s + [x])[1..] == s[1..] + [x];
      FirstIndexExtend(s[1..], x);
    }
  }

  /** Filtering keeps every kept element as often as it occurs, and nothing else: the multiset view of `Filter`. */
  lemma {:induction false} FilterCount<T(!new)>(s: seq<T>, keep: T -> bool, x: T)
    ensures multiset(Filter(s, keep))[x] == if keep(x) then multiset(s)[x] else 0
  {
    if s != [] {
      assert s == [s[0]] + s[1..];
      FilterCount(s[1..], keep, x);
    }
  }

  /** `FilterCount` for every element at once. */
  lemma FilterCounts<T(!new)>(s: seq<T>, keep: T -> bool)
    ensures forall x :: multiset(Filter(s, keep))[x] == if keep(x) then multiset(s)[x] else 0
  {
    forall x ensures multiset(Filter(s, keep))[x] == if keep(x) then multiset(s)[x] else 0 {
      FilterCount(s, keep, x);
    }
  }

  /** No two elements of `s` have the same `key`: a uniqueness constraint on a table. */
  predicate DistinctKeys<T, K(==)>(s: seq<T>, key: T -> K) {
    forall i, j :: 0 <= i < j < |s| ==> key(s[i]) != key(s[j])
  }

  /** Removing rows never breaks a uniqueness constraint. */
  lemma {:induction false} FilterKeepsDistinct<T(!new), K>(s: seq<T>, keep: T -> bool, key: T -> K)
    requires DistinctKeys(s, key)
    ensures DistinctKeys(Filter(s, keep), key)
  {
    if s != [] {
      FilterKeepsDistinct(s[1..], keep, key);
      var rest := Filter(s[1..], keep);
      if keep(s[0]) {
        var r := [s[0]] + rest;
        forall i, j | 0 <= i < j < |r| ensures key(r[i]) != key(r[j]) {
          if i == 0 {
            assert r[j] in rest;
            var k :| 0 <= k < |s[1..]| && s[1..][k] == r[j];
            assert s[k + 1] == r[j];
          } else {
            assert r[i] == rest[i - 1] && r[j] == rest[j - 1];
          }
        }
      }
    }
  }

  /** Appending a row whose key is new keeps a uniqueness constraint. */
  lemma DistinctKeysAppend<T, K>(s: seq<T>, x: T, key: T -> K)
    requires DistinctKeys(s, key)
    requires forall i :: 0 <= i < |s| ==> key(s[i]) != key(x)
    ensures DistinctKeys(s + [x], key)
  {
    var r := s + [x];
    forall i, j | 0 <= i < j < |r| ensures key(r[i]) != key(r[j]) {
      assert r[i] == s[i];
      if j < |s| {
        assert r[j] == s[j];
      }
    }
  }

  /** The keys present in a table. */
  function KeySet<T(==), K>(s: seq<T>, key: T -> K): (r: set<K>)
    ensures forall x :: x in s ==> key(x) in r
    ensures forall k :: k in r ==> exists x :: x in s && key(x) == k
  {
    set x | x in s :: key(x)
  }

  /** A table with a serial key: keys unique, positive and below the next serial value. */
  ghost predicate SerialTable<T>(s: seq<T>, key: T -> int, next: int) {
    && 0 < next
    && DistinctKeys(s, key)
    && forall x :: x in s ==> 0 < key(x) < next
  }

  /** An insert with the next serial value keeps the table serial and adds exactly that key. */
  lemma SerialAppend<T>(s: seq<T>, x: T, key: T -> int, next: int)
    requires SerialTable(s, key, next) && key(x) == next
    ensures next !in KeySet(s, key)
    ensures SerialTable(s + [x], key, next + 1)
    ensures KeySet(s + [x], key) == KeySet(s, key) + {next}
  {
    DistinctKeysAppend(s, x, key);
    assert forall y :: y in s + [x] <==> y in s || y == x;
  }

  /** Rewriting rows without touching their keys keeps the table serial and its key set. */
  lemma SerialRewrite<T>(s: seq<T>, t: seq<T>, key: T -> int, next: int)
    requires SerialTable(s, key, next)
    requires |t| == |s| && forall i :: 0 <= i < |s| ==> key(t[i]) == key(s[i])
    ensures SerialTable(t, key, next)
    ensures KeySet(t, key) == KeySet(s, key)
  {
    forall y | y in t ensures 0 < key(y) < next && key(y) in KeySet(s, key) {
      var i :| 0 <= i < |t| && t[i] == y;
      assert s[i] in s;
    }
    forall y | y in s ensures key(y) in KeySet(t, key) {
      var i :| 0 <= i < |s| && s[i] == y;
      assert t[i] in t;
    }
  }

  /** Deleting rows keeps a table serial and adds no key. */
  lemma SerialFilter<T(!new)>(s: seq<T>, keep: T -> bool, key: T -> int, next: int)
    requires SerialTable(s, key, next)
    ensures SerialTable(Filter(s, keep), key, next)
    ensures KeySet(Filter(s, keep), key) <= KeySet(s, key)
  {
    FilterKeepsDistinct(s, keep, key);
  }

  /** Deleting the rows with key `id` keeps the table serial and removes exactly that key. */
  lemma SerialDelete<T(!new)>(s: seq<T>, keep: T -> bool, key: T -> int, next: int, id: int)
    requires SerialTable(s, key, next)
    requires forall x :: keep(x) <==> key(x) != id
    ensures SerialTable(Filter(s, keep), key, next)
    ensures KeySet(Filter(s, keep), key) == KeySet(s, key) - {id}
  {
    FilterKeepsDistinct(s, keep, key);
  }

  /** `le` is total and transitive: the "given total order" of a database `order` clause. */
  ghost predicate TotalPreorder<T(!new)>(le: (T, T) -> bool) {
    && (forall a, b :: le(a, b) || le(b, a))
    && (forall a, b, c :: le(a, b) && le(b, c) ==> le(a, c))
  }

  /** Every element is `le` every later element. */
  predicate SortedBy<T>(s: seq<T>, le: (T, T) -> bool) {
    forall i, j :: 0 <= i < j < |s| ==> le(s[i], s[j])
  }

  /** Inserts `x` into a sorted sequence in front of the first element it is `le`. */
  function Insert<T(!new)>(x: T, s: seq<T>, le: (T, T) -> bool): (r: seq<T>)
    requires TotalPreorder(le)
    requires SortedBy(s, le)
    ensures SortedBy(r, le)
    ensures multiset(r) == multiset(s) + multiset{x}
  {
    if s == [] then [x]
    else if le(x, s[0]) then
      assert forall j :: 0 <= j < |s| ==> le(x, s[j]);
      [x] + s
    else
      var tail := Insert(x, s[1..], le);
      assert s == [s[0]] + s[1..];
      assert forall y :: y in tail ==> y == x || y in s[1..] by {
        forall y | y in tail ensures y == x || y in s[1..] {
          assert y in multiset(tail);
        }
      }
      assert forall j :: 0 <= j < |tail| ==> le(s[0], tail[j]) by {
        forall j | 0 <= j < |tail| ensures le(s[0], tail[j]) {
          assert tail[j] in tail;
          if tail[j] != x {
            var k :| 0 <= k < |s[1..]| && s[1..][k] == tail[j];
            assert s[k + 1] == tail[j];
          }
        }
      }
      [s[0]] + tail
  }

  /** Insertion sort: a stable sort of `s` by `le`. */
  function SortBy<T(!new)>(s: seq<T>, le: (T, T) -> bool): (r: seq<T>)
    requires TotalPreorder(le)
    ensures SortedBy(r, le)
    ensures multiset(r) == multiset(s)
    ensures |r| == |s|
  {
    if s == [] then []
    else
      assert s == [s[0]] + s[1..];
      Insert(s[0], SortBy(s[1..], le), le)
  }

  /** Sorting keeps exactly the elements of the input (membership view of the permutation). */
  lemma SortByMembers<T(!new)>(s: seq<T>, le: (T, T) -> bool)
    requires TotalPreorder(le)
    ensures forall x :: x in SortBy(s, le) <==> x in s
  {
    var r := SortBy(s, le);
    forall x ensures x in r <==> x in s {
      assert x in r <==> x in multiset(r);
      assert x in s <==> x in multiset(s);
    }
  }
}
