/**
 * The collection operations the handlers use on query results: `Array.prototype.filter`
 * (and SQL `WHERE`), ordering by a key (SQL `ORDER BY`), and `slice(0, n)` (SQL `LIMIT n`).
 */
module Seqs {
  import opened Wrappers

  /** The elements of `s` that satisfy `p`, in their original order. */
  function Filter<T(!new)>(s: seq<T>, p: T -> bool): (r: seq<T>)
    ensures |r| <= |s|
    ensures forall i :: 0 <= i < |r| ==> p(r[i])
    ensures forall x :: x in r <==> x in s && p(x)
    ensures forall x :: multiset(r)[x] == if p(x) then multiset(s)[x] else 0
  {
    if s == [] then []
    else
      assert s == [s[0]] + s[1..];
      (if p(s[0]) then [s[0]] else []) + Filter(s[1..], p)
  }

  /** The kept elements are drawn from `s`, never more often than they occur in it. */
  lemma FilterSubMultiset<T(!new)>(s: seq<T>, p: T -> bool)
    ensures multiset(Filter(s, p)) <= multiset(s)
  {
    var r := Filter(s, p);
    assert forall x :: multiset(r)[x] <= multiset(s)[x];
  }

  /** Filtering a sequence with a known first element. */
  lemma FilterCons<T(!new)>(h: T, t: seq<T>, p: T -> bool)
    ensures Filter([h] + t, p) == (if p(h) then [h] else []) + Filter(t, p)
  {
    assert ([h] + t)[1..] == t;
  }

  /** Filtering a concatenation filters each part: the order of the kept elements is preserved. */
  lemma {:induction false} FilterConcat<T(!new)>(a: seq<T>, b: seq<T>, p: T -> bool)
    ensures Filter(a + b, p) == Filter(a, p) + Filter(b, p)
  {
    if a == [] {
      assert a + b == b;
    } else {
      assert (a + b)[0] == a[0];
      assert (a + b)[1..] == a[1..] + b;
      FilterConcat(a[1..], b, p);
    }
  }

  /** A test every element passes keeps the sequence as it is. */
  lemma {:induction false} FilterKeepsAll<T(!new)>(s: seq<T>, p: T -> bool)
    requires forall x :: x in s ==> p(x)
    ensures Filter(s, p) == s
  {
    if s != [] {
      FilterKeepsAll(s[1..], p);
    }
  }

  /**
   * Removing the single occurrence of `k` (with a test `q` that rejects exactly `k`) and then
   * filtering by `p`, which `k` passes, keeps one element fewer than filtering by `p` alone.
   */
  lemma {:induction false} FilterDropOne<T(!new)>(s: seq<T>, k: T, p: T -> bool, q: T -> bool)
    requires forall x :: q(x) <==> x != k
    requires p(k)
    requires multiset(s)[k] == 1
    ensures |Filter(Filter(s, q), p)| + 1 == |Filter(s, p)|
  {
    CountHead(s, k);
    assert s == [s[0]] + s[1..];
    if s[0] == k {
      assert k !in multiset(s[1..]);
      DropHead(s[0], s[1..], k, p, q);
    } else {
      FilterDropOne(s[1..], k, p, q);
      KeepHead(s[0], s[1..], p, q);
    }
  }

  lemma CountHead<T>(s: seq<T>, k: T)
    requires k in s
    ensures multiset(s)[k] == (if s[0] == k then 1 else 0) + multiset(s[1..])[k]
  {
    assert s == [s[0]] + s[1..];
  }

  lemma DropHead<T(!new)>(h: T, t: seq<T>, k: T, p: T -> bool, q: T -> bool)
    requires forall x :: q(x) <==> x != k
    requires h == k && p(k) && k !in t
    ensures |Filter(Filter([h] + t, q), p)| + 1 == |Filter([h] + t, p)|
  {
    DropRejected(h, t, q);
    KeepAccepted(h, t, p);
  }

  lemma DropRejected<T(!new)>(h: T, t: seq<T>, q: T -> bool)
    requires !q(h)
    requires forall x :: x in t ==> q(x)
    ensures Filter([h] + t, q) == t
  {
    FilterCons(h, t, q);
    FilterKeepsAll(t, q);
  }

  lemma KeepAccepted<T(!new)>(h: T, t: seq<T>, p: T -> bool)
    requires p(h)
    ensures |Filter([h] + t, p)| == 1 + |Filter(t, p)|
  {
    FilterCons(h, t, p);
  }

  lemma KeepHead<T(!new)>(h: T, t: seq<T>, p: T -> bool, q: T -> bool)
    requires q(h)
    requires |Filter(Filter(t, q), p)| + 1 == |Filter(t, p)|
    ensures |Filter(Filter([h] + t, q), p)| + 1 == |Filter([h] + t, p)|
  {
    FilterCons(h, t, q);
    FilterCons(h, t, p);
    FilterCons(h, Filter(t, q), p);
  }

  predicate NoDuplicates<T(==)>(s: seq<T>) {
    forall i, j :: 0 <= i < j < |s| ==> s[i] != s[j]
  }

  /** Filtering keeps a list free of duplicates. */
  lemma {:induction false} FilterNoDuplicates<T(!new)>(s: seq<T>, p: T -> bool)
    requires NoDuplicates(s)
    ensures NoDuplicates(Filter(s, p))
  {
    if s != [] {
      FilterNoDuplicates(s[1..], p);
      assert s[0] !in s[1..];
      assert s[0] !in Filter(s[1..], p);
    }
  }

  /** In a list without duplicates every member occurs once. */
  lemma {:induction false} CountOneWithoutDuplicates<T>(s: seq<T>, x: T)
    requires NoDuplicates(s)
    requires x in s
    ensures multiset(s)[x] == 1
  {
    assert s == [s[0]] + s[1..];
    if s[0] == x {
      assert x !in s[1..];
    } else {
      CountOneWithoutDuplicates(s[1..], x);
    }
  }

  /** Appending an element that is not there yet keeps a list free of duplicates. */
  lemma AppendNoDuplicates<T>(s: seq<T>, x: T)
    requires NoDuplicates(s) && x !in s
    ensures NoDuplicates(s + [x])
  {
    var r := s + [x];
    forall i, j | 0 <= i < j < |r|
      ensures r[i] != r[j]
    {
      if j == |s| {
        assert r[i] == s[i];
      }
    }
  }

  /** `before` orders every pair and is transitive: a key comparison such as `a.count >= b.count`. */
  ghost predicate TotalPreorder<T(!new)>(before: (T, T) -> bool) {
    && (forall a, b :: before(a, b) || before(b, a))
    && (forall a, b, c :: before(a, b) && before(b, c) ==> before(a, c))
  }

  predicate SortedBy<T>(s: seq<T>, before: (T, T) -> bool) {
    forall i, j :: 0 <= i < j < |s| ==> before(s[i], s[j])
  }

  function InsertBy<T(!new)>(x: T, s: seq<T>, before: (T, T) -> bool): (r: seq<T>)
    requires TotalPreorder(before)
    requires SortedBy(s, before)
    ensures multiset(r) == multiset(s) + multiset{x}
    ensures SortedBy(r, before)
  {
    if s == [] || before(x, s[0]) then
      [x] + s
    else
      var rest := InsertBy(x, s[1..], before);
      assert s == [s[0]] + s[1..];
      HeadBeforeRest(x, s, rest, before);
      [s[0]] + rest
  }

  lemma HeadBeforeRest<T(!new)>(x: T, s: seq<T>, rest: seq<T>, before: (T, T) -> bool)
    requires TotalPreorder(before)
    requires SortedBy(s, before)
    requires s != [] && !before(x, s[0])
    requires multiset(rest) == multiset(s[1..]) + multiset{x}
    ensures forall y :: y in rest ==> before(s[0], y)
  {
    forall y | y in rest
      ensures before(s[0], y)
    {
      assert y in multiset(rest);
      if y != x {
        assert y in multiset(s[1..]);
        var k :| 0 <= k < |s[1..]| && s[1..][k] == y;
        assert s[k + 1] == y;
      }
    }
  }

  /** Orders `s` by `before` (insertion sort): a sorted permutation of `s`. */
  function SortBy<T(!new)>(s: seq<T>, before: (T, T) -> bool): (r: seq<T>)
    requires TotalPreorder(before)
    ensures multiset(r) == multiset(s)
    ensures |r| == |s|
    ensures SortedBy(r, before)
  {
    if s == [] then []
    else
      assert s == [s[0]] + s[1..];
      var r := InsertBy(s[0], SortBy(s[1..], before), before);
      assert |r| == |multiset(r)|;
      r
  }

  /** `s.slice(0, n)`, or SQL `LIMIT n`. */
  function Take<T>(s: seq<T>, n: nat): (r: seq<T>)
    ensures |r| == Min(n, |s|)
    ensures r == s[..|r|]
    ensures multiset(r) <= multiset(s)
  {
    var k := Min(n, |s|);
    assert s == s[..k] + s[k..];
    s[..k]
  }
}
