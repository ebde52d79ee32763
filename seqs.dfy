/** Generic facts about lists used by the cache, the batch loader and the favourites store. */
module Seqs {
  predicate NoDuplicates<T(==)>(s: seq<T>) {
    forall i, j :: 0 <= i < j < |s| ==> s[i] != s[j]
  }

  /** Without duplicates, the front of a list has none and does not hold the last element. */
  lemma DistinctFront<T>(s: seq<T>)
    requires s != [] && NoDuplicates(s)
    ensures NoDuplicates(s[..|s| - 1]) && s[|s| - 1] !in s[..|s| - 1]
  {
    var front := s[..|s| - 1];
    forall i, j | 0 <= i < j < |front| ensures front[i] != front[j] {
      assert front[i] == s[i] && front[j] == s[j];
    }
    forall k | 0 <= k < |front| ensures front[k] != s[|s| - 1] {
      assert front[k] == s[k];
    }
  }

  /** Appending an element that is not there keeps a list free of duplicates. */
  lemma DistinctSnoc<T>(d: seq<T>, x: T)
    requires NoDuplicates(d) && x !in d
    ensures NoDuplicates(d + [x])
  {
    var r := d + [x];
    forall i, j | 0 <= i < j < |r| ensures r[i] != r[j] {
      assert r[i] == d[i];
      if j < |d| {
        assert r[j] == d[j];
      }
    }
  }

  /** The elements that satisfy `p`, in their order. */
  function Filter<T>(s: seq<T>, p: T -> bool): seq<T> {
    if s == [] then []
    else Filter(s[..|s| - 1], p) + if p(s[|s| - 1]) then [s[|s| - 1]] else []
  }

  /** What one predicate keeps and its negation keeps make up the list. */
  lemma {:induction false} FilterPartition<T>(s: seq<T>, p: T -> bool, q: T -> bool)
    requires forall x :: q(x) == !p(x)
    ensures multiset(Filter(s, p)) + multiset(Filter(s, q)) == multiset(s)
  {
    if s != [] {
      var front, x := s[..|s| - 1], s[|s| - 1];
      FilterPartition(front, p, q);
      PartitionSnoc(front, x, Filter(front, p), Filter(front, q), p(x));
      assert s == front + [x];
    }
  }

  /** Sending the next element to one side of a partition partitions the longer list. */
  lemma PartitionSnoc<T>(front: seq<T>, x: T, kept: seq<T>, dropped: seq<T>, keep: bool)
    requires multiset(kept) + multiset(dropped) == multiset(front)
    ensures multiset(kept + if keep then [x] else []) + multiset(dropped + if keep then [] else [x]) == multiset(front + [x])
  {
  }

  /** Putting the same element in front keeps one list the other plus `y`. */
  lemma ConsAdded<T>(x: T, l: seq<T>, t: seq<T>, y: T)
    requires multiset(l) == multiset(t) + multiset{y}
    ensures multiset([x] + l) == multiset([x] + t) + multiset{y}
  {
  }

  /** When one of two fronts is empty, their order does not matter. */
  lemma SwapEmpty<T>(a: seq<T>, b: seq<T>, t: seq<T>)
    requires a == [] || b == []
    ensures a + (b + t) == b + (a + t)
  {
    if a == [] {
      assert a + (b + t) == b + t && a + t == t;
    } else {
      assert b + (a + t) == a + t && b + t == t;
    }
  }

  /** Where each part of a four-part concatenation sits. */
  lemma Layout4<T>(a: seq<T>, b: seq<T>, c: seq<T>, d: seq<T>)
    ensures var f := a + b + c + d;
      && |f| == |a| + |b| + |c| + |d|
      && f[..|a|] == a
      && f[|a|..|a| + |b|] == b
      && f[|a| + |b|..|a| + |b| + |c|] == c
      && f[|a| + |b| + |c|..] == d
  {
    var f := a + b + c + d;
    assert f[..|a|] == a;
    assert f[|a|..|a| + |b|] == b;
    assert f[|a| + |b|..|a| + |b| + |c|] == c;
    assert f[|a| + |b| + |c|..] == d;
  }

  /** Where each part of a five-part concatenation sits. */
  lemma Layout5<T>(a: seq<T>, b: seq<T>, c: seq<T>, d: seq<T>, e: seq<T>)
    ensures var f := a + b + c + d + e;
      && |f| == |a| + |b| + |c| + |d| + |e|
      && f[..|a|] == a
      && f[|a|..|a| + |b|] == b
      && f[|a| + |b|..|a| + |b| + |c|] == c
      && f[|a| + |b| + |c|..|a| + |b| + |c| + |d|] == d
      && f[|a| + |b| + |c| + |d|..] == e
  {
    var f := a + b + c + d + e;
    assert f[..|a|] == a;
    assert f[|a|..|a| + |b|] == b;
    assert f[|a| + |b|..|a| + |b| + |c|] == c;
    assert f[|a| + |b| + |c|..|a| + |b| + |c| + |d|] == d;
    assert f[|a| + |b| + |c| + |d|..] == e;
  }

  /** `Array.prototype.indexOf`: the first position of `x`, or -1. */
  function IndexOf<T(==)>(s: seq<T>, x: T): (r: int)
    ensures -1 <= r < |s|
    ensures r >= 0 <==> x in s
    ensures r >= 0 ==> s[r] == x && forall j :: 0 <= j < r ==> s[j] != x
  {
    if s == [] then -1
    else if s[0] == x then 0
    else
      var k := IndexOf(s[1..], x);
      assert forall j :: 1 <= j < |s| ==> s[j] == s[1..][j - 1];
      if k < 0 then -1 else k + 1
  }

  /** The first position of an element that occurs in a prefix is its first position in the whole list. */
  lemma IndexOfInPrefix<T>(s: seq<T>, n: nat, x: T)
    requires n <= |s| && x in s[..n]
    ensures IndexOf(s, x) == IndexOf(s[..n], x)
  {
    assert forall j :: 0 <= j < n ==> s[..n][j] == s[j];
  }

  /** An element occurs at most once in a list without duplicates. */
  lemma {:induction false} CountInDistinct<T>(u: seq<T>, x: T)
    requires NoDuplicates(u)
    ensures multiset(u)[x] <= 1
  {
    if u != [] {
      var front := u[..|u| - 1];
      assert u == front + [u[|u| - 1]];
      assert NoDuplicates(front) by {
        forall i, j | 0 <= i < j < |front| ensures front[i] != front[j] {
          assert front[i] == u[i] && front[j] == u[j];
        }
      }
      CountInDistinct(front, x);
      if x == u[|u| - 1] {
        assert forall k :: 0 <= k < |front| ==> front[k] != x by {
          forall k | 0 <= k < |front| ensures front[k] != x {
            assert front[k] == u[k];
          }
        }
        assert x !in front;
      }
    }
  }

  /** An element at two positions occurs at least twice. */
  lemma CountTwice<T>(v: seq<T>, i: nat, j: nat)
    requires i < j < |v|
    ensures v[i] == v[j] ==> multiset(v)[v[i]] >= 2
  {
    assert v == v[..i] + [v[i]] + v[i + 1..j] + [v[j]] + v[j + 1..];
  }

  /** A list whose elements occur within a list without duplicates has none itself. */
  lemma SubMultisetDistinct<T>(v: seq<T>, u: seq<T>)
    requires NoDuplicates(u) && multiset(v) <= multiset(u)
    ensures NoDuplicates(v)
  {
    forall i, j | 0 <= i < j < |v| ensures v[i] != v[j] {
      CountInDistinct(u, v[i]);
      CountTwice(v, i, j);
    }
  }

  /** Distinct requested ids have distinct positions. */
  lemma IndexOfInjective<T>(u: seq<T>, x: T, y: T)
    requires x in u && y in u && x != y
    ensures IndexOf(u, x) != IndexOf(u, y)
  {
  }
}
