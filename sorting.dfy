/**
 * Swift's `sorted(by:)` / `sort(by:)` take an "are in increasing order"
 * predicate that must be a strict weak order, and promise a permutation of
 * the input in which no element is preceded by one that sorts after it.
 * Swift does not fix the relative order of equivalent elements; this model
 * sorts with a stable insertion sort, one of the orders Swift may produce.
 */
module Sorting {

  /** Asymmetric and negatively transitive: the requirement Swift states for
      `areInIncreasingOrder`. */
  ghost predicate StrictWeakOrder<T(!new)>(lt: (T, T) -> bool)
  {
    && (forall a, b :: lt(a, b) ==> !lt(b, a))
    && (forall a, b, c :: lt(a, c) ==> lt(a, b) || lt(b, c))
  }

  /** No element is preceded by one that must come after it. */
  ghost predicate SortedBy<T>(s: seq<T>, lt: (T, T) -> bool)
  {
    forall i, j :: 0 <= i < j < |s| ==> !lt(s[j], s[i])
  }

  /** Inserts `x` after every element of `s` that sorts before it. */
  function Insert<T>(x: T, s: seq<T>, lt: (T, T) -> bool): (r: seq<T>)
    ensures multiset(r) == multiset(s) + multiset{x}
  {
    if s == [] then [x]
    else if lt(s[0], x) then
      assert s == [s[0]] + s[1..];
      [s[0]] + Insert(x, s[1..], lt)
    else [x] + s
  }

  /** Stable insertion sort. */
  function SortBy<T>(s: seq<T>, lt: (T, T) -> bool): (r: seq<T>)
    ensures multiset(r) == multiset(s)
    ensures |r| == |s|
  {
    if s == [] then []
    else
      assert s == [s[0]] + s[1..];
      Insert(s[0], SortBy(s[1..], lt), lt)
  }

  lemma {:induction false} InsertSorted<T(!new)>(x: T, s: seq<T>, lt: (T, T) -> bool)
    requires StrictWeakOrder(lt) && SortedBy(s, lt)
    ensures SortedBy(Insert(x, s, lt), lt)
  {
    if s != [] {
      if lt(s[0], x) {
        InsertSorted(x, s[1..], lt);
        var r := Insert(x, s[1..], lt);
        forall e | e in multiset(r) ensures !lt(e, s[0]) {
          assert e in multiset(s[1..]) + multiset{x};
          if e in multiset(s[1..]) {
            var k :| 0 <= k < |s[1..]| && s[1..][k] == e;
            assert s[k + 1] == e;
          }
        }
        forall j | 0 <= j < |r| ensures !lt(r[j], s[0]) {
          assert r[j] in multiset(r);
        }
      } else {
        forall j | 0 <= j < |s| ensures !lt(s[j], x) {
          if j > 0 { assert !lt(s[j], s[0]); }
        }
      }
    }
  }

  /** `SortBy` returns a sorted permutation of its input. */
  lemma {:induction false} SortBySorted<T(!new)>(s: seq<T>, lt: (T, T) -> bool)
    requires StrictWeakOrder(lt)
    ensures SortedBy(SortBy(s, lt), lt)
    ensures multiset(SortBy(s, lt)) == multiset(s)
  {
    if s != [] {
      SortBySorted(s[1..], lt);
      InsertSorted(s[0], SortBy(s[1..], lt), lt);
    }
  }

  /** An input that is already sorted comes back unchanged. */
  lemma {:induction false} SortByOfSorted<T>(s: seq<T>, lt: (T, T) -> bool)
    requires SortedBy(s, lt)
    ensures SortBy(s, lt) == s
  {
    if s != [] {
      SortByOfSorted(s[1..], lt);
      if |s| > 1 {
        assert !lt(s[1], s[0]);
        assert s[1..] == [s[1]] + s[2..];
      }
    }
  }

  /** Sorting twice is sorting once. */
  lemma SortByIdempotent<T(!new)>(s: seq<T>, lt: (T, T) -> bool)
    requires StrictWeakOrder(lt)
    ensures SortBy(SortBy(s, lt), lt) == SortBy(s, lt)
  {
    SortBySorted(s, lt);
    SortByOfSorted(SortBy(s, lt), lt);
  }

  /** Cutting a sorted sequence after its first `n` elements drops nothing
      that sorts before a kept element. */
  lemma SortedPrefixKeepsBest<T>(s: seq<T>, lt: (T, T) -> bool, n: nat, x: T, i: nat)
    requires SortedBy(s, lt)
    requires n <= |s| && i < n
    requires x in multiset(s) - multiset(s[..n])
    ensures !lt(x, s[i])
  {
    assert s == s[..n] + s[n..];
    assert multiset(s) == multiset(s[..n]) + multiset(s[n..]);
    assert x in multiset(s[n..]);
    var j :| 0 <= j < |s[n..]| && s[n..][j] == x;
    assert s[n + j] == x;
  }

  /** An element at two positions occurs at least twice. */
  lemma {:induction false} DistinctMultiplicity<T>(s: seq<T>, i: nat, j: nat)
    requires i < j < |s| && s[i] == s[j]
    ensures multiset(s)[s[i]] >= 2
  {
    assert s == s[..j] + [s[j]] + s[j + 1..];
    assert s[i] in s[..j];
    assert multiset(s) == multiset(s[..j]) + multiset{s[j]} + multiset(s[j + 1..]);
  }

  /** In a sequence without repeats every element occurs once. */
  lemma {:induction false} DistinctHasMultiplicityOne<T>(s: seq<T>, x: T)
    requires forall i, j :: 0 <= i < j < |s| ==> s[i] != s[j]
    requires x in s
    ensures multiset(s)[x] == 1
    decreases |s|
  {
    assert s == [s[0]] + s[1..];
    if s[0] == x {
      assert x !in s[1..];
    } else {
      DistinctHasMultiplicityOne(s[1..], x);
    }
  }

  /** Reordering a sequence without repeats leaves it without repeats. */
  lemma PermutationKeepsDistinct<T>(s: seq<T>, t: seq<T>)
    requires multiset(s) == multiset(t)
    requires forall i, j :: 0 <= i < j < |s| ==> s[i] != s[j]
    ensures forall i, j :: 0 <= i < j < |t| ==> t[i] != t[j]
  {
    forall i, j | 0 <= i < j < |t|
      ensures t[i] != t[j]
    {
      if t[i] == t[j] {
        DistinctMultiplicity(t, i, j);
        assert t[i] in multiset(s);
        DistinctHasMultiplicityOne(s, t[i]);
      }
    }
  }

  /** Reordering a sequence keeps its elements. */
  lemma PermutationKeepsMembers<T>(s: seq<T>, t: seq<T>)
    requires multiset(s) == multiset(t)
    ensures forall x :: x in s <==> x in t
  {
    forall x
      ensures x in s <==> x in t
    {
      assert x in s <==> x in multiset(s);
      assert x in t <==> x in multiset(t);
    }
  }
}
