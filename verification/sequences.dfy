/**
 * The array operations the page scripts use on their collections:
 * `filter`, the first-occurrence deduplication of `Array.from(new Set(...))`,
 * `indexOf`, and the stable `sort` with a numeric comparator.
 */
module Sequences {

  /** `s.filter(p)` */
  function Filter<T>(s: seq<T>, p: T -> bool): (r: seq<T>)
    ensures |r| <= |s|
    ensures forall k :: 0 <= k < |r| ==> r[k] in s && p(r[k])
    ensures forall k :: 0 <= k < |s| && p(s[k]) ==> s[k] in r
  {
    if s == [] then [] else (if p(s[0]) then [s[0]] else []) + Filter(s[1..], p)
  }

  /** `idx` lists, in increasing order, the positions of `s` that `r` was taken from. */
  ghost predicate EmbedsAt<T>(r: seq<T>, s: seq<T>, idx: seq<nat>)
  {
    |idx| == |r| &&
    (forall k :: 0 <= k < |idx| ==> idx[k] < |s| && r[k] == s[idx[k]]) &&
    (forall k, l :: 0 <= k < l < |idx| ==> idx[k] < idx[l])
  }

  /** `r` is `s` with some elements deleted and the rest kept in order. */
  ghost predicate IsSubsequence<T>(r: seq<T>, s: seq<T>)
  {
    exists idx :: EmbedsAt(r, s, idx)
  }

  ghost function Shift(idx: seq<nat>): (r: seq<nat>)
    ensures |r| == |idx| && forall k :: 0 <= k < |idx| ==> r[k] == idx[k] + 1
  {
    seq(|idx|, k requires 0 <= k < |idx| => idx[k] + 1)
  }

  /** The positions `Filter` keeps. */
  ghost function FilterPositions<T>(s: seq<T>, p: T -> bool): seq<nat>
  {
    if s == [] then [] else (if p(s[0]) then [0] else []) + Shift(FilterPositions(s[1..], p))
  }

  lemma {:induction false} FilterEmbeds<T>(s: seq<T>, p: T -> bool)
    ensures EmbedsAt(Filter(s, p), s, FilterPositions(s, p))
  {
    if s != [] {
      var r, idx := Filter(s[1..], p), FilterPositions(s[1..], p);
      FilterEmbeds(s[1..], p);
      EmbedsInTail(r, s, idx);
      if p(s[0]) {
        EmbedsWithHead(r, s, Shift(idx));
        assert Filter(s, p) == [s[0]] + r;
      } else {
        assert Filter(s, p) == r;
      }
    }
  }

  lemma EmbedsInTail<T>(r: seq<T>, s: seq<T>, idx: seq<nat>)
    requires s != [] && EmbedsAt(r, s[1..], idx)
    ensures EmbedsAt(r, s, Shift(idx))
  {
    var t := Shift(idx);
    forall k | 0 <= k < |t| ensures t[k] < |s| && r[k] == s[t[k]] {
      assert s[1..][idx[k]] == s[idx[k] + 1];
    }
  }

  lemma EmbedsWithHead<T>(r: seq<T>, s: seq<T>, idx: seq<nat>)
    requires s != [] && EmbedsAt(r, s, idx)
    requires forall k :: 0 <= k < |idx| ==> idx[k] > 0
    ensures EmbedsAt([s[0]] + r, s, [0] + idx)
  {
    var t := [0] + idx;
    forall k, l | 0 <= k < l < |t| ensures t[k] < t[l] {
      if k > 0 {
        assert t[k] == idx[k - 1] && t[l] == idx[l - 1];
      }
    }
  }

  /** A filter keeps an order-preserving subsequence of its input. */
  lemma FilterIsSubsequence<T>(s: seq<T>, p: T -> bool)
    ensures IsSubsequence(Filter(s, p), s)
  {
    FilterEmbeds(s, p);
  }

  /** A filter that keeps everything returns its input unchanged. */
  lemma {:induction false} FilterKeepsAll<T>(s: seq<T>, p: T -> bool)
    requires forall k :: 0 <= k < |s| ==> p(s[k])
    ensures Filter(s, p) == s
  {
    if s != [] {
      FilterKeepsAll(s[1..], p);
      assert [s[0]] + s[1..] == s;
    }
  }

  /** A filter that keeps nothing returns the empty sequence. */
  lemma {:induction false} FilterKeepsNone<T>(s: seq<T>, p: T -> bool)
    requires forall k :: 0 <= k < |s| ==> !p(s[k])
    ensures Filter(s, p) == []
  {
    if s != [] {
      FilterKeepsNone(s[1..], p);
    }
  }

  /** Two filters in a row are one filter by the conjunction. */
  lemma {:induction false} FilterFilter<T>(s: seq<T>, p: T -> bool, q: T -> bool, both: T -> bool)
    requires forall x :: both(x) == (p(x) && q(x))
    ensures Filter(Filter(s, p), q) == Filter(s, both)
  {
    if s != [] {
      FilterFilter(s[1..], p, q, both);
      var head := if p(s[0]) then [s[0]] else [];
      assert Filter(s, p) == head + Filter(s[1..], p);
      FilterAppend(head, Filter(s[1..], p), q);
    }
  }

  lemma {:induction false} FilterAppend<T>(a: seq<T>, b: seq<T>, p: T -> bool)
    ensures Filter(a + b, p) == Filter(a, p) + Filter(b, p)
  {
    if a == [] {
      assert a + b == b;
    } else {
      assert (a + b)[1..] == a[1..] + b;
      FilterAppend(a[1..], b, p);
    }
  }

  /** Filters by two predicates that agree everywhere keep the same elements. */
  lemma {:induction false} FilterSame<T>(s: seq<T>, p: T -> bool, q: T -> bool)
    requires forall x :: p(x) == q(x)
    ensures Filter(s, p) == Filter(s, q)
  {
    if s != [] {
      FilterSame(s[1..], p, q);
    }
  }

  /** Filtering twice by the same predicate changes nothing more. */
  lemma FilterIdempotent<T>(s: seq<T>, p: T -> bool)
    ensures Filter(Filter(s, p), p) == Filter(s, p)
  {
    FilterKeepsAll(Filter(s, p), p);
  }

  predicate NoDuplicates<T(==)>(s: seq<T>)
  {
    forall k, l :: 0 <= k < l < |s| ==> s[k] != s[l]
  }

  /** `Array.from(new Set(s))`: each value once, in the order of its first occurrence. */
  function Dedup<T(==)>(s: seq<T>): (r: seq<T>)
    ensures NoDuplicates(r)
    ensures forall k :: 0 <= k < |r| ==> r[k] in s
    ensures forall k :: 0 <= k < |s| ==> s[k] in r
  {
    if s == [] then []
    else
      var r := Dedup(s[..|s| - 1]);
      assert s == s[..|s| - 1] + [s[|s| - 1]];
      if s[|s| - 1] in r then r else r + [s[|s| - 1]]
  }

  /** `s.indexOf(x)`: the first position of `x`, or -1. */
  function IndexOf<T(==)>(s: seq<T>, x: T): (i: int)
    ensures -1 <= i < |s|
    ensures i == -1 <==> x !in s
    ensures i >= 0 ==> s[i] == x && forall k :: 0 <= k < i ==> s[k] != x
  {
    if s == [] then -1
    else if s[0] == x then 0
    else
      var i := IndexOf(s[1..], x);
      if i == -1 then -1 else i + 1
  }

  /** `Dedup` keeps first occurrences in order. */
  lemma {:induction false} DedupFirstOccurrenceOrder<T>(s: seq<T>, k: nat, l: nat)
    requires k < l < |Dedup(s)|
    ensures IndexOf(s, Dedup(s)[k]) < IndexOf(s, Dedup(s)[l])
  {
    var init := s[..|s| - 1];
    var r := Dedup(init);
    assert s == init + [s[|s| - 1]];
    IndexOfPrefix(init, s[|s| - 1], Dedup(s)[k]);
    if l < |r| {
      DedupFirstOccurrenceOrder(init, k, l);
      IndexOfPrefix(init, s[|s| - 1], Dedup(s)[l]);
    } else {
      assert Dedup(s)[l] == s[|s| - 1] && s[|s| - 1] !in init;
      assert IndexOf(s, Dedup(s)[l]) == |s| - 1;
    }
  }

  lemma IndexOfPrefix<T>(init: seq<T>, last: T, x: T)
    requires x in init
    ensures IndexOf(init + [last], x) == IndexOf(init, x)
  {
    var i := IndexOf(init, x);
    var j := IndexOf(init + [last], x);
    assert (init + [last])[i] == x;
    assert init[j] == (init + [last])[j];
  }

  /** The result of sorting by `key`: keys never decrease. */
  predicate SortedBy<T>(s: seq<T>, key: T -> int)
  {
    forall k, l :: 0 <= k < l < |s| ==> key(s[k]) <= key(s[l])
  }

  /** Puts `x` before the first element whose key is not smaller. */
  function InsertBy<T>(x: T, s: seq<T>, key: T -> int): seq<T>
  {
    if s == [] then [x]
    else if key(x) <= key(s[0]) then [x] + s
    else [s[0]] + InsertBy(x, s[1..], key)
  }

  /**
   * `s.sort((a, b) => key(a) - key(b))`: the sort is stable, so among equal keys
   * the input order is kept.
   */
  function SortBy<T>(s: seq<T>, key: T -> int): seq<T>
  {
    if s == [] then [] else InsertBy(s[0], SortBy(s[1..], key), key)
  }

  /** Selects the elements whose key is `k`. */
  function KeyIs<T>(key: T -> int, k: int): T -> bool
  {
    x => key(x) == k
  }

  /** A head no larger than every key of a sorted tail keeps it sorted. */
  lemma SortedCons<T>(h: T, t: seq<T>, key: T -> int)
    requires SortedBy(t, key)
    requires forall k :: 0 <= k < |t| ==> key(h) <= key(t[k])
    ensures SortedBy([h] + t, key)
  {
    var r := [h] + t;
    forall k, l | 0 <= k < l < |r| ensures key(r[k]) <= key(r[l]) {
      if k > 0 {
        assert r[k] == t[k - 1] && r[l] == t[l - 1];
      }
    }
  }

  lemma {:induction false} InsertByElements<T>(x: T, s: seq<T>, key: T -> int)
    ensures |InsertBy(x, s, key)| == |s| + 1
    ensures x in InsertBy(x, s, key)
    ensures forall y {:trigger y in InsertBy(x, s, key)} :: y in InsertBy(x, s, key) ==> y == x || y in s
    ensures forall y {:trigger y in s} :: y in s ==> y in InsertBy(x, s, key)
  {
    if s != [] && key(x) > key(s[0]) {
      InsertByElements(x, s[1..], key);
      assert s == [s[0]] + s[1..];
    }
  }

  lemma {:induction false} InsertBySorted<T>(x: T, s: seq<T>, key: T -> int)
    requires SortedBy(s, key)
    ensures SortedBy(InsertBy(x, s, key), key)
  {
    if s == [] {
    } else if key(x) <= key(s[0]) {
      SortedCons(x, s, key);
    } else {
      var t := InsertBy(x, s[1..], key);
      InsertBySorted(x, s[1..], key);
      InsertByElements(x, s[1..], key);
      forall k | 0 <= k < |t| ensures key(s[0]) <= key(t[k]) {
        assert t[k] in t;
        if t[k] != x {
          assert t[k] in s[1..];
          var j :| 0 <= j < |s[1..]| && s[1..][j] == t[k];
          assert s[j + 1] == t[k];
        }
      }
      SortedCons(s[0], t, key);
    }
  }

  lemma {:induction false} InsertByPermutation<T>(x: T, s: seq<T>, key: T -> int)
    ensures multiset(InsertBy(x, s, key)) == multiset(s) + multiset{x}
  {
    if s != [] && key(x) > key(s[0]) {
      InsertByPermutation(x, s[1..], key);
      assert s == [s[0]] + s[1..];
    }
  }

  lemma {:induction false} InsertByKey<T>(x: T, s: seq<T>, key: T -> int, k: int)
    ensures Filter(InsertBy(x, s, key), KeyIs(key, k)) ==
      (if key(x) == k then [x] else []) + Filter(s, KeyIs(key, k))
  {
    if s != [] && key(x) > key(s[0]) {
      InsertByKey(x, s[1..], key, k);
      assert InsertBy(x, s, key)[1..] == InsertBy(x, s[1..], key);
      if key(x) == k {
        assert !KeyIs(key, k)(s[0]);
      }
    }
  }

  /** Sorting yields non-decreasing keys and a permutation of the input. */
  lemma {:induction false} SortBySortedPermutation<T>(s: seq<T>, key: T -> int)
    ensures SortedBy(SortBy(s, key), key)
    ensures multiset(SortBy(s, key)) == multiset(s)
  {
    if s != [] {
      SortBySortedPermutation(s[1..], key);
      InsertBySorted(s[0], SortBy(s[1..], key), key);
      InsertByPermutation(s[0], SortBy(s[1..], key), key);
      assert [s[0]] + s[1..] == s;
    }
  }

  /** Stability: the elements of each key come out in their input order. */
  lemma {:induction false} SortByStable<T>(s: seq<T>, key: T -> int, k: int)
    ensures Filter(SortBy(s, key), KeyIs(key, k)) == Filter(s, KeyIs(key, k))
  {
    if s != [] {
      SortByStable(s[1..], key, k);
      InsertByKey(s[0], SortBy(s[1..], key), key, k);
    }
  }
}
