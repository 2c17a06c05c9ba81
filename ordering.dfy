/**
 * `OrderByDescending(key)` and `Take(n)`: a stable insertion sort on an
 * integer key (a timestamp), and the prefix of at most n elements.
 */
module Ordering {
  import opened Seqs

  ghost predicate SortedDesc<T>(s: seq<T>, key: T -> int) {
    forall i, j :: 0 <= i < j < |s| ==> key(s[i]) >= key(s[j])
  }

  /** Inserts `x` before the first element whose key is not larger, so earlier elements stay first on ties. */
  function InsertDesc<T>(x: T, s: seq<T>, key: T -> int): (r: seq<T>)
    requires SortedDesc(s, key)
    ensures |r| == |s| + 1
    ensures multiset(r) == multiset(s) + multiset{x}
    ensures SortedDesc(r, key)
  {
    if |s| == 0 then [x]
    else if key(s[0]) <= key(x) then [x] + s
    else
      var t := InsertDesc(x, s[1..], key);
      assert s == [s[0]] + s[1..];
      HeadDominates(x, s, t, key);
      [s[0]] + t
  }

  /** The head of a sorted sequence is not below `x`'s key nor any later element's, so it stays in front. */
  lemma HeadDominates<T>(x: T, s: seq<T>, t: seq<T>, key: T -> int)
    requires |s| > 0 && SortedDesc(s, key) && key(s[0]) > key(x)
    requires SortedDesc(t, key) && multiset(t) == multiset(s[1..]) + multiset{x}
    ensures SortedDesc([s[0]] + t, key)
  {
    forall k | 0 <= k < |t| ensures key(t[k]) <= key(s[0]) {
      assert t[k] in multiset(t);
      if t[k] != x {
        assert t[k] in s[1..];
      }
    }
  }

  /** `OrderByDescending(key)`. */
  function SortDesc<T(!new)>(s: seq<T>, key: T -> int): (r: seq<T>)
    ensures |r| == |s|
    ensures multiset(r) == multiset(s)
    ensures forall x :: x in r <==> x in s
    ensures SortedDesc(r, key)
  {
    if |s| == 0 then []
    else
      assert s == [s[0]] + s[1..];
      var t := InsertDesc(s[0], SortDesc(s[1..], key), key);
      assert forall x :: x in t <==> x in multiset(t);
      t
  }

  /** `Take(n)`: the first `n` elements, or all of them, or none if `n <= 0`. */
  function Take<T>(s: seq<T>, n: int): (r: seq<T>)
    ensures r <= s
    ensures n <= 0 ==> r == []
    ensures 0 <= n <= |s| ==> |r| == n
    ensures n > |s| ==> r == s
  {
    if n <= 0 then [] else if n < |s| then s[..n] else s
  }

  /** `Take` keeps each element at most as often as it occurs, and all of them when `n` covers the sequence. */
  lemma TakeSubMultiset<T>(s: seq<T>, n: int)
    ensures multiset(Take(s, n)) <= multiset(s)
    ensures n >= |s| ==> multiset(Take(s, n)) == multiset(s)
  {
    var r := Take(s, n);
    assert s == r + s[|r|..];
  }

  /** In a sorted sequence, every element kept by `Take` is at least as large as every element dropped. */
  lemma {:induction false} TakeKeepsLargest<T>(s: seq<T>, n: int, key: T -> int)
    requires SortedDesc(s, key)
    ensures forall x, y :: x in s && x !in Take(s, n) && y in Take(s, n) ==> key(y) >= key(x)
  {
    var r := Take(s, n);
    forall x, y | x in s && x !in r && y in r ensures key(y) >= key(x) {
      var j :| 0 <= j < |s| && s[j] == x;
      var i :| 0 <= i < |r| && r[i] == y;
      assert r[i] == s[i];
    }
  }

  /**
   * `Where(p).OrderByDescending(key).Take(n)`: at most `n` matching elements,
   * largest key first, and no matching element left out has a larger key than
   * one that was kept. `TopNMultiplicity` bounds how often each is kept.
   */
  function TopN<T(!new)>(s: seq<T>, p: T -> bool, key: T -> int, n: int): (r: seq<T>)
    ensures 0 <= n ==> |r| == if n < Count(s, p) then n else Count(s, p)
    ensures n <= 0 ==> r == []
    ensures forall x :: x in r ==> x in s && p(x)
    ensures SortedDesc(r, key)
    ensures forall x, y :: x in s && p(x) && x !in r && y in r ==> key(y) >= key(x)
  {
    var sorted := SortDesc(Filter(s, p), key);
    TakeKeepsLargest(sorted, n, key);
    Take(sorted, n)
  }

  /**
   * `TopN` keeps each element at most as often as `s` holds it, and only a
   * matching one, so none is repeated in place of another; with at most `n`
   * matches it keeps every one of them, as often as `s` holds it.
   */
  lemma TopNMultiplicity<T(!new)>(s: seq<T>, p: T -> bool, key: T -> int, n: int)
    ensures forall x :: multiset(TopN(s, p, key, n))[x] <= if p(x) then multiset(s)[x] else 0
    ensures 0 <= n && Count(s, p) <= n ==>
      forall x :: multiset(TopN(s, p, key, n))[x] == if p(x) then multiset(s)[x] else 0
  {
    var sorted := SortDesc(Filter(s, p), key);
    TakeSubMultiset(sorted, n);
    FilteredMultiplicity(s, p, Take(sorted, n), 0 <= n && Count(s, p) <= n);
  }

  /**
   * A sub-multiset of `Filter(s, p)` holds each element at most as often as
   * `s` does and only if it satisfies `p`; all of it, when `full`.
   */
  lemma FilteredMultiplicity<T(!new)>(s: seq<T>, p: T -> bool, r: seq<T>, full: bool)
    requires multiset(r) <= multiset(Filter(s, p))
    requires full ==> multiset(r) == multiset(Filter(s, p))
    ensures forall x :: multiset(r)[x] <= if p(x) then multiset(s)[x] else 0
    ensures full ==> forall x :: multiset(r)[x] == if p(x) then multiset(s)[x] else 0
  {
    var m := Filter(s, p);
    assert forall x :: multiset(r)[x] <= multiset(m)[x];
  }
}
