/** Ordering by a two-level key, highest first: the comparators the source
    hands to `Array.prototype.sort`, which is a stable sort. */
module Ranking {

  /** A sort key compared lexicographically: `major` first, then `minor`. */
  datatype Rank = Rank(major: int, minor: int)

  /** `a` ranks at least as high as `b`. */
  predicate AtLeast(a: Rank, b: Rank) {
    a.major > b.major || (a.major == b.major && a.minor >= b.minor)
  }

  /** `a` ranks strictly higher than `b`. */
  predicate Above(a: Rank, b: Rank) {
    !AtLeast(b, a)
  }

  /** Ranks never increase from left to right. */
  ghost predicate SortedBy<T>(s: seq<T>, key: T -> Rank) {
    forall i, j :: 0 <= i < j < |s| ==> AtLeast(key(s[i]), key(s[j]))
  }

  /** Places `x` in front of the first element it ranks at least as high as,
      that is, after every element ranking strictly higher and before the
      equal ones (which came after `x` in the input, so the sort is stable). */
  function Insert<T>(x: T, s: seq<T>, key: T -> Rank): (r: seq<T>)
    requires SortedBy(s, key)
    ensures SortedBy(r, key)
    ensures multiset(r) == multiset(s) + multiset{x}
    ensures |r| == |s| + 1
    decreases |s|
  {
    if |s| == 0 || AtLeast(key(x), key(s[0])) then
      HeadSorted(x, s, key);
      assert s == ([x] + s)[1..];
      [x] + s
    else
      var rest := Insert(x, s[1..], key);
      assert s == [s[0]] + s[1..];
      assert forall e :: e in multiset(rest) ==> AtLeast(key(s[0]), key(e)) by {
        forall e | e in multiset(rest) ensures AtLeast(key(s[0]), key(e)) {
          if e != x {
            HeadDominates(s, key, e);
          }
        }
      }
      ConsSorted(s[0], rest, key);
      assert rest == ([s[0]] + rest)[1..];
      [s[0]] + rest
  }

  /** An element ranking at least as high as the head of a sorted sequence
      may be put in front of it. */
  lemma {:induction false} HeadSorted<T>(x: T, s: seq<T>, key: T -> Rank)
    requires SortedBy(s, key)
    requires |s| == 0 || AtLeast(key(x), key(s[0]))
    ensures SortedBy([x] + s, key)
  {
    var r := [x] + s;
    forall i, j | 0 <= i < j < |r| ensures AtLeast(key(r[i]), key(r[j])) {
      if i > 0 {
        assert r[i] == s[i - 1] && r[j] == s[j - 1];
      } else if j > 1 {
        assert r[j] == s[j - 1];
      }
    }
  }

  /** The head of a sorted sequence ranks at least as high as every other element. */
  lemma {:induction false} HeadDominates<T>(s: seq<T>, key: T -> Rank, e: T)
    requires SortedBy(s, key) && |s| > 0
    requires e in multiset(s[1..])
    ensures AtLeast(key(s[0]), key(e))
  {
    var k :| 0 <= k < |s[1..]| && s[1..][k] == e;
    assert s[k + 1] == e;
  }

  /** An element ranking at least as high as all of a sorted sequence heads it sorted. */
  lemma {:induction false} ConsSorted<T>(h: T, rest: seq<T>, key: T -> Rank)
    requires SortedBy(rest, key)
    requires forall e :: e in multiset(rest) ==> AtLeast(key(h), key(e))
    ensures SortedBy([h] + rest, key)
  {
    var r := [h] + rest;
    forall i, j | 0 <= i < j < |r| ensures AtLeast(key(r[i]), key(r[j])) {
      assert r[j] == rest[j - 1];
      if i > 0 {
        assert r[i] == rest[i - 1];
      } else {
        assert rest[j - 1] in multiset(rest);
      }
    }
  }

  /** Stable sort, highest rank first. */
  function Sort<T>(s: seq<T>, key: T -> Rank): (r: seq<T>)
    ensures SortedBy(r, key)
    ensures multiset(r) == multiset(s)
    ensures |r| == |s|
    decreases |s|
  {
    if |s| == 0 then []
    else
      assert s == [s[0]] + s[1..];
      Insert(s[0], Sort(s[1..], key), key)
  }

  /** Every element left out of a prefix of a sorted sequence ranks no
      higher than the prefix's last element: a prefix is a top-k. */
  lemma {:induction false} PrefixIsTop<T>(s: seq<T>, key: T -> Rank, k: nat, x: T)
    requires SortedBy(s, key) && 0 < k <= |s|
    requires x in multiset(s) && x !in multiset(s[..k])
    ensures AtLeast(key(s[k - 1]), key(x))
  {
    var i :| 0 <= i < |s| && s[i] == x;
    assert i >= k;
  }
}
