/**
 * Ordering "newest first": both the experiment query (ORDER BY date_time DESC) and the
 * record service's findAll (timestamp comparator, reversed) return their rows sorted by a
 * time stamp in descending order. Time stamps are integers (ticks since an epoch).
 */
module Sorting {

  /** Every element is at least as new as every element after it. */
  ghost predicate SortedDesc<T>(s: seq<T>, key: T -> int) {
    forall i, j :: 0 <= i < j < |s| ==> key(s[i]) >= key(s[j])
  }

  /** A head at least as new as everything in a sorted tail keeps the list sorted. */
  lemma SortedCons<T>(h: T, t: seq<T>, key: T -> int)
    requires SortedDesc(t, key)
    requires forall k :: 0 <= k < |t| ==> key(h) >= key(t[k])
    ensures SortedDesc([h] + t, key)
  {
    var r := [h] + t;
    forall i, j | 0 <= i < j < |r| ensures key(r[i]) >= key(r[j]) {
      if i > 0 {
        assert r[i] == t[i - 1] && r[j] == t[j - 1];
      }
    }
  }

  /** Inserts x into a list already sorted newest first, after every element strictly newer. */
  function InsertDesc<T>(x: T, s: seq<T>, key: T -> int): (r: seq<T>)
    requires SortedDesc(s, key)
    ensures SortedDesc(r, key)
    ensures multiset(r) == multiset(s) + multiset{x}
    ensures |r| == |s| + 1
  {
    if s == [] then [x]
    else if key(s[0]) > key(x) then
      var tail := InsertDesc(x, s[1..], key);
      InsertHeadBound(x, s, key, tail);
      SortedCons(s[0], tail, key);
      assert s == [s[0]] + s[1..];
      [s[0]] + tail
    else
      assert forall k :: 0 <= k < |s| ==> key(s[0]) >= key(s[k]);
      SortedCons(x, s, key);
      [x] + s
  }

  lemma InsertHeadBound<T>(x: T, s: seq<T>, key: T -> int, tail: seq<T>)
    requires s != [] && SortedDesc(s, key) && key(s[0]) >= key(x)
    requires multiset(tail) == multiset(s[1..]) + multiset{x}
    ensures forall k :: 0 <= k < |tail| ==> key(s[0]) >= key(tail[k])
  {
    forall k | 0 <= k < |tail| ensures key(s[0]) >= key(tail[k]) {
      assert tail[k] in multiset(tail);
      if tail[k] != x {
        assert tail[k] in multiset(s[1..]);
        var m :| 0 <= m < |s[1..]| && s[1..][m] == tail[k];
        assert s[m + 1] == tail[k];
      }
    }
  }

  /** Insertion sort, newest first; the result is a permutation of the input. */
  function SortDesc<T>(s: seq<T>, key: T -> int): (r: seq<T>)
    ensures SortedDesc(r, key)
    ensures multiset(r) == multiset(s)
    ensures |r| == |s|
  {
    if s == [] then []
    else
      assert s == [s[0]] + s[1..];
      InsertDesc(s[0], SortDesc(s[1..], key), key)
  }
}
