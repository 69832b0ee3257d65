/**
 * The order in which Python compares strings (and pandas sorts group keys): lexicographic by
 * code point, a proper prefix coming before any of its extensions.
 */
module StringOrder {

  predicate Less(a: string, b: string)
    decreases |a|
  {
    if a == [] then b != []
    else if b == [] then false
    else a[0] < b[0] || (a[0] == b[0] && Less(a[1..], b[1..]))
  }

  lemma {:induction false} LessIrreflexive(a: string)
    ensures !Less(a, a)
    decreases |a|
  {
    if a != [] {
      LessIrreflexive(a[1..]);
    }
  }

  lemma {:induction false} LessTransitive(a: string, b: string, c: string)
    requires Less(a, b) && Less(b, c)
    ensures Less(a, c)
    decreases |a|
  {
    if a != [] && b != [] && c != [] && a[0] == b[0] == c[0] {
      LessTransitive(a[1..], b[1..], c[1..]);
    }
  }

  /** Two different strings are always ordered one way or the other. */
  lemma {:induction false} LessTotal(a: string, b: string)
    ensures a == b || Less(a, b) || Less(b, a)
    decreases |a|
  {
    if a != [] && b != [] && a[0] == b[0] {
      LessTotal(a[1..], b[1..]);
      if a[1..] == b[1..] {
        assert a == [a[0]] + a[1..] && b == [b[0]] + b[1..];
      }
    }
  }

  /** (electrolyte, mode): the key by which experiments are grouped. */
  type Pair = (string, string)

  /** Python's tuple comparison: by the first component, then by the second. */
  predicate PairLess(p: Pair, q: Pair) {
    Less(p.0, q.0) || (p.0 == q.0 && Less(p.1, q.1))
  }

  lemma PairLessIrreflexive(p: Pair)
    ensures !PairLess(p, p)
  {
    LessIrreflexive(p.0);
    LessIrreflexive(p.1);
  }

  lemma PairLessTransitive(p: Pair, q: Pair, r: Pair)
    requires PairLess(p, q) && PairLess(q, r)
    ensures PairLess(p, r)
  {
    if Less(p.0, q.0) && Less(q.0, r.0) {
      LessTransitive(p.0, q.0, r.0);
    } else if Less(p.1, q.1) && Less(q.1, r.1) {
      LessTransitive(p.1, q.1, r.1);
    }
  }

  lemma PairLessTotal(p: Pair, q: Pair)
    ensures p == q || PairLess(p, q) || PairLess(q, p)
  {
    LessTotal(p.0, q.0);
    LessTotal(p.1, q.1);
  }

  /** Strictly increasing: sorted, and therefore without repeated keys. */
  ghost predicate StrictlySorted(s: seq<Pair>) {
    forall i, j :: 0 <= i < j < |s| ==> PairLess(s[i], s[j])
  }

  /** Adds k to a strictly sorted list of keys, unless it is already there. */
  function InsertPair(k: Pair, s: seq<Pair>): (r: seq<Pair>)
    requires StrictlySorted(s)
    ensures StrictlySorted(r)
    ensures forall x :: x in r <==> x == k || x in s
    ensures |r| == if k in s then |s| else |s| + 1
  {
    if s == [] then [k]
    else if k == s[0] then s
    else if PairLess(k, s[0]) then
      forall j | 0 <= j < |s| ensures PairLess(k, s[j]) {
        if j > 0 { PairLessTransitive(k, s[0], s[j]); }
      }
      forall j | 0 <= j < |s| ensures s[j] != k {
        if s[j] == k { PairLessIrreflexive(k); }
      }
      [k] + s
    else
      PairLessTotal(k, s[0]);
      var tail := InsertPair(k, s[1..]);
      assert s == [s[0]] + s[1..];
      forall j | 0 <= j < |tail| ensures PairLess(s[0], tail[j]) {
        assert tail[j] in tail;
        if tail[j] != k {
          var m :| 0 <= m < |s[1..]| && s[1..][m] == tail[j];
          assert s[m + 1] == tail[j];
        }
      }
      [s[0]] + tail
  }

  /** A strictly sorted list holds each key at most once. */
  lemma StrictlySortedDistinct(s: seq<Pair>)
    requires StrictlySorted(s)
    ensures forall i, j :: 0 <= i < |s| && 0 <= j < |s| && i != j ==> s[i] != s[j]
  {
    forall i, j | 0 <= i < |s| && 0 <= j < |s| && i != j ensures s[i] != s[j] {
      if i < j { PairLessIrreflexive(s[i]); } else { PairLessIrreflexive(s[j]); }
    }
  }
}
