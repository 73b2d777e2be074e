/**
 * Sorting by a real-valued key, largest key first: the role `std::sort` with a
 * "greater" comparison plays in the engine. Elements with equal keys are left in
 * one fixed order, which is one of the orders `std::sort` may produce.
 */
module Sorting {

  /** `s` is ordered by non-increasing key. */
  predicate Descending<T>(s: seq<T>, key: T -> real) {
    forall i, j :: 0 <= i < j < |s| ==> key(s[i]) >= key(s[j])
  }

  /** `x` inserted into `s` before the first element whose key is not larger. */
  function Insert<T>(x: T, s: seq<T>, key: T -> real): (r: seq<T>)
    requires Descending(s, key)
    ensures multiset(r) == multiset(s) + multiset{x} && |r| == |s| + 1
    ensures Descending(r, key)
  {
    if s == [] || key(x) >= key(s[0]) then [x] + s
    else
      var rest := Insert(x, s[1..], key);
      InsertBehind(x, s, rest, key);
      [s[0]] + rest
  }

  /** The step of `Insert` that keeps the head: `x` went into the ordered tail. */
  lemma InsertBehind<T>(x: T, s: seq<T>, rest: seq<T>, key: T -> real)
    requires s != [] && Descending(s, key) && key(x) < key(s[0])
    requires multiset(rest) == multiset(s[1..]) + multiset{x} && Descending(rest, key)
    ensures multiset([s[0]] + rest) == multiset(s) + multiset{x}
    ensures Descending([s[0]] + rest, key)
  {
    var tail := s[1..];
    assert s == [s[0]] + tail;
    assert multiset(rest) == multiset(tail + [x]);
    AllAtMost(rest, tail + [x], key, key(s[0]));
    ConsDescending(s[0], rest, key);
  }

  /** An element whose key bounds an ordered list can go in front of it. */
  lemma ConsDescending<T>(h: T, s: seq<T>, key: T -> real)
    requires Descending(s, key) && forall k :: 0 <= k < |s| ==> key(s[k]) <= key(h)
    ensures Descending([h] + s, key)
  {
    var r := [h] + s;
    forall i, j | 0 <= i < j < |r| ensures key(r[i]) >= key(r[j]) {
      assert r[j] == s[j - 1];
      if i > 0 {
        assert r[i] == s[i - 1];
      }
    }
  }

  /** A rearrangement of a list whose keys are at most `b` has keys at most `b`. */
  lemma AllAtMost<T>(ys: seq<T>, xs: seq<T>, key: T -> real, b: real)
    requires forall i :: 0 <= i < |xs| ==> key(xs[i]) <= b
    requires multiset(ys) == multiset(xs)
    ensures forall k :: 0 <= k < |ys| ==> key(ys[k]) <= b
  {
    forall k | 0 <= k < |ys| ensures key(ys[k]) <= b {
      assert ys[k] in multiset(xs);
      var m :| 0 <= m < |xs| && xs[m] == ys[k];
    }
  }

  /** Insertion sort by non-increasing key. */
  function SortDescending<T>(s: seq<T>, key: T -> real): (r: seq<T>)
    ensures multiset(r) == multiset(s) && |r| == |s|
    ensures Descending(r, key)
  {
    if s == [] then []
    else
      assert s == [s[0]] + s[1..];
      Insert(s[0], SortDescending(s[1..], key), key)
  }

  /** A list that is already in order comes back unchanged. */
  lemma {:induction false} SortDescendingSorted<T>(s: seq<T>, key: T -> real)
    requires Descending(s, key)
    ensures SortDescending(s, key) == s
  {
    if s != [] {
      var tail := s[1..];
      assert Descending(tail, key);
      SortDescendingSorted(tail, key);
      assert tail == [] || key(s[0]) >= key(tail[0]);
      assert Insert(s[0], tail, key) == [s[0]] + tail;
      assert [s[0]] + tail == s;
    }
  }

  /** A prefix of an ordered list is ordered and holds elements of the list only. */
  lemma PrefixOfDescending<T>(s: seq<T>, key: T -> real, c: nat)
    requires Descending(s, key) && c <= |s|
    ensures Descending(s[..c], key)
    ensures multiset(s[..c]) <= multiset(s)
    ensures forall x :: x in s[..c] ==> x in s
  {
    assert s == s[..c] + s[c..];
    assert multiset(s) == multiset(s[..c]) + multiset(s[c..]);
  }

  /** `s` cut or extended to length `n`, new places holding `d` (what `resize` does). */
  function Resize<T>(s: seq<T>, n: nat, d: T): (r: seq<T>)
    ensures |r| == n
    ensures forall k :: 0 <= k < n ==> r[k] == if k < |s| then s[k] else d
  {
    if n <= |s| then s[..n] else s + seq(n - |s|, _ => d)
  }

  /** No element left out of a prefix of an ordered list has a larger key than the
      prefix's last element. */
  lemma PrefixBoundsRest<T>(s: seq<T>, key: T -> real, c: nat)
    requires Descending(s, key) && 0 < c <= |s|
    ensures forall x :: x in multiset(s) - multiset(s[..c]) ==> key(x) <= key(s[c - 1])
  {
    assert s == s[..c] + s[c..];
    assert multiset(s) == multiset(s[..c]) + multiset(s[c..]);
    forall x | x in multiset(s) - multiset(s[..c]) ensures key(x) <= key(s[c - 1]) {
      assert x in multiset(s[c..]);
      var j :| 0 <= j < |s[c..]| && s[c..][j] == x;
      assert key(s[c - 1]) >= key(s[c + j]);
    }
  }

  /** Resizing to a smaller length keeps the prefix. */
  lemma ResizeShrinks<T>(s: seq<T>, n: nat, d: T)
    requires n <= |s|
    ensures Resize(s, n, d) == s[..n]
  {
  }
}
