/**
 * Ordering of rows: an insertion sort over an arbitrary total preorder (the
 * model of `sort_values` and `sorted`), and the facts about permutations the
 * aggregators need.
 */
module Sorting {

  ghost predicate IsTotal<T(!new)>(le: (T, T) -> bool) {
    forall a, b :: le(a, b) || le(b, a)
  }

  ghost predicate IsTransitive<T(!new)>(le: (T, T) -> bool) {
    forall a, b, c :: le(a, b) && le(b, c) ==> le(a, c)
  }

  ghost predicate IsTotalPreorder<T(!new)>(le: (T, T) -> bool) {
    IsTotal(le) && IsTransitive(le)
  }

  /** Every element may come before every later one. */
  predicate SortedBy<T>(s: seq<T>, le: (T, T) -> bool) {
    forall i, j :: 0 <= i < j < |s| ==> le(s[i], s[j])
  }

  /** No value occurs twice. */
  predicate Distinct<T(==)>(s: seq<T>) {
    forall i, j :: 0 <= i < j < |s| ==> s[i] != s[j]
  }

  /** Inserts x in front of the first element it may precede. */
  function Insert<T(!new)>(x: T, s: seq<T>, le: (T, T) -> bool): (r: seq<T>)
    requires IsTotalPreorder(le)
    requires SortedBy(s, le)
    ensures multiset(r) == multiset(s) + multiset{x}
    ensures SortedBy(r, le)
  {
    if s == [] then [x]
    else if le(x, s[0]) then [x] + s
    else
      var rest := Insert(x, s[1..], le);
      assert forall k :: 0 <= k < |rest| ==> le(s[0], rest[k]) by {
        forall k | 0 <= k < |rest| ensures le(s[0], rest[k]) {
          assert rest[k] in multiset(rest);
          if rest[k] != x {
            assert rest[k] in multiset(s[1..]);
            var m :| 0 <= m < |s[1..]| && s[1..][m] == rest[k];
            assert le(s[0], s[m + 1]);
          }
        }
      }
      assert s == [s[0]] + s[1..];
      [s[0]] + rest
  }

  /** Insertion sort: a sorted permutation of s. */
  function Sort<T(!new)>(s: seq<T>, le: (T, T) -> bool): (r: seq<T>)
    requires IsTotalPreorder(le)
    ensures multiset(r) == multiset(s)
    ensures SortedBy(r, le)
  {
    if s == [] then []
    else
      assert s == [s[0]] + s[1..];
      Insert(s[0], Sort(s[1..], le), le)
  }

  /** Elements that tie under le appear in the order tb gives them. */
  predicate TiesOrderedBy<T>(s: seq<T>, le: (T, T) -> bool, tb: (T, T) -> bool) {
    forall i, j :: 0 <= i < j < |s| && le(s[i], s[j]) && le(s[j], s[i]) ==> tb(s[i], s[j])
  }

  /** Putting h in front keeps the ties in tb's order when h comes first, by tb, among those it ties with. */
  lemma ConsKeepsTies<T>(h: T, s: seq<T>, le: (T, T) -> bool, tb: (T, T) -> bool)
    requires TiesOrderedBy(s, le, tb)
    requires forall y :: y in s && le(h, y) && le(y, h) ==> tb(h, y)
    ensures TiesOrderedBy([h] + s, le, tb)
  {
    var r := [h] + s;
    forall i, j | 0 <= i < j < |r| && le(r[i], r[j]) && le(r[j], r[i]) ensures tb(r[i], r[j]) {
      if i == 0 {
        assert r[j] in s;
      } else {
        assert r[i] == s[i - 1] && r[j] == s[j - 1];
      }
    }
  }

  /** Inserting an element that tb puts before all others keeps the ties in tb's order. */
  lemma {:induction false} InsertKeepsTies<T(!new)>(x: T, s: seq<T>, le: (T, T) -> bool, tb: (T, T) -> bool)
    requires IsTotalPreorder(le) && SortedBy(s, le) && TiesOrderedBy(s, le, tb)
    requires forall y :: y in s ==> tb(x, y)
    ensures TiesOrderedBy(Insert(x, s, le), le, tb)
  {
    if s == [] {
    } else if le(x, s[0]) {
      ConsKeepsTies(x, s, le, tb);
    } else {
      var tail := s[1..];
      assert TiesOrderedBy(tail, le, tb) by {
        forall i, j | 0 <= i < j < |tail| && le(tail[i], tail[j]) && le(tail[j], tail[i]) ensures tb(tail[i], tail[j]) {
          assert tail[i] == s[i + 1] && tail[j] == s[j + 1];
        }
      }
      assert forall y :: y in tail ==> y in s;
      InsertKeepsTies(x, tail, le, tb);
      var rest := Insert(x, tail, le);
      assert Insert(x, s, le) == [s[0]] + rest;
      forall y | y in rest && le(s[0], y) && le(y, s[0]) ensures tb(s[0], y) {
        assert y in multiset(rest);
        if y != x {
          assert y in multiset(tail);
          var m := SeqIndex(tail, y);
          assert y == s[m + 1];
        }
      }
      ConsKeepsTies(s[0], rest, le, tb);
    }
  }

  /** The sort is stable: an input that tb orders keeps that order among ties. */
  lemma {:induction false} SortKeepsTies<T(!new)>(s: seq<T>, le: (T, T) -> bool, tb: (T, T) -> bool)
    requires IsTotalPreorder(le)
    requires forall i, j :: 0 <= i < j < |s| ==> tb(s[i], s[j])
    ensures TiesOrderedBy(Sort(s, le), le, tb)
  {
    if s != [] {
      var tail := s[1..];
      assert forall i, j :: 0 <= i < j < |tail| ==> tail[i] == s[i + 1] && tail[j] == s[j + 1];
      SortKeepsTies(tail, le, tb);
      var t := Sort(tail, le);
      forall y | y in t ensures tb(s[0], y) {
        var k := SeqIndex(t, y);
        var m := MultisetIndex(tail, t, k);
        assert y == s[m + 1];
      }
      InsertKeepsTies(s[0], t, le, tb);
    }
  }

  /** In a stably sorted sequence, a value outside a prefix that ties with one inside comes after it in tb's order. */
  lemma PrefixTiesBeforeRest<T>(s: seq<T>, le: (T, T) -> bool, tb: (T, T) -> bool, h: int, x: T)
    requires SortedBy(s, le) && TiesOrderedBy(s, le, tb) && 0 <= h <= |s|
    requires x in s && x !in s[..h]
    ensures forall i :: 0 <= i < h ==> le(s[i], x) && (le(x, s[i]) ==> tb(s[i], x))
  {
    assert forall i :: 0 <= i < h ==> s[..h][i] == s[i];
    var m := SeqIndex(s, x);
    assert m >= h;
  }

  /** Three entries drawn from two values repeat one. */
  lemma ThreeOfTwo<T>(s: seq<T>, a: T, b: T)
    requires |s| > 2
    requires forall c :: c in s ==> c == a || c == b
    ensures s[0] == s[1] || s[1] == s[2] || s[0] == s[2]
  {
    assert s[0] in s && s[1] in s && s[2] in s;
  }

  /** A position of x in s. */
  lemma SeqIndex<T>(s: seq<T>, x: T) returns (i: int)
    requires x in s
    ensures 0 <= i < |s| && s[i] == x
  {
    i :| 0 <= i < |s| && s[i] == x;
  }

  lemma MultisetIndex<T>(s: seq<T>, r: seq<T>, k: int) returns (m: int)
    requires multiset(s) == multiset(r) && 0 <= k < |r|
    ensures 0 <= m < |s| && s[m] == r[k]
  {
    assert r[k] in multiset(r);
    assert r[k] in s;
    m :| 0 <= m < |s| && s[m] == r[k];
  }

  lemma DistinctCount<T>(s: seq<T>, x: T)
    requires Distinct(s)
    ensures multiset(s)[x] <= 1
  {
    if s != [] {
      assert s == [s[0]] + s[1..];
      DistinctCount(s[1..], x);
      if x == s[0] {
        assert x !in s[1..];
      }
    }
  }

  lemma RepeatedCount<T>(s: seq<T>, i: int, j: int)
    requires 0 <= i < j < |s| && s[i] == s[j]
    ensures multiset(s)[s[i]] >= 2
  {
    assert s == s[..j] + s[j..];
    assert s[i] == s[..j][i];
    assert s[j] == s[j..][0];
    assert multiset(s[..j])[s[i]] >= 1;
    assert multiset(s[j..])[s[i]] >= 1;
  }

  /** A permutation of a sequence without repetitions has none either. */
  lemma PermutationDistinct<T>(s: seq<T>, r: seq<T>)
    requires multiset(s) == multiset(r) && Distinct(s)
    ensures Distinct(r)
  {
    forall i, j | 0 <= i < j < |r| ensures r[i] != r[j] {
      if r[i] == r[j] {
        RepeatedCount(r, i, j);
        DistinctCount(s, r[i]);
      }
    }
  }
}
