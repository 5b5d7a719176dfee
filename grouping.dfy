/**
 * `groupby` over an ordered table: the groups as a map from the group key
 * to the group's rows, the keys in order of first appearance, and the sums
 * and distinct counts the aggregators reduce each group to.
 */
module Grouping {
  import opened Sorting

  /** The rows whose key is k, in table order (the reference meaning of a group). */
  function Members<T, K(==, !new)>(rows: seq<T>, key: T -> K, k: K): (m: seq<T>)
    ensures |m| <= |rows|
    ensures forall i :: 0 <= i < |m| ==> key(m[i]) == k
    ensures |m| > 0 <==> exists i :: 0 <= i < |rows| && key(rows[i]) == k
  {
    if |rows| == 0 then []
    else
      var init, last := rows[..|rows| - 1], rows[|rows| - 1];
      var m0 := Members(init, key, k);
      assert forall i :: 0 <= i < |init| ==> init[i] == rows[i];
      m0 + (if key(last) == k then [last] else [])
  }

  /** A row appended to a table joins the end of its own group only. */
  lemma MembersAppend<T, K(!new)>(rows: seq<T>, x: T, key: T -> K, k: K)
    ensures Members(rows + [x], key, k) == Members(rows, key, k) + (if key(x) == k then [x] else [])
  {
    assert (rows + [x])[..|rows|] == rows;
  }

  /** A row is a member of a group exactly when it is in the table and has the group's key. */
  lemma {:induction false} MembersIn<T, K(!new)>(rows: seq<T>, key: T -> K, k: K)
    ensures forall x :: x in Members(rows, key, k) <==> x in rows && key(x) == k
  {
    if |rows| > 0 {
      var init := rows[..|rows| - 1];
      MembersIn(init, key, k);
      assert rows == init + [rows[|rows| - 1]];
    }
  }

  /** The group of a concatenation is the concatenation of the groups. */
  lemma {:induction false} MembersConcat<T, K(!new)>(a: seq<T>, b: seq<T>, key: T -> K, k: K)
    ensures Members(a + b, key, k) == Members(a, key, k) + Members(b, key, k)
  {
    if |b| == 0 {
      assert a + b == a;
    } else {
      var init, x := b[..|b| - 1], b[|b| - 1];
      var tail := if key(x) == k then [x] else [];
      MembersConcat(a, init, key, k);
      assert b == init + [x];
      assert a + b == (a + init) + [x];
      MembersAppend(a + init, x, key, k);
      MembersAppend(init, x, key, k);
      assert Members(a + b, key, k) == Members(a + init, key, k) + tail;
      assert Members(b, key, k) == Members(init, key, k) + tail;
      ConcatAssoc(Members(a, key, k), Members(init, key, k), tail);
    }
  }

  /** A table none of whose rows has key k has an empty group k. */
  lemma MembersNone<T, K(!new)>(rows: seq<T>, key: T -> K, k: K)
    requires forall i :: 0 <= i < |rows| ==> key(rows[i]) != k
    ensures Members(rows, key, k) == []
  {
  }

  lemma ConcatAssoc<T>(x: seq<T>, y: seq<T>, z: seq<T>)
    ensures (x + y) + z == x + (y + z)
  {
  }

  /** A table whose rows all have key k is its own group. */
  lemma {:induction false} MembersAll<T, K(!new)>(rows: seq<T>, key: T -> K, k: K)
    requires forall i :: 0 <= i < |rows| ==> key(rows[i]) == k
    ensures Members(rows, key, k) == rows
  {
    if |rows| > 0 {
      var init := rows[..|rows| - 1];
      MembersAll(init, key, k);
      assert rows == init + [rows[|rows| - 1]];
    }
  }

  /** The distinct keys of a table, each once, in order of first appearance. */
  function DistinctKeys<T, K(==, !new)>(rows: seq<T>, key: T -> K): (ks: seq<K>)
    ensures Distinct(ks)
    ensures forall k :: k in ks <==> exists i :: 0 <= i < |rows| && key(rows[i]) == k
  {
    if |rows| == 0 then []
    else
      var init, last := rows[..|rows| - 1], rows[|rows| - 1];
      var ks0 := DistinctKeys(init, key);
      assert forall i :: 0 <= i < |init| ==> init[i] == rows[i];
      ks0 + (if key(last) in ks0 then [] else [key(last)])
  }

  /** The key of every row is among the distinct keys. */
  lemma RowKeyIn<T, K(!new)>(rows: seq<T>, key: T -> K, j: int)
    requires 0 <= j < |rows|
    ensures key(rows[j]) in DistinctKeys(rows, key)
  {
  }

  /** The groups of a table: each key present maps to its rows, built in one pass. */
  function GroupBy<T, K(==, !new)>(rows: seq<T>, key: T -> K): (g: map<K, seq<T>>)
    ensures forall k :: k in g <==> k in DistinctKeys(rows, key)
    ensures forall k :: k in g ==> g[k] == Members(rows, key, k) && |g[k]| > 0
  {
    if |rows| == 0 then map[]
    else
      var init, last := rows[..|rows| - 1], rows[|rows| - 1];
      var g0 := GroupBy(init, key);
      var k := key(last);
      g0[k := (if k in g0 then g0[k] else []) + [last]]
  }

  /** Sum of f over the rows (pandas `sum` of a real column; 0 for no rows). */
  function SumReal<T>(rows: seq<T>, f: T -> real): real {
    if |rows| == 0 then 0.0 else SumReal(rows[..|rows| - 1], f) + f(rows[|rows| - 1])
  }

  lemma SumRealAppend<T>(rows: seq<T>, x: T, f: T -> real)
    ensures SumReal(rows + [x], f) == SumReal(rows, f) + f(x)
  {
    assert (rows + [x])[..|rows|] == rows;
  }

  /** Sum of f over the rows (pandas `sum` of an integer column). */
  function SumInt<T>(rows: seq<T>, f: T -> int): int {
    if |rows| == 0 then 0 else SumInt(rows[..|rows| - 1], f) + f(rows[|rows| - 1])
  }

  lemma SumIntAppend<T>(rows: seq<T>, x: T, f: T -> int)
    ensures SumInt(rows + [x], f) == SumInt(rows, f) + f(x)
  {
    assert (rows + [x])[..|rows|] == rows;
  }

  /** The distinct values of f over the rows; its size is pandas `nunique`. */
  function Image<T, V(==)>(rows: seq<T>, f: T -> V): set<V> {
    set i | 0 <= i < |rows| :: f(rows[i])
  }

  /** Arithmetic mean of f over a non-empty group. */
  function Mean<T>(rows: seq<T>, f: T -> real): real
    requires |rows| > 0
  {
    SumReal(rows, f) / (|rows| as real)
  }
}
