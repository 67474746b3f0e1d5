/** Ordering of table rows by a real-valued column, the model of pandas
    `sort_values`. pandas sorts with an unstable quicksort, so the order among
    rows with equal keys is not specified there; the model fixes one order (a
    stable insertion sort) and only its sortedness and permutation properties
    are relied on elsewhere. */
module Sorting {

  ghost predicate SortedDesc<T>(s: seq<T>, key: T -> real)
  {
    forall i, j :: 0 <= i < j < |s| ==> key(s[i]) >= key(s[j])
  }

  /** Sum of `f` over the rows, in row order. */
  function SumOf<T>(s: seq<T>, f: T -> real): real
  {
    if s == [] then 0.0 else f(s[0]) + SumOf(s[1..], f)
  }

  /** Places `x` after every row whose key is at least its own. */
  function Insert<T>(x: T, s: seq<T>, key: T -> real): (r: seq<T>)
    requires SortedDesc(s, key)
    ensures |r| == |s| + 1
    ensures SortedDesc(r, key)
    ensures SumOf(r, key) == key(x) + SumOf(s, key)
    ensures r[0] == x || (s != [] && r[0] == s[0])
  {
    if s == [] then [x]
    else if key(s[0]) >= key(x) then
      var rest := Insert(x, s[1..], key);
      assert s == [s[0]] + s[1..];
      assert ([s[0]] + rest)[1..] == rest;
      [s[0]] + rest
    else
      assert ([x] + s)[1..] == s;
      [x] + s
  }

  /** Inserting adds exactly one occurrence of `x`. */
  lemma {:induction false} InsertPermutes<T>(x: T, s: seq<T>, key: T -> real)
    requires SortedDesc(s, key)
    ensures multiset(Insert(x, s, key)) == multiset(s) + multiset{x}
  {
    if s != [] && key(s[0]) >= key(x) {
      var t := s[1..];
      var rest := Insert(x, t, key);
      InsertPermutes(x, t, key);
      assert Insert(x, s, key) == [s[0]] + rest;
      assert s == [s[0]] + t;
      ConsMultiset(s[0], rest);
      ConsMultiset(s[0], t);
    } else {
      assert Insert(x, s, key) == [x] + s;
      ConsMultiset(x, s);
    }
  }

  lemma ConsMultiset<T>(x: T, s: seq<T>)
    ensures multiset([x] + s) == multiset{x} + multiset(s)
  {
  }

  /** Rows in descending key order (ascending order is the descending order of
      the negated key). */
  function SortDesc<T>(s: seq<T>, key: T -> real): (r: seq<T>)
    ensures |r| == |s|
    ensures multiset(r) == multiset(s)
    ensures SortedDesc(r, key)
  {
    if s == [] then []
    else
      assert s == s[..|s| - 1] + [s[|s| - 1]];
      var sorted := SortDesc(s[..|s| - 1], key);
      InsertPermutes(s[|s| - 1], sorted, key);
      Insert(s[|s| - 1], sorted, key)
  }

  /** Sorting keeps the total of the key column. */
  lemma {:induction false} SortDescKeepsSum<T>(s: seq<T>, key: T -> real)
    ensures SumOf(SortDesc(s, key), key) == SumOf(s, key)
  {
    if s != [] {
      var init := s[..|s| - 1];
      SortDescKeepsSum(init, key);
      SumOfAppend(init, [s[|s| - 1]], key);
      assert s == init + [s[|s| - 1]];
    }
  }

  lemma {:induction false} SumOfAppend<T>(a: seq<T>, b: seq<T>, f: T -> real)
    ensures SumOf(a + b, f) == SumOf(a, f) + SumOf(b, f)
  {
    if a != [] {
      assert (a + b)[1..] == a[1..] + b;
      SumOfAppend(a[1..], b, f);
    } else {
      assert a + b == b;
    }
  }

  /** Cutting a sorted list after `k` rows: the two parts make up the list,
      and every row of the first part has a key at least that of every row
      of the second. */
  lemma SortedSplit<T>(s: seq<T>, key: T -> real, k: nat)
    requires SortedDesc(s, key) && k <= |s|
    ensures multiset(s[..k]) + multiset(s[k..]) == multiset(s)
    ensures forall x, y :: x in s[..k] && y in s[k..] ==> key(x) >= key(y)
  {
    assert s == s[..k] + s[k..];
    forall x, y | x in s[..k] && y in s[k..] ensures key(x) >= key(y) {
      var i :| 0 <= i < k && s[..k][i] == x;
      var j :| 0 <= j < |s| - k && s[k..][j] == y;
      assert s[i] == x && s[k + j] == y;
    }
  }
}
