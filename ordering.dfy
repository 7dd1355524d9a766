/** `ORDER BY key` and `ORDER BY key LIMIT k` over the rows of a query. */
module Ordering {

  /** The rows are in non-decreasing order of `key`. */
  predicate SortedBy<T>(s: seq<T>, key: T -> int) {
    forall i, j :: 0 <= i < j < |s| ==> key(s[i]) <= key(s[j])
  }

  function Min(a: int, b: int): int {
    if a <= b then a else b
  }

  /** Places `x` after every row whose key is not greater than its own. */
  function Insert<T>(x: T, s: seq<T>, key: T -> int): (r: seq<T>)
    requires SortedBy(s, key)
    ensures SortedBy(r, key)
    ensures multiset(r) == multiset(s) + multiset{x}
    decreases |s|
  {
    if s == [] then [x]
    else if key(x) < key(s[0]) then [x] + s
    else
      var rest := Insert(x, s[1..], key);
      assert s == [s[0]] + s[1..];
      assert forall y :: y in rest ==> y == x || y in s[1..] by {
        forall y | y in rest ensures y == x || y in s[1..] {
          assert y in multiset(rest);
        }
      }
      assert forall j :: 0 <= j < |rest| ==> key(s[0]) <= key(rest[j]) by {
        forall j | 0 <= j < |rest| ensures key(s[0]) <= key(rest[j]) {
          assert rest[j] in rest;
          if rest[j] != x {
            var m :| 0 <= m < |s[1..]| && s[1..][m] == rest[j];
            assert s[m + 1] == rest[j];
          }
        }
      }
      [s[0]] + rest
  }

  /** A stable insertion sort: ties keep the order they had in `s`. */
  function SortBy<T>(s: seq<T>, key: T -> int): (r: seq<T>)
    ensures SortedBy(r, key)
    ensures multiset(r) == multiset(s)
    ensures |r| == |s|
    decreases |s|
  {
    if s == [] then []
    else
      var init := s[..|s| - 1];
      assert s == init + [s[|s| - 1]];
      var r := Insert(s[|s| - 1], SortBy(init, key), key);
      assert |r| == |multiset(r)| == |multiset(s)| == |s|;
      r
  }

  /** Every row of the first `m` of a sorted sequence has a key no greater than any row after them. */
  lemma {:induction false} SortedSplit<T>(t: seq<T>, key: T -> int, m: nat)
    requires SortedBy(t, key) && m <= |t|
    ensures multiset(t) - multiset(t[..m]) == multiset(t[m..])
    ensures forall x, y :: x in t[..m] && y in multiset(t[m..]) ==> key(x) <= key(y)
  {
    assert t == t[..m] + t[m..];
    forall x, y | x in t[..m] && y in multiset(t[m..]) ensures key(x) <= key(y) {
      var i :| 0 <= i < m && t[..m][i] == x;
      assert y in t[m..];
      var j :| 0 <= j < |t[m..]| && t[m..][j] == y;
      assert t[i] == x && t[m + j] == y;
    }
  }

  /** `ORDER BY key LIMIT k`: the `k` rows with the smallest keys (all rows if there are
      fewer), in non-decreasing key order; ties keep table order. */
  function OrderByLimit<T>(s: seq<T>, key: T -> int, k: nat): (r: seq<T>)
    ensures |r| == Min(k, |s|)
    ensures SortedBy(r, key)
    ensures multiset(r) <= multiset(s)
    ensures forall x, y :: x in r && y in multiset(s) - multiset(r) ==> key(x) <= key(y)
  {
    var t := SortBy(s, key);
    var m := Min(k, |s|);
    SortedSplit(t, key, m);
    assert t == t[..m] + t[m..];
    t[..m]
  }

  /** `SELECT * FROM (... ORDER BY limitKey LIMIT k) ORDER BY sortKey`: the `k` rows with the
      smallest `limitKey` (all rows when there are fewer), re-ordered by `sortKey`. */
  function TopThenSort<T>(s: seq<T>, limitKey: T -> int, k: nat, sortKey: T -> int): (r: seq<T>)
    ensures |r| == Min(k, |s|)
    ensures SortedBy(r, sortKey)
    ensures multiset(r) <= multiset(s)
    ensures forall x, y :: x in r && y in multiset(s) - multiset(r) ==> limitKey(x) <= limitKey(y)
    ensures |s| <= k ==> multiset(r) == multiset(s)
  {
    var top := OrderByLimit(s, limitKey, k);
    var r := SortBy(top, sortKey);
    assert forall x :: x in r ==> x in top by {
      forall x | x in r ensures x in top {
        assert x in multiset(r);
      }
    }
    assert |s| <= k ==> multiset(r) == multiset(s) by {
      if |s| <= k {
        SubMultisetOfSameSize(multiset(top), multiset(s));
      }
    }
    r
  }

  /** A sub-multiset as large as the whole is the whole. */
  lemma SubMultisetOfSameSize<T>(a: multiset<T>, b: multiset<T>)
    requires a <= b && |a| == |b|
    ensures a == b
  {
    var d := b - a;
    assert b == a + d;
    assert |d| == 0;
  }
}
