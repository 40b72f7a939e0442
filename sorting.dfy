/** SQL `ORDER BY <key> DESC` over a row set: a stable insertion sort on an
    integer key, newest (largest) first. Postgres leaves the order of rows with
    equal keys unspecified; this model keeps them in input order. */
module Sorting {

  predicate SortedDesc<T>(s: seq<T>, key: T -> int)
  {
    forall i, j :: 0 <= i < j < |s| ==> key(s[i]) >= key(s[j])
  }

  function InsertDesc<T>(x: T, s: seq<T>, key: T -> int): (r: seq<T>)
    requires SortedDesc(s, key)
    ensures SortedDesc(r, key)
    ensures multiset(r) == multiset(s) + multiset{x}
    ensures |r| == |s| + 1
  {
    if |s| == 0 then [x]
    else if key(x) >= key(s[0]) then
      InsertInFront(x, s, key);
      [x] + s
    else
      var rest := InsertDesc(x, s[1..], key);
      InsertBehindHead(x, s, rest, key);
      [s[0]] + rest
  }

  /** An element no smaller than the head goes in front. */
  lemma InsertInFront<T>(x: T, s: seq<T>, key: T -> int)
    requires |s| > 0 && SortedDesc(s, key) && key(x) >= key(s[0])
    ensures SortedDesc([x] + s, key)
  {
    forall y | y in s ensures key(y) <= key(x) {
      var j :| 0 <= j < |s| && s[j] == y;
      if j > 0 {
        assert key(s[0]) >= key(s[j]);
      }
    }
    ConsSorted(x, s, key);
  }

  /** An element smaller than the head is inserted into the tail. */
  lemma InsertBehindHead<T>(x: T, s: seq<T>, rest: seq<T>, key: T -> int)
    requires |s| > 0 && SortedDesc(s, key) && key(x) < key(s[0])
    requires SortedDesc(rest, key) && multiset(rest) == multiset(s[1..]) + multiset{x}
    ensures SortedDesc([s[0]] + rest, key)
    ensures multiset([s[0]] + rest) == multiset(s) + multiset{x}
  {
    assert s == [s[0]] + s[1..];
    forall y | y in rest ensures key(y) <= key(s[0]) {
      assert y in multiset(rest);
      if y != x {
        assert y in multiset(s[1..]);
        var j :| 0 <= j < |s[1..]| && s[1..][j] == y;
        assert s[j + 1] == y;
      }
    }
    ConsSorted(s[0], rest, key);
  }

  /** A head no smaller than every element keeps a sorted sequence sorted. */
  lemma ConsSorted<T>(h: T, s: seq<T>, key: T -> int)
    requires SortedDesc(s, key)
    requires forall y :: y in s ==> key(y) <= key(h)
    ensures SortedDesc([h] + s, key)
  {
    forall i, j | 0 <= i < j < |[h] + s| ensures key(([h] + s)[i]) >= key(([h] + s)[j]) {
      if i == 0 {
        assert ([h] + s)[j] == s[j - 1];
        assert s[j - 1] in s;
      }
    }
  }

  /** The rows of `s` ordered by `key`, largest first. */
  function SortDesc<T>(s: seq<T>, key: T -> int): (r: seq<T>)
    ensures SortedDesc(r, key)
    ensures multiset(r) == multiset(s)
    ensures |r| == |s|
  {
    if |s| == 0 then []
    else
      assert s == [s[0]] + s[1..];
      InsertDesc(s[0], SortDesc(s[1..], key), key)
  }

  /** A permutation has the same elements. */
  lemma SameElements<T>(a: seq<T>, b: seq<T>)
    requires multiset(a) == multiset(b)
    ensures forall x :: x in a <==> x in b
  {
    assert forall x :: x in a <==> x in multiset(a);
    assert forall x :: x in b <==> x in multiset(b);
  }
}
