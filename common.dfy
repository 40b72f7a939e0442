/** Sequence helpers shared by the backend queries and the frontend list code:
    filtering (SQL WHERE, JS Array.filter), mapping, sums (SQL SUM), first-occurrence
    de-duplication (JS Set / Map insertion order) and subsequences. */
module Common {

  datatype Option<+T> = None | Some(value: T) {
    function GetOr(default: T): T
    {
      if Some? then value else default
    }
  }

  /** Elements of `s` satisfying `p`, in their original order. */
  function Filter<T(!new)>(s: seq<T>, p: T -> bool): (r: seq<T>)
    ensures |r| <= |s|
    ensures forall x :: x in r <==> x in s && p(x)
  {
    if |s| == 0 then []
    else if p(s[0]) then [s[0]] + Filter(s[1..], p)
    else Filter(s[1..], p)
  }

  function Map<T, U>(s: seq<T>, f: T -> U): (r: seq<U>)
    ensures |r| == |s|
    ensures forall i :: 0 <= i < |s| ==> r[i] == f(s[i])
  {
    seq(|s|, i requires 0 <= i < |s| => f(s[i]))
  }

  /** Concatenation of `f(x)` for every `x` of `s`, in order. */
  function FlatMap<T, U(!new)>(s: seq<T>, f: T -> seq<U>): (r: seq<U>)
    ensures forall y :: y in r <==> exists x :: x in s && y in f(x)
  {
    if |s| == 0 then []
    else
      var rest := FlatMap(s[1..], f);
      assert forall x :: x in s[1..] ==> x in s;
      assert forall x :: x in s ==> x == s[0] || x in s[1..];
      f(s[0]) + rest
  }

  function LengthOf<T, U>(f: T -> seq<U>): T -> int
  {
    (x: T) => |f(x)|
  }

  /** Sum of `f(x)` over `s`; 0 for the empty sequence (SQL `COALESCE(SUM(..), 0)`). */
  function SumBy<T>(s: seq<T>, f: T -> int): int
  {
    if |s| == 0 then 0 else f(s[0]) + SumBy(s[1..], f)
  }

  predicate NoDup<T(==)>(s: seq<T>)
  {
    forall i, j :: 0 <= i < j < |s| ==> s[i] != s[j]
  }

  /** Order-preserving subsequence: `a` is `b` with some elements dropped. */
  predicate IsSubsequence<T(==)>(a: seq<T>, b: seq<T>)
    decreases |b|
  {
    if |a| == 0 then true
    else if |b| == 0 then false
    else (a[0] == b[0] && IsSubsequence(a[1..], b[1..])) || IsSubsequence(a, b[1..])
  }

  /** JS `Set.prototype.add` on an insertion-ordered set held as a sequence. */
  function SetAdd<T(==)>(s: seq<T>, x: T): (r: seq<T>)
  {
    if x in s then s else s + [x]
  }

  /** Adds the elements of `xs` to `acc` one by one, left to right. */
  function AddAll<T(==,!new)>(acc: seq<T>, xs: seq<T>): (r: seq<T>)
    ensures NoDup(acc) ==> NoDup(r)
    ensures forall x :: x in r <==> x in acc || x in xs
    ensures |acc| <= |r| && r[..|acc|] == acc
    decreases |xs|
  {
    if |xs| == 0 then acc
    else
      var r := AddAll(acc, xs[..|xs| - 1]);
      assert forall x :: x in xs <==> x in xs[..|xs| - 1] || x == xs[|xs| - 1];
      SetAdd(r, xs[|xs| - 1])
  }

  /** Distinct elements of `xs` in order of first occurrence. */
  function Dedup<T(==,!new)>(xs: seq<T>): (r: seq<T>)
    ensures NoDup(r)
    ensures forall x :: x in r <==> x in xs
  {
    AddAll([], xs)
  }

  /** Position of the first occurrence of `x` in `s`. */
  function FirstIndex<T(==)>(s: seq<T>, x: T): (i: nat)
    requires x in s
    ensures i < |s| && s[i] == x && x !in s[..i]
  {
    if s[0] == x then 0
    else
      assert x in s[1..];
      var k := FirstIndex(s[1..], x);
      assert s[..k + 1] == [s[0]] + s[1..][..k];
      k + 1
  }

  // ---------------------------------------------------------------- lemmas

  lemma {:induction false} FilterConcat<T(!new)>(a: seq<T>, b: seq<T>, p: T -> bool)
    ensures Filter(a + b, p) == Filter(a, p) + Filter(b, p)
  {
    if |a| > 0 {
      assert (a + b)[1..] == a[1..] + b;
      FilterConcat(a[1..], b, p);
    } else {
      assert a + b == b;
    }
  }

  lemma {:induction false} FilterAll<T(!new)>(s: seq<T>, p: T -> bool)
    requires forall x :: x in s ==> p(x)
    ensures Filter(s, p) == s
  {
    if |s| > 0 {
      assert forall x :: x in s[1..] ==> x in s;
      FilterAll(s[1..], p);
      assert s == [s[0]] + s[1..];
    }
  }

  lemma {:induction false} FilterIsSubsequence<T(!new)>(s: seq<T>, p: T -> bool)
    ensures IsSubsequence(Filter(s, p), s)
  {
    if |s| > 0 {
      FilterIsSubsequence(s[1..], p);
      if p(s[0]) {
        assert Filter(s, p)[1..] == Filter(s[1..], p);
      }
    }
  }

  /** A stronger predicate keeps a subsequence of what a weaker one keeps. */
  lemma {:induction false} FilterStronger<T(!new)>(s: seq<T>, p: T -> bool, q: T -> bool)
    requires forall x :: x in s && p(x) ==> q(x)
    ensures IsSubsequence(Filter(s, p), Filter(s, q))
  {
    if |s| > 0 {
      assert forall x :: x in s[1..] ==> x in s;
      FilterStronger(s[1..], p, q);
      if p(s[0]) {
        assert Filter(s, p)[1..] == Filter(s[1..], p);
        assert Filter(s, q) == [s[0]] + Filter(s[1..], q);
      } else if q(s[0]) {
        assert Filter(s, q)[1..] == Filter(s[1..], q);
        SubsequenceDropsHead(Filter(s, p), Filter(s, q));
      }
    }
  }

  lemma SubsequenceDropsHead<T>(a: seq<T>, b: seq<T>)
    requires |b| > 0 && IsSubsequence(a, b[1..])
    ensures IsSubsequence(a, b)
  {
  }

  lemma {:induction false} SumByConcat<T>(a: seq<T>, b: seq<T>, f: T -> int)
    ensures SumBy(a + b, f) == SumBy(a, f) + SumBy(b, f)
  {
    if |a| > 0 {
      assert (a + b)[1..] == a[1..] + b;
      SumByConcat(a[1..], b, f);
    } else {
      assert a + b == b;
    }
  }

  lemma {:induction false} SumByNonNegative<T>(s: seq<T>, f: T -> int)
    requires forall x :: x in s ==> f(x) >= 0
    ensures SumBy(s, f) >= 0
  {
    if |s| > 0 {
      assert forall x :: x in s[1..] ==> x in s;
      SumByNonNegative(s[1..], f);
    }
  }

  lemma {:induction false} MapSubsequence<T, U>(a: seq<T>, b: seq<T>, f: T -> U)
    requires IsSubsequence(a, b)
    ensures IsSubsequence(Map(a, f), Map(b, f))
    decreases |b|
  {
    if |a| > 0 {
      assert Map(b, f)[1..] == Map(b[1..], f);
      if a[0] == b[0] && IsSubsequence(a[1..], b[1..]) {
        assert Map(a, f)[1..] == Map(a[1..], f);
        MapSubsequence(a[1..], b[1..], f);
      } else {
        MapSubsequence(a, b[1..], f);
      }
    }
  }

  /** `FirstIndex` is the only position holding `x` with no earlier `x`. */
  lemma FirstIndexUnique<T>(s: seq<T>, x: T, i: nat)
    requires i < |s| && s[i] == x && x !in s[..i]
    ensures FirstIndex(s, x) == i
  {
  }

  lemma FirstIndexPrefix<T>(s: seq<T>, m: nat, x: T)
    requires m <= |s| && x in s[..m]
    ensures FirstIndex(s, x) == FirstIndex(s[..m], x)
  {
    var k := FirstIndex(s[..m], x);
    assert s[..m][..k] == s[..k];
    FirstIndexUnique(s, x, k);
  }

  /** `Dedup` lists elements in the order of their first occurrence. */
  lemma {:induction false} DedupFirstOccurrenceOrder<T(!new)>(xs: seq<T>, i: nat, j: nat)
    requires i < j < |Dedup(xs)|
    ensures Dedup(xs)[i] in xs && Dedup(xs)[j] in xs
    ensures FirstIndex(xs, Dedup(xs)[i]) < FirstIndex(xs, Dedup(xs)[j])
    decreases |xs|, 1
  {
    var n := |xs|;
    var front := xs[..n - 1];
    assert Dedup(xs) == SetAdd(Dedup(front), xs[n - 1]);
    if j < |Dedup(front)| {
      DedupOrderInFront(xs, i, j);
    } else {
      DedupOrderNewLast(xs, i, j);
    }
  }

  lemma {:induction false} DedupOrderInFront<T(!new)>(xs: seq<T>, i: nat, j: nat)
    requires |xs| > 0 && i < j < |Dedup(xs[..|xs| - 1])|
    ensures i < j < |Dedup(xs)|
    ensures Dedup(xs)[i] in xs && Dedup(xs)[j] in xs
    ensures FirstIndex(xs, Dedup(xs)[i]) < FirstIndex(xs, Dedup(xs)[j])
    decreases |xs|, 0
  {
    var n := |xs|;
    var front := xs[..n - 1];
    var p := Dedup(front);
    var r := Dedup(xs);
    assert r == SetAdd(p, xs[n - 1]);
    assert r[i] == p[i] && r[j] == p[j];
    DedupFirstOccurrenceOrder(front, i, j);
    FirstIndexPrefix(xs, n - 1, p[i]);
    FirstIndexPrefix(xs, n - 1, p[j]);
  }

  lemma DedupOrderNewLast<T(!new)>(xs: seq<T>, i: nat, j: nat)
    requires |xs| > 0 && i < j < |Dedup(xs)| && j >= |Dedup(xs[..|xs| - 1])|
    ensures Dedup(xs)[i] in xs && Dedup(xs)[j] in xs
    ensures FirstIndex(xs, Dedup(xs)[i]) < FirstIndex(xs, Dedup(xs)[j])
  {
    var n := |xs|;
    var front := xs[..n - 1];
    var p := Dedup(front);
    var r := Dedup(xs);
    assert r == SetAdd(p, xs[n - 1]);
    assert r == p + [xs[n - 1]];
    assert r[i] == p[i] && r[j] == xs[n - 1];
    assert xs == front + [xs[n - 1]];
    DedupAppendedLast(front, xs[n - 1], p[i]);
  }

  /** An element of `front` comes first in `front + [last]` before a `last`
      that is new. */
  lemma DedupAppendedLast<T(!new)>(front: seq<T>, last: T, x: T)
    requires x in front && last !in front
    ensures FirstIndex(front + [last], x) < FirstIndex(front + [last], last)
  {
    var xs := front + [last];
    var n := |front|;
    assert xs[..n] == front;
    FirstIndexPrefix(xs, n, x);
    FirstIndexUnique(xs, last, n);
  }

  /** Adding elements that are all present already changes nothing. */
  lemma {:induction false} AddAllPresent<T(!new)>(acc: seq<T>, xs: seq<T>)
    requires forall x :: x in xs ==> x in acc
    ensures AddAll(acc, xs) == acc
    decreases |xs|
  {
    if |xs| > 0 {
      assert forall x :: x in xs[..|xs| - 1] ==> x in xs;
      AddAllPresent(acc, xs[..|xs| - 1]);
    }
  }

  lemma AddAllStep<T(!new)>(acc: seq<T>, xs: seq<T>, x: T)
    ensures AddAll(acc, xs + [x]) == SetAdd(AddAll(acc, xs), x)
  {
    assert (xs + [x])[..|xs|] == xs;
  }

  lemma MapMembers<T, U>(s: seq<T>, f: T -> U)
    ensures forall y :: y in Map(s, f) <==> exists x :: x in s && y == f(x)
  {
    forall y | y in Map(s, f) ensures exists x :: x in s && y == f(x) {
      var k :| 0 <= k < |s| && Map(s, f)[k] == y;
      assert s[k] in s;
    }
    forall x | x in s ensures f(x) in Map(s, f) {
      var k :| 0 <= k < |s| && s[k] == x;
      assert Map(s, f)[k] == f(x);
    }
  }

  lemma FilterCons<T(!new)>(x: T, s: seq<T>, p: T -> bool)
    ensures Filter([x] + s, p) == if p(x) then [x] + Filter(s, p) else Filter(s, p)
  {
    assert ([x] + s)[1..] == s;
  }

  lemma MapCons<T, U>(x: T, s: seq<T>, f: T -> U)
    ensures Map([x] + s, f) == [f(x)] + Map(s, f)
  {
  }

  lemma SumByCons<T>(x: T, s: seq<T>, f: T -> int)
    ensures SumBy([x] + s, f) == f(x) + SumBy(s, f)
  {
    assert ([x] + s)[1..] == s;
  }

  /** The `g`-sum of the `q`-images of the `p`-rows of `s` equals the `h`-sum of
      the rows selected by `r`, when `r` selects exactly those rows and `h`
      agrees with `g` after `f` on them. */
  lemma {:induction false} SumByFilterMapFilter<T(!new), U(!new)>(
    s: seq<T>, p: T -> bool, f: T -> U, q: U -> bool, g: U -> int, r: T -> bool, h: T -> int)
    requires forall x :: x in s ==> r(x) == (p(x) && q(f(x)))
    requires forall x :: x in s && r(x) ==> g(f(x)) == h(x)
    ensures SumBy(Filter(Map(Filter(s, p), f), q), g) == SumBy(Filter(s, r), h)
  {
    if |s| > 0 {
      var x, t := s[0], s[1..];
      assert s == [x] + t;
      assert forall y :: y in t ==> y in s;
      SumByFilterMapFilter(t, p, f, q, g, r, h);
      FilterCons(x, t, p);
      FilterCons(x, t, r);
      if p(x) {
        var mapped := Map(Filter(t, p), f);
        MapCons(x, Filter(t, p), f);
        FilterCons(f(x), mapped, q);
        if q(f(x)) {
          SumByCons(f(x), Filter(mapped, q), g);
          SumByCons(x, Filter(t, r), h);
        }
      }
    }
  }

  /** Removing the `q`-rows from the `p`-rows of `s` lowers their sum by the
      sum of the removed rows. */
  lemma {:induction false} SumByFilterRemove<T(!new)>(s: seq<T>, p: T -> bool, q: T -> bool, r: T -> bool, f: T -> int)
    requires forall x :: x in s ==> r(x) == (p(x) && !q(x))
    ensures SumBy(Filter(s, r), f) + SumBy(Filter(Filter(s, p), q), f) == SumBy(Filter(s, p), f)
  {
    if |s| > 0 {
      assert forall x :: x in s[1..] ==> x in s;
      SumByFilterRemove(s[1..], p, q, r, f);
      var kept := Filter(s[1..], p);
      if p(s[0]) {
        assert ([s[0]] + kept)[1..] == kept;
        if q(s[0]) {
          var removed := Filter(kept, q);
          assert ([s[0]] + removed)[1..] == removed;
        } else {
          assert ([s[0]] + Filter(s[1..], r))[1..] == Filter(s[1..], r);
        }
      }
    }
  }

  lemma {:induction false} FilterNone<T(!new)>(s: seq<T>, p: T -> bool)
    requires forall x :: x in s ==> !p(x)
    ensures Filter(s, p) == []
  {
    if |s| > 0 {
      assert forall x :: x in s[1..] ==> x in s;
      FilterNone(s[1..], p);
    }
  }

  /** The sum of the selected rows is 0 when no row is selected, and is not
      negative when no selected row is. */
  lemma SumOfFilterBounds<T(!new)>(s: seq<T>, p: T -> bool, f: T -> int)
    ensures (forall x :: x in s ==> !p(x)) ==> SumBy(Filter(s, p), f) == 0
    ensures (forall x :: x in s && p(x) ==> f(x) >= 0) ==> SumBy(Filter(s, p), f) >= 0
  {
    if forall x :: x in s ==> !p(x) {
      FilterNone(s, p);
    }
    if forall x :: x in s && p(x) ==> f(x) >= 0 {
      SumByNonNegative(Filter(s, p), f);
    }
  }

  lemma {:induction false} FlatMapLength<T, U(!new)>(s: seq<T>, f: T -> seq<U>)
    ensures |FlatMap(s, f)| == SumBy(s, LengthOf(f))
  {
    if |s| > 0 {
      FlatMapLength(s[1..], f);
    }
  }

  lemma {:induction false} SumByAgree<T>(s: seq<T>, f: T -> int, g: T -> int)
    requires forall x :: x in s ==> f(x) == g(x)
    ensures SumBy(s, f) == SumBy(s, g)
  {
    if |s| > 0 {
      assert forall x :: x in s[1..] ==> x in s;
      SumByAgree(s[1..], f, g);
    }
  }
}
