/**
 * Ordering and counting over finite collections: what the store's `ORDER BY`,
 * `GROUP BY` and `COUNT(*)` compute, stated once and proved once.
 */
module Listing {

  ghost predicate StrictTotalOrder<T(!new)>(less: (T, T) -> bool) {
    && (forall a :: !less(a, a))
    && (forall a, b, c :: less(a, b) && less(b, c) ==> less(a, c))
    && (forall a, b :: a != b ==> less(a, b) || less(b, a))
  }

  ghost predicate StrictlySorted<T>(s: seq<T>, less: (T, T) -> bool) {
    forall i, j :: 0 <= i < j < |s| ==> less(s[i], s[j])
  }

  predicate IsLeast<T>(m: T, s: set<T>, less: (T, T) -> bool) {
    m in s && forall y :: y in s && y != m ==> less(m, y)
  }

  lemma {:induction false} LeastExists<T(!new)>(s: set<T>, less: (T, T) -> bool)
    requires s != {} && StrictTotalOrder(less)
    ensures exists m :: IsLeast(m, s, less)
    decreases |s|
  {
    var x :| x in s;
    if s != {x} {
      LeastExists(s - {x}, less);
      var m :| IsLeast(m, s - {x}, less);
      if less(x, m) {
        forall y | y in s && y != x
          ensures less(x, y)
        {
          if y != m {
            assert less(m, y);
          }
        }
        assert IsLeast(x, s, less);
      } else {
        assert IsLeast(m, s, less);
      }
    } else {
      assert IsLeast(x, s, less);
    }
  }

  /** The elements of a finite set in ascending order. */
  function SortSet<T(==,!new)>(s: set<T>, less: (T, T) -> bool): (r: seq<T>)
    requires StrictTotalOrder(less)
    ensures |r| == |s|
    ensures forall x :: x in r <==> x in s
    ensures StrictlySorted(r, less)
    decreases |s|
  {
    if s == {} then []
    else
      LeastExists(s, less);
      var m :| IsLeast(m, s, less);
      [m] + SortSet(s - {m}, less)
  }

  /** The usual order on integers, as a value that SortSet can take. */
  predicate IntBefore(a: int, b: int) {
    a < b
  }

  lemma IntOrder()
    ensures StrictTotalOrder(IntBefore)
  {
  }

  /** A set has only one strictly sorted listing. */
  lemma {:induction false} SortedUnique<T(!new)>(r: seq<T>, q: seq<T>, less: (T, T) -> bool)
    requires StrictTotalOrder(less)
    requires StrictlySorted(r, less) && StrictlySorted(q, less)
    requires forall x :: x in r <==> x in q
    ensures r == q
  {
    assert r != [] ==> r[0] in q;
    assert q != [] ==> q[0] in r;
    if r != [] && q != [] {
      assert r[0] == q[0];
      forall x
        ensures x in r[1..] <==> x in q[1..]
      {
        if x in r[1..] {
          var i :| 1 <= i < |r| && r[i] == x;
          assert less(r[0], x);
          assert x in q;
          var j :| 0 <= j < |q| && q[j] == x;
          assert j != 0;
          assert q[1..][j - 1] == x;
        }
        if x in q[1..] {
          var i :| 1 <= i < |q| && q[i] == x;
          assert less(q[0], x);
          assert x in r;
          var j :| 0 <= j < |r| && r[j] == x;
          assert j != 0;
          assert r[1..][j - 1] == x;
        }
      }
      SortedUnique(r[1..], q[1..], less);
    }
  }

  /** Number of occurrences of `x` in `s`. */
  function Count<T(==)>(s: seq<T>, x: T): (c: nat)
    ensures c <= |s|
    ensures c > 0 <==> x in s
  {
    if s == [] then 0 else (if s[0] == x then 1 else 0) + Count(s[1..], x)
  }

  /** Number of elements of `s` that occur in `ws`. */
  function CountIn<T(==)>(s: seq<T>, ws: seq<T>): (c: nat)
    ensures c <= |s|
  {
    if s == [] then 0 else (if s[0] in ws then 1 else 0) + CountIn(s[1..], ws)
  }

  /** Position of the first occurrence of `x` in `s`. */
  function FirstIndex<T(==)>(s: seq<T>, x: T): (i: nat)
    requires x in s
    ensures i < |s| && s[i] == x
    ensures forall j :: 0 <= j < i ==> s[j] != x
  {
    if s[0] == x then 0 else 1 + FirstIndex(s[1..], x)
  }

  /** Sum, over the values `ws`, of how often each occurs in `s`. */
  function SumOfCounts<T(==)>(s: seq<T>, ws: seq<T>): nat {
    if ws == [] then 0 else SumOfCounts(s, ws[..|ws| - 1]) + Count(s, ws[|ws| - 1])
  }

  predicate Distinct<T(==)>(ws: seq<T>) {
    forall i, j :: 0 <= i < j < |ws| ==> ws[i] != ws[j]
  }

  /** A prefix followed by the rest is the whole. */
  lemma PrefixAndRest<T>(all: seq<T>, page: seq<T>, rest: seq<T>)
    requires |page| <= |all| && page == all[..|page|] && rest == all[|page|..]
    ensures page + rest == all
  {
    assert all[..|page|] + all[|page|..] == all;
  }

  /** Dropping the head of a duplicate-free sequence leaves one, which does not contain the head. */
  lemma DistinctTail<T>(ws: seq<T>)
    requires ws != [] && Distinct(ws)
    ensures Distinct(ws[1..]) && ws[0] !in ws[1..]
  {
    var rest := ws[1..];
    forall i, j | 0 <= i < j < |rest|
      ensures rest[i] != rest[j]
    {
      assert rest[i] == ws[i + 1] && rest[j] == ws[j + 1];
    }
    forall j | 0 <= j < |rest|
      ensures rest[j] != ws[0]
    {
      assert rest[j] == ws[j + 1];
    }
  }

  lemma {:induction false} CountInExtend<T>(s: seq<T>, ws: seq<T>, w: T)
    requires w !in ws
    ensures CountIn(s, ws + [w]) == CountIn(s, ws) + Count(s, w)
  {
    if s != [] {
      CountInExtend(s[1..], ws, w);
    }
  }

  /** Counting each distinct value separately counts every element of those values once. */
  lemma {:induction false} SumOfCountsIsCountIn<T>(s: seq<T>, ws: seq<T>)
    requires Distinct(ws)
    ensures SumOfCounts(s, ws) == CountIn(s, ws)
    decreases |ws|
  {
    if ws == [] {
      CountInEmpty(s, ws);
    } else {
      var front := ws[..|ws| - 1];
      SumOfCountsIsCountIn(s, front);
      CountInExtend(s, front, ws[|ws| - 1]);
      assert front + [ws[|ws| - 1]] == ws;
    }
  }

  lemma {:induction false} CountInEmpty<T>(s: seq<T>, ws: seq<T>)
    requires ws == []
    ensures CountIn(s, ws) == 0
  {
    if s != [] {
      CountInEmpty(s[1..], ws);
    }
  }

  lemma {:induction false} CountInAll<T>(s: seq<T>, ws: seq<T>)
    requires forall x :: x in s ==> x in ws
    ensures CountIn(s, ws) == |s|
  {
    if s != [] {
      CountInAll(s[1..], ws);
    }
  }

  /** When `ws` lists every value of `s` once, the per-value counts add up to |s|. */
  lemma SumOfCountsCoversAll<T>(s: seq<T>, ws: seq<T>)
    requires Distinct(ws)
    requires forall x :: x in s ==> x in ws
    ensures SumOfCounts(s, ws) == |s|
  {
    SumOfCountsIsCountIn(s, ws);
    CountInAll(s, ws);
  }

  predicate NonDecreasing(s: seq<int>) {
    forall i, j :: 0 <= i < j < |s| ==> s[i] <= s[j]
  }

  /** Number of elements of `s` below `x`. */
  function CountBelow(s: seq<int>, x: int): (c: nat)
    ensures c <= |s|
  {
    if s == [] then 0 else (if s[0] < x then 1 else 0) + CountBelow(s[1..], x)
  }

  lemma {:induction false} CountBelowNone(s: seq<int>, x: int)
    requires forall i :: 0 <= i < |s| ==> x <= s[i]
    ensures CountBelow(s, x) == 0
  {
    if s != [] {
      CountBelowNone(s[1..], x);
    }
  }

  /** In a non-decreasing sequence, a value first occurs right after all smaller values. */
  lemma {:induction false} FirstIndexIsCountBelow(s: seq<int>, x: int)
    requires NonDecreasing(s) && x in s
    ensures FirstIndex(s, x) == CountBelow(s, x)
  {
    if s[0] == x {
      CountBelowNone(s[1..], x);
    } else {
      var k := FirstIndex(s, x);
      assert s[0] <= s[k];
      FirstIndexIsCountBelow(s[1..], x);
    }
  }

  lemma {:induction false} CountBelowIsCountIn(s: seq<int>, x: int, ws: seq<int>)
    requires forall e :: e in s ==> (e < x <==> e in ws)
    ensures CountBelow(s, x) == CountIn(s, ws)
  {
    if s != [] {
      CountBelowIsCountIn(s[1..], x, ws);
    }
  }

  /**
   * When `vs` lists the values of `s` in ascending order, the elements below `vs[k]`
   * are exactly those equal to `vs[0]`, ..., `vs[k-1]`.
   */
  lemma CountBelowIsSumOfCounts(s: seq<int>, vs: seq<int>, k: nat)
    requires StrictlySorted(vs, IntBefore)
    requires forall x :: x in s ==> x in vs
    requires k < |vs|
    ensures CountBelow(s, vs[k]) == SumOfCounts(s, vs[..k])
  {
    var front := vs[..k];
    forall e | e in s
      ensures e < vs[k] <==> e in front
    {
      var j :| 0 <= j < |vs| && vs[j] == e;
      assert e < vs[k] <==> j < k;
    }
    CountBelowIsCountIn(s, vs[k], front);
    SumOfCountsIsCountIn(s, front);
  }
}
