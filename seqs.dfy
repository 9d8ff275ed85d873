/** Sequence helpers standing for the pandas and list idioms the pipeline uses:
    `unique().tolist()`, counting, and summing per-key counts. */
module Seqs {

  ghost predicate NoDuplicates<T>(s: seq<T>) {
    forall i, j :: 0 <= i < j < |s| ==> s[i] != s[j]
  }

  /** The elements of `s` without repeats, in order of first appearance
      (what pandas `Series.unique().tolist()` returns). */
  function Distinct<T(==,!new)>(s: seq<T>): (r: seq<T>)
    ensures forall x :: x in r <==> x in s
    ensures NoDuplicates(r)
    ensures |r| <= |s|
  {
    if |s| == 0 then []
    else
      var init := Distinct(s[..|s| - 1]);
      assert forall x :: x in s <==> x in s[..|s| - 1] || x == s[|s| - 1];
      if s[|s| - 1] in init then init else init + [s[|s| - 1]]
  }

  /** Extending the input by one element extends the distinct list by that element iff it is new. */
  lemma DistinctSnoc<T(!new)>(s: seq<T>, x: T)
    ensures Distinct(s + [x]) == if x in s then Distinct(s) else Distinct(s) + [x]
  {
    assert (s + [x])[..|s + [x]| - 1] == s;
  }

  /** Number of occurrences of `x` in `s`. */
  function Count<T(==,!new)>(s: seq<T>, x: T): (n: nat)
    ensures n <= |s|
    ensures n == 0 <==> x !in s
  {
    if |s| == 0 then 0
    else
      assert forall y :: y in s <==> y in s[..|s| - 1] || y == s[|s| - 1];
      Count(s[..|s| - 1], x) + (if s[|s| - 1] == x then 1 else 0)
  }

  lemma CountSnoc<T(!new)>(s: seq<T>, y: T, x: T)
    ensures Count(s + [y], x) == Count(s, x) + (if y == x then 1 else 0)
  {
    assert (s + [y])[..|s + [y]| - 1] == s;
  }

  /** A sequence without repeats holds each of its elements exactly once. */
  lemma {:induction false} CountNoDuplicates<T(!new)>(s: seq<T>, x: T)
    requires NoDuplicates(s)
    ensures Count(s, x) == if x in s then 1 else 0
  {
    if |s| > 0 {
      var init := s[..|s| - 1];
      assert s == init + [s[|s| - 1]];
      assert NoDuplicates(init);
      CountNoDuplicates(init, x);
      if s[|s| - 1] == x {
        forall k | 0 <= k < |init| ensures init[k] != x {
          assert s[k] != s[|s| - 1];
        }
      }
    }
  }

  /** The sum, over the keys `ks`, of how often each key occurs in `s`. */
  function SumCounts<T(==,!new)>(ks: seq<T>, s: seq<T>): nat
  {
    if |ks| == 0 then 0 else Count(s, ks[0]) + SumCounts(ks[1..], s)
  }

  lemma {:induction false} SumCountsAppend<T(!new)>(a: seq<T>, b: seq<T>, s: seq<T>)
    ensures SumCounts(a + b, s) == SumCounts(a, s) + SumCounts(b, s)
  {
    if |a| > 0 {
      assert (a + b)[1..] == a[1..] + b;
      SumCountsAppend(a[1..], b, s);
    } else {
      assert a + b == b;
    }
  }

  lemma {:induction false} SumCountsSnoc<T(!new)>(ks: seq<T>, s: seq<T>, y: T)
    ensures SumCounts(ks, s + [y]) == SumCounts(ks, s) + Count(ks, y)
  {
    if |ks| > 0 {
      CountSnoc(s, y, ks[0]);
      SumCountsSnoc(ks[1..], s, y);
      assert ks == [ks[0]] + ks[1..];
      CountCons(ks[0], ks[1..], y);
    }
  }

  lemma {:induction false} CountCons<T(!new)>(a: T, s: seq<T>, x: T)
    ensures Count([a] + s, x) == (if a == x then 1 else 0) + Count(s, x)
    decreases |s|
  {
    if |s| == 0 {
      assert [a] + s == [a];
      assert [a][..0] == [];
    } else {
      var t := s[..|s| - 1];
      assert s == t + [s[|s| - 1]];
      assert [a] + s == ([a] + t) + [s[|s| - 1]];
      CountSnoc([a] + t, s[|s| - 1], x);
      CountSnoc(t, s[|s| - 1], x);
      CountCons(a, t, x);
    }
  }

  /** Counting every distinct key of `s` accounts for every element of `s` exactly once. */
  lemma {:induction false} SumCountsOfDistinct<T(!new)>(s: seq<T>)
    ensures SumCounts(Distinct(s), s) == |s|
  {
    if |s| > 0 {
      var init := s[..|s| - 1];
      var x := s[|s| - 1];
      assert s == init + [x];
      SumCountsOfDistinct(init);
      DistinctSnoc(init, x);
      var d := Distinct(init);
      if x in init {
        SumCountsSnoc(d, init, x);
        CountNoDuplicates(d, x);
      } else {
        SumCountsAppend(d, [x], s);
        SumCountsSnoc(d, init, x);
        CountNoDuplicates(d, x);
        assert SumCounts([x], s) == Count(s, x) + SumCounts([x][1..], s);
        CountSnoc(init, x, x);
      }
    }
  }

  /** `r` is `s` with some elements deleted and the rest kept in order. */
  predicate IsSubsequence<T(==)>(r: seq<T>, s: seq<T>)
    decreases |s|
  {
    if |r| == 0 then true
    else if |s| == 0 then false
    else (r[|r| - 1] == s[|s| - 1] && IsSubsequence(r[..|r| - 1], s[..|s| - 1]))
         || IsSubsequence(r, s[..|s| - 1])
  }

  /** `s` without any occurrence of `x`. */
  function RemoveAll<T(==,!new)>(s: seq<T>, x: T): (r: seq<T>)
    ensures forall y :: y in r <==> y in s && y != x
    ensures x in s ==> |r| < |s|
    ensures |r| <= |s|
  {
    if |s| == 0 then []
    else
      var init := RemoveAll(s[..|s| - 1], x);
      assert forall y :: y in s <==> y in s[..|s| - 1] || y == s[|s| - 1];
      if s[|s| - 1] == x then init else init + [s[|s| - 1]]
  }

  /** A list without repeats whose elements all occur in `b` is no longer than `b`. */
  lemma {:induction false} NoDuplicatesSubsetLength<T(!new)>(a: seq<T>, b: seq<T>)
    requires NoDuplicates(a)
    requires forall x :: x in a ==> x in b
    ensures |a| <= |b|
  {
    if |a| > 0 {
      var x := a[|a| - 1];
      var init := a[..|a| - 1];
      forall y | y in init ensures y in RemoveAll(b, x) {
        var k :| 0 <= k < |init| && init[k] == y;
        assert a[k] != a[|a| - 1];
      }
      NoDuplicatesSubsetLength(init, RemoveAll(b, x));
    }
  }

  /** The ascending list lo, lo + 1, ..., hi - 1. */
  function Range(lo: nat, hi: nat): (r: seq<nat>)
    ensures |r| == if lo <= hi then hi - lo else 0
    ensures forall k :: 0 <= k < |r| ==> r[k] == lo + k
    decreases hi - lo
  {
    if lo >= hi then [] else [lo] + Range(lo + 1, hi)
  }
}
