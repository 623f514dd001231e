/**
 Generic sequence operations the pipeline is built from: boolean-mask
 selection (what indexing a DataFrame with a boolean Series does), and
 `sorted(set(xs))` over a strict total order.
 */
module Sequences {

  /** `a` can be obtained from `s` by deleting elements, keeping the order. */
  predicate SubseqOf<T(==)>(a: seq<T>, s: seq<T>)
    decreases |s|
  {
    if |a| == 0 then true
    else if |s| == 0 then false
    else (a[0] == s[0] && SubseqOf(a[1..], s[1..])) || SubseqOf(a, s[1..])
  }

  /** The elements of `s` that satisfy `keep`, in their original order. */
  function Filter<T(==, !new)>(s: seq<T>, keep: T -> bool): (r: seq<T>)
    ensures |r| <= |s|
    ensures forall x :: x in r <==> x in s && keep(x)
  {
    if |s| == 0 then []
    else (if keep(s[0]) then [s[0]] else []) + Filter(s[1..], keep)
  }

  lemma {:induction false} FilterIsSubseq<T(!new)>(s: seq<T>, keep: T -> bool)
    ensures SubseqOf(Filter(s, keep), s)
  {
    if |s| > 0 {
      FilterIsSubseq(s[1..], keep);
      var rest := Filter(s[1..], keep);
      if keep(s[0]) {
        assert Filter(s, keep) == [s[0]] + rest;
        assert ([s[0]] + rest)[1..] == rest;
      } else {
        assert Filter(s, keep) == rest;
        if |rest| > 0 {
          assert SubseqOf(rest, s[1..]);
        }
      }
    }
  }

  /** A mask that holds everywhere leaves the sequence untouched. */
  lemma {:induction false} FilterKeepsAll<T(!new)>(s: seq<T>, keep: T -> bool)
    requires forall x :: x in s ==> keep(x)
    ensures Filter(s, keep) == s
  {
    if |s| > 0 {
      assert s[0] in s;
      assert forall x :: x in s[1..] ==> x in s;
      FilterKeepsAll(s[1..], keep);
      assert [s[0]] + s[1..] == s;
    }
  }

  /** A mask that holds nowhere selects nothing. */
  lemma {:induction false} FilterKeepsNone<T(!new)>(s: seq<T>, keep: T -> bool)
    requires forall x :: x in s ==> !keep(x)
    ensures Filter(s, keep) == []
  {
    if |s| > 0 {
      assert s[0] in s;
      assert forall x :: x in s[1..] ==> x in s;
      FilterKeepsNone(s[1..], keep);
    }
  }

  /** Two masks that agree on every element of `s` select the same rows. */
  lemma {:induction false} FilterCongruent<T(!new)>(s: seq<T>, p: T -> bool, q: T -> bool)
    requires forall x :: x in s ==> p(x) == q(x)
    ensures Filter(s, p) == Filter(s, q)
  {
    if |s| > 0 {
      assert s[0] in s;
      assert forall x :: x in s[1..] ==> x in s;
      FilterCongruent(s[1..], p, q);
    }
  }

  /** Masking twice is masking once with the conjunction. */
  lemma {:induction false} FilterTwice<T(!new)>(s: seq<T>, p: T -> bool, q: T -> bool, pq: T -> bool)
    requires forall x :: pq(x) == (p(x) && q(x))
    ensures Filter(Filter(s, p), q) == Filter(s, pq)
  {
    if |s| > 0 {
      FilterTwice(s[1..], p, q, pq);
      var rest := Filter(s[1..], p);
      if p(s[0]) {
        assert Filter(s, p) == [s[0]] + rest;
        assert ([s[0]] + rest)[1..] == rest;
      } else {
        assert Filter(s, p) == rest;
      }
    }
  }

  /** A mask keeps every copy of an accepted row and no copy of a rejected
      one. */
  lemma {:induction false} FilterMultiplicity<T(!new)>(s: seq<T>, keep: T -> bool, x: T)
    ensures multiset(Filter(s, keep))[x] == if keep(x) then multiset(s)[x] else 0
  {
    if |s| > 0 {
      assert s == [s[0]] + s[1..];
      FilterMultiplicity(s[1..], keep, x);
    }
  }

  /** An element found at two positions is counted at least twice. */
  lemma CountTwoPositions<T>(s: seq<T>, k: int, m: int)
    requires 0 <= k < m < |s| && s[k] == s[m]
    ensures multiset(s)[s[k]] >= 2
  {
    assert s == s[..m] + s[m..];
    assert s[k] in s[..m];
    assert s[m] in s[m..];
  }

  /** Masking a concatenation masks each part. */
  lemma {:induction false} FilterConcat<T(!new)>(a: seq<T>, b: seq<T>, keep: T -> bool)
    ensures Filter(a + b, keep) == Filter(a, keep) + Filter(b, keep)
  {
    if |a| > 0 {
      assert (a + b)[1..] == a[1..] + b;
      FilterConcat(a[1..], b, keep);
    } else {
      assert a + b == b;
    }
  }

  /** `lt` is irreflexive, transitive and total: a strict total order. */
  ghost predicate StrictTotalOrder<T(!new)>(lt: (T, T) -> bool) {
    && (forall x :: !lt(x, x))
    && (forall x, y, z :: lt(x, y) && lt(y, z) ==> lt(x, z))
    && (forall x, y :: x != y ==> lt(x, y) || lt(y, x))
  }

  /** Strictly increasing under `lt`: sorted and free of duplicates. */
  predicate StrictlyAscending<T>(s: seq<T>, lt: (T, T) -> bool) {
    forall i, j :: 0 <= i < j < |s| ==> lt(s[i], s[j])
  }

  /** Adds `x` to a strictly ascending sequence unless it is already there. */
  function Insert<T(==, !new)>(x: T, s: seq<T>, lt: (T, T) -> bool): (r: seq<T>)
    requires StrictTotalOrder(lt)
    requires StrictlyAscending(s, lt)
    ensures StrictlyAscending(r, lt)
    ensures forall y :: y in r <==> y == x || y in s
  {
    if |s| == 0 then [x]
    else if x == s[0] then s
    else if lt(x, s[0]) then
      assert forall j :: 0 <= j < |s| ==> lt(x, s[j]);
      [x] + s
    else
      var rest := Insert(x, s[1..], lt);
      assert lt(s[0], x);
      assert forall y :: y in rest ==> lt(s[0], y);
      [s[0]] + rest
  }

  /** The distinct elements of `xs`, sorted: Python's `sorted(xs.unique())`. */
  function SortedDistinct<T(==, !new)>(xs: seq<T>, lt: (T, T) -> bool): (r: seq<T>)
    requires StrictTotalOrder(lt)
    ensures StrictlyAscending(r, lt)
    ensures forall y :: y in r <==> y in xs
  {
    if |xs| == 0 then []
    else Insert(xs[0], SortedDistinct(xs[1..], lt), lt)
  }

  /** A set has only one strictly ascending enumeration, so the result of
      `SortedDistinct` is determined by the set of values alone. */
  lemma {:induction false} AscendingUnique<T(!new)>(a: seq<T>, b: seq<T>, lt: (T, T) -> bool)
    requires StrictTotalOrder(lt)
    requires StrictlyAscending(a, lt) && StrictlyAscending(b, lt)
    requires forall y :: y in a <==> y in b
    ensures a == b
  {
    if |b| > 0 {
      assert b[0] in b;
    }
    if |a| > 0 {
      assert a[0] in a;
      assert b != [];
      var a0, b0 := a[0], b[0];
      assert a0 == b0 || lt(b0, a0);
      assert b0 == a0 || lt(a0, b0);
      assert a0 == b0;
      forall y
        ensures y in a[1..] <==> y in b[1..]
      {
        if y in a[1..] {
          var i :| 1 <= i < |a| && a[i] == y;
          assert lt(a[0], y);
          assert y != b[0];
          assert a[i] in a;
          var j :| 0 <= j < |b| && b[j] == y;
          assert b[1..][j - 1] == y;
        }
        if y in b[1..] {
          var j :| 1 <= j < |b| && b[j] == y;
          assert lt(b[0], y);
          assert y != a[0];
          assert b[j] in b;
          var i :| 0 <= i < |a| && a[i] == y;
          assert a[1..][i - 1] == y;
        }
      }
      AscendingUnique(a[1..], b[1..], lt);
      assert a == [a[0]] + a[1..];
      assert b == [b[0]] + b[1..];
    }
  }

  /** `<` on integers, as a value that can be handed to `SortedDistinct`. */
  predicate IntLt(a: int, b: int) {
    a < b
  }

  lemma IntLtIsStrictTotalOrder()
    ensures StrictTotalOrder(IntLt)
  {
  }
}
