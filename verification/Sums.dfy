/** Exact sums over sequences, the reference against which the wrapping folds are measured. */
module Sums {
  function SumBy<T>(s: seq<T>, f: T -> int): int {
    if s == [] then 0 else SumBy(s[..|s| - 1], f) + f(s[|s| - 1])
  }

  lemma {:induction false} SumSnoc<T>(s: seq<T>, x: T, f: T -> int)
    ensures SumBy(s + [x], f) == SumBy(s, f) + f(x)
  {
    assert (s + [x])[..|s|] == s;
  }

  lemma {:induction false} SumAppend<T>(a: seq<T>, b: seq<T>, f: T -> int)
    ensures SumBy(a + b, f) == SumBy(a, f) + SumBy(b, f)
    decreases |b|
  {
    if b == [] {
      assert a + b == a;
    } else {
      var init := b[..|b| - 1];
      SumAppend(a, init, f);
      assert a + b == (a + init) + [b[|b| - 1]];
      SumSnoc(a + init, b[|b| - 1], f);
    }
  }

  /** A sum depends on the elements and their multiplicities only, not on their order. */
  lemma {:induction false} SumPermutation<T>(a: seq<T>, b: seq<T>, f: T -> int)
    requires multiset(a) == multiset(b)
    ensures SumBy(a, f) == SumBy(b, f)
    decreases |a|
  {
    if a == [] {
      assert |multiset(b)| == 0;
    } else {
      var x := a[|a| - 1];
      assert x in multiset(b);
      var i :| 0 <= i < |b| && b[i] == x;
      var rest := b[..i] + b[i + 1..];
      var init := a[..|a| - 1];
      assert a == init + [x];
      assert b == b[..i] + ([x] + b[i + 1..]);
      assert multiset(init) == multiset(a) - multiset{x};
      assert multiset(rest) == multiset(b) - multiset{x};
      SumPermutation(init, rest, f);
      SumAppend(b[..i], [x] + b[i + 1..], f);
      SumAppend([x], b[i + 1..], f);
      SumAppend(b[..i], b[i + 1..], f);
      SumSnoc([], x, f);
      assert [] + [x] == [x];
    }
  }

  /** If `h` is the pointwise sum of `f` and `g`, the sums add up. */
  lemma {:induction false} SumSplit<T>(s: seq<T>, f: T -> int, g: T -> int, h: T -> int)
    requires forall x :: x in s ==> h(x) == f(x) + g(x)
    ensures SumBy(s, h) == SumBy(s, f) + SumBy(s, g)
  {
    if s == [] {
    } else {
      SumSplit(s[..|s| - 1], f, g, h);
    }
  }

  lemma {:induction false} SumCongruent<T>(s: seq<T>, f: T -> int, g: T -> int)
    requires forall x :: x in s ==> f(x) == g(x)
    ensures SumBy(s, f) == SumBy(s, g)
  {
    if s == [] {
    } else {
      SumCongruent(s[..|s| - 1], f, g);
    }
  }

  /** Mapping first or summing the composition is the same. */
  lemma {:induction false} SumMapped<S, T>(s: seq<S>, t: seq<T>, f: S -> int, g: T -> int)
    requires |s| == |t|
    requires forall i :: 0 <= i < |s| ==> f(s[i]) == g(t[i])
    ensures SumBy(s, f) == SumBy(t, g)
  {
    if s == [] {
    } else {
      SumMapped(s[..|s| - 1], t[..|t| - 1], f, g);
    }
  }

  /** For terms between 0 and those of `g`, every partial sum lies between 0 and the full sum of `g`. */
  lemma {:induction false} SumDominated<T>(s: seq<T>, k: nat, f: T -> int, g: T -> int)
    requires k <= |s|
    requires forall x :: x in s ==> 0 <= f(x) <= g(x)
    ensures 0 <= SumBy(s[..k], f) <= SumBy(s, g)
    decreases |s|
  {
    if k == |s| {
      assert s[..k] == s;
      if k > 0 {
        var init := s[..|s| - 1];
        SumDominated(init, |init|, f, g);
        assert init[..|init|] == init;
      }
    } else {
      var init := s[..|s| - 1];
      assert init[..k] == s[..k];
      SumDominated(init, k, f, g);
    }
  }
}
