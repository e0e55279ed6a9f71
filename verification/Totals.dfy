/** Plain sums and arithmetic means: what the averages of the other modules are measured against. */
module Totals {

  /** The sum of f over the elements. */
  function Total<T>(s: seq<T>, f: T -> real): real {
    if s == [] then 0.0 else f(s[0]) + Total(s[1..], f)
  }

  /** `mean` is the arithmetic mean of f over the elements. */
  ghost predicate IsMean<T>(s: seq<T>, f: T -> real, mean: real) { |s| as real * mean == Total(s, f) }

  lemma {:induction false} TotalConcat<T>(a: seq<T>, b: seq<T>, f: T -> real)
    ensures Total(a + b, f) == Total(a, f) + Total(b, f)
  {
    if a == [] {
      assert a + b == b;
    } else {
      assert (a + b)[1..] == a[1..] + b;
      TotalConcat(a[1..], b, f);
    }
  }

  lemma TotalSnoc<T>(s: seq<T>, x: T, f: T -> real)
    ensures Total(s + [x], f) == Total(s, f) + f(x)
  {
    TotalConcat(s, [x], f);
    assert [x][1..] == [];
  }

  lemma TotalPrefix<T>(s: seq<T>, k: nat, f: T -> real)
    requires k < |s|
    ensures Total(s[..k + 1], f) == Total(s[..k], f) + f(s[k])
  {
    assert s[..k + 1] == s[..k] + [s[k]];
    TotalSnoc(s[..k], s[k], f);
  }

  lemma TotalWithout<T>(s: seq<T>, i: nat, f: T -> real)
    requires i < |s|
    ensures Total(s, f) == f(s[i]) + Total(s[..i] + s[i + 1..], f)
  {
    assert s == s[..i] + ([s[i]] + s[i + 1..]);
    TotalConcat(s[..i], [s[i]] + s[i + 1..], f);
    TotalConcat([s[i]], s[i + 1..], f);
    TotalConcat(s[..i], s[i + 1..], f);
    assert [s[i]][1..] == [];
  }

  lemma ElementsWithout<T>(s: seq<T>, i: nat)
    requires i < |s|
    ensures multiset(s) == multiset{s[i]} + multiset(s[..i] + s[i + 1..])
  {
    assert s == s[..i] + [s[i]] + s[i + 1..];
  }

  lemma Cancelled<T>(x: T, p: multiset<T>, q: multiset<T>)
    requires multiset{x} + p == multiset{x} + q
    ensures p == q
  {
    assert p == (multiset{x} + p) - multiset{x};
    assert q == (multiset{x} + q) - multiset{x};
  }

  /** The order of the elements does not matter. */
  lemma {:induction false} TotalPermuted<T>(a: seq<T>, b: seq<T>, f: T -> real)
    requires multiset(a) == multiset(b)
    ensures |a| == |b| && Total(a, f) == Total(b, f)
  {
    assert |a| == |multiset(a)| && |b| == |multiset(b)|;
    if a != [] {
      assert a[0] in multiset(b);
      var i :| 0 <= i < |b| && b[i] == a[0];
      TotalWithout(b, i, f);
      ElementsWithout(b, i);
      assert a == [a[0]] + a[1..];
      Cancelled(a[0], multiset(a[1..]), multiset(b[..i] + b[i + 1..]));
      TotalPermuted(a[1..], b[..i] + b[i + 1..], f);
    }
  }

  ghost predicate AllWithin<T>(s: seq<T>, f: T -> real, lo: real, hi: real) {
    forall i :: 0 <= i < |s| ==> lo <= f(s[i]) <= hi
  }

  lemma OneMore(n: nat, x: real)
    ensures (n + 1) as real * x == n as real * x + x
  {
  }

  lemma {:induction false} TotalBetween<T>(s: seq<T>, f: T -> real, lo: real, hi: real)
    requires AllWithin(s, f, lo, hi)
    ensures |s| as real * lo <= Total(s, f) <= |s| as real * hi
  {
    if s != [] {
      assert forall i :: 0 <= i < |s| - 1 ==> s[1..][i] == s[i + 1];
      TotalBetween(s[1..], f, lo, hi);
      OneMore(|s| - 1, lo);
      OneMore(|s| - 1, hi);
    }
  }

  // ---- means ------------------------------------------------------------------------------

  lemma Larger(n: real, x: real, y: real)
    requires n > 0.0 && x < y
    ensures n * x < n * y
  {
  }

  lemma Divided(n: real, mean: real, total: real)
    requires n > 0.0 && n * mean == total
    ensures mean == total / n
  {
    assert total / n == (n * mean) / n;
  }

  lemma Multiplied(n: real, total: real)
    requires n > 0.0
    ensures n * (total / n) == total
  {
  }

  lemma Between(n: real, mean: real, total: real, lo: real, hi: real)
    requires n > 0.0 && n * mean == total && n * lo <= total <= n * hi
    ensures lo <= mean <= hi
  {
    if mean < lo { Larger(n, mean, lo); }
    if mean > hi { Larger(n, hi, mean); }
  }

  lemma QuotientIsMean<T>(s: seq<T>, f: T -> real)
    requires s != []
    ensures IsMean(s, f, Total(s, f) / |s| as real)
  {
    Multiplied(|s| as real, Total(s, f));
  }

  lemma MeanIsQuotient<T>(s: seq<T>, f: T -> real, mean: real, n: nat, total: real)
    requires s != [] && IsMean(s, f, mean) && n == |s| && total == Total(s, f)
    ensures mean == total / n as real
  {
    Divided(n as real, mean, total);
  }

  /** A mean lies between bounds on the elements. */
  lemma MeanBetween<T>(s: seq<T>, f: T -> real, mean: real, lo: real, hi: real)
    requires s != [] && IsMean(s, f, mean) && AllWithin(s, f, lo, hi)
    ensures lo <= mean <= hi
  {
    TotalBetween(s, f, lo, hi);
    Between(|s| as real, mean, Total(s, f), lo, hi);
  }

  /** And depends on the elements only, not on their order. */
  lemma MeanPermuted<T>(a: seq<T>, b: seq<T>, f: T -> real, x: real, y: real)
    requires a != [] && multiset(a) == multiset(b) && IsMean(a, f, x) && IsMean(b, f, y)
    ensures x == y
  {
    TotalPermuted(a, b, f);
    MeanIsQuotient(a, f, x, |a|, Total(a, f));
    MeanIsQuotient(b, f, y, |a|, Total(a, f));
  }
}
