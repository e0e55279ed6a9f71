/** Summaries of metric series (internal/analyzer/stats/stats.go, Summarize). */
module Summaries {
  import opened Common
  import opened Stats
  import opened Totals

  datatype Summary = Summary(p50: real, p95: real, p99: real, max: real, avg: real, count: nat)

  const EMPTY_SUMMARY := Summary(0.0, 0.0, 0.0, 0.0, 0.0, 0)

  function Sum(s: seq<real>): real {
    if s == [] then 0.0 else Sum(s[..|s| - 1]) + s[|s| - 1]
  }

  function Figures(s: seq<real>, mean: real): Summary
    requires s != []
  {
    Summary(Round2(Quantile(s, 0.50)), Round2(Quantile(s, 0.95)), Round2(Quantile(s, 0.99)),
            Round2(s[|s| - 1]), Round2(mean), |s|)
  }

  /** The summary of the values as they stand, in whatever order. */
  function SummaryOf(values: seq<real>): Summary {
    if values == [] then EMPTY_SUMMARY
    else
      SortSorts(values);
      Figures(Sort(values), Sum(values) / |values| as real)
  }

  lemma {:induction false} SumInsert(s: seq<real>, x: real)
    ensures Sum(Insert(s, x)) == Sum(s) + x
  {
    if s == [] || s[|s| - 1] <= x {
      assert (s + [x])[..|s|] == s;
    } else {
      var init, last := s[..|s| - 1], s[|s| - 1];
      SumInsert(init, x);
      assert (Insert(init, x) + [last])[..|Insert(init, x)|] == Insert(init, x);
    }
  }

  lemma {:induction false} SumSort(s: seq<real>)
    ensures Sum(Sort(s)) == Sum(s)
  {
    if s != [] {
      SumSort(s[..|s| - 1]);
      SumInsert(Sort(s[..|s| - 1]), s[|s| - 1]);
    }
  }

  /** The sum is taken over the sorted copy. */
  method Summarize(values: seq<real>) returns (r: Summary)
    ensures r == SummaryOf(values)
  {
    if |values| == 0 {
      return EMPTY_SUMMARY;
    }
    var s := Sort(values);
    SortSorts(values);
    var sum := 0.0;
    for i := 0 to |s|
      invariant sum == Sum(s[..i])
    {
      assert s[..i + 1][..i] == s[..i];
      sum := sum + s[i];
    }
    assert s[..|s|] == s;
    SumSort(values);
    return Figures(s, sum / |s| as real);
  }

  // ---- what a summary says ----------------------------------------------------------------

  lemma {:induction false} SumBounds(s: seq<real>, lo: real, hi: real)
    requires forall x :: x in s ==> lo <= x <= hi
    ensures |s| as real * lo <= Sum(s) <= |s| as real * hi
  {
    if s != [] {
      var init, last := s[..|s| - 1], s[|s| - 1];
      assert forall x :: x in init ==> x in s;
      assert last in s;
      SumBounds(init, lo, hi);
      OneMore(|init|, lo);
      OneMore(|init|, hi);
    }
  }

  lemma OneMore(n: nat, x: real)
    ensures (n + 1) as real * x == n as real * x + x
  {
  }

  lemma Larger(n: nat, x: real, y: real)
    requires n > 0 && x < y
    ensures n as real * x < n as real * y
  {
  }

  lemma MeanBounds(sum: real, n: nat, lo: real, hi: real)
    requires n > 0 && n as real * lo <= sum <= n as real * hi
    ensures lo <= sum / n as real <= hi
  {
    var m := sum / n as real;
    assert n as real * m == sum;
    if m < lo { Larger(n, m, lo); }
    if m > hi { Larger(n, hi, m); }
  }

  /** The order of the observations does not matter. */
  lemma SummaryPermuted(a: seq<real>, b: seq<real>)
    requires multiset(a) == multiset(b)
    ensures SummaryOf(a) == SummaryOf(b)
  {
    SortPermuted(a, b);
    SameElements(a, b);
    SumSort(a);
    SumSort(b);
  }

  /** P50 <= P95 <= P99 <= max even after rounding, and every figure lies between the rounded
      least and greatest observation. */
  lemma SummaryIsOrdered(values: seq<real>, lo: real, hi: real)
    requires values != [] && forall x :: x in values ==> lo <= x <= hi
    ensures var r := SummaryOf(values);
            && Round2(lo) <= r.p50 <= r.p95 <= r.p99 <= r.max <= Round2(hi)
            && Round2(lo) <= r.avg <= r.max
  {
    var s := Sort(values);
    SortSorts(values);
    SameElements(values, s);
    LastIsMax(s);
    assert s[0] in s && s[|s| - 1] in s;
    MeanIsBetween(values, lo, s[|s| - 1]);
    FiguresAreOrdered(s, Sum(values) / |values| as real, lo, hi);
  }

  lemma MeanIsBetween(values: seq<real>, lo: real, hi: real)
    requires values != [] && forall x :: x in values ==> lo <= x <= hi
    ensures lo <= Sum(values) / |values| as real <= hi
  {
    SumBounds(values, lo, hi);
    MeanBounds(Sum(values), |values|, lo, hi);
  }

  lemma FiguresAreOrdered(s: seq<real>, mean: real, lo: real, hi: real)
    requires s != [] && Sorted(s) && lo <= s[0] && s[|s| - 1] <= hi && lo <= mean <= s[|s| - 1]
    ensures var r := Figures(s, mean);
            && Round2(lo) <= r.p50 <= r.p95 <= r.p99 <= r.max <= Round2(hi)
            && Round2(lo) <= r.avg <= r.max
  {
    QuantileMonotone(s, 0.50, 0.95);
    QuantileMonotone(s, 0.95, 0.99);
    Ordered(lo, Quantile(s, 0.50), Quantile(s, 0.95), Quantile(s, 0.99), s[|s| - 1], hi);
    Round2Monotone(lo, mean);
    Round2Monotone(mean, s[|s| - 1]);
  }

  lemma Ordered(lo: real, a: real, b: real, c: real, d: real, hi: real)
    requires lo <= a <= b <= c <= d <= hi
    ensures Round2(lo) <= Round2(a) <= Round2(b) <= Round2(c) <= Round2(d) <= Round2(hi)
  {
    Round2Monotone(lo, a);
    Round2Monotone(a, b);
    Round2Monotone(b, c);
    Round2Monotone(c, d);
    Round2Monotone(d, hi);
  }

  const SAME: real -> real := (x: real) => x

  lemma {:induction false} SumIsTotal(s: seq<real>)
    ensures Sum(s) == Total(s, SAME)
  {
    if s != [] {
      SumIsTotal(s[..|s| - 1]);
      assert s == s[..|s| - 1] + [s[|s| - 1]];
      TotalSnoc(s[..|s| - 1], s[|s| - 1], SAME);
    }
  }

  /** The figures of a summary, for any sorted permutation `t` of the values: the interpolated 50%, 95%
      and 99% quantiles, the greatest value and the arithmetic mean, each rounded. */
  lemma SummaryFigures(values: seq<real>, t: seq<real>) returns (p50: real, p95: real, p99: real, avg: real)
    requires values != [] && Sorted(t) && multiset(t) == multiset(values)
    ensures t != [] && Interpolates(t, 0.50, p50) && Interpolates(t, 0.95, p95) && Interpolates(t, 0.99, p99)
    ensures IsMean(values, SAME, avg)
    ensures SummaryOf(values)
         == Summary(Round2(p50), Round2(p95), Round2(p99), Round2(t[|t| - 1]), Round2(avg), |values|)
  {
    SortSorts(values);
    SortedUnique(t, Sort(values));
    QuantileInterpolates(t, 0.50);
    QuantileInterpolates(t, 0.95);
    QuantileInterpolates(t, 0.99);
    p50, p95, p99 := Quantile(t, 0.50), Quantile(t, 0.95), Quantile(t, 0.99);
    SumIsTotal(values);
    QuotientIsMean(values, SAME);
    avg := Sum(values) / |values| as real;
  }
}
