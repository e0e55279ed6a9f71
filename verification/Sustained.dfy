/** The longest sustained run above a threshold (internal/analyzer/stats/stats.go, Sustained). */
module Sustained {
  import opened Common

  datatype TimedValue = TimedValue(ts: Time, v: real)

  datatype SustainedRun = SustainedRun(start: Time, end: Time, minutes: nat, peak: real)

  const NO_RUN := SustainedRun(ZERO_TIME, ZERO_TIME, 0, 0.0)

  /** No gap over the tolerance lies between an observation and the one before it. */
  predicate Joined(vals: seq<TimedValue>, gap: int, k: nat)
    requires 0 < k < |vals|
  {
    vals[k].ts - vals[k - 1].ts <= gap
  }

  /** The observations i..j are all at or above the threshold, with no gap over the tolerance. */
  predicate IsRun(vals: seq<TimedValue>, threshold: real, gap: int, i: nat, j: nat) {
    && i < j <= |vals|
    && (forall k :: i <= k < j ==> vals[k].v >= threshold)
    && (forall k :: i < k < j ==> Joined(vals, gap, k))
  }

  /** Nothing can be added to the run on either side. */
  predicate IsMaximalRun(vals: seq<TimedValue>, threshold: real, gap: int, i: nat, j: nat) {
    && IsRun(vals, threshold, gap, i, j)
    && (i > 0 ==> !IsRun(vals, threshold, gap, i - 1, j))
    && !IsRun(vals, threshold, gap, i, j + 1)
  }

  /** The first of the longest runs that end by `k`; `None` when there is no run. */
  ghost predicate Best(vals: seq<TimedValue>, threshold: real, gap: int, k: nat, best: Option<(nat, nat)>) {
    && (best.Some? ==> IsRun(vals, threshold, gap, best.value.0, best.value.1) && best.value.1 <= k)
    && forall i: nat, j: nat :: IsRun(vals, threshold, gap, i, j) && j <= k ==>
         && best.Some?
         && j - i <= best.value.1 - best.value.0
         && (j - i == best.value.1 - best.value.0 ==> best.value.0 <= i)
  }

  function Peak(vals: seq<TimedValue>, i: nat, j: nat): real
    requires i < j <= |vals|
  {
    if j == i + 1 then vals[i].v else MaxReal(Peak(vals, i, j - 1), vals[j - 1].v)
  }

  function Describe(vals: seq<TimedValue>, best: Option<(nat, nat)>): SustainedRun
    requires best.Some? ==> best.value.0 < best.value.1 <= |vals|
  {
    if best.None? then NO_RUN
    else
      var (i, j) := best.value;
      SustainedRun(vals[i].ts, vals[j - 1].ts, j - i, Peak(vals, i, j))
  }

  function CountAbove(vals: seq<TimedValue>, threshold: real, k: nat): nat
    requires k <= |vals|
  {
    if k == 0 then 0 else CountAbove(vals, threshold, k - 1) + if vals[k - 1].v >= threshold then 1 else 0
  }

  /** The peak of a run is its greatest value. */
  lemma {:induction false} PeakIsGreatest(vals: seq<TimedValue>, i: nat, j: nat)
    requires i < j <= |vals|
    ensures forall k :: i <= k < j ==> vals[k].v <= Peak(vals, i, j)
    ensures exists k :: i <= k < j && vals[k].v == Peak(vals, i, j)
  {
    if j > i + 1 {
      PeakIsGreatest(vals, i, j - 1);
    } else {
      assert vals[i].v == Peak(vals, i, j);
    }
  }

  /** What makes a run and ends it, in terms of the observations: all meet the threshold, none comes later
      than the tolerance after the one before, and on either side lies nothing, or an observation below the
      threshold or too far away. */
  ghost predicate IsStretch(vals: seq<TimedValue>, threshold: real, gap: int, i: nat, j: nat) {
    && i < j <= |vals|
    && (forall k :: i <= k < j ==> vals[k].v >= threshold)
    && (forall k, m :: i <= k < j && m == k + 1 && m < j ==> vals[m].ts - vals[k].ts <= gap)
    && (i > 0 ==> vals[i - 1].v < threshold || vals[i].ts - vals[i - 1].ts > gap)
    && (j < |vals| ==> vals[j].v < threshold || vals[j].ts - vals[j - 1].ts > gap)
  }

  lemma StretchesAreMaximal(vals: seq<TimedValue>, threshold: real, gap: int, i: nat, j: nat)
    ensures IsMaximalRun(vals, threshold, gap, i, j) <==> IsStretch(vals, threshold, gap, i, j)
  {
    if IsStretch(vals, threshold, gap, i, j) {
      forall k | i < k < j ensures Joined(vals, gap, k) {
        assert vals[k].ts - vals[k - 1].ts <= gap;
      }
      assert i > 0 ==> vals[i - 1].v < threshold || !Joined(vals, gap, i);
      assert j < |vals| ==> vals[j].v < threshold || !Joined(vals, gap, j);
    }
    if IsMaximalRun(vals, threshold, gap, i, j) {
      forall k, m | i <= k < j && m == k + 1 && m < j ensures vals[m].ts - vals[k].ts <= gap {
        assert Joined(vals, gap, m);
      }
      OneLonger(vals, threshold, gap, i, j);
    }
  }

  lemma OneLonger(vals: seq<TimedValue>, threshold: real, gap: int, i: nat, j: nat)
    requires IsRun(vals, threshold, gap, i, j)
    ensures i > 0 && vals[i - 1].v >= threshold && Joined(vals, gap, i) ==> IsRun(vals, threshold, gap, i - 1, j)
    ensures j < |vals| && vals[j].v >= threshold && Joined(vals, gap, j) ==> IsRun(vals, threshold, gap, i, j + 1)
  {
  }

  ghost predicate InTime(vals: seq<TimedValue>) { forall i, j :: 0 <= i < j < |vals| ==> vals[i].ts <= vals[j].ts }

  /** The reported run counts its observations, begins with the first and ends with the last of them, and has
      the greatest value as its peak. */
  lemma RunIsDescribed(vals: seq<TimedValue>, i: nat, j: nat)
    requires i < j <= |vals| && InTime(vals)
    ensures var r := Describe(vals, Some((i, j)));
            && r.minutes == |vals[i..j]|
            && (forall k :: i <= k < j ==> r.start <= vals[k].ts <= r.end && vals[k].v <= r.peak)
            && r.start == vals[i..j][0].ts && (exists k :: i <= k < j && vals[k].ts == r.end)
            && exists k :: i <= k < j && vals[k].v == r.peak
  {
    PeakIsGreatest(vals, i, j);
    assert vals[j - 1].ts == Describe(vals, Some((i, j))).end;
  }

  function PlacesAbove(vals: seq<TimedValue>, threshold: real, k: nat): set<nat>
    requires k <= |vals|
  {
    set i: nat | i < k && vals[i].v >= threshold
  }

  /** The count is the number of places where the value meets the threshold. */
  lemma {:induction false} CountIsSize(vals: seq<TimedValue>, threshold: real, k: nat)
    requires k <= |vals|
    ensures CountAbove(vals, threshold, k) == |PlacesAbove(vals, threshold, k)|
  {
    if k > 0 {
      CountIsSize(vals, threshold, k - 1);
      var before := PlacesAbove(vals, threshold, k - 1);
      assert PlacesAbove(vals, threshold, k) == if vals[k - 1].v >= threshold then before + {k - 1} else before;
    } else {
      assert PlacesAbove(vals, threshold, 0) == {};
    }
  }

  /** A run under way: it starts at `c`, cannot be extended to the left and reaches `k`. */
  ghost predicate Current(vals: seq<TimedValue>, threshold: real, gap: int, c: nat, k: nat) {
    IsRun(vals, threshold, gap, c, k) && (c > 0 ==> !IsRun(vals, threshold, gap, c - 1, k))
  }

  /** Two runs that meet make one: what reaches into a run from further left extends it. */
  lemma RunsMeet(vals: seq<TimedValue>, threshold: real, gap: int, c: nat, k: nat, i: nat, j: nat)
    requires IsRun(vals, threshold, gap, c, k) && IsRun(vals, threshold, gap, i, j) && c < j <= k
    ensures i < c ==> IsRun(vals, threshold, gap, c - 1, k)
  {
  }

  /** A run that reaches into the current one starts inside it. */
  lemma RunsStayInside(vals: seq<TimedValue>, threshold: real, gap: int, c: nat, k: nat, i: nat, j: nat)
    requires Current(vals, threshold, gap, c, k) && IsRun(vals, threshold, gap, i, j) && c < j <= k
    ensures c <= i
  {
    RunsMeet(vals, threshold, gap, c, k, i, j);
  }

  /** Closing the current run at `k`: the strict comparison keeps the earlier of equals. */
  lemma CloseRun(vals: seq<TimedValue>, threshold: real, gap: int, c: nat, k: nat, best: Option<(nat, nat)>)
    requires Current(vals, threshold, gap, c, k) && Best(vals, threshold, gap, c, best)
    ensures var longer := best.None? || k - c > best.value.1 - best.value.0;
            Best(vals, threshold, gap, k, if longer then Some((c, k)) else best)
  {
    var next := if best.None? || k - c > best.value.1 - best.value.0 then Some((c, k)) else best;
    forall i: nat, j: nat | IsRun(vals, threshold, gap, i, j) && j <= k
      ensures j - i <= next.value.1 - next.value.0
      ensures j - i == next.value.1 - next.value.0 ==> next.value.0 <= i
    {
      if c < j { RunsStayInside(vals, threshold, gap, c, k, i, j); }
    }
  }

  lemma SkipBelow(vals: seq<TimedValue>, threshold: real, gap: int, k: nat, best: Option<(nat, nat)>)
    requires k < |vals| && vals[k].v < threshold && Best(vals, threshold, gap, k, best)
    ensures Best(vals, threshold, gap, k + 1, best)
  {
  }

  lemma RunGoesOn(vals: seq<TimedValue>, threshold: real, gap: int, c: nat, k: nat)
    requires k < |vals| && vals[k].v >= threshold
    ensures Current(vals, threshold, gap, c, k) && Joined(vals, gap, k) ==> Current(vals, threshold, gap, c, k + 1)
    ensures k == 0 || vals[k - 1].v < threshold || !Joined(vals, gap, k) ==> Current(vals, threshold, gap, k, k + 1)
  {
    if 0 < c < k { ShorterRun(vals, threshold, gap, c - 1, k); }
  }

  lemma ShorterRun(vals: seq<TimedValue>, threshold: real, gap: int, i: nat, j: nat)
    requires i < j
    ensures IsRun(vals, threshold, gap, i, j + 1) ==> IsRun(vals, threshold, gap, i, j)
  {
  }

  /** The comparison made wherever a run ends. */
  method EndRun(vals: seq<TimedValue>, threshold: real, gap: int, cur: SustainedRun, longest0: SustainedRun,
      ghost c: nat, ghost k: nat, ghost best0: Option<(nat, nat)>)
    returns (longest: SustainedRun, ghost best: Option<(nat, nat)>)
    requires Current(vals, threshold, gap, c, k) && cur == Describe(vals, Some((c, k)))
    requires Best(vals, threshold, gap, c, best0) && longest0 == Describe(vals, best0)
    ensures Best(vals, threshold, gap, k, best) && longest == Describe(vals, best)
  {
    CloseRun(vals, threshold, gap, c, k, best0);
    longest, best := longest0, best0;
    if cur.minutes > longest0.minutes {
      longest, best := cur, Some((c, k));
    }
  }

  /** The first longest run among all gap-tolerant runs, exactly described, and the total count. */
  method Sustained(vals: seq<TimedValue>, threshold: real, gap: int)
    returns (longest: SustainedRun, totalMinutes: nat, ghost best: Option<(nat, nat)>)
    ensures Best(vals, threshold, gap, |vals|, best)
    ensures longest == Describe(vals, best)
    ensures totalMinutes == CountAbove(vals, threshold, |vals|)
  {
    longest, totalMinutes, best := NO_RUN, 0, None;
    var cur: Option<SustainedRun> := None;
    var lastTs := ZERO_TIME;
    ghost var c := 0;
    for k := 0 to |vals|
      invariant cur.Some? ==> Current(vals, threshold, gap, c, k) && cur.value == Describe(vals, Some((c, k)))
                              && lastTs == vals[k - 1].ts
      invariant cur.None? && k > 0 ==> vals[k - 1].v < threshold
      invariant Best(vals, threshold, gap, if cur.Some? then c else k, best) && longest == Describe(vals, best)
      invariant totalMinutes == CountAbove(vals, threshold, k)
    {
      var tv := vals[k];
      if tv.v >= threshold {
        totalMinutes := totalMinutes + 1;
        RunGoesOn(vals, threshold, gap, c, k);
        if cur.Some? && tv.ts - lastTs <= gap {
          cur := Some(cur.value.(end := tv.ts, minutes := cur.value.minutes + 1, peak := MaxReal(cur.value.peak, tv.v)));
        } else {
          if cur.Some? {
            longest, best := EndRun(vals, threshold, gap, cur.value, longest, c, k, best);
          }
          c := k;
          cur := Some(SustainedRun(tv.ts, tv.ts, 1, tv.v));
        }
        lastTs := tv.ts;
      } else {
        if cur.Some? {
          longest, best := EndRun(vals, threshold, gap, cur.value, longest, c, k, best);
        }
        SkipBelow(vals, threshold, gap, k, best);
        cur := None;
      }
    }
    if cur.Some? {
      longest, best := EndRun(vals, threshold, gap, cur.value, longest, c, |vals|, best);
    }
  }

  // ---- what the result means --------------------------------------------------------------

  /** The best run is maximal, and there is only one best run. */
  lemma BestIsMaximalAndUnique(vals: seq<TimedValue>, threshold: real, gap: int, best: Option<(nat, nat)>, other: Option<(nat, nat)>)
    requires Best(vals, threshold, gap, |vals|, best) && Best(vals, threshold, gap, |vals|, other)
    ensures best == other
    ensures best.Some? ==> IsMaximalRun(vals, threshold, gap, best.value.0, best.value.1)
  {
    if best.Some? {
      var (i, j) := best.value;
      assert i > 0 && IsRun(vals, threshold, gap, i - 1, j) ==> j - (i - 1) <= j - i;
      assert IsRun(vals, threshold, gap, i, j + 1) ==> (j + 1) - i <= j - i;
    }
  }

  /** Raising the threshold lengthens neither the longest run nor the total. */
  lemma RaisingThreshold(vals: seq<TimedValue>, low: real, high: real, gap: int,
      best: Option<(nat, nat)>, higher: Option<(nat, nat)>)
    requires low <= high
    requires Best(vals, low, gap, |vals|, best) && Best(vals, high, gap, |vals|, higher)
    ensures Describe(vals, higher).minutes <= Describe(vals, best).minutes
    ensures CountAbove(vals, high, |vals|) <= CountAbove(vals, low, |vals|)
  {
    if higher.Some? {
      assert IsRun(vals, low, gap, higher.value.0, higher.value.1);
    }
    FewerAbove(vals, low, high, |vals|);
  }

  lemma {:induction false} FewerAbove(vals: seq<TimedValue>, low: real, high: real, k: nat)
    requires low <= high && k <= |vals|
    ensures CountAbove(vals, high, k) <= CountAbove(vals, low, k)
  {
    if k > 0 { FewerAbove(vals, low, high, k - 1); }
  }

  /** Where the run that reaches `k` starts. */
  function StartOf(vals: seq<TimedValue>, threshold: real, gap: int, k: nat): (c: nat)
    requires 0 < k <= |vals| && vals[k - 1].v >= threshold
    ensures c < k
  {
    if k > 1 && vals[k - 2].v >= threshold && Joined(vals, gap, k - 1)
    then StartOf(vals, threshold, gap, k - 1) else k - 1
  }

  /** The runs of the first `k` observations, from left to right. */
  function Runs(vals: seq<TimedValue>, threshold: real, gap: int, k: nat): (rs: seq<(nat, nat)>)
    requires k <= |vals|
    ensures forall r :: r in rs ==> r.0 < r.1 <= k
  {
    if k == 0 then []
    else if vals[k - 1].v < threshold then Runs(vals, threshold, gap, k - 1)
    else
      var c := StartOf(vals, threshold, gap, k);
      Runs(vals, threshold, gap, c) + [(c, k)]
  }

  function TotalLength(rs: seq<(nat, nat)>): int {
    if rs == [] then 0 else TotalLength(rs[..|rs| - 1]) + rs[|rs| - 1].1 - rs[|rs| - 1].0
  }

  lemma {:induction false} StartIsCurrent(vals: seq<TimedValue>, threshold: real, gap: int, k: nat)
    requires 0 < k <= |vals| && vals[k - 1].v >= threshold
    ensures var c := StartOf(vals, threshold, gap, k);
            && Current(vals, threshold, gap, c, k) && (c > 0 ==> !IsRun(vals, threshold, gap, c - 1, c + 1))
            && CountAbove(vals, threshold, k) == CountAbove(vals, threshold, c) + (k - c)
  {
    var c := StartOf(vals, threshold, gap, k);
    if c != k - 1 {
      StartIsCurrent(vals, threshold, gap, k - 1);
      if c > 0 { ShorterRun(vals, threshold, gap, c - 1, k - 1); }
    }
  }

  /** A run of the first `k` observations that cannot be extended within them. */
  predicate MaximalWithin(vals: seq<TimedValue>, threshold: real, gap: int, k: nat, i: nat, j: nat) {
    && IsRun(vals, threshold, gap, i, j) && j <= k
    && (i > 0 ==> !IsRun(vals, threshold, gap, i - 1, j))
    && (j < k ==> !IsRun(vals, threshold, gap, i, j + 1))
  }

  lemma InsideRun(vals: seq<TimedValue>, threshold: real, gap: int, c: nat, k: nat, i: nat, j: nat)
    requires IsRun(vals, threshold, gap, c, k) && c <= i < j <= k
    ensures i > c ==> IsRun(vals, threshold, gap, i - 1, j)
    ensures j < k ==> IsRun(vals, threshold, gap, i, j + 1)
  {
  }

  /** Behind the start of the last run only that run itself is maximal. */
  lemma OnlyTheLastRun(vals: seq<TimedValue>, threshold: real, gap: int, c: nat, k: nat, i: nat, j: nat)
    requires Current(vals, threshold, gap, c, k) && c < j <= k
    ensures MaximalWithin(vals, threshold, gap, k, i, j) <==> (i, j) == (c, k)
  {
    if MaximalWithin(vals, threshold, gap, k, i, j) {
      RunsStayInside(vals, threshold, gap, c, k, i, j);
      InsideRun(vals, threshold, gap, c, k, i, j);
    }
  }

  /** `Runs` lists exactly the maximal runs. */
  lemma {:induction false} RunsAreMaximal(vals: seq<TimedValue>, threshold: real, gap: int, k: nat, i: nat, j: nat)
    requires k <= |vals|
    ensures (i, j) in Runs(vals, threshold, gap, k) <==> MaximalWithin(vals, threshold, gap, k, i, j)
  {
    if k == 0 {
    } else if vals[k - 1].v < threshold {
      RunsAreMaximal(vals, threshold, gap, k - 1, i, j);
      assert !IsRun(vals, threshold, gap, i, k);
    } else {
      var c := StartOf(vals, threshold, gap, k);
      StartIsCurrent(vals, threshold, gap, k);
      if j <= c {
        RunsAreMaximal(vals, threshold, gap, c, i, j);
        if IsRun(vals, threshold, gap, i, c + 1) && i < c {
          assert IsRun(vals, threshold, gap, c - 1, c + 1);
        }
      } else if j <= k {
        OnlyTheLastRun(vals, threshold, gap, c, k, i, j);
      }
    }
  }

  lemma {:induction false} TotalIsSumOfRuns(vals: seq<TimedValue>, threshold: real, gap: int, k: nat)
    requires k <= |vals|
    ensures CountAbove(vals, threshold, k) == TotalLength(Runs(vals, threshold, gap, k))
  {
    if k == 0 {
    } else if vals[k - 1].v < threshold {
      TotalIsSumOfRuns(vals, threshold, gap, k - 1);
    } else {
      var c := StartOf(vals, threshold, gap, k);
      StartIsCurrent(vals, threshold, gap, k);
      TotalIsSumOfRuns(vals, threshold, gap, c);
      var rs := Runs(vals, threshold, gap, c);
      assert (rs + [(c, k)])[..|rs|] == rs;
    }
  }

  /** The total is the sum of the lengths of the maximal runs of the series. */
  lemma TotalOverMaximalRuns(vals: seq<TimedValue>, threshold: real, gap: int)
    ensures forall i: nat, j: nat :: (i, j) in Runs(vals, threshold, gap, |vals|) <==> IsMaximalRun(vals, threshold, gap, i, j)
    ensures CountAbove(vals, threshold, |vals|) == TotalLength(Runs(vals, threshold, gap, |vals|))
  {
    forall i: nat, j: nat
      ensures (i, j) in Runs(vals, threshold, gap, |vals|) <==> IsMaximalRun(vals, threshold, gap, i, j)
    {
      RunsAreMaximal(vals, threshold, gap, |vals|, i, j);
    }
    TotalIsSumOfRuns(vals, threshold, gap, |vals|);
  }
}
