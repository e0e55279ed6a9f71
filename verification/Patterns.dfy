/** Recurring patterns (internal/analyzer/recurrence.go): what DetectPatterns reports for each
    cluster, over all series, and what PatternFor finds. */
module Patterns {
  import opened Common
  import opened Recurrence

  datatype Cadence = Daily | Weekdays | Weekly | Irregular

  datatype Pattern = Pattern(
    resource: string, device: string, meanMinute: int, occurrences: nat, distinctDays: nat, observedDays: int,
    meanDurationS: real, meanPeak: real, cadence: Cadence, eventIds: seq<string>)

  // ---- one cluster ------------------------------------------------------------------------

  /** Day 0 is a Monday. */
  predicate IsWeekend(day: int) { day % 7 == 5 || day % 7 == 6 }

  function Days(events: seq<SpikeEvent>): set<int> {
    set e | e in events :: DateOf(e.startTs)
  }

  predicate WeekdaysOnly(events: seq<SpikeEvent>) {
    forall e | e in events :: !IsWeekend(DateOf(e.startTs))
  }

  function SumMinutes(events: seq<SpikeEvent>): (sum: int)
    ensures sum >= 0
  {
    if events == [] then 0
    else SumMinutes(events[..|events| - 1]) + MinuteOfDay(events[|events| - 1].startTs)
  }

  function SumOf(events: seq<SpikeEvent>, f: SpikeEvent -> real): real {
    if events == [] then 0.0 else SumOf(events[..|events| - 1], f) + f(events[|events| - 1])
  }

  function Ids(events: seq<SpikeEvent>): (ids: seq<string>)
    ensures |ids| == |events| && forall i :: 0 <= i < |ids| ==> ids[i] == events[i].eventId
  {
    seq(|events|, i requires 0 <= i < |events| => events[i].eventId)
  }

  function CadenceOf(distinctDays: nat, weekdaysOnly: bool, observedDays: int): Cadence {
    if observedDays > 0 && distinctDays as real / observedDays as real >= 0.8 then Daily
    else if weekdaysOnly && observedDays >= 7 then Weekdays
    else if observedDays >= 14 && distinctDays >= observedDays / 7 then Weekly
    else Irregular
  }

  predicate Qualifies(events: seq<SpikeEvent>) { |events| >= 3 && |Days(events)| >= 3 }

  function PatternOf(key: (string, string), events: seq<SpikeEvent>, observedDays: int): Pattern
    requires Qualifies(events)
  {
    var n := |events|;
    Pattern(key.0, key.1, SumMinutes(events) / n, n, |Days(events)|, observedDays,
            SumOf(events, DURATION) / n as real, SumOf(events, PEAK) / n as real,
            CadenceOf(|Days(events)|, WeekdaysOnly(events), observedDays), Ids(events))
  }

  const DURATION: SpikeEvent -> real := (e: SpikeEvent) => e.durationS

  const PEAK: SpikeEvent -> real := (e: SpikeEvent) => e.peak

  lemma SumsOneMore(events: seq<SpikeEvent>, i: nat, f: SpikeEvent -> real)
    requires i < |events|
    ensures SumOf(events[..i + 1], f) == SumOf(events[..i], f) + f(events[i])
    ensures SumMinutes(events[..i + 1]) == SumMinutes(events[..i]) + MinuteOfDay(events[i].startTs)
  {
    assert events[..i + 1][..i] == events[..i];
  }

  lemma WeekdaysOneMore(events: seq<SpikeEvent>, i: nat)
    requires i < |events|
    ensures WeekdaysOnly(events[..i + 1]) <==> WeekdaysOnly(events[..i]) && !IsWeekend(DateOf(events[i].startTs))
  {
    assert events[..i + 1] == events[..i] + [events[i]];
  }

  lemma OneMore(events: seq<SpikeEvent>, i: nat)
    requires i < |events|
    ensures events[..i + 1][..i] == events[..i] && events[..i + 1] == events[..i] + [events[i]]
    ensures Days(events[..i + 1]) == Days(events[..i]) + {DateOf(events[i].startTs)}
    ensures Ids(events[..i + 1]) == Ids(events[..i]) + [events[i].eventId]
  {
    assert events[..i + 1] == events[..i] + [events[i]];
  }

  /** What the summing loop has gathered of the events before `i`. */
  ghost predicate Gathered(events: seq<SpikeEvent>, i: nat,
      days: set<int>, weekdaysOnly: bool, sumDur: real, sumPeak: real, sumMin: int, ids: seq<string>)
    requires i <= |events|
  {
    && days == Days(events[..i]) && weekdaysOnly == WeekdaysOnly(events[..i])
    && sumDur == SumOf(events[..i], DURATION) && sumPeak == SumOf(events[..i], PEAK)
    && sumMin == SumMinutes(events[..i]) && ids == Ids(events[..i])
  }

  lemma GathersOne(events: seq<SpikeEvent>, i: nat,
      days: set<int>, weekdaysOnly: bool, sumDur: real, sumPeak: real, sumMin: int, ids: seq<string>)
    requires i < |events| && Gathered(events, i, days, weekdaysOnly, sumDur, sumPeak, sumMin, ids)
    ensures var e := events[i];
            Gathered(events, i + 1, days + {DateOf(e.startTs)}, weekdaysOnly && !IsWeekend(DateOf(e.startTs)),
                     sumDur + e.durationS, sumPeak + e.peak, sumMin + MinuteOfDay(e.startTs), ids + [e.eventId])
  {
    OneMore(events, i);
    WeekdaysOneMore(events, i);
    SumsOneMore(events, i, DURATION);
    SumsOneMore(events, i, PEAK);
  }

  /** The summing loop over one cluster. */
  method AddUp(events: seq<SpikeEvent>)
    returns (days: set<int>, weekdaysOnly: bool, sumDur: real, sumPeak: real, sumMin: nat, ids: seq<string>)
    ensures days == Days(events) && weekdaysOnly == WeekdaysOnly(events)
    ensures sumDur == SumOf(events, DURATION) && sumPeak == SumOf(events, PEAK)
    ensures sumMin == SumMinutes(events) && ids == Ids(events)
  {
    days, weekdaysOnly, ids := {}, true, [];
    sumDur, sumPeak, sumMin := 0.0, 0.0, 0;
    for i := 0 to |events|
      invariant Gathered(events, i, days, weekdaysOnly, sumDur, sumPeak, sumMin, ids)
    {
      var e := events[i];
      GathersOne(events, i, days, weekdaysOnly, sumDur, sumPeak, sumMin, ids);
      days := days + {DateOf(e.startTs)};
      if IsWeekend(DateOf(e.startTs)) { weekdaysOnly := false; }
      sumDur, sumPeak, sumMin := sumDur + e.durationS, sumPeak + e.peak, sumMin + MinuteOfDay(e.startTs);
      ids := ids + [e.eventId];
    }
    assert events[..|events|] == events;
  }

  /** What DetectPatterns makes of one cluster. */
  method SummarizeCluster(key: (string, string), events: seq<SpikeEvent>, observedDays: int) returns (p: Option<Pattern>)
    ensures p == if Qualifies(events) then Some(PatternOf(key, events, observedDays)) else None
  {
    var days, weekdaysOnly, sumDur, sumPeak, sumMin, ids := AddUp(events);
    if |events| < 3 || |days| < 3 {
      return None;
    }
    var n := |events|;
    return Some(Pattern(key.0, key.1, sumMin / n, n, |days|, observedDays, sumDur / n as real, sumPeak / n as real,
                        CadenceOf(|days|, weekdaysOnly, observedDays), ids));
  }

  // ---- the mean time of day ---------------------------------------------------------------

  /** The minute of an event counted from the seed's day, so that no step over midnight is a jump. */
  function Unrolled(base: int, m: int): int {
    if m - base > 720 then m - CIRCLE else if base - m > 720 then m + CIRCLE else m
  }

  /** +1 when the event lies on the day before the seed's, -1 when on the day after. */
  function Straddle(base: int, m: int): int {
    if m - base > 720 then 1 else if base - m > 720 then -1 else 0
  }

  function SumUnrolled(base: int, events: seq<SpikeEvent>): int {
    if events == [] then 0
    else SumUnrolled(base, events[..|events| - 1]) + Unrolled(base, MinuteOfDay(events[|events| - 1].startTs))
  }

  function Straddlers(base: int, events: seq<SpikeEvent>): int {
    if events == [] then 0
    else Straddlers(base, events[..|events| - 1]) + Straddle(base, MinuteOfDay(events[|events| - 1].startTs))
  }

  predicate NearBase(base: int, events: seq<SpikeEvent>) {
    forall e | e in events :: MinuteDist(base, MinuteOfDay(e.startTs)) <= TOLERANCE
  }

  /** No event is on the other side of midnight from the seed. */
  predicate OneSide(base: int, events: seq<SpikeEvent>) {
    forall e | e in events :: -TOLERANCE <= MinuteOfDay(e.startTs) - base <= TOLERANCE
  }

  lemma OneMinute(base: int, m: int)
    requires 0 <= base < CIRCLE && 0 <= m < CIRCLE && MinuteDist(base, m) <= TOLERANCE
    ensures m == Unrolled(base, m) + CIRCLE * Straddle(base, m)
    ensures base - TOLERANCE <= Unrolled(base, m) <= base + TOLERANCE
    ensures Straddle(base, m) == 0 <==> -TOLERANCE <= m - base <= TOLERANCE
    ensures if base < 720 then 0 <= Straddle(base, m) else Straddle(base, m) <= 0
  {
  }

  lemma {:induction false} SumsDiffer(base: int, events: seq<SpikeEvent>)
    requires 0 <= base < CIRCLE && NearBase(base, events)
    ensures SumMinutes(events) == SumUnrolled(base, events) + CIRCLE * Straddlers(base, events)
    ensures if base < 720 then 0 <= Straddlers(base, events) else Straddlers(base, events) <= 0
    ensures Straddlers(base, events) == 0 <==> OneSide(base, events)
  {
    if events != [] {
      var init, last := events[..|events| - 1], events[|events| - 1];
      assert events == init + [last] && last in events;
      SumsDiffer(base, init);
      OneMinute(base, MinuteOfDay(last.startTs));
    }
  }

  lemma {:induction false} UnrolledSumIsNear(base: int, events: seq<SpikeEvent>)
    requires 0 <= base < CIRCLE && NearBase(base, events)
    ensures |events| * (base - TOLERANCE) <= SumUnrolled(base, events) <= |events| * (base + TOLERANCE)
  {
    if events != [] {
      var init, last := events[..|events| - 1], events[|events| - 1];
      assert last in events;
      UnrolledSumIsNear(base, init);
      OneMinute(base, MinuteOfDay(last.startTs));
      OneMoreTime(|init|, base - TOLERANCE);
      OneMoreTime(|init|, base + TOLERANCE);
    }
  }

  lemma OneMoreTime(n: nat, x: int)
    ensures (n + 1) * x == n * x + x
  {
  }

  /** Moving `w` events by a day leaves the quotient of the sum `s` alone. */
  predicate NoCarry(s: int, w: int, n: nat)
    requires n > 0
  {
    0 <= s % n + CIRCLE * w < n
  }

  lemma Quotients(s: int, w: int, n: nat, j: int)
    requires n > 0
    ensures (s + CIRCLE * w) / n == s / n + CIRCLE * j <==> NoCarry(s, w - n * j, n)
  {
    var q, r := s / n, s % n;
    assert s + CIRCLE * w == n * q + (r + CIRCLE * w);
    QuotientIs(s + CIRCLE * w, n, q + CIRCLE * j);
    assert n * (q + CIRCLE * j) == n * q + CIRCLE * (n * j);
  }

  lemma QuotientIs(x: int, n: nat, q: int)
    requires n > 0
    ensures x / n == q <==> 0 <= x - n * q < n
  {
    var p := x / n;
    assert x == n * p + x % n;
    if p > q { assert n * p >= n * (q + 1); }
    if p < q { assert n * (p + 1) <= n * q; }
  }

  /** The seed itself is never on the other side of midnight. */
  lemma {:induction false} SeedStaysPut(base: int, events: seq<SpikeEvent>)
    ensures -|events| <= Straddlers(base, events) <= |events|
    ensures (exists e :: e in events && MinuteOfDay(e.startTs) == base) ==> -|events| < Straddlers(base, events) < |events|
  {
    if events != [] {
      var init, last := events[..|events| - 1], events[|events| - 1];
      assert events == init + [last];
      SeedStaysPut(base, init);
    }
  }

  /** On the clock a minute between -20 and 1459 equals one of the day when they differ by no day or one. */
  lemma SameTimeOfDay(q: int, x: int)
    requires -TOLERANCE <= q < CIRCLE + TOLERANCE && 0 <= x < CIRCLE
    ensures x == q % CIRCLE <==> x == q || x == q + CIRCLE || x == q - CIRCLE
  {
  }

  lemma FewEvents(r: int, w: int, n: int)
    requires 0 <= r < n <= CIRCLE
    ensures 0 <= r + CIRCLE * w < n <==> w == 0
  {
  }

  /** The mean of the minutes along the clock, as a time of day. */
  function ClockMean(base: int, events: seq<SpikeEvent>): int
    requires events != []
  {
    (SumUnrolled(base, events) / |events|) % CIRCLE
  }

  lemma MeanIsMinute(events: seq<SpikeEvent>)
    requires events != []
    ensures 0 <= SumMinutes(events) / |events| < CIRCLE
  {
    SumOfMinutes(events);
    QuotientBetween(SumMinutes(events), |events|, 0, CIRCLE - 1);
  }

  lemma {:induction false} SumOfMinutes(events: seq<SpikeEvent>)
    ensures 0 <= SumMinutes(events) <= |events| * (CIRCLE - 1)
  {
    if events != [] {
      SumOfMinutes(events[..|events| - 1]);
      OneMoreTime(|events| - 1, CIRCLE - 1);
    }
  }

  lemma NearOnClock(base: int, q: int)
    requires 0 <= base < CIRCLE && base - TOLERANCE <= q <= base + TOLERANCE
    ensures MinuteDist(base, q % CIRCLE) <= TOLERANCE
  {
  }

  lemma RightExactlyWhen(s: int, w: int, n: nat, x: int)
    requires n > 0 && x == s + CIRCLE * w && -TOLERANCE <= s / n < CIRCLE + TOLERANCE && 0 <= x / n < CIRCLE
    ensures x / n == (s / n) % CIRCLE <==> NoCarry(s, w, n) || NoCarry(s, w - n, n) || NoCarry(s, w + n, n)
  {
    SameTimeOfDay(s / n, x / n);
    Quotients(s, w, n, 0);
    Quotients(s, w, n, 1);
    Quotients(s, w, n, -1);
  }

  lemma FewRight(s: int, w: int, n: int)
    requires 0 < n <= CIRCLE && -n < w < n
    ensures NoCarry(s, w, n) || NoCarry(s, w - n, n) || NoCarry(s, w + n, n) <==> w == 0
  {
    FewEvents(s % n, w, n);
    FewEvents(s % n, w - n, n);
    FewEvents(s % n, w + n, n);
  }

  lemma MeanIsNear(base: int, events: seq<SpikeEvent>)
    requires 0 <= base < CIRCLE && NearBase(base, events) && events != []
    ensures base - TOLERANCE <= SumUnrolled(base, events) / |events| <= base + TOLERANCE
    ensures MinuteDist(base, ClockMean(base, events)) <= TOLERANCE
  {
    UnrolledSumIsNear(base, events);
    QuotientBetween(SumUnrolled(base, events), |events|, base - TOLERANCE, base + TOLERANCE);
    NearOnClock(base, SumUnrolled(base, events) / |events|);
  }

  /** The mean minute reported for a cluster is the mean time of day of its events, which is within 20
      minutes of the seed, exactly when the straddlers do not carry into the quotient, or carry a whole
      day; for up to 1440 events, exactly when none lies on the other side of midnight. */
  lemma MeanMinute(seed: SpikeEvent, events: seq<SpikeEvent>)
    requires seed in events && NearBase(MinuteOfDay(seed.startTs), events)
    ensures var base, n := MinuteOfDay(seed.startTs), |events|;
            var s, w := SumUnrolled(base, events), Straddlers(base, events);
            var right := SumMinutes(events) / n == ClockMean(base, events);
            && (right <==> NoCarry(s, w, n) || NoCarry(s, w - n, n) || NoCarry(s, w + n, n))
            && (n <= CIRCLE ==> (right <==> OneSide(base, events)))
            && MinuteDist(base, ClockMean(base, events)) <= TOLERANCE
  {
    var base, n := MinuteOfDay(seed.startTs), |events|;
    var s, w := SumUnrolled(base, events), Straddlers(base, events);
    SumsDiffer(base, events);
    MeanIsMinute(events);
    MeanIsNear(base, events);
    RightExactlyWhen(s, w, n, SumMinutes(events));
    SeedStaysPut(base, events);
    if n <= CIRCLE { FewRight(s, w, n); }
  }

  lemma Times(n: nat, x: int, y: int)
    requires x < y
    ensures n * x + n <= n * y
  {
    assert n * (y - x - 1) >= 0;
    assert n * (y - x - 1) == n * y - n * x - n;
  }

  lemma QuotientBetween(s: int, n: nat, lo: int, hi: int)
    requires n > 0 && n * lo <= s <= n * hi
    ensures lo <= s / n <= hi
  {
    var q, r := s / n, s % n;
    assert s == n * q + r && 0 <= r < n;
    if q > hi { Times(n, hi, q); }
    if q < lo { Times(n, q, lo); }
  }

  /** A job that runs at midnight: 23:55, 00:00 and 00:05 on three days is reported at 08:00. */
  lemma MidnightExample(events: seq<SpikeEvent>)
    requires |events| == 3
    requires events[0].startTs == 1435 * MINUTE
    requires events[1].startTs == 2 * DAY
    requires events[2].startTs == 3 * DAY + 5 * MINUTE
    ensures NearBase(1435, events) && Qualifies(events) && PatternOf(("", ""), events, 4).meanMinute == 8 * 60
  {
    assert MinuteOfDay(events[0].startTs) == 1435 && MinuteOfDay(events[1].startTs) == 0 && MinuteOfDay(events[2].startTs) == 5;
    assert events[..3] == events && events[..2][..1] == events[..1] && events[..1][..0] == [];
    assert SumMinutes(events[..1]) == 1435;
    assert SumMinutes(events[..2]) == 1435 by { assert events[..2][..1] == events[..1]; }
    assert SumMinutes(events) == 1440;
    assert events[0] in events && events[1] in events && events[2] in events;
    SubsetSize({0, 2, 3}, Days(events));
  }
}
