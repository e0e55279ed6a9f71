/** What the figures of a reported pattern say about the events of its cluster. */
module PatternFigures {
  import opened Common
  import opened Totals
  import opened Recurrence
  import opened Patterns

  const MINUTES: SpikeEvent -> real := (e: SpikeEvent) => MinuteOfDay(e.startTs) as real

  /** An event's minute of the day is the one that it starts in. */
  lemma MinuteOfDayHolds(t: Time)
    ensures DateOf(t) * DAY + MinuteOfDay(t) * MINUTE <= t < DateOf(t) * DAY + (MinuteOfDay(t) + 1) * MINUTE
  {
    var r := t % DAY;
    assert t == DateOf(t) * DAY + r;
    assert r == MinuteOfDay(t) * MINUTE + r % MINUTE;
  }

  lemma {:induction false} SumIsTotal(events: seq<SpikeEvent>, f: SpikeEvent -> real)
    ensures SumOf(events, f) == Total(events, f)
  {
    if events != [] {
      var init, last := events[..|events| - 1], events[|events| - 1];
      SumIsTotal(init, f);
      assert events == init + [last];
      TotalSnoc(init, last, f);
    }
  }

  lemma {:induction false} SumMinutesIsTotal(events: seq<SpikeEvent>)
    ensures SumMinutes(events) as real == Total(events, MINUTES)
  {
    if events != [] {
      var init, last := events[..|events| - 1], events[|events| - 1];
      SumMinutesIsTotal(init);
      assert events == init + [last];
      TotalSnoc(init, last, MINUTES);
    }
  }

  /** `x` is the mean of f over the events, the fraction dropped. */
  ghost predicate IsWholeMean(events: seq<SpikeEvent>, f: SpikeEvent -> real, x: int) {
    (|events| * x) as real <= Total(events, f) < (|events| * x + |events|) as real
  }

  lemma QuotientHolds(s: int, n: nat)
    requires n > 0
    ensures n * (s / n) <= s < n * (s / n) + n
  {
  }

  /** A pattern counts its events and their days, gives their mean duration and peak and the mean of their
      minutes of the day, the fraction dropped. */
  lemma FiguresAreMeans(key: (string, string), events: seq<SpikeEvent>, observedDays: int)
    requires Qualifies(events)
    ensures var p := PatternOf(key, events, observedDays);
            && (p.resource, p.device) == key && p.observedDays == observedDays
            && p.occurrences == |events| && p.distinctDays == |set e | e in events :: DateOf(e.startTs)|
            && IsMean(events, DURATION, p.meanDurationS) && IsMean(events, PEAK, p.meanPeak)
            && IsWholeMean(events, MINUTES, p.meanMinute)
  {
    SumIsTotal(events, DURATION);
    SumIsTotal(events, PEAK);
    SumMinutesIsTotal(events);
    QuotientIsMean(events, DURATION);
    QuotientIsMean(events, PEAK);
    QuotientHolds(SumMinutes(events), |events|);
  }

  lemma SameWholeMean(n: int, total: real, x: int, y: int)
    requires n > 0 && (n * x) as real <= total < (n * x + n) as real && (n * y) as real <= total < (n * y + n) as real
    ensures x == y
  {
    assert n * x < n * y + n && n * y < n * x + n;
    if x < y { Times(n, x, y); }
    if y < x { Times(n, y, x); }
  }

  lemma SameDays(a: seq<SpikeEvent>, b: seq<SpikeEvent>)
    requires multiset(a) == multiset(b)
    ensures Days(a) == Days(b) && (WeekdaysOnly(a) <==> WeekdaysOnly(b))
  {
    forall e ensures e in a <==> e in b {
      assert e in a <==> e in multiset(a);
      assert e in b <==> e in multiset(b);
    }
  }

  lemma SameMeans(key: (string, string), a: seq<SpikeEvent>, b: seq<SpikeEvent>, observedDays: int)
    requires Qualifies(a) && Qualifies(b) && multiset(a) == multiset(b)
    ensures var p, q := PatternOf(key, a, observedDays), PatternOf(key, b, observedDays);
            |a| == |b| && p.meanDurationS == q.meanDurationS && p.meanPeak == q.meanPeak && p.meanMinute == q.meanMinute
  {
    var p, q := PatternOf(key, a, observedDays), PatternOf(key, b, observedDays);
    FiguresAreMeans(key, a, observedDays);
    FiguresAreMeans(key, b, observedDays);
    MeanPermuted(a, b, DURATION, p.meanDurationS, q.meanDurationS);
    MeanPermuted(a, b, PEAK, p.meanPeak, q.meanPeak);
    TotalPermuted(a, b, MINUTES);
    SameWholeMean(|a|, Total(a, MINUTES), p.meanMinute, q.meanMinute);
  }

  /** None of them depends on the order of the events; only the list of ids does. */
  lemma OrderDoesNotMatter(key: (string, string), a: seq<SpikeEvent>, b: seq<SpikeEvent>, observedDays: int)
    requires Qualifies(a) && multiset(a) == multiset(b)
    ensures Qualifies(b)
    ensures PatternOf(key, a, observedDays).(eventIds := []) == PatternOf(key, b, observedDays).(eventIds := [])
  {
    SameDays(a, b);
    TotalPermuted(a, b, MINUTES);
    SameMeans(key, a, b, observedDays);
  }

  lemma ShareOf(d: real, n: real, x: real)
    requires n > 0.0 && n * x == d
    ensures x >= 0.8 <==> d >= 0.8 * n
  {
    if x < 0.8 { Larger(n, x, 0.8); }
    if x > 0.8 { Larger(n, 0.8, x); }
  }

  lemma AtLeastFourFifths(d: int, n: int)
    requires n > 0
    ensures d as real / n as real >= 0.8 <==> 5 * d >= 4 * n
  {
    Multiplied(n as real, d as real);
    ShareOf(d as real, n as real, d as real / n as real);
    assert d as real >= 0.8 * n as real <==> 5 * d >= 4 * n;
  }

  /** The cadence: daily when the days with an event are at least four fifths of those observed; else
      weekdays when none is a Saturday or Sunday and a week was observed; else weekly when two weeks were,
      with a day for each; else irregular. */
  lemma CadenceExactly(key: (string, string), events: seq<SpikeEvent>, observedDays: int)
    requires Qualifies(events)
    ensures var c, d := PatternOf(key, events, observedDays).cadence, |Days(events)|;
            var daily := observedDays > 0 && 5 * d >= 4 * observedDays;
            var weekdays := observedDays >= 7 && forall e :: e in events ==> DateOf(e.startTs) % 7 < 5;
            var weekly := observedDays >= 14 && 7 * (d + 1) > observedDays;
            && (c == Daily <==> daily)
            && (c == Weekdays <==> !daily && weekdays)
            && (c == Weekly <==> !daily && !weekdays && weekly)
            && (c == Irregular <==> !daily && !weekdays && !weekly)
  {
    var d := |Days(events)|;
    if observedDays > 0 { AtLeastFourFifths(d, observedDays); }
    assert WeekdaysOnly(events) <==> forall e :: e in events ==> DateOf(e.startTs) % 7 < 5;
    assert d >= observedDays / 7 <==> 7 * (d + 1) > observedDays;
  }
}
