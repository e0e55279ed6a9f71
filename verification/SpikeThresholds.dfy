/** Which threshold is in force at each sample of a run, and what an event says about it. */
module SpikeThresholds {
  import opened Common
  import opened Spike
  import opened SpikeBaseline
  import opened SpikeTrace
  import opened SpikeEvents
  import opened SpikeTheorems

  /** The static threshold, or what the baseline asks for when that is lower: the median plus K robust
      deviations, each of at least 1, and never below the floor. */
  function Lowered(rule: Rule, median: real, mad: real): real {
    var sigma := if 1.4826 * mad < 1.0 then 1.0 else 1.4826 * mad;
    var deviation := median + rule.baselineK * sigma;
    var trigger := if deviation < rule.baselineFloor then rule.baselineFloor else deviation;
    if trigger < rule.staticThreshold then trigger else rule.staticThreshold
  }

  lemma ThresholdOfState(st: Series)
    ensures EffectiveThreshold(st).threshold
         == if Armed(st) then Lowered(st.rule, st.baseline, st.mad) else st.rule.staticThreshold
  {
  }

  lemma ArmedExactly(st: Series, vals: seq<real>)
    requires HistoryOk(st, vals)
    ensures Armed(st) <==> st.rule.baselineK > 0.0 && |vals| >= BASELINE_MIN_SAMPLES
  {
    FreshBaseline(st.hist, vals);
  }

  lemma ThresholdFor(st: Series, vals: seq<real>)
    requires HistoryOk(st, vals)
    ensures EffectiveThreshold(st).threshold
         == if st.rule.baselineK > 0.0 && |vals| >= BASELINE_MIN_SAMPLES
            then Lowered(st.rule, MedianMad(HistoryBehind(st, vals)).0, MedianMad(HistoryBehind(st, vals)).1)
            else st.rule.staticThreshold
  {
    ThresholdOfState(st);
    ArmedExactly(st, vals);
    if Armed(st) { ArmedHasHistory(st, vals); }
  }

  /** Outside an event the threshold is the static one until the rule asks for a baseline and 240 values
      have been seen; from then on it is what the median and the MAD of the history allow. */
  lemma ThresholdExactly(r: Run, i: nat)
    requires Valid(r) && i < |r.samples| && Idle(TraceOf(r), i)
    ensures var t, h := TraceOf(r), BaselineHistory(r, i);
            t.thresholds[i] == if r.rule.baselineK > 0.0 && |IdleValues(t, i + 1)| >= BASELINE_MIN_SAMPLES
                               then Lowered(r.rule, Median(h), Mad(h))
                               else r.rule.staticThreshold
  {
    HistoryAtSample(r, i);
    ThresholdAtSample(r, i);
    ThresholdFor(BookkeptAt(r, i), IdleValues(TraceOf(r), i + 1));
  }

  lemma NeverRaised(st: Series)
    ensures EffectiveThreshold(st).threshold <= st.rule.staticThreshold
  {
  }

  /** No sample, inside or outside an event, is held to more than the static threshold. */
  lemma NeverAboveStatic(r: Run, i: nat)
    requires Valid(r) && i < |r.samples|
    ensures TraceOf(r).thresholds[i] <= r.rule.staticThreshold
  {
    ThresholdAtSample(r, i);
    NeverRaised(BookkeptAt(r, i));
  }

  lemma BaselineFor(st: Series, vals: seq<real>)
    requires HistoryOk(st, vals)
    ensures st.baseline == if |vals| >= 4 then Median(HistoryBehind(st, vals)) else 0.0
  {
  }

  lemma BaselineCarried(r: Run, o: nat)
    requires Valid(r) && o < |r.samples|
    ensures TraceOf(r).states[o + 1].baseline == BookkeptAt(r, o).baseline
  {
    AtStep(r, o);
    StepKeepsBaseline(r.cfg, TraceOf(r).states[o], r.samples[o].ts, r.samples[o].v, r.samples[o].id);
  }

  /** What an event emitted in a run says about why it opened: the series and the sample it opened at, the
      median of the history of that moment, and the threshold in force with its cause. */
  ghost predicate Explained(r: Run, o: nat, ev: Event)
    requires Valid(r) && o < |r.samples| && Idle(TraceOf(r), o)
  {
    var t := TraceOf(r);
    var median := if |IdleValues(t, o + 1)| >= 4 then Median(BaselineHistory(r, o)) else 0.0;
    && ev.id == r.samples[o].id && ev.key == r.key
    && ev.baseline == Round2(median) && ev.threshold == Round2(t.thresholds[o])
    && (ev.trigger == BaselineDeviation <==> t.thresholds[o] < r.rule.staticThreshold)
  }

  /** What the event completed at `c` takes from the sample `o` that opened it. */
  ghost predicate OpenedWith(t: Trace, o: nat, ev: Event)
    requires Sized(t) && o < |t.r.samples|
  {
    && ev.id == t.r.samples[o].id && ev.key == t.r.key
    && Labelled(ev, t.states[o + 1].baseline, t.thresholds[o], t.r.rule)
  }

  lemma OpeningExplains(r: Run, o: nat, ev: Event)
    requires Valid(r) && o < |r.samples| && Idle(TraceOf(r), o) && OpenedWith(TraceOf(r), o, ev)
    ensures Explained(r, o, ev)
  {
    HistoryAtSample(r, o);
    BaselineFor(BookkeptAt(r, o), IdleValues(TraceOf(r), o + 1));
    BaselineCarried(r, o);
  }

  /** The sample that opened the event completed at `c`. */
  ghost function OpeningOf(t: Trace, c: nat): nat
    requires IsTrace(t) && c < |t.r.samples| && t.done[c].Some?
  {
    EveryEvent(t, c);
    OpenedAt(t, ClosedAt(t, c))
  }

  lemma LabelsOf(t: Trace, c: nat)
    requires IsTrace(t) && c < |t.r.samples| && t.done[c].Some?
    ensures var o := OpeningOf(t, c); o < |t.r.samples| && Opens(t, o) && OpenedWith(t, o, t.done[c].value)
  {
    EveryEvent(t, c);
    var p := ClosedAt(t, c);
    assert Closed(t, OpenedAt(t, p), p, t.done[c].value);
    assert Grown(t, OpenedAt(t, p), p + 1, t.done[c].value);
  }

  /** Every emitted event says truly why it opened. */
  lemma EventsAreExplained(r: Run, c: nat)
    requires Valid(r) && c < |r.samples| && TraceOf(r).done[c].Some?
    ensures IsTrace(TraceOf(r))
    ensures var o := OpeningOf(TraceOf(r), c);
            o < |r.samples| && Opens(TraceOf(r), o) && Explained(r, o, TraceOf(r).done[c].value)
  {
    TraceIsTrace(r);
    LabelsOf(TraceOf(r), c);
    OpeningExplains(r, OpeningOf(TraceOf(r), c), TraceOf(r).done[c].value);
  }

  // ---- when the baseline is refreshed -----------------------------------------------------

  /** How old a baseline is after `n` values, once it is not zero: it is taken at the fourth value and then
      at every twentieth. */
  function AgeAfter(n: nat): nat { if n < 4 then n else (n - 4) % BASELINE_REFRESH }

  lemma OneOlder(n: nat)
    requires n >= 4
    ensures AgeAfter(n + 1) == if AgeAfter(n) + 1 >= BASELINE_REFRESH then 0 else AgeAfter(n) + 1
  {
  }

  lemma AgesByOneFor(st: Series, b: Series, vals: seq<real>, v: real, baseline: seq<real> -> (real, real))
    requires HistoryOkFor(st, vals, baseline) && Refreshed(st, b, v, baseline)
    requires |b.hist.vals| >= 4 <==> |vals| + 1 >= 4
    requires st.baseAge == AgeAfter(|vals|) && (|vals| >= 4 ==> st.baseline != 0.0)
    ensures b.baseAge == AgeAfter(|vals| + 1)
  {
    if |vals| >= 4 { OneOlder(|vals|); }
  }

  lemma AgesByOne(st: Series, vals: seq<real>, v: real)
    requires HistoryOk(st, vals) && st.open.None? && st.baseAge == AgeAfter(|vals|) && (|vals| >= 4 ==> st.baseline != 0.0)
    ensures Bookkept(st, v).baseAge == AgeAfter(|vals| + 1)
  {
    RingAdvances(st.hist, vals, v);
    FreshBaseline(Recorded(st.hist, v), vals + [v]);
    AgesByOneFor(st, Bookkept(st, v), vals, v, MedianMad);
  }

  /** While the median is not zero the baseline is recomputed at the fourth value outside events and at
      every twentieth after it, at no others. */
  lemma {:induction false} RefreshedEveryTwentieth(r: Run, n: nat)
    requires Valid(r) && n <= |r.samples|
    requires forall m :: 0 <= m <= n && |IdleValues(TraceOf(r), m)| >= 4 ==> TraceOf(r).states[m].baseline != 0.0
    ensures TraceOf(r).states[n].baseAge == AgeAfter(|IdleValues(TraceOf(r), n)|)
  {
    var t := TraceOf(r);
    if n == 0 {
      StartsNew(r);
    } else {
      var i, v := n - 1, r.samples[n - 1].v;
      RefreshedEveryTwentieth(r, i);
      HistoryTracked(r, i);
      AtStep(r, i);
      StepKeepsBaseline(r.cfg, t.states[i], r.samples[i].ts, v, r.samples[i].id);
      if Idle(t, i) { AgesByOne(t.states[i], IdleValues(t, i), v); }
    }
  }
}
