/** Theorems over every run of one series: durations, spacing between events, and the baseline. */
module SpikeTheorems {
  import opened Common
  import opened Stats
  import opened Spike
  import opened SpikeBaseline
  import opened SpikeTrace
  import opened SpikeEvents

  // ---- duration ---------------------------------------------------------------------------

  /** With increasing timestamps every emitted event lasts longer than the sustained duration. */
  lemma LastsLongerThanSustained(t: Trace, c: nat)
    requires IsTrace(t) && Increasing(t.r) && c < |t.r.samples| && t.done[c].Some?
    ensures var ev := t.done[c].value;
            ev.duration == ev.endTs - ev.startTs && ev.duration > t.r.rule.sustained
  {
    EveryEvent(t, c);
    var p := ClosedAt(t, c);
    var o := OpenedAt(t, p);
    assert Closed(t, o, p, t.done[c].value);
    assert Grown(t, o, p + 1, t.done[c].value);
    assert t.r.samples[o].ts < t.r.samples[DipStart(t, o, p)].ts;
  }

  // ---- spacing ----------------------------------------------------------------------------

  /** The last sample before `n` that completed an event. */
  ghost function LastDone(t: Trace, n: nat): (c: Option<nat>)
    requires Sized(t) && n <= |t.r.samples|
    ensures c.Some? ==> c.value < n && t.done[c.value].Some? && forall i :: c.value < i < n ==> t.done[i].None?
    ensures c.None? ==> forall i :: 0 <= i < n ==> t.done[i].None?
  {
    if n == 0 then None else if t.done[n - 1].Some? then Some(n - 1) else LastDone(t, n - 1)
  }

  lemma StepCooldown(t: Trace, i: nat)
    requires IsTrace(t) && i < |t.r.samples|
    ensures t.states[i + 1].cooldownTill
         == if t.done[i].Some? then Some(Ts(t, i) + t.r.cfg.cooldown) else t.states[i].cooldownTill
  {
    assert MoveAt(t, i);
  }

  lemma {:induction false} CooldownTracked(t: Trace, n: nat)
    requires IsTrace(t) && n <= |t.r.samples|
    ensures t.states[n].cooldownTill ==
            if LastDone(t, n).Some? then Some(Ts(t, LastDone(t, n).value) + t.r.cfg.cooldown) else None
  {
    if n > 0 {
      CooldownTracked(t, n - 1);
      StepCooldown(t, n - 1);
    }
  }

  lemma {:induction false} PostIsContiguous(t: Trace, n: nat, i: nat)
    requires Sized(t) && n <= |t.r.samples| && InPost(t, n) && Idle(t, 0) && ClosedAt(t, n) < i <= n
    ensures InPost(t, i)
  {
    if i < n { PostIsContiguous(t, n - 1, i); }
  }

  /** From its opening to its completion an event is never closed in between. */
  lemma BusyThroughout(t: Trace, c: nat, i: nat)
    requires IsTrace(t) && c < |t.r.samples| && t.done[c].Some?
    ensures InPost(t, c) && Idle(t, 0) && During(t, ClosedAt(t, c))
    ensures OpenedAt(t, ClosedAt(t, c)) < i <= c ==> !Idle(t, i)
  {
    EveryEvent(t, c);
    var p := ClosedAt(t, c);
    if OpenedAt(t, p) < i <= p {
      SameOpening(t, i, p);
    } else if p < i <= c {
      PostIsContiguous(t, c, i);
    }
  }

  /** The opening of an event qualifies. */
  lemma OpeningQualifies(t: Trace, c: nat)
    requires IsTrace(t) && c < |t.r.samples| && t.done[c].Some?
    ensures InPost(t, c) && Idle(t, 0) && During(t, ClosedAt(t, c))
    ensures Qualifies(t, OpenedAt(t, ClosedAt(t, c)))
    ensures t.done[c].value.startTs == Ts(t, ClimbStart(t, OpenedAt(t, ClosedAt(t, c))))
  {
    EveryEvent(t, c);
    var p := ClosedAt(t, c);
    assert Closed(t, OpenedAt(t, p), p, t.done[c].value);
    assert Grown(t, OpenedAt(t, p), p + 1, t.done[c].value);
  }

  /** Where no event is open the sample before the climb's start is not part of the climb. */
  lemma ClimbStartsAfter(t: Trace, o: nat, i: nat)
    requires Sized(t) && o < |t.r.samples| && Qualifies(t, o) && i <= o && !Qualifies(t, i)
    ensures i < ClimbStart(t, o)
  {
    ClimbIsUnbroken(t, o);
  }

  /** The climb of an event lies wholly after the completion of the event before it. */
  lemma ClimbsAfter(t: Trace, c1: nat, c2: nat)
    requires IsTrace(t) && c1 < c2 < |t.r.samples| && t.done[c1].Some? && t.done[c2].Some?
    ensures InPost(t, c2) && Idle(t, 0) && During(t, ClosedAt(t, c2))
    ensures var o := OpenedAt(t, ClosedAt(t, c2)); Qualifies(t, o) && c1 < ClimbStart(t, o) <= c2
  {
    OpeningQualifies(t, c2);
    OnlyPostCompletes(t, c1);
    BusyThroughout(t, c2, c1 + 1);
    ClimbStartsAfter(t, OpenedAt(t, ClosedAt(t, c2)), c1);
  }

  /** What every event says about the sample that completed it. */
  lemma EndsEarlyEnough(t: Trace, c: nat)
    requires IsTrace(t) && c < |t.r.samples| && t.done[c].Some?
    ensures Ts(t, c) > t.done[c].value.endTs + CLOSE_BELOW + t.r.cfg.postCapture
  {
    EveryEvent(t, c);
    var p := ClosedAt(t, c);
    assert Closed(t, OpenedAt(t, p), p, t.done[c].value);
  }

  /** Consecutive events are separated by the closing minute, the post capture and the cooldown. */
  lemma EventsAreSpaced(t: Trace, c1: nat, c2: nat)
    requires IsTrace(t) && c1 < c2 < |t.r.samples| && t.done[c1].Some? && t.done[c2].Some?
    requires forall i :: c1 < i < c2 ==> t.done[i].None?
    ensures t.done[c2].value.startTs > t.done[c1].value.endTs + CLOSE_BELOW + t.r.cfg.postCapture + t.r.cfg.cooldown
  {
    ClimbsAfter(t, c1, c2);
    EndsEarlyEnough(t, c1);
    OpeningQualifies(t, c2);
    var j := ClimbStart(t, OpenedAt(t, ClosedAt(t, c2)));
    CooldownTracked(t, j);
    LastDoneIs(t, j, c1);
    assert !Cooling(t, j);
  }

  lemma {:induction false} LastDoneIs(t: Trace, n: nat, c: nat)
    requires Sized(t) && c < n <= |t.r.samples| && t.done[c].Some? && forall i :: c < i < n ==> t.done[i].None?
    ensures LastDone(t, n) == Some(c)
  {
    if n - 1 > c { LastDoneIs(t, n - 1, c); }
  }

  // ---- the baseline -----------------------------------------------------------------------

  /** The values offered while no event was open, among the first `n` samples. */
  ghost function IdleValues(t: Trace, n: nat): seq<real>
    requires Sized(t) && n <= |t.r.samples|
  {
    if n == 0 then [] else IdleValues(t, n - 1) + if Idle(t, n - 1) then [t.r.samples[n - 1].v] else []
  }

  lemma SameHistoryFor(s: Series, n: Series, vals: seq<real>, baseline: seq<real> -> (real, real))
    requires SameBaseline(n, s) && n.baseAge == s.baseAge && HistoryOkFor(s, vals, baseline)
    ensures HistoryOkFor(n, vals, baseline)
  {
  }

  lemma SameHistory(s: Series, n: Series, vals: seq<real>)
    requires SameBaseline(n, s) && n.baseAge == s.baseAge && HistoryOk(s, vals)
    ensures HistoryOk(n, vals)
  {
    SameHistoryFor(s, n, vals, MedianMad);
  }

  lemma FirstHistory(r: Run)
    requires Valid(r)
    ensures HistoryOk(NewSeries(r.cfg, r.rule, r.key), [])
  {
  }

  /** In every run the circular history holds the newest 5760 values offered outside events, and the
      baseline is that of such a history at most 19 values old. */
  lemma {:induction false} HistoryTracked(r: Run, n: nat)
    requires Valid(r) && n <= |r.samples|
    ensures Sized(TraceOf(r)) && HistoryOk(TraceOf(r).states[n], IdleValues(TraceOf(r), n))
  {
    var t := TraceOf(r);
    if n == 0 {
      StartsNew(r);
      FirstHistory(r);
    } else {
      var i, v := n - 1, r.samples[n - 1].v;
      HistoryTracked(r, i);
      AtStep(r, i);
      StepKeepsBaseline(r.cfg, t.states[i], r.samples[i].ts, v, r.samples[i].id);
      if Idle(t, i) {
        BookkeepingKeepsHistory(t.states[i], IdleValues(t, i), v);
      }
      assert IdleValues(t, i) + [] == IdleValues(t, i);
      SameHistory(Bookkept(t.states[i], v), t.states[n], IdleValues(t, n));
    }
  }

  lemma StartsNew(r: Run)
    requires Valid(r)
    ensures TraceOf(r).states[0] == NewSeries(r.cfg, r.rule, r.key)
  {
    ScanSteps((s: Series, j: nat) => StepAt(r, s, j).st, NewSeries(r.cfg, r.rule, r.key), |r.samples|);
  }

  /** The state after the bookkeeping of sample `i`. */
  function BookkeptAt(r: Run, i: nat): Series
    requires Valid(r) && i < |r.samples|
  {
    Bookkept(TraceOf(r).states[i], r.samples[i].v)
  }

  lemma HistoryAtSample(r: Run, i: nat)
    requires Valid(r) && i < |r.samples| && Idle(TraceOf(r), i)
    ensures HistoryOk(BookkeptAt(r, i), IdleValues(TraceOf(r), i + 1))
  {
    var t := TraceOf(r);
    HistoryTracked(r, i);
    BookkeepingKeepsHistory(t.states[i], IdleValues(t, i), r.samples[i].v);
    assert IdleValues(t, i + 1) == IdleValues(t, i) + [r.samples[i].v];
  }

  lemma ThresholdAtSample(r: Run, i: nat)
    requires Valid(r) && i < |r.samples|
    ensures TraceOf(r).thresholds[i] == EffectiveThreshold(BookkeptAt(r, i)).threshold
    ensures BookkeptAt(r, i).rule == r.rule
  {
    TraceIsTrace(r);
    SameRule(TraceOf(r), i);
  }

  /** The history that the baseline in force at sample `i` was computed from. */
  ghost function BaselineHistory(r: Run, i: nat): seq<real>
    requires Valid(r) && i < |r.samples| && Idle(TraceOf(r), i)
  {
    HistoryAtSample(r, i);
    HistoryBehind(BookkeptAt(r, i), IdleValues(TraceOf(r), i + 1))
  }

  function HistoryBehind(st: Series, vals: seq<real>): seq<real>
    requires st.baseAge <= |vals|
  {
    Latest(vals[..|vals| - st.baseAge])
  }

  /** However large the minority of values, once the baseline is armed the threshold in force stays
      in the band that the majority of a history at most 19 values old sets. */
  lemma ThresholdIsRobust(r: Run, i: nat, a: real, b: real)
    requires Valid(r) && i < |r.samples| && Idle(TraceOf(r), i) && Armed(BookkeptAt(r, i))
    requires 2 * CountIn(BaselineHistory(r, i), a, b) > |BaselineHistory(r, i)|
    ensures BookkeptAt(r, i).baseAge < BASELINE_REFRESH && BookkeptAt(r, i).rule == r.rule
    ensures TraceOf(r).thresholds[i] == EffectiveThreshold(BookkeptAt(r, i)).threshold
    ensures InBand(BookkeptAt(r, i), a, b)
  {
    HistoryAtSample(r, i);
    ThresholdAtSample(r, i);
    RobustFor(BookkeptAt(r, i), IdleValues(TraceOf(r), i + 1), a, b);
  }

  lemma RobustFor(st: Series, vals: seq<real>, a: real, b: real)
    requires HistoryOk(st, vals) && Armed(st)
    requires 2 * CountIn(HistoryBehind(st, vals), a, b) > |HistoryBehind(st, vals)|
    ensures st.baseAge < BASELINE_REFRESH && InBand(st, a, b)
  {
    ArmedHasHistory(st, vals);
    RobustThreshold(st, HistoryBehind(st, vals), a, b);
  }

  lemma ArmedHasHistory(st: Series, vals: seq<real>)
    requires HistoryOk(st, vals) && Armed(st)
    ensures |vals| >= 4 && (st.baseline, st.mad) == MedianMad(Latest(vals[..|vals| - st.baseAge]))
    ensures st.baseAge < BASELINE_REFRESH
  {
    FreshBaseline(st.hist, vals);
  }
}
