/** What the detector does over whole sample sequences of one series. */
module SpikeTrace {
  import opened Common
  import opened Spike

  datatype Sample = Sample(ts: Time, v: real, id: string)

  /** One series under observation: its configuration and everything offered to it. */
  datatype Run = Run(cfg: Config, rule: Rule, key: Key, samples: seq<Sample>)

  predicate Valid(r: Run) { r.cfg.hostInterval > 0 }

  ghost predicate Increasing(r: Run) {
    forall i, j :: 0 <= i < j < |r.samples| ==> r.samples[i].ts < r.samples[j].ts
  }

  /** A run with the state before each sample and after the last, the threshold in force at each
      sample, and the event each sample completes. */
  datatype Trace = Trace(r: Run, states: seq<Series>, thresholds: seq<real>, done: seq<Option<Event>>)

  // ---- building the trace -----------------------------------------------------------------

  /** The states that `step` runs through over the inputs 0..n. */
  function Scan<S>(step: (S, nat) -> S, init: S, n: nat): (states: seq<S>)
    ensures |states| == n + 1
  {
    if n == 0 then [init]
    else
      var before := Scan(step, init, n - 1);
      before + [step(before[n - 1], n - 1)]
  }

  lemma {:induction false} ScanSteps<S>(step: (S, nat) -> S, init: S, n: nat)
    ensures Scan(step, init, n)[0] == init
    ensures forall i: nat :: i < n ==> Scan(step, init, n)[i + 1] == step(Scan(step, init, n)[i], i)
  {
    if n > 0 { ScanSteps(step, init, n - 1); }
  }

  function StepAt(r: Run, s: Series, i: nat): Stepped {
    if i < |r.samples| then Step(r.cfg, s, r.samples[i].ts, r.samples[i].v, r.samples[i].id) else Stepped(s, None)
  }

  function ThresholdOf(st: Series, v: real): real { EffectiveThreshold(Bookkept(st, v)).threshold }

  function TraceOf(r: Run): Trace
    requires Valid(r)
  {
    var n := |r.samples|;
    var states := Scan((s: Series, i: nat) => StepAt(r, s, i).st, NewSeries(r.cfg, r.rule, r.key), n);
    Trace(r, states,
          seq(n, i requires 0 <= i < n => ThresholdOf(states[i], r.samples[i].v)),
          seq(n, i requires 0 <= i < n => StepAt(r, states[i], i).done))
  }

  // ---- one step, by phase -----------------------------------------------------------------

  function Since(start: Option<Time>, ts: Time): Time { if start.None? then ts else start.value }

  /** What an event says about why it opened. */
  ghost predicate Labelled(ev: Event, baseline: real, threshold: real, rule: Rule) {
    && ev.baseline == Round2(baseline) && ev.threshold == Round2(threshold)
    && ev.trigger == if threshold < rule.staticThreshold then BaselineDeviation else Static
  }

  /** Two versions of one event: only what is captured and how it ends differ. */
  ghost predicate SameLabels(ev: Event, next: Event) {
    && next.id == ev.id && next.key == ev.key
    && next.baseline == ev.baseline && next.threshold == ev.threshold && next.trigger == ev.trigger
  }

  /** A sample outside an event never completes one; it opens one when it qualifies and the climb
      is long enough. */
  ghost predicate IdleMove(s: Series, n: Series, threshold: real, done: Option<Event>, x: Sample) {
    var ts, v := x.ts, x.v;
    var qualifies, since := v >= threshold && !CoolingAt(s, ts), Since(s.aboveSince, ts);
    && done.None? && n.cooldownTill == s.cooldownTill && n.pre == Pushed(s.pre, s.preCap, Point(ts, v))
    && (n.open.Some? <==> qualifies && ts - since >= s.rule.sustained)
    && (n.open.None? ==> n.aboveSince == if qualifies then Some(since) else None)
    && (n.open.Some? ==>
          var oe := n.open.value;
          && !oe.inPost && n.belowSince == None
          && oe.ev.startTs == since && oe.ev.peak == v && oe.ev.pre == Decimated(n.pre, MAX_PRE)
          && oe.ev.during == [] && oe.ev.post == []
          && oe.ev.id == x.id && oe.ev.key == s.key && Labelled(oe.ev, n.baseline, threshold, s.rule))
  }

  /** A sample while the event is open: it is captured, and may begin the post phase. */
  ghost predicate DuringMove(cfg: Config, s: Series, n: Series, threshold: real, done: Option<Event>, ts: Time, v: real)
    requires s.open.Some?
  {
    && done.None? && n.cooldownTill == s.cooldownTill && n.pre == s.pre && n.open.Some?
    && var ev, next, since := s.open.value.ev, n.open.value.ev, Since(s.belowSince, ts);
       && SameLabels(ev, next)
       && next.startTs == ev.startTs && next.peak == MaxReal(ev.peak, v) && next.pre == ev.pre && next.post == ev.post
       && next.during == AppendCapped(ev.during, Point(ts, v), MAX_DURING)
       && (n.open.value.inPost <==> v < threshold && ts - since >= CLOSE_BELOW)
       && n.belowSince == (if v >= threshold then None else Some(since))
       && (n.open.value.inPost ==>
             next.endTs == since && next.duration == since - ev.startTs && n.open.value.postUntil == ts + cfg.postCapture)
  }

  /** A sample in the post phase: it is captured, and completes the event when the phase is over. */
  ghost predicate PostMove(cfg: Config, s: Series, n: Series, done: Option<Event>, ts: Time, v: real)
    requires s.open.Some?
  {
    var oe := s.open.value;
    var ev := oe.ev.(post := AppendCapped(oe.ev.post, Point(ts, v), MAX_POST));
    && n.pre == s.pre
    && if ts > oe.postUntil
       then done == Some(ev) && n.open == None && n.aboveSince == None && n.cooldownTill == Some(ts + cfg.cooldown)
       else done == None && n.open == Some(oe.(ev := ev)) && n.cooldownTill == s.cooldownTill
  }

  ghost predicate Move(cfg: Config, s: Series, n: Series, threshold: real, done: Option<Event>, x: Sample) {
    && n.rule == s.rule && n.key == s.key && n.preCap == s.preCap
    && if s.open.None? then IdleMove(s, n, threshold, done, x)
       else if s.open.value.inPost then PostMove(cfg, s, n, done, x.ts, x.v)
       else DuringMove(cfg, s, n, threshold, done, x.ts, x.v)
  }

  ghost predicate IsTrace(t: Trace) {
    var n := |t.r.samples|;
    && |t.states| == n + 1 && |t.thresholds| == |t.done| == n
    && Starting(t.states[0], t.r)
    && (forall i :: 0 <= i < n ==> MoveAt(t, i))
    && (forall i :: 0 < i < n ==> HoldAt(t, i))
  }

  ghost predicate Starting(s: Series, r: Run) {
    && s.rule == r.rule && s.key == r.key && s.preCap >= 4 && s.pre == []
    && s.open == None && s.aboveSince == s.belowSince == s.cooldownTill == None
  }

  ghost predicate MoveAt(t: Trace, i: nat)
    requires i < |t.r.samples| && |t.states| == |t.r.samples| + 1 && |t.thresholds| == |t.done| == |t.r.samples|
  {
    Move(t.r.cfg, t.states[i], t.states[i + 1], t.thresholds[i], t.done[i], t.r.samples[i])
  }

  /** While an event is open the threshold is that of the sample before. */
  ghost predicate HoldAt(t: Trace, i: nat)
    requires 0 < i < |t.thresholds| && |t.states| == |t.thresholds| + 1
  {
    t.states[i].open.Some? ==> t.thresholds[i] == t.thresholds[i - 1]
  }

  lemma StepMoves(cfg: Config, s: Series, ts: Time, v: real, id: string)
    ensures var x := Step(cfg, s, ts, v, id); Move(cfg, s, x.st, ThresholdOf(s, v), x.done, Sample(ts, v, id))
  {
  }

  predicate SameBaseline(s: Series, t: Series) {
    s.rule == t.rule && s.hist == t.hist && s.baseline == t.baseline && s.mad == t.mad
  }

  lemma StepKeepsBaseline(cfg: Config, s: Series, ts: Time, v: real, id: string)
    ensures SameBaseline(Step(cfg, s, ts, v, id).st, Bookkept(s, v))
    ensures Step(cfg, s, ts, v, id).st.baseAge == Bookkept(s, v).baseAge
  {
  }

  lemma SameThreshold(s: Series, t: Series)
    requires SameBaseline(s, t)
    ensures EffectiveThreshold(s) == EffectiveThreshold(t)
  {
    assert Deviation(s) == Deviation(t);
  }

  /** While an event is open nothing enters the history, so the threshold stays. */
  lemma ThresholdHolds(s: Series, v: real, n: Series, next: real)
    requires SameBaseline(n, Bookkept(s, v)) && n.open.Some?
    ensures ThresholdOf(n, next) == ThresholdOf(s, v)
  {
    SameThreshold(n, Bookkept(s, v));
  }

  lemma AtStep(r: Run, i: nat)
    requires Valid(r) && i < |r.samples|
    ensures var t, s := TraceOf(r), r.samples[i];
            var x := Step(r.cfg, t.states[i], s.ts, s.v, s.id);
            t.states[i + 1] == x.st && t.done[i] == x.done && t.thresholds[i] == ThresholdOf(t.states[i], s.v)
    ensures TraceOf(r).states[0] == NewSeries(r.cfg, r.rule, r.key)
  {
    ScanSteps((s: Series, j: nat) => StepAt(r, s, j).st, NewSeries(r.cfg, r.rule, r.key), |r.samples|);
  }

  /** The trace that the detector's own step function produces is one of these. */
  lemma TraceIsTrace(r: Run)
    requires Valid(r)
    ensures IsTrace(TraceOf(r))
  {
    var t, n := TraceOf(r), |r.samples|;
    ScanSteps((s: Series, j: nat) => StepAt(r, s, j).st, NewSeries(r.cfg, r.rule, r.key), n);
    forall i | 0 <= i < n
      ensures MoveAt(t, i)
      ensures i > 0 ==> HoldAt(t, i)
    {
      var s := r.samples[i];
      AtStep(r, i);
      StepMoves(r.cfg, t.states[i], s.ts, s.v, s.id);
      assert s == Sample(s.ts, s.v, s.id);
      if i > 0 && t.states[i].open.Some? {
        var p := r.samples[i - 1];
        AtStep(r, i - 1);
        StepKeepsBaseline(r.cfg, t.states[i - 1], p.ts, p.v, p.id);
        ThresholdHolds(t.states[i - 1], p.v, t.states[i], s.v);
      }
    }
  }
}
