/** Many series in one detector (internal/spike/spike.go, Offer): each behaves as if it were alone. */
module Detector {
  import opened Common
  import opened Spike
  import T = SpikeTrace

  // ---- one offer, as a function -----------------------------------------------------------

  predicate Ruled(cfg: Config, k: Key) { RuleFor(cfg.rules, k.resource).Some? }

  function SeriesOf(cfg: Config, m: map<Key, Series>, k: Key): Series
    requires cfg.hostInterval > 0 && Ruled(cfg, k)
  {
    if k in m then m[k] else NewSeries(cfg, RuleFor(cfg.rules, k.resource).value, k)
  }

  /** One multi-series sample: what each key's value is, and which fresh event id it would use. */
  datatype Offering = Offering(ts: Time, values: map<Key, real>, ids: Key -> string)

  predicate Touched(cfg: Config, o: Offering, k: Key) { k in o.values && Ruled(cfg, k) }

  /** A series' step function.  The results on independence hold for any. */
  type Stepper = (Series, Time, real, string) -> Stepped

  function StepOf(cfg: Config): Stepper { (s: Series, ts: Time, v: real, id: string) => Step(cfg, s, ts, v, id) }

  /** `f` does in this one place what step does. */
  ghost predicate StepAgreesAt(cfg: Config, f: Stepper, s: Series, ts: Time, v: real, id: string) {
    f(s, ts, v, id) == Step(cfg, s, ts, v, id)
  }

  function SteppedBy(cfg: Config, f: Stepper, m: map<Key, Series>, o: Offering, k: Key): Stepped
    requires cfg.hostInterval > 0 && Touched(cfg, o, k)
  {
    f(SeriesOf(cfg, m, k), o.ts, o.values[k], o.ids(k))
  }

  function Offered(cfg: Config, f: Stepper, m: map<Key, Series>, o: Offering): map<Key, Series>
    requires cfg.hostInterval > 0
  {
    map k | k in m.Keys + o.values.Keys && (k in m || Touched(cfg, o, k)) ::
      if Touched(cfg, o, k) then SteppedBy(cfg, f, m, o, k).st else m[k]
  }

  /** The event the offer completes for one key. */
  function Completes(cfg: Config, f: Stepper, m: map<Key, Series>, o: Offering, k: Key): Option<Event>
    requires cfg.hostInterval > 0
  {
    if Touched(cfg, o, k) then SteppedBy(cfg, f, m, o, k).done else None
  }

  ghost function OpenKeys(m: map<Key, Series>): set<Key> { set k | k in m && m[k].open.Some? }

  // ---- whole runs -------------------------------------------------------------------------

  function After(cfg: Config, f: Stepper, offers: seq<Offering>): map<Key, Series>
    requires cfg.hostInterval > 0
  {
    if offers == [] then map[] else Offered(cfg, f, After(cfg, f, offers[..|offers| - 1]), offers[|offers| - 1])
  }

  /** The samples that carry one key. */
  function Projected(offers: seq<Offering>, k: Key): seq<T.Sample> {
    if offers == [] then []
    else
      var o := offers[|offers| - 1];
      Projected(offers[..|offers| - 1], k) + if k in o.values then [T.Sample(o.ts, o.values[k], o.ids(k))] else []
  }

  /** A series running alone. */
  function Alone(f: Stepper, init: Series, samples: seq<T.Sample>): Series
    decreases |samples|, 1
  {
    if samples == [] then init else AloneStep(f, init, samples).st
  }

  function AloneStep(f: Stepper, init: Series, samples: seq<T.Sample>): Stepped
    requires samples != []
    decreases |samples|, 0
  {
    var s := samples[|samples| - 1];
    f(Alone(f, init, samples[..|samples| - 1]), s.ts, s.v, s.id)
  }

  function Initial(cfg: Config, k: Key): Series
    requires cfg.hostInterval > 0 && Ruled(cfg, k)
  {
    NewSeries(cfg, RuleFor(cfg.rules, k.resource).value, k)
  }

  lemma AloneMore(f: Stepper, init: Series, samples: seq<T.Sample>, s: T.Sample)
    ensures AloneStep(f, init, samples + [s]) == f(Alone(f, init, samples), s.ts, s.v, s.id)
    ensures Alone(f, init, samples + [s]) == AloneStep(f, init, samples + [s]).st
  {
    assert (samples + [s])[..|samples|] == samples;
  }

  /** Non-interference: after any sequence of multi-series samples each key is in the state of a
      series that was offered only the samples carrying that key. */
  lemma {:induction false} SeriesAreIndependent(cfg: Config, f: Stepper, offers: seq<Offering>, k: Key)
    requires cfg.hostInterval > 0
    ensures k in After(cfg, f, offers) <==> Ruled(cfg, k) && Projected(offers, k) != []
    ensures Ruled(cfg, k) ==>
              SeriesOf(cfg, After(cfg, f, offers), k) == Alone(f, Initial(cfg, k), Projected(offers, k))
  {
    if offers != [] {
      var init, o := offers[..|offers| - 1], offers[|offers| - 1];
      SeriesAreIndependent(cfg, f, init, k);
      assert Projected(init, k) + [] == Projected(init, k);
      if Touched(cfg, o, k) {
        AloneMore(f, Initial(cfg, k), Projected(init, k), T.Sample(o.ts, o.values[k], o.ids(k)));
      }
    }
  }

  /** And the events each offer completes are those of the series running alone. */
  lemma EventsAreIndependent(cfg: Config, f: Stepper, offers: seq<Offering>, o: Offering, k: Key)
    requires cfg.hostInterval > 0
    ensures Completes(cfg, f, After(cfg, f, offers), o, k) ==
            if Touched(cfg, o, k) then AloneStep(f, Initial(cfg, k), Projected(offers + [o], k)).done else None
    ensures Touched(cfg, o, k) ==> Projected(offers + [o], k) != []
  {
    SeriesAreIndependent(cfg, f, offers, k);
    assert (offers + [o])[..|offers|] == offers;
    if Touched(cfg, o, k) {
      AloneMore(f, Initial(cfg, k), Projected(offers, k), T.Sample(o.ts, o.values[k], o.ids(k)));
    }
  }

  /** Sample `i` leads from one state to the next and completes what the step function says. */
  predicate StepsAt(f: Stepper, samples: seq<T.Sample>, states: seq<Series>, done: seq<Option<Event>>, i: nat)
    requires i < |samples| == |done| && |states| == |samples| + 1
  {
    Stepped(states[i + 1], done[i]) == f(states[i], samples[i].ts, samples[i].v, samples[i].id)
  }

  lemma {:induction false} AloneIsScan(f: Stepper, init: Series, samples: seq<T.Sample>,
      states: seq<Series>, done: seq<Option<Event>>, n: nat)
    requires n <= |samples| == |done| && |states| == |samples| + 1 && states[0] == init
    requires forall i: nat :: i < |samples| ==> StepsAt(f, samples, states, done, i)
    ensures states[n] == Alone(f, init, samples[..n])
    ensures n < |samples| ==> done[n] == AloneStep(f, init, samples[..n + 1]).done
  {
    if n > 0 {
      AloneIsScan(f, init, samples, states, done, n - 1);
      assert StepsAt(f, samples, states, done, n - 1);
      assert samples[..n] == samples[..n - 1] + [samples[n - 1]];
      AloneMore(f, init, samples[..n - 1], samples[n - 1]);
    }
    if n < |samples| {
      assert StepsAt(f, samples, states, done, n);
      assert samples[..n + 1] == samples[..n] + [samples[n]];
      AloneMore(f, init, samples[..n], samples[n]);
    }
  }

  lemma TraceSteps(r: T.Run, i: nat)
    requires T.Valid(r) && i < |r.samples|
    ensures var t := T.TraceOf(r);
            && |t.states| == |r.samples| + 1 && |t.done| == |r.samples|
            && StepsAt(StepOf(r.cfg), r.samples, t.states, t.done, i)
  {
    T.AtStep(r, i);
  }

  lemma TraceStarts(r: T.Run)
    requires T.Valid(r)
    ensures var t := T.TraceOf(r);
            |t.states| == |r.samples| + 1 && |t.done| == |r.samples| && t.states[0] == NewSeries(r.cfg, r.rule, r.key)
  {
    T.ScanSteps((s: Series, j: nat) => T.StepAt(r, s, j).st, NewSeries(r.cfg, r.rule, r.key), |r.samples|);
  }

  /** Running alone is the run of the trace theorems, in its states and in the events it completes. */
  lemma AloneIsTrace(r: T.Run, n: nat)
    requires T.Valid(r) && n <= |r.samples|
    ensures |T.TraceOf(r).states| == |r.samples| + 1 && |T.TraceOf(r).done| == |r.samples|
    ensures T.TraceOf(r).states[n] == Alone(StepOf(r.cfg), NewSeries(r.cfg, r.rule, r.key), r.samples[..n])
    ensures n < |r.samples| ==>
              T.TraceOf(r).done[n] == AloneStep(StepOf(r.cfg), NewSeries(r.cfg, r.rule, r.key), r.samples[..n + 1]).done
  {
    TraceStarts(r);
    var t := T.TraceOf(r);
    forall i: nat | i < |r.samples| ensures StepsAt(StepOf(r.cfg), r.samples, t.states, t.done, i) {
      TraceSteps(r, i);
    }
    AloneIsScan(StepOf(r.cfg), NewSeries(r.cfg, r.rule, r.key), r.samples, t.states, t.done, n);
  }

  /** The run of one key's samples. */
  function RunOf(cfg: Config, offers: seq<Offering>, k: Key): T.Run
    requires Ruled(cfg, k)
  {
    T.Run(cfg, RuleFor(cfg.rules, k.resource).value, k, Projected(offers, k))
  }

  lemma LastCompleted(cfg: Config, f: Stepper, offers: seq<Offering>, o: Offering, k: Key, done: seq<Option<Event>>)
    requires cfg.hostInterval > 0 && Touched(cfg, o, k)
    requires var samples := Projected(offers + [o], k);
             |done| == |samples| && (samples != [] ==> done[|samples| - 1] == AloneStep(f, Initial(cfg, k), samples).done)
    ensures done != [] && Completes(cfg, f, After(cfg, f, offers), o, k) == done[|done| - 1]
  {
    EventsAreIndependent(cfg, f, offers, o, k);
  }

  /** So the trace theorems speak of the detector: what an offer completes for a key is what the trace of
      that key's samples completes at its last one. */
  lemma OffersAreTraced(cfg: Config, offers: seq<Offering>, o: Offering, k: Key)
    requires cfg.hostInterval > 0 && Touched(cfg, o, k)
    ensures var done := T.TraceOf(RunOf(cfg, offers + [o], k)).done;
            done != [] && Completes(cfg, StepOf(cfg), After(cfg, StepOf(cfg), offers), o, k) == done[|done| - 1]
  {
    var r := RunOf(cfg, offers + [o], k);
    var n := |r.samples|;
    AloneIsTrace(r, if n > 0 then n - 1 else 0);
    assert r.samples[..n] == r.samples;
    LastCompleted(cfg, StepOf(cfg), offers, o, k, T.TraceOf(r).done);
  }

  // ---- the detector object ----------------------------------------------------------------

  /** seriesState. */
  class SeriesState {
    const rule: Rule
    const key: Key
    const preCap: nat
    var pre: seq<Point>
    var hist: Ring
    var baseline: real
    var mad: real
    var baseAge: nat
    var aboveSince: Option<Time>
    var belowSince: Option<Time>
    var cooldownTill: Option<Time>
    var open: Option<OpenEvent>

    constructor (cfg: Config, rule: Rule, key: Key)
      requires cfg.hostInterval > 0
      ensures View() == NewSeries(cfg, rule, key)
    {
      this.rule, this.key, preCap := rule, key, PreCapacity(cfg);
      pre, hist, baseline, mad, baseAge := [], Ring([], 0), 0.0, 0.0, 0;
      aboveSince, belowSince, cooldownTill, open := None, None, None, None;
    }

    function View(): Series
      reads this
    {
      Series(rule, key, pre, preCap, hist, baseline, mad, baseAge, aboveSince, belowSince, cooldownTill, open)
    }

    /** push, on the circular history. */
    method RecordValue(v: real)
      modifies this`hist
      ensures hist == Recorded(old(hist), v)
    {
      if |hist.vals| < BASELINE_WINDOW {
        hist := Ring(hist.vals + [v], hist.pos);
      } else if hist.pos < |hist.vals| {
        hist := Ring(hist.vals[hist.pos := v], (hist.pos + 1) % BASELINE_WINDOW);
      }
    }

    /** The bookkeeping at the head of step. */
    method Bookkeep(v: real)
      modifies this
      ensures View() == Bookkept(old(View()), v)
    {
      if open.None? {
        RecordValue(v);
        baseAge := baseAge + 1;
        if baseAge >= BASELINE_REFRESH || (baseline == 0.0 && |hist.vals| >= 4) {
          baseline, mad := Median(hist.vals), Mad(hist.vals);
          baseAge := 0;
        }
      }
    }

    /** The branch of step for an open event before its post phase. */
    method CaptureDuring(cfg: Config, ts: Time, v: real, threshold: real)
      requires open.Some? && threshold == EffectiveThreshold(View()).threshold
      modifies this
      ensures View() == DuringStep(cfg, old(View()), ts, v)
    {
      var ev := open.value.ev;
      ev := ev.(during := AppendCapped(ev.during, Point(ts, v), MAX_DURING));
      if v > ev.peak {
        ev := ev.(peak := v);
      }
      if v >= threshold {
        belowSince := None;
      } else {
        if belowSince.None? {
          belowSince := Some(ts);
        }
        if ts - belowSince.value >= CLOSE_BELOW {
          ev := ev.(endTs := belowSince.value, duration := belowSince.value - ev.startTs);
          open := Some(OpenEvent(ev, true, ts + cfg.postCapture));
          return;
        }
      }
      open := Some(open.value.(ev := ev));
    }

    /** The branch of step for the post phase. */
    method CapturePost(cfg: Config, ts: Time, v: real) returns (done: Option<Event>)
      requires open.Some?
      modifies this
      ensures Stepped(View(), done) == PostStep(cfg, old(View()), ts, v)
    {
      var ev := open.value.ev.(post := AppendCapped(open.value.ev.post, Point(ts, v), MAX_POST));
      if ts > open.value.postUntil {
        open := None;
        cooldownTill := Some(ts + cfg.cooldown);
        aboveSince := None;
        return Some(ev);
      }
      open := Some(open.value.(ev := ev));
      return None;
    }

    /** The branch of step outside any event. */
    method Watch(ts: Time, v: real, id: string, eff: Effective)
      requires open.None? && eff == EffectiveThreshold(View())
      modifies this
      ensures View() == IdleStep(old(View()), ts, v, id)
    {
      pre := Pushed(pre, preCap, Point(ts, v));
      if v < eff.threshold || (cooldownTill.Some? && ts < cooldownTill.value) {
        aboveSince := None;
        return;
      }
      if aboveSince.None? {
        aboveSince := Some(ts);
      }
      if ts - aboveSince.value < rule.sustained {
        return;
      }
      var ev := Event(id, key, aboveSince.value, ZERO_TIME, 0, Round2(baseline), v, Round2(eff.threshold), eff.trigger,
                      Decimated(pre, MAX_PRE), [], []);
      open := Some(OpenEvent(ev, false, ZERO_TIME));
      belowSince := None;
    }
  }

  class Detector {
    const cfg: Config
    var series: map<Key, SeriesState>
    var openCount: int

    ghost function Repr(): set<SeriesState>
      reads this
    {
      set k | k in series :: series[k]
    }

    ghost function View(): map<Key, Series>
      reads this, Repr()
    {
      map k | k in series :: series[k].View()
    }

    /** Each key has its own state object. */
    ghost predicate Apart()
      reads this
    {
      forall j, k :: j in series && k in series && j != k ==> series[j] != series[k]
    }

    /** The state objects are apart, and openCount counts the open events. */
    ghost predicate Valid()
      reads this, Repr()
    {
      && cfg.hostInterval > 0 && Apart()
      && openCount == |OpenKeys(View())|
    }

    constructor (cfg: Config)
      requires cfg.hostInterval > 0
      ensures Valid() && series == map[] && this.cfg == cfg
    {
      this.cfg := cfg;
      series, openCount := map[], 0;
      new;
      assert OpenKeys(View()) == {};
    }

    method CaptureActive() returns (active: bool)
      requires Valid()
      ensures active <==> exists k :: k in series && series[k].open.Some?
    {
      active := openCount > 0;
      if active {
        ghost var k :| k in OpenKeys(View());
        assert series[k].open.Some?;
      } else {
        forall k | k in series ensures series[k].open.None? {
          assert k !in OpenKeys(View());
        }
      }
    }

    /** step. */
    method StepSeries(st: SeriesState, ts: Time, v: real, id: string) returns (done: Option<Event>)
      modifies st, this`openCount
      ensures Stepped(st.View(), done) == Step(cfg, old(st.View()), ts, v, id)
      ensures openCount == old(openCount) + (if st.open.Some? then 1 else 0) - (if old(st.open).Some? then 1 else 0)
    {
      st.Bookkeep(v);
      var eff := EffectiveThreshold(st.View());
      if st.open.Some? {
        if !st.open.value.inPost {
          st.CaptureDuring(cfg, ts, v, eff.threshold);
          return None;
        }
        done := st.CapturePost(cfg, ts, v);
        if done.Some? {
          openCount := openCount - 1;
        }
        return;
      }
      st.Watch(ts, v, id, eff);
      if st.open.Some? {
        openCount := openCount + 1;
      }
      done := None;
    }

    method SeriesFor(k: Key) returns (st: SeriesState)
      requires Valid() && Ruled(cfg, k)
      modifies this`series
      ensures Valid() && k in series && series[k] == st && openCount == old(openCount)
      ensures st.View() == SeriesOf(cfg, old(View()), k) && View() == old(View())[k := st.View()]
      ensures if k in old(series) then series == old(series) else fresh(st) && series == old(series)[k := st]
    {
      if k in series {
        st := series[k];
        assert View() == old(View())[k := st.View()];
        return;
      }
      ghost var before := View();
      st := new SeriesState(cfg, RuleFor(cfg.rules, k.resource).value, k);
      series := series[k := st];
      assert View() == before[k := st.View()];
      assert OpenKeys(View()) == OpenKeys(before);
    }

    /** One iteration of the loop in Offer. */
    method OfferOne(k: Key, ts: Time, v: real, id: string) returns (done: Option<Event>)
      requires Valid() && Ruled(cfg, k)
      modifies this`series, this`openCount, Repr()
      ensures Valid() && fresh(Repr() - old(Repr()))
      ensures var x := StepOf(cfg)(SeriesOf(cfg, old(View()), k), ts, v, id);
              View() == old(View())[k := x.st] && done == x.done
    {
      ghost var before := View();
      var st := SeriesFor(k);
      ghost var f := StepOf(cfg);
      assert StepAgreesAt(cfg, f, View()[k], ts, v, id);
      Overwritten(before, k, st.View(), f(st.View(), ts, v, id).st);
      done := StepKey(k, ts, v, id, f);
    }

    static lemma Overwritten(m: map<Key, Series>, k: Key, s: Series, t: Series)
      ensures m[k := s][k := t] == m[k := t]
    {
    }

    method StepKey(k: Key, ts: Time, v: real, id: string, ghost f: Stepper) returns (done: Option<Event>)
      requires Valid() && k in series && StepAgreesAt(cfg, f, View()[k], ts, v, id)
      modifies this`openCount, series[k]
      ensures Valid()
      ensures var x := f(old(View())[k], ts, v, id);
              View() == old(View())[k := x.st] && done == x.done
    {
      ghost var before := View();
      done := StepOnly(k, ts, v, id, f);
      OpenKeysAfter(before, k, f(before[k], ts, v, id).st);
    }

    method StepOnly(k: Key, ts: Time, v: real, id: string, ghost f: Stepper) returns (done: Option<Event>)
      requires Apart() && k in series && StepAgreesAt(cfg, f, View()[k], ts, v, id)
      modifies this`openCount, series[k]
      ensures var s := old(View())[k];
              var x := f(s, ts, v, id);
              && View() == old(View())[k := x.st] && done == x.done
              && openCount == old(openCount) + (if x.st.open.Some? then 1 else 0) - (if s.open.Some? then 1 else 0)
    {
      ghost var before := View();
      done := StepSeriesBy(series[k], ts, v, id, f);
      ghost var after := View();
      forall j | j in after && j != k ensures after[j] == before[j] {
        assert series[j] != series[k];
      }
      Patched(before, after, k);
    }

    method StepSeriesBy(st: SeriesState, ts: Time, v: real, id: string, ghost f: Stepper) returns (done: Option<Event>)
      requires StepAgreesAt(cfg, f, st.View(), ts, v, id)
      modifies st, this`openCount
      ensures Stepped(st.View(), done) == f(old(st.View()), ts, v, id)
      ensures openCount == old(openCount) + (if st.open.Some? then 1 else 0) - (if old(st.open).Some? then 1 else 0)
    {
      done := StepSeries(st, ts, v, id);
    }

    static lemma OpenKeysAfter(m: map<Key, Series>, k: Key, s: Series)
      requires k in m
      ensures |OpenKeys(m[k := s])| ==
              |OpenKeys(m)| + (if s.open.Some? then 1 else 0) - (if m[k].open.Some? then 1 else 0)
    {
      var before, after := OpenKeys(m), OpenKeys(m[k := s]);
      assert before - {k} == after - {k};
      assert |before| == |before - {k}| + if k in before then 1 else 0;
      assert |after| == |after - {k}| + if k in after then 1 else 0;
    }

    /** One pass of the loop of Offer: key `k` of the keys still to visit. */
    method Visit(o: Offering, k: Key, ghost rest: set<Key>, ghost m: map<Key, Series>, done0: seq<Event>, ghost keys0: seq<Key>)
      returns (done: seq<Event>, ghost keys: seq<Key>)
      requires Valid() && k in rest && rest <= o.values.Keys
      requires View() == Offered(cfg, StepOf(cfg), m, Part(o, rest))
      requires ExactlyCompleted(cfg, StepOf(cfg), m, o, rest, done0, keys0)
      modifies this`series, this`openCount, Repr()
      ensures Valid() && fresh(Repr() - old(Repr()))
      ensures View() == Offered(cfg, StepOf(cfg), m, Part(o, rest - {k}))
      ensures ExactlyCompleted(cfg, StepOf(cfg), m, o, rest - {k}, done, keys)
    {
      done, keys := done0, keys0;
      ghost var f := StepOf(cfg);
      PartStep(cfg, f, m, o, rest, k);
      if RuleFor(cfg.rules, k.resource).Some? {
        var ev := OfferOne(k, o.ts, o.values[k], o.ids(k));
        CompletedStep(cfg, f, m, o, rest, done, keys, k, ev);
        if ev.Some? {
          done, keys := done + [ev.value], keys + [k];
        }
      } else {
        CompletedStep(cfg, f, m, o, rest, done, keys, k, None);
      }
    }

    /** Offer: every ruled key steps once, in whatever order the map yields the keys; the events
        returned are exactly the ones these steps complete. */
    method Offer(o: Offering) returns (done: seq<Event>, ghost keys: seq<Key>)
      requires Valid()
      modifies this`series, this`openCount, Repr()
      ensures Valid() && fresh(Repr() - old(Repr()))
      ensures View() == Offered(cfg, StepOf(cfg), old(View()), o)
      ensures ExactlyCompleted(cfg, StepOf(cfg), old(View()), o, {}, done, keys)
    {
      done, keys := [], [];
      ghost var m := View();
      var rest := o.values.Keys;
      NothingVisited(cfg, StepOf(cfg), m, o);
      while rest != {}
        invariant Valid() && fresh(Repr() - old(Repr())) && rest <= o.values.Keys
        invariant View() == Offered(cfg, StepOf(cfg), m, Part(o, rest))
        invariant ExactlyCompleted(cfg, StepOf(cfg), m, o, rest, done, keys)
      {
        var k :| k in rest;
        done, keys := Visit(o, k, rest, m, done, keys);
        rest := rest - {k};
      }
      assert Part(o, {}) == o;
    }
  }

  /** The events collected so far are those completed by the keys already visited, one per key. */
  ghost predicate ExactlyCompleted(cfg: Config, f: Stepper, m: map<Key, Series>, o: Offering, rest: set<Key>,
      done: seq<Event>, keys: seq<Key>)
    requires cfg.hostInterval > 0
  {
    && |keys| == |done| && (forall i, j :: 0 <= i < j < |keys| ==> keys[i] != keys[j])
    && (forall i :: 0 <= i < |keys| ==> keys[i] !in rest && Completes(cfg, f, m, o, keys[i]) == Some(done[i]))
    && (forall k :: k !in rest && Completes(cfg, f, m, o, k).Some? ==> k in keys)
  }

  lemma CompletedStep(cfg: Config, f: Stepper, m: map<Key, Series>, o: Offering, rest: set<Key>,
      done: seq<Event>, keys: seq<Key>, k: Key, ev: Option<Event>)
    requires cfg.hostInterval > 0 && k in rest && ExactlyCompleted(cfg, f, m, o, rest, done, keys)
    requires ev == Completes(cfg, f, m, o, k)
    ensures ev.None? ==> ExactlyCompleted(cfg, f, m, o, rest - {k}, done, keys)
    ensures ev.Some? ==> ExactlyCompleted(cfg, f, m, o, rest - {k}, done + [ev.value], keys + [k])
  {
  }

  /** The part of an offering whose keys have been visited. */
  ghost function Part(o: Offering, rest: set<Key>): Offering {
    o.(values := map k | k in o.values && k !in rest :: o.values[k])
  }

  lemma NothingVisited(cfg: Config, f: Stepper, m: map<Key, Series>, o: Offering)
    requires cfg.hostInterval > 0
    ensures Offered(cfg, f, m, Part(o, o.values.Keys)) == m
    ensures ExactlyCompleted(cfg, f, m, o, o.values.Keys, [], [])
  {
  }

  lemma PartTouched(cfg: Config, o: Offering, rest: set<Key>, k: Key, j: Key)
    requires k in rest && rest <= o.values.Keys
    ensures Touched(cfg, Part(o, rest - {k}), j) <==> Touched(cfg, Part(o, rest), j) || (j == k && Ruled(cfg, k))
    ensures Touched(cfg, Part(o, rest), j) ==> j != k && Part(o, rest).values[j] == o.values[j]
  {
  }

  lemma PartStep(cfg: Config, f: Stepper, m: map<Key, Series>, o: Offering, rest: set<Key>, k: Key)
    requires cfg.hostInterval > 0 && k in rest && rest <= o.values.Keys
    ensures Offered(cfg, f, m, Part(o, rest - {k})) ==
            if Ruled(cfg, k) then Offered(cfg, f, m, Part(o, rest))[k := SteppedBy(cfg, f, m, o, k).st]
            else Offered(cfg, f, m, Part(o, rest))
    ensures Ruled(cfg, k) ==> SeriesOf(cfg, Offered(cfg, f, m, Part(o, rest)), k) == SeriesOf(cfg, m, k)
  {
    forall j
      ensures Touched(cfg, Part(o, rest - {k}), j) <==> Touched(cfg, Part(o, rest), j) || (j == k && Ruled(cfg, k))
      ensures Touched(cfg, Part(o, rest), j) ==> j != k && Part(o, rest).values[j] == o.values[j]
    {
      PartTouched(cfg, o, rest, k, j);
    }
  }
}
