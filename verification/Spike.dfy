/** The spike detector's per-series state machine as functions (internal/spike/spike.go). */
module Spike {
  import opened Common
  import opened Stats

  const MAX_PRE: nat := 120
  const MAX_DURING: nat := 360
  const MAX_POST: nat := 60
  const CLOSE_BELOW: int := 60 * SECOND
  const BASELINE_WINDOW: nat := 5760
  const BASELINE_MIN_SAMPLES: nat := 240
  const BASELINE_REFRESH: nat := 20

  datatype Key = Key(resource: string, device: string)

  datatype Rule = Rule(resource: string, staticThreshold: real, sustained: int, baselineK: real, baselineFloor: real)

  datatype Config = Config(rules: seq<Rule>, preBuffer: int, hostInterval: int, postCapture: int, cooldown: int)

  datatype Point = Point(ts: Time, v: real)

  datatype Trigger = Static | BaselineDeviation

  datatype Event = Event(
    id: string, key: Key, startTs: Time, endTs: Time, duration: int,
    baseline: real, peak: real, threshold: real, trigger: Trigger,
    pre: seq<Point>, during: seq<Point>, post: seq<Point>)

  datatype OpenEvent = OpenEvent(ev: Event, inPost: bool, postUntil: Time)

  /** seriesState. */
  datatype Series = Series(
    rule: Rule, key: Key, pre: seq<Point>, preCap: nat,
    hist: Ring, baseline: real, mad: real, baseAge: nat,
    aboveSince: Option<Time>, belowSince: Option<Time>, cooldownTill: Option<Time>,
    open: Option<OpenEvent>)

  function RuleFor(rules: seq<Rule>, resource: string): Option<Rule> {
    if rules == [] then None
    else if rules[0].resource == resource then Some(rules[0])
    else RuleFor(rules[1..], resource)
  }

  /** No rule before the `k`-th is for the resource. */
  ghost predicate NoneBefore(rules: seq<Rule>, resource: string, k: nat)
    requires k <= |rules|
  {
    forall j :: 0 <= j < k ==> rules[j].resource != resource
  }

  /** Of several rules for a resource the first counts, and a resource is ignored exactly when none names it. */
  lemma {:induction false} RuleForIsFirst(rules: seq<Rule>, resource: string, k: nat)
    requires k < |rules|
    ensures NoneBefore(rules, resource, k) && rules[k].resource == resource ==> RuleFor(rules, resource) == Some(rules[k])
    ensures RuleFor(rules, resource).None? <==> NoneBefore(rules, resource, |rules|)
  {
    if |rules| == 1 {
    } else {
      var rest := rules[1..];
      assert forall j :: 0 <= j < |rest| ==> rest[j] == rules[j + 1];
      RuleForIsFirst(rest, resource, if k > 0 then k - 1 else 0);
      if rules[0].resource != resource {
        SameButFirst(rules, resource, k);
        SameButFirst(rules, resource, |rules|);
      }
    }
  }

  lemma SameButFirst(rules: seq<Rule>, resource: string, k: nat)
    requires k <= |rules| && |rules| > 0 && rules[0].resource != resource
    ensures k > 0 ==> (NoneBefore(rules, resource, k) <==> NoneBefore(rules[1..], resource, k - 1))
  {
    if k > 0 {
      var rest := rules[1..];
      assert forall j :: 0 <= j < |rest| ==> rest[j] == rules[j + 1];
      if NoneBefore(rest, resource, k - 1) {
        forall j | 0 <= j < k ensures rules[j].resource != resource {
          if j > 0 { assert rest[j - 1] == rules[j]; }
        }
      }
    }
  }

  /** Go's integer division truncates toward zero. */
  function Quotient(a: int, b: int): int
    requires b > 0
  {
    if a >= 0 then a / b else -((-a) / b)
  }

  function PreCapacity(cfg: Config): nat
    requires cfg.hostInterval > 0
  {
    var n := Quotient(cfg.preBuffer, cfg.hostInterval) + 1;
    if n < 4 then 4 else n
  }

  lemma QuotientBounds(a: int, b: int)
    requires b > 0
    ensures a >= 0 ==> Quotient(a, b) * b <= a < Quotient(a, b) * b + b
    ensures a < 0 ==> Quotient(a, b) <= 0
  {
  }

  lemma Times(t: int, x: int, y: int)
    requires x <= y && t >= 0
    ensures x * t <= y * t
  {
  }

  lemma OneMoreTimes(x: int, t: int)
    ensures (x + 1) * t == x * t + t
  {
  }

  /** The pre-event ring holds the samples of the configured pre-buffer and one more, and at least four. */
  lemma PreCapacityCovers(cfg: Config)
    requires cfg.hostInterval > 0
    ensures var n := PreCapacity(cfg);
            && n >= 4 && cfg.preBuffer < n * cfg.hostInterval
            && (n > 4 ==> (n - 1) * cfg.hostInterval <= cfg.preBuffer)
  {
    var q, n, t := Quotient(cfg.preBuffer, cfg.hostInterval), PreCapacity(cfg), cfg.hostInterval;
    QuotientBounds(cfg.preBuffer, t);
    OneMoreTimes(q, t);
    Times(t, q + 1, n);
    Times(t, 0, n);
  }

  function NewSeries(cfg: Config, rule: Rule, key: Key): Series
    requires cfg.hostInterval > 0
  {
    Series(rule, key, [], PreCapacity(cfg), Ring([], 0), 0.0, 0.0, 0, None, None, None, None)
  }

  // ---- buffers ----------------------------------------------------------------------------

  /** ringBuf.push. */
  function Pushed(pts: seq<Point>, cap: nat, p: Point): seq<Point> {
    var s := pts + [p];
    if |s| > cap then s[|s| - cap..] else s
  }

  /** decimate: `target` points at even spacing, starting with the first. */
  function Decimated(s: seq<Point>, target: int): seq<Point> {
    if |s| <= target || target <= 0 then s
    else seq(target, i requires 0 <= i < target => DecimationBound(|s|, target, i); s[Spot(i, |s|, target)])
  }

  /** The position of the `i`-th of `target` evenly spaced points among `n`. */
  function Spot(i: nat, n: nat, target: nat): nat
    requires target > 0
  {
    i * n / target
  }

  lemma DecimationBound(n: nat, target: nat, i: nat)
    requires 0 < target < n && i < target
    ensures Spot(i, n, target) < n
  {
    assert i * n <= (target - 1) * n;
    assert (target - 1) * n < target * n;
    DivLess(i * n, target, n);
  }

  lemma DivLess(a: nat, t: nat, n: nat)
    requires t > 0 && a < t * n
    ensures a / t < n
  {
    var q := a / t;
    assert t * q <= a;
    if q >= n { TimesMonotone(t, n, q); }
  }

  lemma TimesMonotone(t: nat, x: nat, y: nat)
    requires x <= y
    ensures t * x <= t * y
  {
  }

  /** appendCapped. */
  function AppendCapped(s: seq<Point>, p: Point, cap: nat): seq<Point> {
    if |s| >= cap then Decimated(s, cap / 2) + [p] else s + [p]
  }

  // ---- baseline ---------------------------------------------------------------------------

  function Deviations(s: seq<real>, med: real): (d: seq<real>)
    ensures |d| == |s| && forall i :: 0 <= i < |s| ==> d[i] == Abs(s[i] - med)
  {
    seq(|s|, i requires 0 <= i < |s| => Abs(s[i] - med))
  }

  function Median(s: seq<real>): real { Quantile(Sort(s), 0.5) }

  function Mad(s: seq<real>): real { Median(Deviations(Sort(s), Median(s))) }

  function MadToSigma(mad: real): real { MaxReal(1.0, 1.4826 * mad) }

  /** The circular history: appended to until it is full, then overwritten at the oldest slot. */
  datatype Ring = Ring(vals: seq<real>, pos: nat)

  function Recorded(h: Ring, v: real): Ring {
    if |h.vals| < BASELINE_WINDOW then Ring(h.vals + [v], h.pos)
    else if h.pos < |h.vals| then Ring(h.vals[h.pos := v], (h.pos + 1) % BASELINE_WINDOW)
    else h
  }

  /** The bookkeeping that only samples outside an event do. */
  function Bookkept(st: Series, v: real): Series {
    if st.open.Some? then st
    else
      var hist := Recorded(st.hist, v);
      var age := st.baseAge + 1;
      if age >= BASELINE_REFRESH || (st.baseline == 0.0 && |hist.vals| >= 4)
      then st.(hist := hist, baseline := Median(hist.vals), mad := Mad(hist.vals), baseAge := 0)
      else st.(hist := hist, baseAge := age)
  }

  datatype Effective = Effective(threshold: real, trigger: Trigger)

  predicate Armed(st: Series) { st.rule.baselineK > 0.0 && |st.hist.vals| >= BASELINE_MIN_SAMPLES }

  /** The baseline-deviation trigger before its floor. */
  function Deviation(st: Series): real { st.baseline + st.rule.baselineK * MadToSigma(st.mad) }

  /** effectiveThreshold. */
  function EffectiveThreshold(st: Series): Effective {
    if Armed(st) then
      var bt := MaxReal(Deviation(st), st.rule.baselineFloor);
      if bt < st.rule.staticThreshold then Effective(bt, BaselineDeviation) else Effective(st.rule.staticThreshold, Static)
    else Effective(st.rule.staticThreshold, Static)
  }

  // ---- the step ---------------------------------------------------------------------------

  datatype Stepped = Stepped(st: Series, done: Option<Event>)

  /** A sample while the event is open and not yet in its post phase. */
  function DuringStep(cfg: Config, st: Series, ts: Time, v: real): Series
    requires st.open.Some?
  {
    var oe := st.open.value;
    var ev := oe.ev.(during := AppendCapped(oe.ev.during, Point(ts, v), MAX_DURING), peak := MaxReal(oe.ev.peak, v));
    if v >= EffectiveThreshold(st).threshold then st.(open := Some(oe.(ev := ev)), belowSince := None)
    else
      var since := if st.belowSince.None? then ts else st.belowSince.value;
      if ts - since >= CLOSE_BELOW
      then st.(belowSince := Some(since),
               open := Some(OpenEvent(ev.(endTs := since, duration := since - ev.startTs), true, ts + cfg.postCapture)))
      else st.(belowSince := Some(since), open := Some(oe.(ev := ev)))
  }

  /** A sample in the post phase; the event completes once the capture period is over. */
  function PostStep(cfg: Config, st: Series, ts: Time, v: real): Stepped
    requires st.open.Some?
  {
    var oe := st.open.value;
    var ev := oe.ev.(post := AppendCapped(oe.ev.post, Point(ts, v), MAX_POST));
    if ts > oe.postUntil
    then Stepped(st.(open := None, cooldownTill := Some(ts + cfg.cooldown), aboveSince := None), Some(ev))
    else Stepped(st.(open := Some(oe.(ev := ev))), None)
  }

  predicate CoolingAt(st: Series, ts: Time) { st.cooldownTill.Some? && ts < st.cooldownTill.value }

  /** A sample outside any event, after its bookkeeping. */
  function IdleStep(st: Series, ts: Time, v: real, id: string): Series {
    var eff := EffectiveThreshold(st);
    var pushed := st.(pre := Pushed(st.pre, st.preCap, Point(ts, v)));
    if v < eff.threshold || CoolingAt(st, ts) then pushed.(aboveSince := None)
    else
      var since := if st.aboveSince.None? then ts else st.aboveSince.value;
      if ts - since < st.rule.sustained then pushed.(aboveSince := Some(since))
      else
        pushed.(aboveSince := Some(since), belowSince := None,
                open := Some(OpenEvent(
                  Event(id, st.key, since, ZERO_TIME, 0, Round2(st.baseline), v, Round2(eff.threshold), eff.trigger,
                        Decimated(pushed.pre, MAX_PRE), [], []), false, ZERO_TIME)))
  }

  /** step. */
  function Step(cfg: Config, st0: Series, ts: Time, v: real, id: string): Stepped {
    var st := Bookkept(st0, v);
    if st.open.None? then Stepped(IdleStep(st, ts, v, id), None)
    else if !st.open.value.inPost then Stepped(DuringStep(cfg, st, ts, v), None)
    else PostStep(cfg, st, ts, v)
  }
}
