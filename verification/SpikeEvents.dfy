/** The trace theorems of the spike detector: when events open, what they hold, when they close. */
module SpikeEvents {
  import opened Common
  import opened Spike
  import opened SpikeTrace

  // ---- vocabulary -------------------------------------------------------------------------

  ghost predicate Sized(t: Trace) {
    |t.states| == |t.r.samples| + 1 && |t.thresholds| == |t.done| == |t.r.samples|
  }

  function Ts(t: Trace, i: nat): Time requires i < |t.r.samples| { t.r.samples[i].ts }

  function PointAt(t: Trace, i: nat): Point requires i < |t.r.samples| { Point(t.r.samples[i].ts, t.r.samples[i].v) }

  ghost predicate Idle(t: Trace, n: nat)
    requires Sized(t) && n <= |t.r.samples|
  {
    t.states[n].open.None?
  }

  ghost predicate During(t: Trace, n: nat)
    requires Sized(t) && n <= |t.r.samples|
  {
    t.states[n].open.Some? && !t.states[n].open.value.inPost
  }

  ghost predicate InPost(t: Trace, n: nat)
    requires Sized(t) && n <= |t.r.samples|
  {
    t.states[n].open.Some? && t.states[n].open.value.inPost
  }

  /** The sample meets the threshold in force at it. */
  ghost predicate Above(t: Trace, i: nat)
    requires Sized(t) && i < |t.r.samples|
  {
    t.r.samples[i].v >= t.thresholds[i]
  }

  ghost predicate Cooling(t: Trace, i: nat)
    requires Sized(t) && i < |t.r.samples|
  {
    CoolingAt(t.states[i], Ts(t, i))
  }

  /** The sample counts toward opening an event: no event is open, it meets the threshold, and no
      cooldown is running. */
  ghost predicate Qualifies(t: Trace, i: nat)
    requires Sized(t) && i < |t.r.samples|
  {
    Idle(t, i) && Above(t, i) && !Cooling(t, i)
  }

  /** The first sample of the unbroken stretch of qualifying samples that ends at `i`. */
  ghost function ClimbStart(t: Trace, i: nat): (j: nat)
    requires Sized(t) && i < |t.r.samples| && Qualifies(t, i)
    ensures j <= i && Qualifies(t, j)
  {
    if i > 0 && Qualifies(t, i - 1) then ClimbStart(t, i - 1) else i
  }

  /** The event opens at `i`. */
  ghost predicate Opens(t: Trace, i: nat)
    requires Sized(t) && i < |t.r.samples|
  {
    Idle(t, i) && !Idle(t, i + 1)
  }

  /** Where the event that is open before sample `n` was opened. */
  ghost function OpenedAt(t: Trace, n: nat): (o: nat)
    requires Sized(t) && n <= |t.r.samples| && !Idle(t, n) && Idle(t, 0)
    ensures o < n && Opens(t, o)
  {
    if Idle(t, n - 1) then n - 1 else OpenedAt(t, n - 1)
  }

  /** The first sample of the unbroken stretch below the threshold that ends at `i`, inside the
      event opened at `o`. */
  ghost function DipStart(t: Trace, o: nat, i: nat): (b: nat)
    requires Sized(t) && o < i < |t.r.samples| && !Above(t, i)
    ensures o < b <= i && !Above(t, b)
  {
    if i - 1 > o && !Above(t, i - 1) then DipStart(t, o, i - 1) else i
  }

  /** The largest value among samples a..b. */
  function PeakOf(t: Trace, a: nat, b: nat): real
    requires a < b <= |t.r.samples|
  {
    if b == a + 1 then t.r.samples[a].v else MaxReal(PeakOf(t, a, b - 1), t.r.samples[b - 1].v)
  }

  /** The bounded buffer after the samples a..b have been appended to it one by one. */
  function Captured(t: Trace, a: nat, b: nat, cap: nat): seq<Point>
    requires a <= b <= |t.r.samples|
  {
    if a == b then [] else AppendCapped(Captured(t, a, b - 1, cap), PointAt(t, b - 1), cap)
  }

  // ---- opening ----------------------------------------------------------------------------

  lemma {:induction false} ClimbIsUnbroken(t: Trace, i: nat)
    requires Sized(t) && i < |t.r.samples| && Qualifies(t, i)
    ensures forall k :: ClimbStart(t, i) <= k <= i ==> Qualifies(t, k)
    ensures ClimbStart(t, i) > 0 ==> !Qualifies(t, ClimbStart(t, i) - 1)
  {
    if i > 0 && Qualifies(t, i - 1) { ClimbIsUnbroken(t, i - 1); }
  }

  /** The state remembers exactly the start of the current climb. */
  lemma {:induction false} ClimbTracked(t: Trace, n: nat)
    requires IsTrace(t) && n <= |t.r.samples| && Idle(t, n)
    ensures t.states[n].aboveSince == if n > 0 && Qualifies(t, n - 1) then Some(Ts(t, ClimbStart(t, n - 1))) else None
  {
    if n > 0 {
      assert MoveAt(t, n - 1);
      if Idle(t, n - 1) { ClimbTracked(t, n - 1); }
    }
  }

  /** An event opens exactly at a qualifying sample whose unbroken climb has lasted for the
      sustained duration, and it starts where that climb started. */
  lemma OpensExactly(t: Trace, i: nat)
    requires IsTrace(t) && i < |t.r.samples| && Idle(t, i)
    ensures Opens(t, i) <==> Qualifies(t, i) && Ts(t, i) - Ts(t, ClimbStart(t, i)) >= t.states[i].rule.sustained
    ensures Opens(t, i) ==> During(t, i + 1) && t.states[i + 1].open.value.ev.startTs == Ts(t, ClimbStart(t, i))
  {
    ClimbTracked(t, i);
    assert MoveAt(t, i);
  }

  lemma {:induction false} SameRule(t: Trace, n: nat)
    requires IsTrace(t) && n <= |t.r.samples|
    ensures t.states[n].rule == t.r.rule && t.states[n].key == t.r.key && t.states[n].preCap == t.states[0].preCap
  {
    if n > 0 {
      SameRule(t, n - 1);
      assert MoveAt(t, n - 1);
    }
  }

  // ---- while an event is open -------------------------------------------------------------

  /** What is settled once the event that opened at `o` has reached sample `n` without its post phase. */
  ghost predicate Grown(t: Trace, o: nat, n: nat, ev: Event)
    requires Sized(t) && o < n <= |t.r.samples|
  {
    && Opens(t, o) && Qualifies(t, o)
    && Ts(t, o) - Ts(t, ClimbStart(t, o)) >= t.r.rule.sustained
    && (forall i :: o < i < n ==> During(t, i))
    && (forall i :: o <= i < n ==> t.thresholds[i] == t.thresholds[o])
    && ev.id == t.r.samples[o].id && ev.key == t.r.key
    && Labelled(ev, t.states[o + 1].baseline, t.thresholds[o], t.r.rule)
    && ev.startTs == Ts(t, ClimbStart(t, o))
    && ev.peak == PeakOf(t, o, n)
    && ev.during == Captured(t, o + 1, n, MAX_DURING)
    && ev.pre == Decimated(t.states[o + 1].pre, MAX_PRE)
  }

  lemma GrownStarts(t: Trace, o: nat)
    requires IsTrace(t) && o < |t.r.samples| && Opens(t, o)
    ensures During(t, o + 1) && t.states[o + 1].belowSince == None
    ensures Grown(t, o, o + 1, t.states[o + 1].open.value.ev) && t.states[o + 1].open.value.ev.post == []
  {
    OpensExactly(t, o);
    SameRule(t, o);
    assert MoveAt(t, o);
  }

  lemma GrownGrows(t: Trace, o: nat, n: nat)
    requires IsTrace(t) && o < n < |t.r.samples| && During(t, n)
    requires Grown(t, o, n, t.states[n].open.value.ev)
    ensures !Idle(t, n + 1) && Grown(t, o, n + 1, t.states[n + 1].open.value.ev)
    ensures t.states[n + 1].open.value.ev.post == t.states[n].open.value.ev.post
  {
    assert MoveAt(t, n);
    assert HoldAt(t, n);
  }

  ghost predicate DipTracked(t: Trace, o: nat, n: nat)
    requires Sized(t) && o < n <= |t.r.samples|
  {
    t.states[n].belowSince == if n - 1 > o && !Above(t, n - 1) then Some(Ts(t, DipStart(t, o, n - 1))) else None
  }

  lemma {:induction false} DuringTracked(t: Trace, n: nat)
    requires IsTrace(t) && n <= |t.r.samples| && During(t, n)
    ensures Idle(t, 0)
    ensures var o, ev := OpenedAt(t, n), t.states[n].open.value.ev;
            Grown(t, o, n, ev) && ev.post == [] && DipTracked(t, o, n)
  {
    assert MoveAt(t, n - 1);
    if Idle(t, n - 1) {
      GrownStarts(t, n - 1);
    } else {
      DuringTracked(t, n - 1);
      GrownGrows(t, OpenedAt(t, n), n - 1);
    }
  }

  // ---- closing ----------------------------------------------------------------------------

  /** The event opened at `o` went below the threshold for long enough at `p`. */
  ghost predicate Closed(t: Trace, o: nat, p: nat, ev: Event)
    requires Sized(t) && o < p < |t.r.samples|
  {
    && Grown(t, o, p + 1, ev)
    && !Above(t, p)
    && ev.endTs == Ts(t, DipStart(t, o, p)) && ev.duration == ev.endTs - ev.startTs
    && Ts(t, p) - ev.endTs >= CLOSE_BELOW
    && forall i :: o < i < p && !Above(t, i) ==> Ts(t, i) - Ts(t, DipStart(t, o, i)) < CLOSE_BELOW
  }

  lemma StaysOpenMeansShortDip(t: Trace, o: nat, i: nat)
    requires IsTrace(t) && o < i < |t.r.samples| && During(t, i) && OpenedAt(t, i) == o && Idle(t, 0)
    ensures var since := if Above(t, i) then 0 else Ts(t, i) - Ts(t, DipStart(t, o, i));
            During(t, i + 1) <==> since < CLOSE_BELOW
  {
    DuringTracked(t, i);
    assert MoveAt(t, i);
  }

  lemma {:induction false} SameOpening(t: Trace, i: nat, n: nat)
    requires IsTrace(t) && Idle(t, 0) && i <= n <= |t.r.samples| && !Idle(t, n)
    requires OpenedAt(t, n) < i
    ensures !Idle(t, i) && OpenedAt(t, i) == OpenedAt(t, n)
  {
    if i < n { SameOpening(t, i, n - 1); }
  }

  lemma Closes(t: Trace, p: nat)
    requires IsTrace(t) && p < |t.r.samples| && During(t, p) && InPost(t, p + 1)
    ensures Idle(t, 0)
    ensures var o, oe := OpenedAt(t, p), t.states[p + 1].open.value;
            Closed(t, o, p, oe.ev) && oe.ev.post == [] && oe.postUntil == Ts(t, p) + t.r.cfg.postCapture
  {
    DuringTracked(t, p);
    var o := OpenedAt(t, p);
    GrownGrows(t, o, p);
    assert MoveAt(t, p);
    forall i | o < i < p && !Above(t, i) ensures Ts(t, i) - Ts(t, DipStart(t, o, i)) < CLOSE_BELOW {
      SameOpening(t, i, p);
      StaysOpenMeansShortDip(t, o, i);
      assert During(t, i + 1);
    }
  }

  /** The event closed at `p` and has captured its post phase up to `n`. */
  ghost predicate Capturing(t: Trace, o: nat, p: nat, n: nat, ev: Event)
    requires Sized(t) && o < p < n <= |t.r.samples|
  {
    && Closed(t, o, p, ev)
    && (forall i :: p < i < n ==> Ts(t, i) <= Ts(t, p) + t.r.cfg.postCapture)
    && ev.post == Captured(t, p + 1, n, MAX_POST)
  }

  /** Where the post phase that is running before sample `n` began. */
  ghost function ClosedAt(t: Trace, n: nat): (p: nat)
    requires Sized(t) && n <= |t.r.samples| && InPost(t, n) && Idle(t, 0)
    ensures p < n && !InPost(t, p) && InPost(t, p + 1)
  {
    if InPost(t, n - 1) then ClosedAt(t, n - 1) else n - 1
  }

  /** Only the post buffer changes in the post phase. */
  lemma ClosedIgnoresPost(t: Trace, o: nat, p: nat, ev: Event, post: seq<Point>)
    requires Sized(t) && o < p < |t.r.samples| && Closed(t, o, p, ev)
    ensures Closed(t, o, p, ev.(post := post))
  {
  }

  lemma PostStep(t: Trace, n: nat)
    requires IsTrace(t) && n < |t.r.samples| && InPost(t, n)
    ensures var oe := t.states[n].open.value;
            var ev := oe.ev.(post := AppendCapped(oe.ev.post, PointAt(t, n), MAX_POST));
            if Ts(t, n) > oe.postUntil then t.done[n] == Some(ev) && Idle(t, n + 1)
            else t.done[n] == None && t.states[n + 1].open == Some(oe.(ev := ev))
  {
    assert MoveAt(t, n);
  }

  lemma PostGrows(t: Trace, o: nat, p: nat, n: nat)
    requires IsTrace(t) && o < p < n < |t.r.samples| && InPost(t, n)
    requires Capturing(t, o, p, n, t.states[n].open.value.ev)
    requires t.states[n].open.value.postUntil == Ts(t, p) + t.r.cfg.postCapture
    ensures InPost(t, n + 1) ==>
              && Capturing(t, o, p, n + 1, t.states[n + 1].open.value.ev)
              && t.states[n + 1].open.value.postUntil == Ts(t, p) + t.r.cfg.postCapture
    ensures t.done[n].Some? <==> !InPost(t, n + 1)
    ensures t.done[n].Some? ==> Completed(t, o, p, n, t.done[n].value)
  {
    PostStep(t, n);
    var ev, post := t.states[n].open.value.ev, Captured(t, p + 1, n + 1, MAX_POST);
    ClosedIgnoresPost(t, o, p, ev, post);
    assert post == AppendCapped(ev.post, PointAt(t, n), MAX_POST);
  }

  /** Before sample `n`, in the post phase that began at sample `p`. */
  ghost predicate TrackedSince(t: Trace, p: nat, n: nat)
    requires Sized(t) && Idle(t, 0) && p < n <= |t.r.samples|
  {
    && InPost(t, n) && During(t, p)
    && Capturing(t, OpenedAt(t, p), p, n, t.states[n].open.value.ev)
    && t.states[n].open.value.postUntil == Ts(t, p) + t.r.cfg.postCapture
  }

  lemma TrackedFromStart(t: Trace, n: nat)
    requires IsTrace(t) && 0 < n <= |t.r.samples| && InPost(t, n) && !InPost(t, n - 1)
    ensures Idle(t, 0) && TrackedSince(t, n - 1, n)
  {
    assert MoveAt(t, n - 1);
    Closes(t, n - 1);
    PostStarts(t, OpenedAt(t, n - 1), n - 1);
  }

  lemma TrackedGoesOn(t: Trace, p: nat, n: nat)
    requires IsTrace(t) && p < n < |t.r.samples| && Idle(t, 0) && TrackedSince(t, p, n) && InPost(t, n + 1)
    ensures TrackedSince(t, p, n + 1)
  {
    PostGrows(t, OpenedAt(t, p), p, n);
  }

  lemma {:induction false} PostTracked(t: Trace, n: nat)
    requires IsTrace(t) && n <= |t.r.samples| && InPost(t, n)
    ensures Idle(t, 0) && TrackedSince(t, ClosedAt(t, n), n)
  {
    assert n > 0;
    if InPost(t, n - 1) {
      PostTracked(t, n - 1);
      TrackedGoesOn(t, ClosedAt(t, n - 1), n - 1);
    } else {
      TrackedFromStart(t, n);
    }
  }

  lemma PostStarts(t: Trace, o: nat, p: nat)
    requires Sized(t) && o < p < |t.r.samples| && InPost(t, p + 1)
    requires Closed(t, o, p, t.states[p + 1].open.value.ev) && t.states[p + 1].open.value.ev.post == []
    ensures Capturing(t, o, p, p + 1, t.states[p + 1].open.value.ev)
  {
  }

  /** A completed event, from the sample that opened it to the one that completed it. */
  ghost predicate Completed(t: Trace, o: nat, p: nat, c: nat, ev: Event)
    requires Sized(t) && o < p < c < |t.r.samples|
  {
    && Closed(t, o, p, ev)
    && (forall i :: p < i < c ==> Ts(t, i) <= Ts(t, p) + t.r.cfg.postCapture)
    && Ts(t, c) > Ts(t, p) + t.r.cfg.postCapture
    && ev.post == Captured(t, p + 1, c + 1, MAX_POST)
  }

  lemma OnlyPostCompletes(t: Trace, c: nat)
    requires IsTrace(t) && c < |t.r.samples| && t.done[c].Some?
    ensures InPost(t, c) && Idle(t, c + 1) && t.states[c + 1].cooldownTill == Some(Ts(t, c) + t.r.cfg.cooldown)
  {
    assert MoveAt(t, c);
  }

  /** Every event the detector emits has this whole history. */
  lemma EveryEvent(t: Trace, c: nat)
    requires IsTrace(t) && c < |t.r.samples| && t.done[c].Some?
    ensures InPost(t, c) && Idle(t, 0)
    ensures var p := ClosedAt(t, c);
            During(t, p) && Completed(t, OpenedAt(t, p), p, c, t.done[c].value)
  {
    OnlyPostCompletes(t, c);
    PostTracked(t, c);
    var p := ClosedAt(t, c);
    PostGrows(t, OpenedAt(t, p), p, c);
  }
}
