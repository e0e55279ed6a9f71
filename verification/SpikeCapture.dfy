/** Bounded capture: what decimation keeps of arbitrarily long phases. */
module SpikeCapture {
  import opened Spike
  import opened SpikeTrace
  import opened SpikeEvents

  ghost predicate Ascending(idx: seq<nat>) { forall i, j :: 0 <= i < j < |idx| ==> idx[i] < idx[j] }

  /** `out` consists of the points of `s` at the ascending positions `idx`. */
  ghost predicate Selects(s: seq<Point>, idx: seq<nat>, out: seq<Point>) {
    && |idx| == |out| && Ascending(idx)
    && forall i :: 0 <= i < |idx| ==> idx[i] < |s| && out[i] == s[idx[i]]
  }

  /** `out` is a subsequence of `s`. */
  ghost predicate Thinned(s: seq<Point>, out: seq<Point>) { exists idx :: Selects(s, idx, out) }

  function EvenSpacing(n: nat, target: nat): (idx: seq<nat>)
    requires 0 < target
    ensures |idx| == target && forall i :: 0 <= i < target ==> idx[i] == Spot(i, n, target)
  {
    seq(target, i requires 0 <= i < target => Spot(i, n, target))
  }

  lemma DivMonotone(a: nat, b: nat, t: nat)
    requires t > 0 && a + t <= b
    ensures a / t < b / t
  {
    var p := b / t;
    assert b == t * p + b % t;
    DivLess(a, t, p);
  }

  lemma SpacingAscends(n: nat, target: nat, i: nat, j: nat)
    requires 0 < target <= n && i < j
    ensures Spot(i, n, target) < Spot(j, n, target)
  {
    TimesMonotone(n, i + 1, j);
    assert i * n + n == n * (i + 1);
    DivMonotone(i * n, j * n, target);
  }

  /** Decimation keeps the order, the first point, and exactly `target` points. */
  lemma DecimationSelects(s: seq<Point>, target: nat)
    requires 0 < target < |s|
    ensures |Decimated(s, target)| == target && Decimated(s, target)[0] == s[0]
    ensures Selects(s, EvenSpacing(|s|, target), Decimated(s, target))
  {
    var n, idx := |s|, EvenSpacing(|s|, target);
    forall i, j | 0 <= i < j < |idx| ensures idx[i] < idx[j] {
      SpacingAscends(n, target, i, j);
    }
    forall i | 0 <= i < |idx| ensures idx[i] < |s| && Decimated(s, target)[i] == s[idx[i]] {
      DecimationBound(n, target, i);
    }
    assert Spot(0, n, target) == 0;
  }

  /** The points of samples a..b. */
  function Offered(t: Trace, a: nat, b: nat): (s: seq<Point>)
    requires a <= b <= |t.r.samples|
    ensures |s| == b - a && forall i :: 0 <= i < |s| ==> s[i] == PointAt(t, a + i)
  {
    seq(b - a, i requires 0 <= i < b - a => PointAt(t, a + i))
  }

  lemma Compose(s: seq<Point>, idx: seq<nat>, mid: seq<Point>, sub: seq<nat>, out: seq<Point>) returns (all: seq<nat>)
    requires Selects(s, idx, mid) && Selects(mid, sub, out)
    ensures Selects(s, all, out) && (|sub| > 0 && sub[0] == 0 ==> all[0] == idx[0])
  {
    all := seq(|sub|, i requires 0 <= i < |sub| => idx[sub[i]]);
  }

  lemma SelectOneMore(s: seq<Point>, idx: seq<nat>, out: seq<Point>, p: Point)
    requires Selects(s, idx, out)
    ensures Selects(s + [p], idx + [|s|], out + [p])
  {
  }

  /** A bounded buffer `buf` that holds an in-order selection of `s`, its first and its newest point. */
  ghost predicate Bounded(s: seq<Point>, idx: seq<nat>, buf: seq<Point>, cap: nat) {
    0 < |buf| <= cap && s != [] && Selects(s, idx, buf) && buf[0] == s[0] && buf[|buf| - 1] == s[|s| - 1]
  }

  lemma AppendKeepsBounded(s: seq<Point>, idx: seq<nat>, buf: seq<Point>, cap: nat, p: Point) returns (all: seq<nat>)
    requires Bounded(s, idx, buf, cap) && cap >= 2
    ensures Bounded(s + [p], all, AppendCapped(buf, p, cap), cap)
  {
    if |buf| >= cap {
      var half := Decimated(buf, cap / 2);
      DecimationSelects(buf, cap / 2);
      var kept := Compose(s, idx, buf, EvenSpacing(|buf|, cap / 2), half);
      SelectOneMore(s, kept, half, p);
      all := kept + [|s|];
    } else {
      SelectOneMore(s, idx, buf, p);
      all := idx + [|s|];
    }
  }

  /** The bounded buffer never exceeds its capacity; it is an in-order selection of everything that
      was offered to it; and through any number of decimations it keeps the first and the newest. */
  lemma {:induction false} CaptureIsBounded(t: Trace, a: nat, b: nat, cap: nat) returns (idx: seq<nat>)
    requires a < b <= |t.r.samples| && cap >= 2
    ensures Bounded(Offered(t, a, b), idx, Captured(t, a, b, cap), cap)
  {
    var p := PointAt(t, b - 1);
    if b == a + 1 {
      assert Captured(t, a, a, cap) == [];
      assert Offered(t, a, b) == [p];
      idx := [0];
      assert Captured(t, a, b, cap) == [p];
    } else {
      var before := CaptureIsBounded(t, a, b - 1, cap);
      assert Offered(t, a, b) == Offered(t, a, b - 1) + [p];
      idx := AppendKeepsBounded(Offered(t, a, b - 1), before, Captured(t, a, b - 1, cap), cap, p);
    }
  }

  /** The peak is the largest value of the phase, including those decimated away. */
  lemma {:induction false} PeakIsMax(t: Trace, a: nat, b: nat)
    requires a < b <= |t.r.samples|
    ensures forall i :: a <= i < b ==> t.r.samples[i].v <= PeakOf(t, a, b)
    ensures exists i :: a <= i < b && t.r.samples[i].v == PeakOf(t, a, b)
  {
    if b == a + 1 {
      assert t.r.samples[a].v == PeakOf(t, a, b);
    } else {
      PeakIsMax(t, a, b - 1);
      if PeakOf(t, a, b) != t.r.samples[b - 1].v {
        var i :| a <= i < b - 1 && t.r.samples[i].v == PeakOf(t, a, b - 1);
      }
    }
  }

  // ---- the pre-event ring -----------------------------------------------------------------

  /** The points offered while no event was open, among the first `n` samples. */
  ghost function IdlePoints(t: Trace, n: nat): seq<Point>
    requires Sized(t) && n <= |t.r.samples|
  {
    if n == 0 then [] else IdlePoints(t, n - 1) + if Idle(t, n - 1) then [PointAt(t, n - 1)] else []
  }

  function LastOf(s: seq<Point>, cap: nat): seq<Point> { if |s| > cap then s[|s| - cap..] else s }

  lemma PushLast(s: seq<Point>, cap: nat, p: Point)
    ensures Pushed(LastOf(s, cap), cap, p) == LastOf(s + [p], cap)
  {
  }

  lemma LastStep(points: seq<Point>, cap: nat, p: Point, idle: bool, pre: seq<Point>, next: seq<Point>, more: seq<Point>)
    requires pre == LastOf(points, cap) && more == points + if idle then [p] else []
    requires next == if idle then Pushed(pre, cap, p) else pre
    ensures next == LastOf(more, cap)
  {
    PushLast(points, cap, p);
    assert points + [] == points;
  }

  /** What one sample does to the ring. */
  ghost predicate RingStepAt(t: Trace, i: nat)
    requires Sized(t) && i < |t.r.samples|
  {
    && t.states[i + 1].preCap == t.states[i].preCap
    && t.states[i + 1].pre ==
       if Idle(t, i) then Pushed(t.states[i].pre, t.states[i].preCap, PointAt(t, i)) else t.states[i].pre
  }

  lemma RingStep(t: Trace, i: nat)
    requires IsTrace(t) && i < |t.r.samples|
    ensures RingStepAt(t, i)
  {
    SameRule(t, i);
    assert MoveAt(t, i);
  }

  lemma {:induction false} RingFollows(t: Trace, n: nat)
    requires Sized(t) && n <= |t.r.samples| && t.states[0].pre == []
    requires forall i: nat :: i < n ==> RingStepAt(t, i)
    ensures t.states[n].pre == LastOf(IdlePoints(t, n), t.states[0].preCap)
    ensures t.states[n].preCap == t.states[0].preCap
  {
    if n > 0 {
      RingFollows(t, n - 1);
      assert RingStepAt(t, n - 1);
      LastStep(IdlePoints(t, n - 1), t.states[0].preCap, PointAt(t, n - 1), Idle(t, n - 1),
               t.states[n - 1].pre, t.states[n].pre, IdlePoints(t, n));
    }
  }

  /** The ring holds exactly the newest points offered outside events. */
  lemma RingTracked(t: Trace, n: nat)
    requires IsTrace(t) && n <= |t.r.samples|
    ensures t.states[n].pre == LastOf(IdlePoints(t, n), t.states[0].preCap)
    ensures t.states[n].preCap == t.states[0].preCap
  {
    forall i: nat | i < n ensures RingStepAt(t, i) {
      RingStep(t, i);
    }
    RingFollows(t, n);
  }

  /** What an event's buffers and peak say about the samples o..c it spans. */
  ghost predicate CaptureOf(t: Trace, o: nat, p: nat, c: nat, ev: Event)
    requires Sized(t) && o < p < c < |t.r.samples|
  {
    && Represents(t, o + 1, p + 1, MAX_DURING, ev.during)
    && Represents(t, p + 1, c + 1, MAX_POST, ev.post)
    && PeaksAt(t, o, p, ev.peak)
    && EvenlyThinned(LastOf(IdlePoints(t, o + 1), t.states[0].preCap), MAX_PRE, ev.pre)
  }

  /** `out` is `s`, or an in-order selection of exactly `cap` evenly spaced points of it that begins with
      its first. */
  ghost predicate EvenlyThinned(s: seq<Point>, cap: nat, out: seq<Point>) {
    && out == Decimated(s, cap) && Thinned(s, out) && |out| == (if |s| <= cap then |s| else cap)
    && (out != [] ==> s != [] && out[0] == s[0])
  }

  lemma DecimatedIsThinned(s: seq<Point>, cap: nat)
    requires cap > 0
    ensures EvenlyThinned(s, cap, Decimated(s, cap))
  {
    if |s| > cap {
      DecimationSelects(s, cap);
    } else {
      assert Selects(s, seq(|s|, i => i), s);
    }
  }

  /** What a bounded buffer says about the samples a..b offered to it. */
  ghost predicate Represents(t: Trace, a: nat, b: nat, cap: nat, buf: seq<Point>)
    requires a < b <= |t.r.samples|
  {
    && 0 < |buf| <= cap && Thinned(Offered(t, a, b), buf)
    && buf[0] == PointAt(t, a) && buf[|buf| - 1] == PointAt(t, b - 1)
  }

  lemma CaptureRepresents(t: Trace, a: nat, b: nat, cap: nat)
    requires a < b <= |t.r.samples| && cap >= 2
    ensures Represents(t, a, b, cap, Captured(t, a, b, cap))
  {
    var idx := CaptureIsBounded(t, a, b, cap);
    assert Selects(Offered(t, a, b), idx, Captured(t, a, b, cap));
  }

  /** The peak is the largest value of the samples o..p. */
  ghost predicate PeaksAt(t: Trace, o: nat, p: nat, peak: real)
    requires o <= p < |t.r.samples|
  {
    && (forall i :: o <= i <= p ==> t.r.samples[i].v <= peak)
    && (exists i :: o <= i <= p && t.r.samples[i].v == peak)
  }

  lemma PeakPeaks(t: Trace, o: nat, p: nat)
    requires o <= p < |t.r.samples|
    ensures PeaksAt(t, o, p, PeakOf(t, o, p + 1))
  {
    PeakIsMax(t, o, p + 1);
    var i :| o <= i < p + 1 && t.r.samples[i].v == PeakOf(t, o, p + 1);
    assert o <= i <= p;
  }

  lemma CaptureFollows(t: Trace, o: nat, p: nat, c: nat, ev: Event)
    requires IsTrace(t) && o < p < c < |t.r.samples|
    requires ev.during == Captured(t, o + 1, p + 1, MAX_DURING) && ev.post == Captured(t, p + 1, c + 1, MAX_POST)
    requires ev.peak == PeakOf(t, o, p + 1) && ev.pre == Decimated(t.states[o + 1].pre, MAX_PRE)
    ensures CaptureOf(t, o, p, c, ev)
  {
    CaptureRepresents(t, o + 1, p + 1, MAX_DURING);
    CaptureRepresents(t, p + 1, c + 1, MAX_POST);
    PeakPeaks(t, o, p);
    PreFollows(t, o, ev);
  }

  lemma PreFollows(t: Trace, o: nat, ev: Event)
    requires IsTrace(t) && o < |t.r.samples| && ev.pre == Decimated(t.states[o + 1].pre, MAX_PRE)
    ensures EvenlyThinned(LastOf(IdlePoints(t, o + 1), t.states[0].preCap), MAX_PRE, ev.pre)
  {
    RingTracked(t, o + 1);
    DecimatedIsThinned(t.states[o + 1].pre, MAX_PRE);
  }

  lemma Buffers(t: Trace, o: nat, p: nat, c: nat, ev: Event)
    requires Sized(t) && o < p < c < |t.r.samples| && Completed(t, o, p, c, ev)
    ensures ev.during == Captured(t, o + 1, p + 1, MAX_DURING) && ev.post == Captured(t, p + 1, c + 1, MAX_POST)
    ensures ev.peak == PeakOf(t, o, p + 1) && ev.pre == Decimated(t.states[o + 1].pre, MAX_PRE)
  {
    assert Grown(t, o, p + 1, ev);
  }

  /** Everything an emitted event carries: bounded, in order, first and newest kept, exact peak. */
  lemma EventCapture(t: Trace, c: nat)
    requires IsTrace(t) && c < |t.r.samples| && t.done[c].Some?
    ensures InPost(t, c) && Idle(t, 0) && !Idle(t, ClosedAt(t, c))
    ensures CaptureOf(t, OpenedAt(t, ClosedAt(t, c)), ClosedAt(t, c), c, t.done[c].value)
  {
    EveryEvent(t, c);
    var ev, p := t.done[c].value, ClosedAt(t, c);
    var o := OpenedAt(t, p);
    Buffers(t, o, p, c, ev);
    CaptureFollows(t, o, p, c, ev);
  }
}
