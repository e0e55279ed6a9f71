/** The robust baseline of the spike detector. */
module SpikeBaseline {
  import opened Common
  import opened Stats
  import opened Spike

  /** The median and the MAD depend on the values only, not on their order. */
  lemma BaselinePermuted(s: seq<real>, t: seq<real>)
    requires multiset(s) == multiset(t)
    ensures Median(s) == Median(t) && Mad(s) == Mad(t)
  {
    SortPermuted(s, t);
  }

  // ---- what the median and the MAD are ----------------------------------------------------

  lemma DeviationsSnoc(s: seq<real>, x: real, med: real)
    ensures Deviations(s + [x], med) == Deviations(s, med) + [Abs(x - med)]
  {
  }

  lemma {:induction false} DeviationsInsert(s: seq<real>, x: real, med: real)
    ensures multiset(Deviations(Insert(s, x), med)) == multiset(Deviations(s, med)) + multiset{Abs(x - med)}
  {
    if s == [] || s[|s| - 1] <= x {
      DeviationsSnoc(s, x, med);
    } else {
      var init, last := s[..|s| - 1], s[|s| - 1];
      assert s == init + [last];
      DeviationsInsert(init, x, med);
      DeviationsSnoc(init, last, med);
      DeviationsSnoc(Insert(init, x), last, med);
    }
  }

  lemma {:induction false} DeviationsSort(s: seq<real>, med: real)
    ensures multiset(Deviations(Sort(s), med)) == multiset(Deviations(s, med))
  {
    if s != [] {
      var init, last := s[..|s| - 1], s[|s| - 1];
      assert s == init + [last];
      DeviationsSort(init, med);
      DeviationsInsert(Sort(init), last, med);
      DeviationsSnoc(init, last, med);
    }
  }

  /** The median is the middle of the sorted values. */
  lemma MedianIs(s: seq<real>, t: seq<real>)
    requires s != [] && Sorted(t) && multiset(t) == multiset(s)
    ensures t != [] && Median(s) == Middle(t)
  {
    SortSorts(s);
    SortedUnique(t, Sort(s));
    MedianIsMiddle(t);
  }

  /** The MAD is the middle of the sorted distances from the median. */
  lemma MadIs(s: seq<real>, d: seq<real>)
    requires s != [] && Sorted(d) && multiset(d) == multiset(seq(|s|, i requires 0 <= i < |s| => Abs(s[i] - Median(s))))
    ensures d != [] && Mad(s) == Middle(d)
  {
    var away := Deviations(s, Median(s));
    assert away == seq(|s|, i requires 0 <= i < |s| => Abs(s[i] - Median(s)));
    DeviationsSort(s, Median(s));
    SameElements(away, d);
    SortPermuted(Deviations(Sort(s), Median(s)), away);
    MedianIs(away, d);
  }

  // ---- the circular history is a suffix ---------------------------------------------------

  function Latest(vals: seq<real>): seq<real> {
    if |vals| <= BASELINE_WINDOW then vals else vals[|vals| - BASELINE_WINDOW..]
  }

  function Rotated(s: seq<real>, p: nat): seq<real>
    requires p <= |s|
  {
    s[p..] + s[..p]
  }

  /** The history in the order its values arrived. */
  function Chronological(h: Ring): seq<real> {
    if h.pos <= |h.vals| then Rotated(h.vals, h.pos) else h.vals
  }

  ghost predicate RingOk(h: Ring, vals: seq<real>) {
    && |h.vals| <= BASELINE_WINDOW
    && h.pos < BASELINE_WINDOW && (|h.vals| < BASELINE_WINDOW ==> h.pos == 0)
    && Chronological(h) == Latest(vals)
  }

  function MedianMad(s: seq<real>): (real, real) { (Median(s), Mad(s)) }

  /** `vals` are all values offered outside events; the history holds the latest of them, and once
      there are four the baseline is that of a history at most 19 such values old. */
  ghost predicate HistoryOkFor(st: Series, vals: seq<real>, baseline: seq<real> -> (real, real)) {
    && RingOk(st.hist, vals)
    && st.baseAge < BASELINE_REFRESH && st.baseAge <= |vals|
    && (|vals| < 4 ==> st.baseline == 0.0 && st.baseAge == |vals|)
    && (|vals| >= 4 ==> (st.baseline, st.mad) == baseline(Latest(vals[..|vals| - st.baseAge])))
  }

  ghost predicate HistoryOk(st: Series, vals: seq<real>) { HistoryOkFor(st, vals, MedianMad) }

  lemma RingPermutes(h: Ring, vals: seq<real>)
    requires RingOk(h, vals)
    ensures multiset(h.vals) == multiset(Latest(vals))
  {
    assert h.vals == h.vals[..h.pos] + h.vals[h.pos..];
  }

  lemma FillingRing(h: Ring, vals: seq<real>, v: real)
    requires RingOk(h, vals) && |h.vals| < BASELINE_WINDOW
    ensures RingOk(Recorded(h, v), vals + [v])
  {
    assert h.vals[0..] + h.vals[..0] == h.vals;
    var more := h.vals + [v];
    assert more[0..] + more[..0] == more;
    assert h.vals == vals;
  }

  lemma NextSlot(p: nat, n: nat)
    requires p < n
    ensures (p + 1) % n == if p + 1 < n then p + 1 else 0
  {
  }

  /** Overwriting the oldest slot drops the oldest value and appends the new one. */
  lemma OverwriteOldest(s: seq<real>, p: nat, v: real)
    requires p < |s|
    ensures Rotated(s[p := v], if p + 1 < |s| then p + 1 else 0) == Rotated(s, p)[1..] + [v]
  {
    var t := s[p := v];
    assert Rotated(s, p)[1..] == s[p + 1..] + s[..p];
    if p + 1 < |s| {
      assert t[p + 1..] == s[p + 1..];
      assert t[..p + 1] == s[..p] + [v];
    } else {
      assert t == s[..p] + [v];
      assert Rotated(t, 0) == t;
    }
  }

  lemma LatestShifts(vals: seq<real>, v: real)
    requires |vals| >= BASELINE_WINDOW
    ensures Latest(vals + [v]) == Latest(vals)[1..] + [v]
  {
  }

  lemma TurningRing(h: Ring, vals: seq<real>, v: real)
    requires RingOk(h, vals) && |h.vals| == BASELINE_WINDOW
    ensures RingOk(Recorded(h, v), vals + [v])
  {
    LatestShifts(vals, v);
    NextSlot(h.pos, |h.vals|);
    OverwriteOldest(h.vals, h.pos, v);
  }

  lemma RingAdvances(h: Ring, vals: seq<real>, v: real)
    requires RingOk(h, vals)
    ensures RingOk(Recorded(h, v), vals + [v])
  {
    if |h.vals| < BASELINE_WINDOW { FillingRing(h, vals, v); } else { TurningRing(h, vals, v); }
  }

  lemma FreshBaseline(h: Ring, vals: seq<real>)
    requires RingOk(h, vals)
    ensures Median(h.vals) == Median(Latest(vals)) && Mad(h.vals) == Mad(Latest(vals)) && |h.vals| == |Latest(vals)|
  {
    RingPermutes(h, vals);
    SizesAgree(h.vals, Latest(vals));
    BaselinePermuted(h.vals, Latest(vals));
  }

  lemma OldPrefix(vals: seq<real>, v: real, age: nat)
    requires age <= |vals|
    ensures (vals + [v])[..|vals| + 1 - (age + 1)] == vals[..|vals| - age]
    ensures (vals + [v])[..|vals| + 1 - 0] == vals + [v]
  {
  }

  /** When the bookkeeping recomputes the baseline, and when it only ages it. */
  ghost predicate Refreshed(st: Series, b: Series, v: real, baseline: seq<real> -> (real, real)) {
    && b.hist == Recorded(st.hist, v)
    && if st.baseAge + 1 >= BASELINE_REFRESH || (st.baseline == 0.0 && |b.hist.vals| >= 4)
       then b.baseAge == 0 && (b.baseline, b.mad) == baseline(b.hist.vals)
       else b.baseAge == st.baseAge + 1 && b.baseline == st.baseline && b.mad == st.mad
  }

  lemma HistoryAges(st: Series, b: Series, vals: seq<real>, v: real, baseline: seq<real> -> (real, real))
    requires HistoryOkFor(st, vals, baseline) && Refreshed(st, b, v, baseline)
    requires RingOk(b.hist, vals + [v]) && |b.hist.vals| == |Latest(vals + [v])|
    requires baseline(b.hist.vals) == baseline(Latest(vals + [v]))
    ensures HistoryOkFor(b, vals + [v], baseline)
  {
    OldPrefix(vals, v, st.baseAge);
  }

  lemma BookkeepingKeepsHistory(st: Series, vals: seq<real>, v: real)
    requires HistoryOk(st, vals) && st.open.None?
    ensures HistoryOk(Bookkept(st, v), vals + [v])
  {
    RingAdvances(st.hist, vals, v);
    FreshBaseline(Recorded(st.hist, v), vals + [v]);
    HistoryAges(st, Bookkept(st, v), vals, v, MedianMad);
  }

  lemma SizesAgree(s: seq<real>, t: seq<real>)
    requires multiset(s) == multiset(t)
    ensures |s| == |t|
  {
    assert |s| == |multiset(s)| && |t| == |multiset(t)|;
  }

  // ---- robustness -------------------------------------------------------------------------

  lemma {:induction false} CountDeviations(s: seq<real>, med: real, a: real, b: real)
    requires a <= med <= b
    ensures CountIn(s, a, b) <= CountIn(Deviations(s, med), 0.0, b - a)
  {
    if s != [] {
      var init := s[..|s| - 1];
      CountDeviations(init, med, a, b);
      assert Deviations(s, med)[..|s| - 1] == Deviations(init, med);
    }
  }

  lemma DeviationsMajority(s: seq<real>, med: real, a: real, b: real)
    requires 2 * CountIn(s, a, b) > |s| && a <= med <= b
    ensures 2 * CountIn(Deviations(Sort(s), med), 0.0, b - a) > |Deviations(Sort(s), med)|
  {
    SortSorts(s);
    CountSort(s, a, b);
    CountDeviations(Sort(s), med, a, b);
  }

  lemma RobustMad(s: seq<real>, med: real, a: real, b: real)
    requires 2 * CountIn(s, a, b) > |s| && a <= med <= b
    ensures 0.0 <= Median(Deviations(Sort(s), med)) <= b - a
  {
    DeviationsMajority(s, med, a, b);
    MedianOfMajority(Deviations(Sort(s), med), 0.0, b - a);
  }

  /** If more than half of a history lies in [a, b], its median does too and its MAD is at most
      b - a, however large the other values are. */
  lemma RobustBaseline(s: seq<real>, a: real, b: real)
    requires 2 * CountIn(s, a, b) > |s|
    ensures a <= Median(s) <= b && 0.0 <= Mad(s) <= b - a
  {
    MedianOfMajority(s, a, b);
    RobustMad(s, Median(s), a, b);
  }

  lemma Banded(base: real, sigma: real, k: real, a: real, b: real, widest: real)
    requires a <= base <= b && 1.0 <= sigma <= widest && 0.0 < k
    ensures a + k <= base + k * sigma <= b + k * widest
  {
    assert k * 1.0 <= k * sigma <= k * widest;
  }

  /** A deviation trigger, kept at or above the floor and at or below the static threshold. */
  function Kept(rule: Rule, x: real): real { MinReal(rule.staticThreshold, MaxReal(rule.baselineFloor, x)) }

  /** The widest band a MAD of at most b - a can give. */
  function Widest(a: real, b: real): real { MaxReal(1.0, 1.4826 * (b - a)) }

  /** The threshold's band, from where the median is and how large the MAD can be. */
  ghost predicate InBand(st: Series, a: real, b: real) {
    Kept(st.rule, Lowest(st.rule, a)) <= EffectiveThreshold(st).threshold <= Kept(st.rule, Highest(st.rule, a, b))
  }

  function Lowest(rule: Rule, a: real): real { a + rule.baselineK }

  function Highest(rule: Rule, a: real, b: real): real { b + rule.baselineK * Widest(a, b) }

  lemma ArmedThreshold(st: Series, low: real, high: real)
    requires Armed(st) && low <= Deviation(st) <= high
    ensures Kept(st.rule, low) <= EffectiveThreshold(st).threshold <= Kept(st.rule, high)
  {
  }

  lemma DeviationBand(st: Series, a: real, b: real)
    requires 0.0 < st.rule.baselineK && a <= st.baseline <= b && 0.0 <= st.mad <= b - a
    ensures Lowest(st.rule, a) <= Deviation(st) <= Highest(st.rule, a, b)
  {
    Banded(st.baseline, MadToSigma(st.mad), st.rule.baselineK, a, b, Widest(a, b));
  }

  lemma ThresholdBand(st: Series, a: real, b: real)
    requires Armed(st) && a <= st.baseline <= b && 0.0 <= st.mad <= b - a
    ensures InBand(st, a, b)
  {
    DeviationBand(st, a, b);
    ArmedThreshold(st, Lowest(st.rule, a), Highest(st.rule, a, b));
  }

  /** And the threshold of a series armed with that baseline stays in a known band. */
  lemma RobustThreshold(st: Series, s: seq<real>, a: real, b: real)
    requires 2 * CountIn(s, a, b) > |s|
    requires Armed(st) && (st.baseline, st.mad) == MedianMad(s)
    ensures InBand(st, a, b)
  {
    RobustBaseline(s, a, b);
    ThresholdBand(st, a, b);
  }
}
