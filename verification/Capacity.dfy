/** Capacity ranges and the decision ladder (internal/analyzer/recommend.go). */
module Capacity {
  import opened Common
  import opened Summaries

  const CPU_TARGET_PEAK: real := 70.0
  const CPU_SUSTAINED_LIMIT: real := 85.0
  const MEM_HEADROOM_FACTOR: real := 1.30
  const MIN_VCPU: int := 2

  /** A technical range; zero RAM bounds mean that no RAM reduction is suggested. */
  datatype CapacityRange = CapacityRange(minVCPU: int, maxVCPU: int, minRAMGB: real, maxRAMGB: real)

  /** Go's integer division drops the fraction. */
  function TruncDiv(a: int, b: int): int
    requires b > 0
  {
    if a >= 0 then a / b else -((-a) / b)
  }

  /** suggestCapacity. */
  function SuggestCapacity(vcpu: int, ramGB: real, cpuP95: real, peakP99: real, memP95GB: real): Option<CapacityRange> {
    if vcpu == 0 || ramGB == 0.0 then None
    else
      var need := MaxReal(vcpu as real * cpuP95 / CPU_TARGET_PEAK, vcpu as real * peakP99 / 100.0);
      var lo := if Ceil(need) < MIN_VCPU then MIN_VCPU else Ceil(need);
      var third := lo + TruncDiv(vcpu - lo, 3);
      var hi := if third <= lo then lo + 1 else third;
      if lo >= vcpu then None
      else
        var ram := memP95GB * MEM_HEADROOM_FACTOR;
        var ramLo := MaxReal(4.0, Ceil(ram) as real);
        var ramHi := MaxReal(ramLo + 2.0, Ceil(ram * 1.25) as real);
        Some(if ramLo >= ramGB then CapacityRange(lo, hi, 0.0, 0.0) else CapacityRange(lo, hi, ramLo, ramHi))
  }

  /** On `size` vCPUs the observed load stays at or below 70% (P95) and 100% (P99 of the peaks). */
  predicate Fits(vcpu: int, cpuP95: real, peakP99: real, size: int) {
    && vcpu as real * cpuP95 <= CPU_TARGET_PEAK * size as real
    && vcpu as real * peakP99 <= 100.0 * size as real
  }

  lemma CeilIsLeast(x: real, n: int)
    ensures Ceil(x) <= n <==> x <= n as real
  {
  }

  lemma NeedIsFit(vcpu: int, cpuP95: real, peakP99: real, size: int)
    ensures Ceil(MaxReal(vcpu as real * cpuP95 / CPU_TARGET_PEAK, vcpu as real * peakP99 / 100.0)) <= size
       <==> Fits(vcpu, cpuP95, peakP99, size)
  {
    var a, b := vcpu as real * cpuP95, vcpu as real * peakP99;
    CeilIsLeast(MaxReal(a / CPU_TARGET_PEAK, b / 100.0), size);
    assert a / 70.0 <= size as real <==> a <= 70.0 * size as real;
    assert b / 100.0 <= size as real <==> b <= 100.0 * size as real;
  }

  /** `part` is a third of `whole`, rounded down, or 1 if that is less. */
  predicate IsThird(part: int, whole: int) { 3 * part <= (if whole < 3 then 3 else whole) < 3 * part + 3 }

  /** The range starts at the least size of at least 2 that fits and goes on by a third of the way to the
      allocation, rounded down but by 1 at least; there is a range exactly when a smaller size fits. */
  lemma CapacityIsLeast(vcpu: int, ramGB: real, cpuP95: real, peakP99: real, memP95GB: real)
    ensures var c := SuggestCapacity(vcpu, ramGB, cpuP95, peakP99, memP95GB);
            && (c.Some? <==> ramGB != 0.0 && exists size :: MIN_VCPU <= size < vcpu && Fits(vcpu, cpuP95, peakP99, size))
            && (c.Some? ==>
                  && MIN_VCPU <= c.value.minVCPU < c.value.maxVCPU <= vcpu
                  && IsThird(c.value.maxVCPU - c.value.minVCPU, vcpu - c.value.minVCPU)
                  && Fits(vcpu, cpuP95, peakP99, c.value.minVCPU)
                  && forall size :: MIN_VCPU <= size < c.value.minVCPU ==> !Fits(vcpu, cpuP95, peakP99, size))
  {
    forall size { NeedIsFit(vcpu, cpuP95, peakP99, size); }
    var c := SuggestCapacity(vcpu, ramGB, cpuP95, peakP99, memP95GB);
    if c.Some? {
      assert Fits(vcpu, cpuP95, peakP99, c.value.minVCPU);
    }
  }

  /** The P99 of the peaks fills `size` vCPUs completely, and the P95 load fits them. */
  predicate PeakFills(vcpu: int, cpuP95: real, peakP99: real, size: int) {
    && size >= MIN_VCPU
    && vcpu as real * peakP99 == 100.0 * size as real && vcpu as real * cpuP95 <= CPU_TARGET_PEAK * size as real
  }

  /** The peaks reach 100% of the suggested size exactly when they fill some whole size of at least 2
      on which the P95 load fits; otherwise they stay below. */
  lemma PeakReachesExactlyWhen(vcpu: int, ramGB: real, cpuP95: real, peakP99: real, memP95GB: real)
    requires SuggestCapacity(vcpu, ramGB, cpuP95, peakP99, memP95GB).Some?
    ensures var lo := SuggestCapacity(vcpu, ramGB, cpuP95, peakP99, memP95GB).value.minVCPU;
            && vcpu as real * peakP99 <= 100.0 * lo as real
            && (vcpu as real * peakP99 == 100.0 * lo as real <==> exists size :: PeakFills(vcpu, cpuP95, peakP99, size))
  {
    var lo := SuggestCapacity(vcpu, ramGB, cpuP95, peakP99, memP95GB).value.minVCPU;
    CapacityIsLeast(vcpu, ramGB, cpuP95, peakP99, memP95GB);
    if size :| PeakFills(vcpu, cpuP95, peakP99, size) {
      assert Fits(vcpu, cpuP95, peakP99, size);
      assert Fits(vcpu, cpuP95, peakP99, lo);
    }
    if vcpu as real * peakP99 == 100.0 * lo as real {
      assert PeakFills(vcpu, cpuP95, peakP99, lo);
    }
  }

  /** Four vCPUs whose peaks reach 50%: the suggested two would be filled. */
  lemma PeakExample()
    ensures var c := SuggestCapacity(4, 16.0, 10.0, 50.0, 2.0);
            c.Some? && c.value.minVCPU == 2 && 4.0 * 50.0 == 100.0 * c.value.minVCPU as real
  {
    assert MaxReal(4.0 * 10.0 / CPU_TARGET_PEAK, 4.0 * 50.0 / 100.0) == 2.0;
  }

  predicate EnoughRAM(memP95GB: real, gb: int) { gb >= 4 && gb as real >= memP95GB * MEM_HEADROOM_FACTOR }

  /** Two GB over a size that is enough, and a quarter over the headroom. */
  predicate EnoughUpperRAM(memP95GB: real, gb: int) {
    EnoughRAM(memP95GB, gb - 2) && gb as real >= memP95GB * MEM_HEADROOM_FACTOR * 1.25
  }

  /** The whole number of GB `bound` is the least that is enough. */
  ghost predicate IsLeastRAM(bound: real, enough: int -> bool) {
    bound == bound.Floor as real && enough(bound.Floor) && forall gb: int :: enough(gb) ==> bound <= gb as real
  }

  /** Suggested RAM starts at the least whole number of GB of at least 4 that keeps 30% over the P95
      use, when that is less than the allocation; otherwise no RAM figure is given.  It ends at the
      least that adds 2 GB and a quarter, which stays within the allocation exactly when some such
      size does. */
  lemma RamIsLeast(vcpu: int, ramGB: real, cpuP95: real, peakP99: real, memP95GB: real)
    requires SuggestCapacity(vcpu, ramGB, cpuP95, peakP99, memP95GB).Some?
    ensures var c := SuggestCapacity(vcpu, ramGB, cpuP95, peakP99, memP95GB).value;
            && (c.minRAMGB == 0.0 <==> forall gb: int :: EnoughRAM(memP95GB, gb) ==> gb as real >= ramGB)
            && (c.minRAMGB == 0.0 <==> c.maxRAMGB == 0.0)
            && (c.minRAMGB != 0.0 ==>
                  && c.minRAMGB < ramGB
                  && IsLeastRAM(c.minRAMGB, (gb: int) => EnoughRAM(memP95GB, gb))
                  && IsLeastRAM(c.maxRAMGB, (gb: int) => EnoughUpperRAM(memP95GB, gb))
                  && (c.maxRAMGB <= ramGB <==> exists gb: int :: EnoughUpperRAM(memP95GB, gb) && gb as real <= ramGB))
  {
    var ram := memP95GB * MEM_HEADROOM_FACTOR;
    var least := if Ceil(ram) < 4 then 4 else Ceil(ram);
    var upper := if Ceil(ram * 1.25) < least + 2 then least + 2 else Ceil(ram * 1.25);
    forall gb: int ensures EnoughRAM(memP95GB, gb) <==> gb >= least {
      CeilIsLeast(ram, gb);
    }
    forall gb: int ensures EnoughUpperRAM(memP95GB, gb) <==> gb >= upper {
      CeilIsLeast(ram * 1.25, gb);
    }
    assert EnoughRAM(memP95GB, least) && (least as real).Floor == least;
    assert EnoughUpperRAM(memP95GB, upper) && (upper as real).Floor == upper;
    assert MaxReal(4.0, Ceil(ram) as real) == least as real;
    assert MaxReal(least as real + 2.0, Ceil(ram * 1.25) as real) == upper as real;
  }

  /** Five GB of which two are used: the code suggests four to six. */
  lemma RamExample()
    ensures SuggestCapacity(8, 5.0, 20.0, 40.0, 2.0) == Some(CapacityRange(4, 5, 4.0, 6.0))
  {
    assert MaxReal(8.0 * 20.0 / CPU_TARGET_PEAK, 8.0 * 40.0 / 100.0) == 3.2;
  }

  // ---- confidence -------------------------------------------------------------------------

  /** confidenceFrom. */
  function ConfidenceFrom(days: int, coverage: real): real {
    var d := MinReal(days as real, 30.0) / 30.0;
    var c := coverage / 100.0;
    Round2(MinReal(0.9, 0.25 + 0.45 * d + 0.2 * c))
  }

  /** More days or more coverage never lower the confidence, and it is capped at 0.9. */
  lemma ConfidenceMonotone(days: int, coverage: real, moreDays: int, moreCoverage: real)
    requires 0 <= days <= moreDays && 0.0 <= coverage <= moreCoverage
    ensures 0.25 <= ConfidenceFrom(days, coverage) <= ConfidenceFrom(moreDays, moreCoverage) <= 0.9
  {
    var x := MinReal(0.9, 0.25 + 0.45 * (MinReal(days as real, 30.0) / 30.0) + 0.2 * (coverage / 100.0));
    var y := MinReal(0.9, 0.25 + 0.45 * (MinReal(moreDays as real, 30.0) / 30.0) + 0.2 * (moreCoverage / 100.0));
    assert 0.25 <= x <= y <= 0.9;
    Round2Monotone(0.25, x);
    Round2Monotone(x, y);
    Round2Monotone(y, 0.9);
    assert Round2(0.25) == 0.25 && Round2(0.9) == 0.9;
  }

  /** A quarter, one and a half hundredths for each of up to 30 days, and a fifth for full coverage. */
  lemma ConfidenceIs(days: int, coverage: real)
    requires 0 <= days && 0.0 <= coverage <= 100.0
    ensures ConfidenceFrom(days, coverage)
         == Round2(0.25 + 0.015 * (if days < 30 then days else 30) as real + 0.002 * coverage)
  {
  }

  // ---- the ladder -------------------------------------------------------------------------

  datatype Category = InsufficientData | MonitorLonger | HADRConstraint | InsufficientHeadroom | NoChange
    | OptimizeWorkload | LikelyRightsizing | PossibleRightsizing

  /** The figures of one host that the ladder looks at. */
  datatype Facts = Facts(
    vcpu: int, ramGB: real, days: int, coverage: real, cpu: Summary, cpuPeak: Summary, steal: real,
    minutesOver85: nat, mem: Summary, memP95GB: real, pressured: bool, paging: bool, patterned: bool)

  datatype Decision = Decision(category: Category, suggested: Option<CapacityRange>, confidence: real)

  function SuggestFor(f: Facts): Option<CapacityRange> {
    SuggestCapacity(f.vcpu, f.ramGB, f.cpu.p95, f.cpuPeak.p99, f.memP95GB)
  }

  /** dominatedByRecurringSpikes. */
  predicate Dominated(f: Facts) {
    f.patterned && f.cpu.p50 < 35.0 && (f.cpuPeak.max >= 85.0 || f.cpu.p99 >= 60.0)
  }

  predicate CpuHigh(f: Facts) { f.cpu.p95 >= 75.0 || f.minutesOver85 > 30 }

  predicate MemHigh(f: Facts) { f.mem.p95 >= 80.0 || f.pressured }

  /** The ladder, given the confidence and the range for the host; the order of the cases matters. */
  function Climb(f: Facts, role: string, conf: real, range: Option<CapacityRange>): Decision {
    if f.days < 3 || f.coverage < 50.0 then Decision(InsufficientData, None, conf)
    else if f.days < 7 then Decision(MonitorLonger, None, conf)
    else if role == "SECONDARY" then Decision(HADRConstraint, None, conf)
    else if MemHigh(f) then Decision(if f.mem.p95 >= 90.0 then InsufficientHeadroom else NoChange, None, conf)
    else if Dominated(f) then Decision(OptimizeWorkload, range, conf)
    else if CpuHigh(f) then Decision(NoChange, None, conf)
    else if f.cpu.p95 < 40.0 && f.mem.p95 < 60.0 && !f.paging then Decision(LikelyRightsizing, range, conf)
    else if f.cpu.p95 < 55.0 && f.mem.p95 < 75.0 then Decision(PossibleRightsizing, range, MaxReal(0.2, conf - 0.15))
    else Decision(NoChange, None, conf)
  }

  /** The ladder, then the downgrade for CPU steal. */
  function DecideWith(f: Facts, role: string, conf: real, range: Option<CapacityRange>): Decision {
    var d := Climb(f, role, conf, range);
    if f.steal > 5.0 && d.category == LikelyRightsizing then d.(category := PossibleRightsizing) else d
  }

  /** classifyHost. */
  function Decide(f: Facts, role: string): Decision {
    DecideWith(f, role, ConfidenceFrom(f.days, f.coverage), SuggestFor(f))
  }

  /** Enough clean data, and not a secondary replica. */
  predicate Ready(f: Facts, role: string) { f.days >= 7 && f.coverage >= 50.0 && role != "SECONDARY" }

  /** Which category a host gets: each of the eight exactly under its own conditions. */
  lemma CategoryExactly(f: Facts, role: string)
    ensures var c := Decide(f, role).category;
            var dominated := f.patterned && f.cpu.p50 < 35.0 && (f.cpuPeak.max >= 85.0 || f.cpu.p99 >= 60.0);
            var memLow := f.mem.p95 < 80.0 && !f.pressured;
            var cpuLow := f.cpu.p95 < 75.0 && f.minutesOver85 <= 30;
            var likely := f.cpu.p95 < 40.0 && f.mem.p95 < 60.0 && !f.paging;
            var possible := f.cpu.p95 < 55.0 && f.mem.p95 < 75.0;
            && (c == InsufficientData <==> f.days < 3 || f.coverage < 50.0)
            && (c == MonitorLonger <==> 3 <= f.days < 7 && f.coverage >= 50.0)
            && (c == HADRConstraint <==> f.days >= 7 && f.coverage >= 50.0 && role == "SECONDARY")
            && (c == InsufficientHeadroom <==> Ready(f, role) && f.mem.p95 >= 90.0)
            && (c == OptimizeWorkload <==> Ready(f, role) && memLow && dominated)
            && (c == LikelyRightsizing <==>
                  Ready(f, role) && memLow && !dominated && cpuLow && likely && f.steal <= 5.0)
            && (c == PossibleRightsizing <==>
                  Ready(f, role) && memLow && !dominated && cpuLow && (if likely then f.steal > 5.0 else possible))
            && (c == NoChange <==>
                  Ready(f, role) && f.mem.p95 < 90.0 && (memLow ==> !dominated && (cpuLow ==> !likely && !possible)))
  {
  }

  /** What goes with the category: the range for the three that suggest one; and the confidence of the days
      and the coverage, less 0.15 but never below 0.2 for a host that the ladder itself finds possible. */
  lemma DecisionFigures(f: Facts, role: string)
    ensures var d, conf := Decide(f, role), ConfidenceFrom(f.days, f.coverage);
            && d.suggested == (if d.category in {OptimizeWorkload, LikelyRightsizing, PossibleRightsizing} then SuggestFor(f) else None)
            && d.confidence == if d.category == PossibleRightsizing && !(f.cpu.p95 < 40.0 && f.mem.p95 < 60.0 && !f.paging)
                               then (if conf - 0.15 < 0.2 then 0.2 else conf - 0.15) else conf
  {
  }

  /** Exactly when a host gets a suggestion: enough clean data, not a secondary replica, memory
      well below the limits, CPU either low or explained by recurring spikes, and a smaller size
      that carries the load. */
  lemma SuggestedExactlyWhen(f: Facts, role: string)
    ensures Decide(f, role).suggested.Some? <==>
              && f.days >= 7 && f.coverage >= 50.0 && role != "SECONDARY"
              && f.mem.p95 < 80.0 && !f.pressured
              && (Dominated(f) || (f.minutesOver85 <= 30 && f.cpu.p95 < 55.0 && f.mem.p95 < 75.0))
              && f.ramGB != 0.0
              && exists size :: MIN_VCPU <= size < f.vcpu && Fits(f.vcpu, f.cpu.p95, f.cpuPeak.p99, size)
  {
    CapacityIsLeast(f.vcpu, f.ramGB, f.cpu.p95, f.cpuPeak.p99, f.memP95GB);
  }

  /** Steal changes nothing but the name of a likely candidate: its range and its confidence stay,
      so it keeps more confidence than a possible candidate of the same age and coverage has. */
  lemma StealKeepsConfidence(f: Facts, g: Facts, role: string)
    requires Decide(f.(steal := 0.0), role).category == LikelyRightsizing && f.steal > 5.0
    requires g.days == f.days && g.coverage == f.coverage <= 100.0
    requires Decide(g.(steal := 0.0), role).category == PossibleRightsizing
    ensures Decide(f, role) == Decide(f.(steal := 0.0), role).(category := PossibleRightsizing)
    ensures Decide(f, role).confidence == Decide(g, role).confidence + 0.15
  {
    EnoughForLikely(f.days, f.coverage);
  }

  lemma EnoughForLikely(days: int, coverage: real)
    requires days >= 7 && 50.0 <= coverage <= 100.0
    ensures ConfidenceFrom(days, coverage) >= 0.35
  {
    ConfidenceMonotone(7, 50.0, days, coverage);
    assert 0.25 + 0.45 * (7.0 / 30.0) + 0.2 * (50.0 / 100.0) == 0.455;
    assert Round2(0.455) == 0.46;
  }
}
