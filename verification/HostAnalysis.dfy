/** One host's report (analyzeHost, classifyHost, localHARole in internal/analyzer/recommend.go). */
module HostAnalysis {
  import opened Common
  import opened Summaries
  import opened Sustained
  import opened Capacity
  import Recurrence
  import Totals
  import Patterns
  import PatternDetection

  /** The part of a minute aggregate that the decision rests on. */
  datatype Minute = Minute(
    ts: Time, cpuAvg: real, cpuMax: real, steal: real, memPct: real, memUsedBytes: nat,
    majorFaultPS: real, pageOutPS: real, psi: Option<Psi>)

  datatype Psi = Psi(memSome: real, memFull: real, ioSome: real)

  datatype Inventory = Inventory(vcpu: int, ramBytes: nat)

  /** `sqlInstances` holds, in the order in which the map of instances was iterated, the roles of
      each instance's availability groups. */
  datatype HostData = HostData(
    inventory: Option<Inventory>, minutes: seq<Minute>, spikes: seq<Recurrence.SpikeEvent>, sqlInstances: seq<seq<string>>)

  datatype Evidence = Paging | MemoryPsi(someAvg: real) | IoPsi(someAvg: real)

  const GIB: real := 1073741824.0
  const GAP_TOLERANCE: int := 3 * MINUTE

  /** What normalize leaves behind. */
  ghost predicate InOrder(minutes: seq<Minute>) {
    forall i, j :: 0 <= i < j < |minutes| ==> minutes[i].ts < minutes[j].ts
  }

  // ---- the role of the host in its availability groups ------------------------------------

  /** The first PRIMARY or SECONDARY among the groups of one instance. */
  function RoleOf(roles: seq<string>): (r: string)
    ensures r in {"", "PRIMARY", "SECONDARY"}
  {
    if roles == [] then ""
    else if roles[0] == "SECONDARY" || roles[0] == "PRIMARY" then roles[0]
    else RoleOf(roles[1..])
  }

  function RoleIn(instances: seq<seq<string>>): (r: string)
    ensures r in {"", "PRIMARY", "SECONDARY"}
  {
    if instances == [] then ""
    else if RoleOf(instances[0]) != "" then RoleOf(instances[0])
    else RoleIn(instances[1..])
  }

  /** localHARole. */
  method LocalHARole(instances: seq<seq<string>>) returns (role: string)
    ensures role == RoleIn(instances)
  {
    for i := 0 to |instances|
      invariant RoleIn(instances) == RoleIn(instances[i..])
    {
      var roles := instances[i];
      for k := 0 to |roles|
        invariant RoleOf(roles) == RoleOf(roles[k..])
      {
        assert roles[k..][1..] == roles[k + 1..];
        if roles[k] == "SECONDARY" {
          return "SECONDARY";
        }
        if roles[k] == "PRIMARY" {
          return "PRIMARY";
        }
      }
      assert instances[i..][1..] == instances[i + 1..];
    }
    return "";
  }

  lemma {:induction false} RoleComesFrom(instances: seq<seq<string>>)
    ensures RoleIn(instances) != "" ==> exists r :: r in instances && RoleOf(r) == RoleIn(instances)
    ensures RoleIn(instances) == "" <==> forall r :: r in instances ==> RoleOf(r) == ""
  {
    if instances != [] {
      assert instances[0] in instances;
      assert forall r :: r in instances <==> r == instances[0] || r in instances[1..];
      RoleComesFrom(instances[1..]);
    }
  }

  ghost predicate OneRole(instances: seq<seq<string>>) {
    forall a, b :: a in instances && b in instances && RoleOf(a) != "" && RoleOf(b) != "" ==> RoleOf(a) == RoleOf(b)
  }

  lemma SameMembers<T>(s: seq<T>, t: seq<T>)
    requires multiset(s) == multiset(t)
    ensures forall x :: x in s <==> x in t
  {
    forall x ensures x in s <==> x in t {
      assert x in s <==> x in multiset(s);
      assert x in t <==> x in multiset(t);
    }
  }

  lemma ToFront(instances: seq<seq<string>>, a: seq<string>) returns (order: seq<seq<string>>)
    requires a in instances
    ensures multiset(order) == multiset(instances) && order != [] && order[0] == a
  {
    var i :| 0 <= i < |instances| && instances[i] == a;
    order := [a] + (instances[..i] + instances[i + 1..]);
    Totals.ElementsWithout(instances, i);
  }

  /** The role found does not depend on the order of the map exactly when no instance is first of
      all primary and another first of all secondary. */
  lemma RoleIsOrderFree(instances: seq<seq<string>>)
    ensures OneRole(instances)
       <==> forall order :: multiset(order) == multiset(instances) ==> RoleIn(order) == RoleIn(instances)
  {
    if OneRole(instances) {
      forall order | multiset(order) == multiset(instances) ensures RoleIn(order) == RoleIn(instances) {
        SameMembers(order, instances);
        RoleComesFrom(order);
        RoleComesFrom(instances);
      }
    } else {
      var a, b :| a in instances && b in instances && RoleOf(a) != "" && RoleOf(b) != "" && RoleOf(a) != RoleOf(b);
      var p := ToFront(instances, a);
      var q := ToFront(instances, b);
      assert RoleIn(p) != RoleIn(q);
    }
  }

  // ---- the series -------------------------------------------------------------------------

  function Column(minutes: seq<Minute>, f: Minute -> real): (c: seq<real>)
    ensures |c| == |minutes| && forall i :: 0 <= i < |c| ==> c[i] == f(minutes[i])
  {
    seq(|minutes|, i requires 0 <= i < |minutes| => f(minutes[i]))
  }

  const CPU_AVG: Minute -> real := (m: Minute) => m.cpuAvg
  const CPU_MAX: Minute -> real := (m: Minute) => m.cpuMax
  const STEAL: Minute -> real := (m: Minute) => m.steal
  const MEM_PCT: Minute -> real := (m: Minute) => m.memPct
  const MEM_BYTES: Minute -> real := (m: Minute) => m.memUsedBytes as real

  function Timed(minutes: seq<Minute>): (t: seq<TimedValue>)
    ensures |t| == |minutes| && forall i :: 0 <= i < |t| ==> t[i] == TimedValue(minutes[i].ts, minutes[i].cpuAvg)
  {
    seq(|minutes|, i requires 0 <= i < |minutes| => TimedValue(minutes[i].ts, minutes[i].cpuAvg))
  }

  predicate Pages(m: Minute) { m.majorFaultPS > 100.0 || m.pageOutPS > 500.0 }

  predicate MemoryStalls(m: Minute) { m.psi.Some? && (m.psi.value.memSome > 5.0 || m.psi.value.memFull > 1.0) }

  predicate IoStalls(m: Minute) { m.psi.Some? && m.psi.value.ioSome > 10.0 }

  /** No paging or pressure limit is exceeded in the minute. */
  predicate Calm(m: Minute) { !Pages(m) && !MemoryStalls(m) && !IoStalls(m) }

  ghost predicate AllCalm(minutes: seq<Minute>) { forall m :: m in minutes ==> Calm(m) }

  ghost predicate SomePages(minutes: seq<Minute>) { exists m :: m in minutes && Pages(m) }

  /** What one minute gives evidence of. */
  function EvidenceIn(m: Minute): set<Evidence> {
    (if Pages(m) then {Paging} else {})
    + (if MemoryStalls(m) then {MemoryPsi(m.psi.value.memSome)} else {})
    + (if IoStalls(m) then {IoPsi(m.psi.value.ioSome)} else {})
  }

  function EvidenceTo(minutes: seq<Minute>, k: nat): set<Evidence>
    requires k <= |minutes|
  {
    if k == 0 then {} else EvidenceTo(minutes, k - 1) + EvidenceIn(minutes[k - 1])
  }

  lemma CalmShowsNothing(m: Minute)
    ensures EvidenceIn(m) == {} <==> Calm(m)
  {
    if Pages(m) { assert Paging in EvidenceIn(m); }
    if MemoryStalls(m) { assert MemoryPsi(m.psi.value.memSome) in EvidenceIn(m); }
    if IoStalls(m) { assert IoPsi(m.psi.value.ioSome) in EvidenceIn(m); }
  }

  lemma {:induction false} EvidenceIs(minutes: seq<Minute>, k: nat)
    requires k <= |minutes|
    ensures forall ev :: ev in EvidenceTo(minutes, k) <==> exists i :: 0 <= i < k && ev in EvidenceIn(minutes[i])
    ensures EvidenceTo(minutes, k) == {} <==> forall i :: 0 <= i < k ==> Calm(minutes[i])
  {
    if k > 0 {
      EvidenceIs(minutes, k - 1);
      CalmShowsNothing(minutes[k - 1]);
    }
  }

  /** Exactly the evidence of all minutes. */
  ghost predicate IsEvidence(minutes: seq<Minute>, pressure: set<Evidence>) {
    forall ev :: ev in pressure <==> exists i :: 0 <= i < |minutes| && ev in EvidenceIn(minutes[i])
  }

  /** The pressure loop of analyzeHost. */
  method FindPressure(minutes: seq<Minute>) returns (pressure: set<Evidence>, paging: bool)
    ensures IsEvidence(minutes, pressure)
    ensures pressure == {} <==> AllCalm(minutes)
    ensures paging <==> SomePages(minutes)
  {
    pressure, paging := {}, false;
    for i := 0 to |minutes|
      invariant pressure == EvidenceTo(minutes, i)
      invariant paging <==> exists k :: 0 <= k < i && Pages(minutes[k])
    {
      var m := minutes[i];
      if m.majorFaultPS > 100.0 || m.pageOutPS > 500.0 {
        paging := true;
        pressure := pressure + {Paging};
      }
      if m.psi.Some? {
        if m.psi.value.memSome > 5.0 || m.psi.value.memFull > 1.0 {
          pressure := pressure + {MemoryPsi(m.psi.value.memSome)};
        }
        if m.psi.value.ioSome > 10.0 {
          pressure := pressure + {IoPsi(m.psi.value.ioSome)};
        }
      }
    }
    EvidenceIs(minutes, |minutes|);
  }

  // ---- observation time -------------------------------------------------------------------

  function ObservedDays(first: Time, last: Time): int { TruncDiv(last - first, DAY) + 1 }

  function Coverage(n: nat, first: Time, last: Time): real
    requires first <= last
  {
    var expected := (last - first) as real / MINUTE as real + 1.0;
    Round1(MinReal(100.0, n as real / expected * 100.0))
  }

  /** Seven days at 50% coverage are at least 4317 minutes of telemetry. */
  lemma EnoughMinutes(n: nat, first: Time, last: Time)
    requires first <= last && ObservedDays(first, last) >= 7 && Coverage(n, first, last) >= 50.0
    ensures n >= 4317
  {
    var span := last - first;
    assert span >= 6 * DAY;
    var expected := span as real / MINUTE as real + 1.0;
    assert expected >= 8641.0;
    var ratio := n as real / expected;
    assert n as real == ratio * expected;
    assert MinReal(100.0, ratio * 100.0) >= 49.95;
    assert ratio >= 0.4995;
    AtLeast(ratio, expected, 0.4995, 8641.0);
  }

  lemma AtLeast(a: real, b: real, x: real, y: real)
    requires a >= x >= 0.0 && b >= y >= 0.0
    ensures a * b >= x * y
  {
    assert a * b >= x * b;
    assert x * b >= x * y;
  }

  // ---- the report of one host -------------------------------------------------------------

  function Vcpu(h: HostData): int { if h.inventory.Some? then h.inventory.value.vcpu else 0 }

  function RamGB(h: HostData): real {
    if h.inventory.Some? then Round1(h.inventory.value.ramBytes as real / GIB) else 0.0
  }

  /** The figures that the minutes of a host amount to. */
  datatype Usage = Usage(
    days: int, coverage: real, cpu: Summary, cpuPeak: Summary, steal: real, minutesOver85: nat, mem: Summary,
    memP95GB: real, pressured: bool, paging: bool)

  ghost function UsageOf(ms: seq<Minute>): Usage {
    if ms == [] || !InOrder(ms) then Usage(0, 0.0, EMPTY_SUMMARY, EMPTY_SUMMARY, 0.0, 0, EMPTY_SUMMARY, 0.0, false, false)
    else
      var first, last := ms[0].ts, ms[|ms| - 1].ts;
      Usage(ObservedDays(first, last), Coverage(|ms|, first, last),
            SummaryOf(Column(ms, CPU_AVG)), SummaryOf(Column(ms, CPU_MAX)), SummaryOf(Column(ms, STEAL)).p95,
            CountAbove(Timed(ms), CPU_SUSTAINED_LIMIT, |ms|), SummaryOf(Column(ms, MEM_PCT)),
            Round1(SummaryOf(Column(ms, MEM_BYTES)).p95 / GIB),
            !AllCalm(ms), SomePages(ms))
  }

  function FactsFrom(vcpu: int, ramGB: real, u: Usage, patterned: bool): Facts {
    Facts(vcpu, ramGB, u.days, u.coverage, u.cpu, u.cpuPeak, u.steal, u.minutesOver85, u.mem, u.memP95GB,
          u.pressured, u.paging, patterned)
  }

  ghost function FactsOf(h: HostData, patterned: bool): Facts {
    FactsFrom(Vcpu(h), RamGB(h), UsageOf(h.minutes), patterned)
  }

  /** What Build copies of a host's report. */
  datatype Row = Row(vcpu: int, ramGB: real, spikes: nat, category: Category, suggested: Option<CapacityRange>, confidence: real)

  class HostReport {
    var vcpu: int
    var ramGB: real
    var observedDays: int
    var coverage: real
    var cpu: Summary
    var cpuPeak: Summary
    var cpuSteal: real
    var sustained: SustainedRun
    var minutesOver70: nat
    var minutesOver85: nat
    var mem: Summary
    var memUsedP95GB: real
    var memPressure: set<Evidence>
    var paging: bool
    var spikeCount: nat
    var patterns: seq<Patterns.Pattern>
    var category: Category
    var suggested: Option<CapacityRange>
    var confidence: real

    constructor (vcpu: int, ramGB: real)
      ensures this.vcpu == vcpu && this.ramGB == ramGB && spikeCount == 0
      ensures category == InsufficientData && suggested == None && confidence == 0.0
    {
      this.vcpu, this.ramGB := vcpu, ramGB;
      observedDays, coverage := 0, 0.0;
      cpu, cpuPeak, cpuSteal, mem := EMPTY_SUMMARY, EMPTY_SUMMARY, 0.0, EMPTY_SUMMARY;
      sustained, minutesOver70, minutesOver85 := NO_RUN, 0, 0;
      memUsedP95GB, memPressure, paging := 0.0, {}, false;
      spikeCount, patterns := 0, [];
      category, suggested, confidence := InsufficientData, None, 0.0;
    }

    function Known(): Facts
      reads this
    {
      Facts(vcpu, ramGB, observedDays, coverage, cpu, cpuPeak, cpuSteal, minutesOver85, mem, memUsedP95GB,
            memPressure != {}, paging, patterns != [])
    }

    function Decided(): Decision
      reads this
    {
      Decision(category, suggested, confidence)
    }

    function Copy(): Row
      reads this
    {
      Row(vcpu, ramGB, spikeCount, category, suggested, confidence)
    }

    /** The figures of the telemetry go into the report. */
    method Fill(u: Usage, run: SustainedRun, over70: nat, pressure: set<Evidence>)
      requires u.pressured <==> pressure != {}
      modifies this`observedDays, this`coverage, this`cpu, this`cpuPeak, this`cpuSteal, this`sustained, this`minutesOver70,
               this`minutesOver85, this`mem, this`memUsedP95GB, this`memPressure, this`paging
      ensures Known() == FactsFrom(vcpu, ramGB, u, patterns != []) && sustained == run && minutesOver70 == over70
      ensures observedDays == u.days && memPressure == pressure
    {
      FillCpu(u);
      mem, memUsedP95GB := u.mem, u.memP95GB;
      memPressure, paging := pressure, u.paging;
      sustained, minutesOver70 := run, over70;
    }

    method FillCpu(u: Usage)
      modifies this`observedDays, this`coverage, this`cpu, this`cpuPeak, this`cpuSteal, this`minutesOver85
      ensures observedDays == u.days && coverage == u.coverage && cpu == u.cpu && cpuPeak == u.cpuPeak
      ensures cpuSteal == u.steal && minutesOver85 == u.minutesOver85
    {
      observedDays, coverage := u.days, u.coverage;
      cpu, cpuPeak, cpuSteal, minutesOver85 := u.cpu, u.cpuPeak, u.steal, u.minutesOver85;
    }

    method SetPatterns(spikes: nat, found: seq<Patterns.Pattern>)
      modifies this`spikeCount, this`patterns
      ensures spikeCount == spikes && patterns == found
      ensures Known() == old(Known()).(patterned := found != [])
    {
      spikeCount, patterns := spikes, found;
    }

    /** classifyHost.  suggestCapacity only computes, so it is called before the ladder. */
    method Classify(instances: seq<seq<string>>)
      modifies this`category, this`suggested, this`confidence
      ensures Known() == old(Known()) && Decided() == Decide(old(Known()), RoleIn(instances))
    {
      var role := LocalHARole(instances);
      ClassifyAs(role, ConfidenceFrom(observedDays, coverage),
                 SuggestCapacity(vcpu, ramGB, cpu.p95, cpuPeak.p99, memUsedP95GB));
    }

    method ClassifyAs(role: string, conf: real, range: Option<CapacityRange>)
      modifies this`category, this`suggested, this`confidence
      ensures Decided() == DecideWith(Known(), role, conf, range)
    {
      ClimbLadder(role, conf, range);
      if cpuSteal > 5.0 {
        if category == LikelyRightsizing {
          category := PossibleRightsizing;
        }
      }
    }

    method ClimbLadder(role: string, conf: real, range: Option<CapacityRange>)
      modifies this`category, this`suggested, this`confidence
      ensures Decided() == Climb(Known(), role, conf, range)
    {
      confidence := conf;
      suggested := None;
      var memHigh := mem.p95 >= 80.0 || memPressure != {};
      var cpuHigh := cpu.p95 >= 75.0 || minutesOver85 > 30;
      var dominated := patterns != [] && cpu.p50 < 35.0 && (cpuPeak.max >= 85.0 || cpu.p99 >= 60.0);
      if observedDays < 3 || coverage < 50.0 {
        category := InsufficientData;
      } else if observedDays < 7 {
        category := MonitorLonger;
      } else if role == "SECONDARY" {
        category := HADRConstraint;
      } else if memHigh {
        if mem.p95 >= 90.0 {
          category := InsufficientHeadroom;
        } else {
          category := NoChange;
        }
      } else if dominated {
        category := OptimizeWorkload;
        suggested := range;
      } else if cpuHigh {
        category := NoChange;
      } else if cpu.p95 < 40.0 && mem.p95 < 60.0 && !paging {
        category := LikelyRightsizing;
        suggested := range;
      } else if cpu.p95 < 55.0 && mem.p95 < 75.0 {
        category := PossibleRightsizing;
        suggested := range;
        confidence := MaxReal(0.2, conf - 0.15);
      } else {
        category := NoChange;
      }
    }
  }

  /** The longest sustained run and the minutes over the two CPU limits. */
  ghost predicate SustainedIs(minutes: seq<Minute>, run: SustainedRun, over70: nat) {
    && over70 == CountAbove(Timed(minutes), CPU_TARGET_PEAK, |minutes|)
    && exists best :: Best(Timed(minutes), CPU_TARGET_PEAK, GAP_TOLERANCE, |minutes|, best) && run == Describe(Timed(minutes), best)
  }

  /** The loops of analyzeHost over the minutes. */
  method Measure(minutes: seq<Minute>)
    returns (u: Usage, sustained: SustainedRun, over70: nat, pressure: set<Evidence>)
    requires InOrder(minutes) && minutes != []
    ensures u == UsageOf(minutes) && SustainedIs(minutes, sustained, over70)
    ensures (u.pressured <==> pressure != {}) && IsEvidence(minutes, pressure)
  {
    ghost var best70, best85;
    sustained, over70, best70 := Sustained.Sustained(Timed(minutes), CPU_TARGET_PEAK, GAP_TOLERANCE);
    var longest85, over85;
    longest85, over85, best85 := Sustained.Sustained(Timed(minutes), CPU_SUSTAINED_LIMIT, GAP_TOLERANCE);
    var paging;
    pressure, paging := FindPressure(minutes);
    u := Percentiles(minutes, over85, pressure != {}, paging);
  }

  method Percentiles(minutes: seq<Minute>, over85: nat, pressured: bool, paging: bool) returns (u: Usage)
    requires InOrder(minutes) && minutes != []
    ensures u == UsageOf(minutes).(minutesOver85 := over85, pressured := pressured, paging := paging)
  {
    var first, last := minutes[0].ts, minutes[|minutes| - 1].ts;
    var cpu := Summarize(Column(minutes, CPU_AVG));
    var cpuPeak := Summarize(Column(minutes, CPU_MAX));
    var steal := Summarize(Column(minutes, STEAL));
    var mem := Summarize(Column(minutes, MEM_PCT));
    var bytes := Summarize(Column(minutes, MEM_BYTES));
    u := Usage(ObservedDays(first, last), Coverage(|minutes|, first, last), cpu, cpuPeak, steal.p95, over85,
               mem, Round1(bytes.p95 / GIB), pressured, paging);
  }

  /** A report with the given figures. */
  method Filled(h: HostData, u: Usage, sustained: SustainedRun, over70: nat, pressure: set<Evidence>) returns (r: HostReport)
    requires u.pressured <==> pressure != {}
    ensures fresh(r) && r.sustained == sustained && r.minutesOver70 == over70 && r.memPressure == pressure
    ensures r.Known() == FactsFrom(Vcpu(h), RamGB(h), u, r.patterns != [])
  {
    r := new HostReport(Vcpu(h), RamGB(h));
    r.Fill(u, sustained, over70, pressure);
  }

  /** analyzeHost from the search for patterns on. */
  method FindPatterns(r: HostReport, h: HostData) returns (ghost report: seq<PatternDetection.Series>)
    modifies r`spikeCount, r`patterns
    ensures PatternDetection.Finds(h.spikes, r.observedDays, r.patterns, report) && r.spikeCount == |h.spikes|
    ensures r.Known() == old(r.Known()).(patterned := r.patterns != [])
  {
    var patterns;
    patterns, report := PatternDetection.DetectPatterns(h.spikes, r.observedDays);
    r.SetPatterns(|h.spikes|, patterns);
  }

  /** analyzeHost between the loops over the minutes and the ladder, for any figures. */
  method Prepared(h: HostData, u: Usage, sustained: SustainedRun, over70: nat, pressure: set<Evidence>)
    returns (r: HostReport, ghost report: seq<PatternDetection.Series>)
    requires u.pressured <==> pressure != {}
    ensures fresh(r) && r.sustained == sustained && r.minutesOver70 == over70 && r.memPressure == pressure
    ensures PatternDetection.Finds(h.spikes, r.observedDays, r.patterns, report) && r.spikeCount == |h.spikes|
    ensures r.Known() == FactsFrom(Vcpu(h), RamGB(h), u, r.patterns != [])
  {
    r := Filled(h, u, sustained, over70, pressure);
    report := FindPatterns(r, h);
  }

  /** analyzeHost. */
  method AnalyzeHost(h: HostData) returns (r: HostReport, ghost report: seq<PatternDetection.Series>)
    requires InOrder(h.minutes)
    ensures fresh(r)
    ensures h.minutes == [] ==> r.Copy() == Row(Vcpu(h), RamGB(h), 0, InsufficientData, None, 0.0)
    ensures h.minutes != [] ==>
              && PatternDetection.Finds(h.spikes, r.observedDays, r.patterns, report) && r.spikeCount == |h.spikes|
              && SustainedIs(h.minutes, r.sustained, r.minutesOver70) && IsEvidence(h.minutes, r.memPressure)
              && r.Known() == FactsOf(h, r.patterns != [])
              && r.Decided() == Decide(r.Known(), RoleIn(h.sqlInstances))
  {
    report := [];
    if |h.minutes| == 0 {
      r := new HostReport(Vcpu(h), RamGB(h));
      r.category := InsufficientData;
      return;
    }
    var u, sustained, over70, pressure := Measure(h.minutes);
    r, report := Prepared(h, u, sustained, over70, pressure);
    r.Classify(h.sqlInstances);
  }

  /** Whatever the host and its data: a suggestion rests on at least seven days and 4317 minutes of
      telemetry at 50% coverage, on memory below 80% in 95% of the time and no minute over any
      paging or pressure limit, and on a host that is not a secondary replica; and its vCPU range
      lies within the allocation and starts at the least size that carries the observed load. */
  lemma SuggestionIsSafe(h: HostData, patterned: bool, role: string)
    requires h.minutes != [] && InOrder(h.minutes)
    requires Decide(FactsOf(h, patterned), role).suggested.Some?
    ensures |h.minutes| >= 4317 && role != "SECONDARY"
    ensures forall m :: m in h.minutes ==>
              && m.majorFaultPS <= 100.0 && m.pageOutPS <= 500.0
              && (m.psi.Some? ==> m.psi.value.memSome <= 5.0 && m.psi.value.memFull <= 1.0 && m.psi.value.ioSome <= 10.0)
    ensures var f, c := FactsOf(h, patterned), Decide(FactsOf(h, patterned), role).suggested.value;
            && f.days >= 7 && f.coverage >= 50.0 && f.mem.p95 < 80.0
            && MIN_VCPU <= c.minVCPU < c.maxVCPU <= Vcpu(h)
            && Fits(Vcpu(h), f.cpu.p95, f.cpuPeak.p99, c.minVCPU)
            && (forall size :: MIN_VCPU <= size < c.minVCPU ==> !Fits(Vcpu(h), f.cpu.p95, f.cpuPeak.p99, size))
            && 0.0 <= c.minRAMGB && (c.minRAMGB > 0.0 ==> c.minRAMGB < RamGB(h))
  {
    var f := FactsOf(h, patterned);
    SafeFacts(f, role);
    EnoughMinutes(|h.minutes|, h.minutes[0].ts, h.minutes[|h.minutes| - 1].ts);
  }

  lemma SafeFacts(f: Facts, role: string)
    requires Decide(f, role).suggested.Some?
    ensures f.days >= 7 && f.coverage >= 50.0 && f.mem.p95 < 80.0 && !f.pressured && role != "SECONDARY"
    ensures var c := Decide(f, role).suggested.value;
            && MIN_VCPU <= c.minVCPU < c.maxVCPU <= f.vcpu
            && Fits(f.vcpu, f.cpu.p95, f.cpuPeak.p99, c.minVCPU)
            && (forall size :: MIN_VCPU <= size < c.minVCPU ==> !Fits(f.vcpu, f.cpu.p95, f.cpuPeak.p99, size))
            && 0.0 <= c.minRAMGB && (c.minRAMGB > 0.0 ==> c.minRAMGB < f.ramGB)
  {
    SuggestedExactlyWhen(f, role);
    CapacityIsLeast(f.vcpu, f.ramGB, f.cpu.p95, f.cpuPeak.p99, f.memP95GB);
    RamIsLeast(f.vcpu, f.ramGB, f.cpu.p95, f.cpuPeak.p99, f.memP95GB);
  }
}
