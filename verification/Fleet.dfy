/** Fleet totals (Build in internal/analyzer/analyzer.go). */
module Fleet {
  import opened Common
  import opened Capacity
  import opened HostAnalysis
  import T = Totals

  datatype FleetSummary = FleetSummary(
    hosts: nat, totalVCPU: int, totalRAMGB: real, spikeEvents: nat, categories: map<Category, nat>,
    potentialVCPU: int, potentialRAMGB: real)

  /** What one host adds to the indicated reduction. */
  function VcpuSaving(r: Row): int {
    if r.suggested.Some? && r.suggested.value.minVCPU > 0 && r.suggested.value.minVCPU < r.vcpu
    then r.vcpu - r.suggested.value.maxVCPU else 0
  }

  function RamSaving(r: Row): real {
    if r.suggested.Some? && r.suggested.value.minRAMGB > 0.0 && r.suggested.value.maxRAMGB < r.ramGB
    then r.ramGB - r.suggested.value.maxRAMGB else 0.0
  }

  function Total(rows: seq<Row>, f: Row -> int): int {
    if rows == [] then 0 else Total(rows[..|rows| - 1], f) + f(rows[|rows| - 1])
  }

  function TotalReal(rows: seq<Row>, f: Row -> real): real {
    if rows == [] then 0.0 else TotalReal(rows[..|rows| - 1], f) + f(rows[|rows| - 1])
  }

  const VCPU: Row -> int := (r: Row) => r.vcpu
  const RAM: Row -> real := (r: Row) => r.ramGB
  const SPIKES: Row -> int := (r: Row) => r.spikes
  const VCPU_SAVING: Row -> int := (r: Row) => VcpuSaving(r)
  const RAM_SAVING: Row -> real := (r: Row) => RamSaving(r)
  const SUGGESTED: Row -> int := (r: Row) => if r.suggested.Some? then 1 else 0
  const POSITIVE_VCPU: Row -> int := (r: Row) => if r.vcpu > 0 then r.vcpu else 0

  function InCategory(c: Category): Row -> int {
    (r: Row) => if r.category == c then 1 else 0
  }

  function Lookup(m: map<Category, nat>, c: Category): nat { if c in m then m[c] else 0 }

  /** Row `r` is what analyzeHost makes of host `h`. */
  ghost predicate Analyzed(h: HostData, r: Row) {
    && (h.minutes == [] ==> r == Row(Vcpu(h), RamGB(h), 0, InsufficientData, None, 0.0))
    && (h.minutes != [] ==> r.vcpu == Vcpu(h) && r.ramGB == RamGB(h) && r.spikes == |h.spikes|
                            && exists patterned :: DecidedAs(h, patterned, r))
  }

  ghost predicate DecidedAs(h: HostData, patterned: bool, r: Row) {
    Decision(r.category, r.suggested, r.confidence) == Decide(FactsOf(h, patterned), RoleIn(h.sqlInstances))
  }

  ghost predicate Totals(fleet: FleetSummary, rows: seq<Row>) {
    && fleet.hosts == |rows|
    && fleet.totalVCPU == Total(rows, VCPU) && fleet.totalRAMGB == TotalReal(rows, RAM)
    && fleet.spikeEvents == Total(rows, SPIKES)
    && (forall c :: Lookup(fleet.categories, c) == Total(rows, InCategory(c)))
    && fleet.potentialVCPU == Total(rows, VCPU_SAVING) && fleet.potentialRAMGB == TotalReal(rows, RAM_SAVING)
  }

  lemma TotalSnoc(rows: seq<Row>, r: Row, f: Row -> int)
    ensures Total(rows + [r], f) == Total(rows, f) + f(r)
  {
    assert (rows + [r])[..|rows|] == rows;
  }

  lemma TotalRealSnoc(rows: seq<Row>, r: Row, f: Row -> real)
    ensures TotalReal(rows + [r], f) == TotalReal(rows, f) + f(r)
  {
    assert (rows + [r])[..|rows|] == rows;
  }

  /** What one host adds to the summary. */
  function Added(fleet: FleetSummary, r: Row): FleetSummary {
    FleetSummary(fleet.hosts + 1, fleet.totalVCPU + r.vcpu, fleet.totalRAMGB + r.ramGB, fleet.spikeEvents + r.spikes,
                 fleet.categories[r.category := Lookup(fleet.categories, r.category) + 1],
                 fleet.potentialVCPU + VcpuSaving(r), fleet.potentialRAMGB + RamSaving(r))
  }

  lemma AddedKeepsTotals(fleet: FleetSummary, rows: seq<Row>, r: Row)
    requires Totals(fleet, rows)
    ensures Totals(Added(fleet, r), rows + [r])
  {
    TotalSnoc(rows, r, VCPU);
    TotalSnoc(rows, r, SPIKES);
    TotalSnoc(rows, r, VCPU_SAVING);
    TotalRealSnoc(rows, r, RAM);
    TotalRealSnoc(rows, r, RAM_SAVING);
    forall c ensures Lookup(Added(fleet, r).categories, c) == Total(rows + [r], InCategory(c)) {
      TotalSnoc(rows, r, InCategory(c));
    }
  }

  ghost predicate Related<H, R>(hs: seq<H>, rs: seq<R>, relation: (H, R) -> bool) {
    |rs| <= |hs| && forall i :: 0 <= i < |rs| ==> relation(hs[i], rs[i])
  }

  lemma RelatedMore<H, R>(hs: seq<H>, rs: seq<R>, r: R, relation: (H, R) -> bool)
    requires Related(hs, rs, relation) && |rs| < |hs| && relation(hs[|rs|], r)
    ensures Related(hs, rs + [r], relation)
  {
  }

  ghost const ANALYZED: (HostData, Row) -> bool := (h: HostData, r: Row) => Analyzed(h, r)

  ghost predicate AllAnalyzed(hosts: seq<HostData>, rows: seq<Row>) { Related(hosts, rows, ANALYZED) }

  /** What the host loop does with one report: the totals stay those of the reports so far. */
  method AddTo(fleet0: FleetSummary, hr: Row, ghost rows: seq<Row>) returns (fleet: FleetSummary)
    requires Totals(fleet0, rows)
    ensures Totals(fleet, rows + [hr])
  {
    fleet := fleet0.(hosts := fleet0.hosts + 1, totalVCPU := fleet0.totalVCPU + hr.vcpu,
                     totalRAMGB := fleet0.totalRAMGB + hr.ramGB, spikeEvents := fleet0.spikeEvents + hr.spikes,
                     categories := fleet0.categories[hr.category := Lookup(fleet0.categories, hr.category) + 1]);
    if hr.suggested.Some? {
      if hr.suggested.value.minVCPU > 0 && hr.suggested.value.minVCPU < hr.vcpu {
        fleet := fleet.(potentialVCPU := fleet.potentialVCPU + (hr.vcpu - hr.suggested.value.maxVCPU));
      }
      if hr.suggested.value.minRAMGB > 0.0 && hr.suggested.value.maxRAMGB < hr.ramGB {
        fleet := fleet.(potentialRAMGB := fleet.potentialRAMGB + (hr.ramGB - hr.suggested.value.maxRAMGB));
      }
    }
    assert fleet == Added(fleet0, hr);
    AddedKeepsTotals(fleet0, rows, hr);
  }

  method AnalyzeRow(h: HostData) returns (r: Row)
    requires InOrder(h.minutes)
    ensures Analyzed(h, r)
  {
    var hr;
    ghost var report;
    hr, report := AnalyzeHost(h);
    r := hr.Copy();
    assert h.minutes != [] ==> DecidedAs(h, hr.patterns != [], r);
  }

  /** The report of the next host, in the order of the host ids. */
  method AnalyzeNext(hosts: seq<HostData>, rows: seq<Row>) returns (r: Row)
    requires |rows| < |hosts| && InOrder(hosts[|rows|].minutes) && AllAnalyzed(hosts, rows)
    ensures AllAnalyzed(hosts, rows + [r])
  {
    r := AnalyzeRow(hosts[|rows|]);
    RelatedMore(hosts, rows, r, ANALYZED);
  }

  /** The host loop of Build. */
  method Build(hosts: seq<HostData>) returns (fleet: FleetSummary, rows: seq<Row>)
    requires forall h :: h in hosts ==> InOrder(h.minutes)
    ensures |rows| == |hosts| && AllAnalyzed(hosts, rows) && Totals(fleet, rows)
  {
    fleet, rows := FleetSummary(0, 0, 0.0, 0, map[], 0, 0.0), [];
    for i := 0 to |hosts|
      invariant |rows| == i && AllAnalyzed(hosts, rows) && Totals(fleet, rows)
    {
      var hr := AnalyzeNext(hosts, rows);
      fleet := AddTo(fleet, hr, rows);
      rows := rows + [hr];
    }
  }

  lemma {:induction false} TotalIsSum(rows: seq<Row>, f: Row -> int)
    ensures Total(rows, f) as real == T.Total(rows, (r: Row) => f(r) as real)
  {
    if rows != [] {
      TotalIsSum(rows[..|rows| - 1], f);
      assert rows == rows[..|rows| - 1] + [rows[|rows| - 1]];
      T.TotalSnoc(rows[..|rows| - 1], rows[|rows| - 1], (r: Row) => f(r) as real);
    }
  }

  lemma {:induction false} TotalRealIsSum(rows: seq<Row>, f: Row -> real)
    ensures TotalReal(rows, f) == T.Total(rows, f)
  {
    if rows != [] {
      TotalRealIsSum(rows[..|rows| - 1], f);
      assert rows == rows[..|rows| - 1] + [rows[|rows| - 1]];
      T.TotalSnoc(rows[..|rows| - 1], rows[|rows| - 1], f);
    }
  }

  /** The summary holds the plain sums over the reports. */
  lemma TotalsAreSums(fleet: FleetSummary, rows: seq<Row>)
    requires Totals(fleet, rows)
    ensures fleet.totalVCPU as real == T.Total(rows, (r: Row) => r.vcpu as real)
    ensures fleet.totalRAMGB == T.Total(rows, (r: Row) => r.ramGB)
    ensures fleet.spikeEvents as real == T.Total(rows, (r: Row) => r.spikes as real)
    ensures fleet.potentialVCPU as real == T.Total(rows, (r: Row) => VcpuSaving(r) as real)
    ensures fleet.potentialRAMGB == T.Total(rows, (r: Row) => RamSaving(r))
  {
    TotalIsSum(rows, VCPU);
    TotalIsSum(rows, SPIKES);
    TotalIsSum(rows, VCPU_SAVING);
    TotalRealIsSum(rows, RAM);
    TotalRealIsSum(rows, RAM_SAVING);
    SameSum(rows, (r: Row) => VCPU(r) as real, (r: Row) => r.vcpu as real);
    SameSum(rows, (r: Row) => SPIKES(r) as real, (r: Row) => r.spikes as real);
    SameSum(rows, (r: Row) => VCPU_SAVING(r) as real, (r: Row) => VcpuSaving(r) as real);
    SameSum(rows, RAM, (r: Row) => r.ramGB);
    SameSum(rows, RAM_SAVING, (r: Row) => RamSaving(r));
  }

  lemma {:induction false} SameSum(rows: seq<Row>, f: Row -> real, g: Row -> real)
    requires forall r :: f(r) == g(r)
    ensures T.Total(rows, f) == T.Total(rows, g)
  {
    if rows != [] { SameSum(rows[1..], f, g); }
  }

  // ---- what the totals say ----------------------------------------------------------------

  /** The saving of one host is part of its allocation; a host with a range keeps at least 3 vCPUs. */
  lemma SavingIsPart(h: HostData, r: Row)
    requires Analyzed(h, r)
    ensures 0 <= VcpuSaving(r) && VcpuSaving(r) + 3 * SUGGESTED(r) <= POSITIVE_VCPU(r)
    ensures 0.0 <= RamSaving(r) <= r.ramGB
  {
    if r.suggested.Some? {
      var patterned :| DecidedAs(h, patterned, r);
      SafeFacts(FactsOf(h, patterned), RoleIn(h.sqlInstances));
      SuggestedRam(FactsOf(h, patterned), RoleIn(h.sqlInstances));
    }
    RamIsPositive(h);
  }

  /** What a row adds to the indicated reductions: the vCPUs from the upper end of its range to the
      allocation, and likewise the RAM where a RAM range is given that ends within the allocation. */
  lemma SavingExactly(h: HostData, r: Row)
    requires Analyzed(h, r)
    ensures r.suggested.None? ==> VcpuSaving(r) == 0 && RamSaving(r) == 0.0
    ensures r.suggested.Some? ==>
              var c := r.suggested.value;
              && c.maxVCPU + VcpuSaving(r) == r.vcpu
              && (if c.minRAMGB != 0.0 && c.maxRAMGB <= r.ramGB then c.maxRAMGB + RamSaving(r) == r.ramGB else RamSaving(r) == 0.0)
  {
    if r.suggested.Some? {
      var patterned :| DecidedAs(h, patterned, r);
      SafeFacts(FactsOf(h, patterned), RoleIn(h.sqlInstances));
    }
  }

  lemma SuggestedRam(f: Facts, role: string)
    requires Decide(f, role).suggested.Some?
    ensures var c := Decide(f, role).suggested.value; c.minRAMGB > 0.0 ==> c.maxRAMGB > 0.0
  {
    RamIsLeast(f.vcpu, f.ramGB, f.cpu.p95, f.cpuPeak.p99, f.memP95GB);
  }

  lemma RamIsPositive(h: HostData)
    ensures RamGB(h) >= 0.0
  {
    if h.inventory.Some? {
      RoundMonotone(0.0, h.inventory.value.ramBytes as real / GIB * 10.0);
    }
  }

  lemma {:induction false} SavingsAddUp(hosts: seq<HostData>, rows: seq<Row>)
    requires |rows| == |hosts| && AllAnalyzed(hosts, rows)
    ensures 0 <= Total(rows, VCPU_SAVING) && Total(rows, VCPU_SAVING) + 3 * Total(rows, SUGGESTED) <= Total(rows, POSITIVE_VCPU)
    ensures 0.0 <= TotalReal(rows, RAM_SAVING) <= TotalReal(rows, RAM)
    ensures 0 <= Total(rows, SUGGESTED)
  {
    if rows != [] {
      var n := |rows| - 1;
      SavingIsPart(hosts[n], rows[n]);
      SavingsAddUp(hosts[..n], rows[..n]);
    }
  }

  lemma {:induction false} SumsOfCategories(rows: seq<Row>)
    ensures Total(rows, InCategory(InsufficientData)) + Total(rows, InCategory(MonitorLonger))
          + Total(rows, InCategory(HADRConstraint)) + Total(rows, InCategory(InsufficientHeadroom))
          + Total(rows, InCategory(NoChange)) + Total(rows, InCategory(OptimizeWorkload))
          + Total(rows, InCategory(LikelyRightsizing)) + Total(rows, InCategory(PossibleRightsizing)) == |rows|
    ensures Total(rows, SUGGESTED) <= |rows|
  {
    if rows != [] { SumsOfCategories(rows[..|rows| - 1]); }
  }

  lemma {:induction false} PositiveIsTotal(rows: seq<Row>)
    ensures Total(rows, VCPU) <= Total(rows, POSITIVE_VCPU)
    ensures Total(rows, VCPU) == Total(rows, POSITIVE_VCPU) <==> forall r :: r in rows ==> r.vcpu >= 0
  {
    if rows != [] {
      var init, last := rows[..|rows| - 1], rows[|rows| - 1];
      assert rows == init + [last];
      PositiveIsTotal(init);
    }
  }

  /** For every fleet: the indicated reductions lie between zero and what is allocated, short of
      three vCPUs for every host with a range; and every host is counted in exactly one category.
      A negative vCPU count in an inventory lowers the total but allows no reduction. */
  lemma FleetIsBounded(hosts: seq<HostData>, fleet: FleetSummary, rows: seq<Row>)
    requires |rows| == |hosts| && AllAnalyzed(hosts, rows) && Totals(fleet, rows)
    ensures 0 <= fleet.potentialVCPU <= Total(rows, POSITIVE_VCPU) - 3 * Total(rows, SUGGESTED)
    ensures fleet.totalVCPU == Total(rows, POSITIVE_VCPU) <==> forall r :: r in rows ==> r.vcpu >= 0
    ensures 0.0 <= fleet.potentialRAMGB <= fleet.totalRAMGB
    ensures var count := (c: Category) => Lookup(fleet.categories, c);
            count(InsufficientData) + count(MonitorLonger) + count(HADRConstraint) + count(InsufficientHeadroom)
            + count(NoChange) + count(OptimizeWorkload) + count(LikelyRightsizing) + count(PossibleRightsizing) == fleet.hosts
  {
    SavingsAddUp(hosts, rows);
    PositiveIsTotal(rows);
    SumsOfCategories(rows);
  }
}
