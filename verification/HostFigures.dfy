/** What the figures of a host's report say about its minutes and its availability groups. */
module HostFigures {
  import opened Common
  import opened Stats
  import opened Summaries
  import opened Sustained
  import opened Capacity
  import opened HostAnalysis

  // ---- the role ---------------------------------------------------------------------------

  predicate IsRole(role: string) { role == "PRIMARY" || role == "SECONDARY" }

  ghost predicate NoRole(roles: seq<string>, k: nat)
    requires k <= |roles|
  {
    forall j :: 0 <= j < k ==> !IsRole(roles[j])
  }

  lemma {:induction false} RoleOfIsFirst(roles: seq<string>, k: nat)
    requires k <= |roles| && NoRole(roles, k)
    ensures RoleOf(roles) == if k < |roles| && IsRole(roles[k]) then roles[k] else RoleOf(roles[k..])
  {
    if k == 0 {
      assert roles[0..] == roles;
    } else {
      var rest := roles[1..];
      assert forall j :: 0 <= j < |rest| ==> rest[j] == roles[j + 1];
      assert !IsRole(roles[0]);
      RoleOfIsFirst(rest, k - 1);
      assert rest[k - 1..] == roles[k..];
    }
  }

  lemma NoRoleAtAll(roles: seq<string>)
    ensures NoRole(roles, |roles|) <==> RoleOf(roles) == ""
  {
    if NoRole(roles, |roles|) {
      RoleOfIsFirst(roles, |roles|);
    } else {
      FirstRole(roles);
    }
  }

  lemma FirstRole(roles: seq<string>)
    requires !NoRole(roles, |roles|)
    ensures IsRole(RoleOf(roles))
  {
    if !IsRole(roles[0]) {
      var rest := roles[1..];
      assert forall j :: 0 < j < |roles| ==> rest[j - 1] == roles[j];
      FirstRole(rest);
    }
  }

  /** The groups of the first `i` instances, in the order in which they are visited, name no role. */
  ghost predicate NoneBefore(instances: seq<seq<string>>, i: nat)
    requires i <= |instances|
  {
    forall m :: 0 <= m < i ==> NoRole(instances[m], |instances[m]|)
  }

  /** The role of a host is the first PRIMARY or SECONDARY met among the groups of its instances. */
  lemma {:induction false} RoleIsFirst(instances: seq<seq<string>>, i: nat, k: nat)
    requires i < |instances| && NoneBefore(instances, i)
    requires k < |instances[i]| && NoRole(instances[i], k) && IsRole(instances[i][k])
    ensures RoleIn(instances) == instances[i][k]
  {
    if i == 0 {
      RoleOfIsFirst(instances[0], k);
    } else {
      var rest := instances[1..];
      assert forall m :: 0 <= m < |rest| ==> rest[m] == instances[m + 1];
      assert NoRole(instances[0], |instances[0]|);
      NoRoleAtAll(instances[0]);
      RoleIsFirst(rest, i - 1, k);
    }
  }

  /** And it has none exactly when no group of any instance names one. */
  lemma NoRoleExactlyWhen(instances: seq<seq<string>>)
    ensures RoleIn(instances) == "" <==> NoneBefore(instances, |instances|)
  {
    RoleComesFrom(instances);
    if RoleIn(instances) == "" {
      forall m | 0 <= m < |instances| ensures NoRole(instances[m], |instances[m]|) {
        assert instances[m] in instances;
        NoRoleAtAll(instances[m]);
      }
    }
    if NoneBefore(instances, |instances|) {
      forall roles | roles in instances ensures RoleOf(roles) == "" {
        var m :| 0 <= m < |instances| && instances[m] == roles;
        NoRoleAtAll(roles);
      }
    }
  }

  // ---- observation time -------------------------------------------------------------------

  /** The observed days are the whole days from the first minute to the last, and one. */
  lemma ObservedDaysIs(first: Time, last: Time)
    requires first <= last
    ensures (ObservedDays(first, last) - 1) * DAY <= last - first < ObservedDays(first, last) * DAY
  {
  }

  lemma Shared(n: real, expected: real)
    requires expected > 0.0
    ensures n / expected * expected == n
    ensures n / expected * 100.0 >= 100.0 <==> n >= expected
  {
    var x := n / expected;
    assert x * expected == n;
    if x >= 1.0 { assert (x - 1.0) * expected >= 0.0; } else { assert (1.0 - x) * expected > 0.0; }
  }

  /** Coverage is the rounded percentage of the minutes expected from the first to the last, at most 100. */
  lemma CoverageIs(n: nat, first: Time, last: Time) returns (percent: real, expected: real)
    requires first <= last
    ensures expected * MINUTE as real == (last - first + MINUTE) as real
    ensures if n as real >= expected then percent == 100.0 else percent * expected == 100.0 * n as real
    ensures Coverage(n, first, last) == Round1(percent)
  {
    expected := (last - first) as real / MINUTE as real + 1.0;
    Shared(n as real, expected);
    percent := MinReal(100.0, n as real / expected * 100.0);
  }

  // ---- the allocation ---------------------------------------------------------------------

  lemma NearestTenth(x: real)
    ensures Abs(Round1(x) - x) <= 0.05
  {
    RoundNearest(x * 10.0);
  }

  /** The allocation is that of the inventory, the RAM in GB to the nearest tenth, and nothing without one. */
  lemma AllocationIs(h: HostData)
    ensures h.inventory.None? ==> Vcpu(h) == 0 && RamGB(h) == 0.0
    ensures h.inventory.Some? ==>
              Vcpu(h) == h.inventory.value.vcpu && Abs(RamGB(h) - h.inventory.value.ramBytes as real / 1073741824.0) <= 0.05
  {
    if h.inventory.Some? { NearestTenth(h.inventory.value.ramBytes as real / GIB); }
  }

  // ---- the series -------------------------------------------------------------------------

  /** The figures of a summary lie in order between the rounded bounds. */
  predicate Spans(s: Summary, lo: real, hi: real, n: nat) {
    && Round2(lo) <= s.p50 <= s.p95 <= s.p99 <= s.max <= Round2(hi)
    && Round2(lo) <= s.avg <= s.max && s.count == n
  }

  ghost predicate ColumnWithin(ms: seq<Minute>, f: Minute -> real, lo: real, hi: real) {
    forall m :: m in ms ==> lo <= f(m) <= hi
  }

  lemma ColumnSpans(ms: seq<Minute>, f: Minute -> real, lo: real, hi: real)
    requires ms != [] && ColumnWithin(ms, f, lo, hi)
    ensures Spans(SummaryOf(Column(ms, f)), lo, hi, |ms|)
  {
    var c := Column(ms, f);
    forall x | x in c ensures lo <= x <= hi {
      var i :| 0 <= i < |c| && c[i] == x;
      assert ms[i] in ms;
    }
    SortSorts(c);
    SummaryIsOrdered(c, lo, hi);
  }

  lemma GibMonotone(x: real, y: real)
    requires x <= y
    ensures Round1(x / GIB) <= Round1(y / GIB)
  {
    RoundMonotone(x / GIB * 10.0, y / GIB * 10.0);
  }

  /** Each figure of a host comes from its own series: it lies within the bounds of that series, whatever
      the other series are. */
  lemma FiguresFollowSeries(ms: seq<Minute>, lo: real, hi: real)
    requires ms != [] && InOrder(ms)
    ensures ColumnWithin(ms, CPU_AVG, lo, hi) ==> Spans(UsageOf(ms).cpu, lo, hi, |ms|)
    ensures ColumnWithin(ms, CPU_MAX, lo, hi) ==> Spans(UsageOf(ms).cpuPeak, lo, hi, |ms|)
    ensures ColumnWithin(ms, MEM_PCT, lo, hi) ==> Spans(UsageOf(ms).mem, lo, hi, |ms|)
    ensures ColumnWithin(ms, STEAL, lo, hi) ==> Round2(lo) <= UsageOf(ms).steal <= Round2(hi)
    ensures ColumnWithin(ms, MEM_BYTES, lo, hi) ==>
              Round1(Round2(lo) / GIB) <= UsageOf(ms).memP95GB <= Round1(Round2(hi) / GIB)
  {
    if ColumnWithin(ms, CPU_AVG, lo, hi) { ColumnSpans(ms, CPU_AVG, lo, hi); }
    if ColumnWithin(ms, CPU_MAX, lo, hi) { ColumnSpans(ms, CPU_MAX, lo, hi); }
    if ColumnWithin(ms, MEM_PCT, lo, hi) { ColumnSpans(ms, MEM_PCT, lo, hi); }
    if ColumnWithin(ms, STEAL, lo, hi) { ColumnSpans(ms, STEAL, lo, hi); }
    if ColumnWithin(ms, MEM_BYTES, lo, hi) {
      ColumnSpans(ms, MEM_BYTES, lo, hi);
      GibMonotone(Round2(lo), SummaryOf(Column(ms, MEM_BYTES)).p95);
      GibMonotone(SummaryOf(Column(ms, MEM_BYTES)).p95, Round2(hi));
    }
  }

  /** The minutes over 85% are those whose average is at least that. */
  lemma MinutesOver85Are(ms: seq<Minute>)
    requires ms != [] && InOrder(ms)
    ensures UsageOf(ms).minutesOver85 == |set i: nat | i < |ms| && ms[i].cpuAvg >= 85.0|
  {
    CountIsSize(Timed(ms), CPU_SUSTAINED_LIMIT, |ms|);
    assert PlacesAbove(Timed(ms), CPU_SUSTAINED_LIMIT, |ms|) == set i: nat | i < |ms| && ms[i].cpuAvg >= 85.0;
  }

  // ---- pressure ---------------------------------------------------------------------------

  /** What a minute is evidence of: of paging over 100 major faults or 500 pages out a second; of memory
      pressure over 5% some or 1% full; of I/O pressure over 10% some, where it has such readings. */
  lemma EvidenceExactly(m: Minute, x: real)
    ensures Paging in EvidenceIn(m) <==> m.majorFaultPS > 100.0 || m.pageOutPS > 500.0
    ensures MemoryPsi(x) in EvidenceIn(m)
       <==> m.psi.Some? && m.psi.value.memSome == x && (m.psi.value.memSome > 5.0 || m.psi.value.memFull > 1.0)
    ensures IoPsi(x) in EvidenceIn(m) <==> m.psi.Some? && m.psi.value.ioSome == x && m.psi.value.ioSome > 10.0
  {
  }

  /** A host is under memory pressure exactly when some minute is evidence of something, and pages exactly
      when some minute is evidence of paging. */
  lemma PressureExactly(ms: seq<Minute>)
    requires ms != [] && InOrder(ms)
    ensures UsageOf(ms).pressured <==> exists i, ev :: 0 <= i < |ms| && ev in EvidenceIn(ms[i])
    ensures UsageOf(ms).paging <==> exists i :: 0 <= i < |ms| && Paging in EvidenceIn(ms[i])
  {
    forall i | 0 <= i < |ms|
      ensures Calm(ms[i]) <==> EvidenceIn(ms[i]) == {}
      ensures Paging in EvidenceIn(ms[i]) <==> Pages(ms[i])
    {
      CalmShowsNothing(ms[i]);
    }
    if UsageOf(ms).pressured {
      var m :| m in ms && !Calm(m);
      var i :| 0 <= i < |ms| && ms[i] == m;
      var ev :| ev in EvidenceIn(ms[i]);
    }
    if ev, i :| 0 <= i < |ms| && ev in EvidenceIn(ms[i]) {
      assert ms[i] in ms && !Calm(ms[i]);
    }
    if i :| 0 <= i < |ms| && Paging in EvidenceIn(ms[i]) {
      assert ms[i] in ms && Pages(ms[i]);
    }
    if UsageOf(ms).paging {
      var m :| m in ms && Pages(m);
      var i :| 0 <= i < |ms| && ms[i] == m;
      assert Paging in EvidenceIn(ms[i]);
    }
  }
}
