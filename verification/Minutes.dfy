/** Grouping samples into minutes (MinuteAgg in internal/sampler/sampler.go). */
module Minutes {
  import opened Common

  /** The part of a high-resolution sample that is modelled; `disks` gives each device's busy share,
      `memSome` the memory pressure reading where the host has one. */
  datatype Sample = Sample(
    ts: Time, cpuPct: real, memPct: real, memUsedBytes: nat, memAvailBytes: nat, swapUsedBytes: nat,
    disks: map<string, real>, memSome: Option<real>)

  datatype Pressure = Pressure(memSomeAvg: real, memSomeMax: real)

  datatype HostMinute = HostMinute(
    ts: Time, samples: nat, cpuAvg: real, cpuMax: real, memAvg: real, memMax: real, usedBytesAvg: nat,
    availBytesMin: nat, swapUsedBytes: nat, disks: map<string, real>, psi: Option<Pressure>)

  function MinuteOf(t: Time): Time { t - t % MINUTE }

  const CPU: Sample -> real := (s: Sample) => s.cpuPct
  const MEM: Sample -> real := (s: Sample) => s.memPct

  // ---- one minute -------------------------------------------------------------------------

  /** The sum of the first `k` shares f(s)/n. */
  function MeanTo(ss: seq<Sample>, k: nat, f: Sample -> real): real
    requires k <= |ss|
  {
    if k == 0 then 0.0 else MeanTo(ss, k - 1, f) + f(ss[k - 1]) / |ss| as real
  }

  /** The running maximum, which starts at zero. */
  function MaxTo(ss: seq<Sample>, k: nat, f: Sample -> real): real
    requires k <= |ss|
  {
    if k == 0 then 0.0 else MaxReal(MaxTo(ss, k - 1, f), f(ss[k - 1]))
  }

  function BytesTo(ss: seq<Sample>, k: nat): nat
    requires k <= |ss|
  {
    if k == 0 then 0 else BytesTo(ss, k - 1) + ss[k - 1].memUsedBytes / |ss|
  }

  /** The running minimum, which takes zero for "not set yet". */
  function AvailTo(ss: seq<Sample>, k: nat): nat
    requires k <= |ss|
  {
    if k == 0 then 0
    else
      var before, now := AvailTo(ss, k - 1), ss[k - 1].memAvailBytes;
      if before == 0 || now < before then now else before
  }

  function SwapTo(ss: seq<Sample>, k: nat): nat
    requires k <= |ss|
  {
    if k == 0 then 0
    else if ss[k - 1].swapUsedBytes > SwapTo(ss, k - 1) then ss[k - 1].swapUsedBytes else SwapTo(ss, k - 1)
  }

  /** The readings of an optional quantity among the first `k` samples. */
  function Readings(ss: seq<Sample>, k: nat, f: Sample -> Option<real>): seq<real>
    requires k <= |ss|
  {
    if k == 0 then []
    else
      var before := Readings(ss, k - 1, f);
      if f(ss[k - 1]).Some? then before + [f(ss[k - 1]).value] else before
  }

  function Sum(vs: seq<real>): real {
    if vs == [] then 0.0 else Sum(vs[..|vs| - 1]) + vs[|vs| - 1]
  }

  function Greatest(vs: seq<real>): real {
    if vs == [] then 0.0 else MaxReal(Greatest(vs[..|vs| - 1]), vs[|vs| - 1])
  }

  function BusyOf(dev: string): Sample -> Option<real> {
    (s: Sample) => if dev in s.disks then Some(s.disks[dev]) else None
  }

  const MEM_SOME: Sample -> Option<real> := (s: Sample) => s.memSome

  function Devices(ss: seq<Sample>): set<string> {
    set i, dev | 0 <= i < |ss| && dev in ss[i].disks :: dev
  }

  function Average(vs: seq<real>): real { if vs == [] then 0.0 else Round2(Sum(vs) / |vs| as real) }

  function DeviceMeans(ss: seq<Sample>): map<string, real> {
    map dev | dev in Devices(ss) :: Average(Readings(ss, |ss|, BusyOf(dev)))
  }

  function EmitOf(minute: Time, ss: seq<Sample>): HostMinute
    requires ss != []
  {
    var n := |ss|;
    var some := Readings(ss, n, MEM_SOME);
    HostMinute(minute, n, Round2(MeanTo(ss, n, CPU)), Round2(MaxTo(ss, n, CPU)),
               Round2(MeanTo(ss, n, MEM)), Round2(MaxTo(ss, n, MEM)),
               BytesTo(ss, n), AvailTo(ss, n), SwapTo(ss, n),
               DeviceMeans(ss),
               if some == [] then None else Some(Pressure(Average(some), Greatest(some))))
  }

  // ---- what one minute says ---------------------------------------------------------------

  lemma Shares(n: nat, k: nat, m: real)
    requires n > 0
    ensures (k + 1) as real / n as real * m == k as real / n as real * m + m / n as real
  {
    assert (k + 1) as real / n as real == k as real / n as real + 1.0 / n as real;
    assert 1.0 / n as real * m == m / n as real;
  }

  lemma ShareBound(n: nat, v: real, m: real)
    requires n > 0 && v <= m
    ensures v / n as real <= m / n as real
  {
    assert (m - v) / n as real >= 0.0;
  }

  lemma {:induction false} MeanBelow(ss: seq<Sample>, k: nat, f: Sample -> real, m: real)
    requires 0 < |ss| && k <= |ss| && forall i :: 0 <= i < k ==> f(ss[i]) <= m
    ensures MeanTo(ss, k, f) <= k as real / |ss| as real * m
  {
    if k > 0 {
      MeanBelow(ss, k - 1, f, m);
      Shares(|ss|, k - 1, m);
      ShareBound(|ss|, f(ss[k - 1]), m);
    }
  }

  lemma {:induction false} MaxCovers(ss: seq<Sample>, k: nat, f: Sample -> real)
    requires k <= |ss|
    ensures MaxTo(ss, k, f) >= 0.0 && forall i :: 0 <= i < k ==> f(ss[i]) <= MaxTo(ss, k, f)
    ensures MaxTo(ss, k, f) == 0.0 || exists i :: 0 <= i < k && f(ss[i]) == MaxTo(ss, k, f)
  {
    if k > 0 { MaxCovers(ss, k - 1, f); }
  }

  lemma MeanBelowMax(ss: seq<Sample>, f: Sample -> real)
    requires ss != []
    ensures Round2(MeanTo(ss, |ss|, f)) <= Round2(MaxTo(ss, |ss|, f))
  {
    MaxCovers(ss, |ss|, f);
    MeanBelow(ss, |ss|, f, MaxTo(ss, |ss|, f));
    assert |ss| as real / |ss| as real == 1.0;
    Round2Monotone(MeanTo(ss, |ss|, f), MaxTo(ss, |ss|, f));
  }

  lemma {:induction false} SumBelow(vs: seq<real>)
    ensures Sum(vs) <= |vs| as real * Greatest(vs) && Greatest(vs) >= 0.0
    ensures forall v :: v in vs ==> v <= Greatest(vs)
  {
    if vs != [] {
      var init, last := vs[..|vs| - 1], vs[|vs| - 1];
      assert vs == init + [last];
      SumBelow(init);
      assert |init| as real * Greatest(init) <= |init| as real * Greatest(vs);
      assert |vs| as real * Greatest(vs) == |init| as real * Greatest(vs) + Greatest(vs);
    }
  }

  lemma AverageBelow(vs: seq<real>)
    requires vs != []
    ensures Average(vs) <= Round2(Greatest(vs))
  {
    SumBelow(vs);
    Quotient(Sum(vs), |vs|, Greatest(vs));
    Round2Monotone(Sum(vs) / |vs| as real, Greatest(vs));
  }

  lemma Quotient(x: real, n: nat, m: real)
    requires n > 0 && x <= n as real * m
    ensures x / n as real <= m
  {
    assert x / n as real * n as real == x;
    if x / n as real > m { Larger(n, m, x / n as real); }
  }

  lemma Larger(n: nat, x: real, y: real)
    requires n > 0 && x < y
    ensures n as real * x < n as real * y
  {
  }

  /** Every average stays at or below its maximum, also after rounding; the pressure maximum is not
      rounded, so its average may pass it by what rounding adds. */
  lemma AveragesBelowMaxima(minute: Time, ss: seq<Sample>)
    requires ss != []
    ensures var hm := EmitOf(minute, ss);
            && hm.cpuAvg <= hm.cpuMax && hm.memAvg <= hm.memMax
            && (hm.psi.Some? ==> hm.psi.value.memSomeAvg <= Round2(hm.psi.value.memSomeMax))
            && forall dev :: dev in hm.disks ==> hm.disks[dev] <= Round2(Greatest(Readings(ss, |ss|, BusyOf(dev))))
  {
    MeanBelowMax(ss, CPU);
    MeanBelowMax(ss, MEM);
    var some := Readings(ss, |ss|, MEM_SOME);
    if some != [] { AverageBelow(some); }
    forall dev | dev in Devices(ss)
      ensures Average(Readings(ss, |ss|, BusyOf(dev))) <= Round2(Greatest(Readings(ss, |ss|, BusyOf(dev))))
    {
      DeviceIsRead(ss, |ss|, dev);
      AverageBelow(Readings(ss, |ss|, BusyOf(dev)));
    }
  }

  lemma {:induction false} DeviceIsRead(ss: seq<Sample>, k: nat, dev: string)
    requires k <= |ss|
    ensures Readings(ss, k, BusyOf(dev)) == [] <==> forall i :: 0 <= i < k ==> dev !in ss[i].disks
  {
    if k > 0 { DeviceIsRead(ss, k - 1, dev); }
  }

  /** The least available memory among the first `k` samples. */
  ghost predicate IsLeast(ss: seq<Sample>, k: nat, m: nat)
    requires k <= |ss|
  {
    && (forall i :: 0 <= i < k ==> m <= ss[i].memAvailBytes)
    && exists i :: 0 <= i < k && ss[i].memAvailBytes == m
  }

  lemma {:induction false} AvailIs(ss: seq<Sample>, k: nat)
    requires 0 < k <= |ss|
    ensures exists i :: 0 <= i < k && ss[i].memAvailBytes == AvailTo(ss, k)
    ensures AvailTo(ss, k) == 0 <==> ss[k - 1].memAvailBytes == 0
    ensures (forall i :: 0 <= i < k ==> ss[i].memAvailBytes != 0) ==> IsLeast(ss, k, AvailTo(ss, k))
  {
    if k > 1 {
      AvailIs(ss, k - 1);
    }
    if AvailTo(ss, k) == ss[k - 1].memAvailBytes {
    } else {
      var i :| 0 <= i < k - 1 && ss[i].memAvailBytes == AvailTo(ss, k - 1);
      assert ss[i].memAvailBytes == AvailTo(ss, k);
    }
  }

  /** The reported minimum of available memory is the true one exactly when no sample read zero, or
      the last one did: an earlier zero is taken for "not set yet" and forgotten. */
  lemma AvailIsMinimum(ss: seq<Sample>)
    requires ss != []
    ensures IsLeast(ss, |ss|, AvailTo(ss, |ss|))
       <==> (forall i :: 0 <= i < |ss| ==> ss[i].memAvailBytes != 0) || ss[|ss| - 1].memAvailBytes == 0
  {
    AvailIs(ss, |ss|);
  }

  /** Rounding each sample's share down loses less than one byte a sample. */
  lemma {:induction false} UsedBytesNearMean(ss: seq<Sample>, k: nat)
    requires 0 < |ss| && k <= |ss|
    ensures |ss| * BytesTo(ss, k) <= TotalBytes(ss, k) <= |ss| * BytesTo(ss, k) + k * (|ss| - 1)
  {
    if k > 0 {
      UsedBytesNearMean(ss, k - 1);
      OneShare(|ss|, ss[k - 1].memUsedBytes, BytesTo(ss, k - 1));
      Times(k - 1, |ss| - 1);
    }
  }

  lemma OneShare(n: nat, v: nat, b: nat)
    requires n > 0
    ensures n * b + v - (n - 1) <= n * (b + v / n) <= n * b + v
  {
    var q := v / n;
    assert v == n * q + v % n;
    assert n * (b + q) == n * b + n * q;
  }

  lemma Times(k: nat, x: int)
    ensures (k + 1) * x == k * x + x
  {
  }

  function TotalBytes(ss: seq<Sample>, k: nat): nat
    requires k <= |ss|
  {
    if k == 0 then 0 else TotalBytes(ss, k - 1) + ss[k - 1].memUsedBytes
  }

  // ---- the aggregator ---------------------------------------------------------------------

  /** One emitted minute, with the samples it was made from. */
  datatype Block = Block(minute: Time, samples: seq<Sample>)

  /** The aggregator: the minute in progress, its samples, and the blocks emitted so far. */
  datatype Agg = Agg(minute: Time, samples: seq<Sample>, out: seq<Block>)

  datatype Op = Add(s: Sample) | Flush

  function Emitted(a: Agg): seq<Block> {
    if a.samples == [] then a.out else a.out + [Block(a.minute, a.samples)]
  }

  /** Add.  A minute of zero stands for "none yet". */
  function Added(a: Agg, s: Sample): Agg { AddedIn(a, s, MinuteOf(s.ts)) }

  function AddedIn(a: Agg, s: Sample, min: Time): Agg {
    var changes := min != a.minute;
    Agg(min,
        (if a.minute == ZERO_TIME || changes then [] else a.samples) + [s],
        if a.minute != ZERO_TIME && changes then Emitted(a) else a.out)
  }

  /** FlushPartial. */
  function Flushed(a: Agg): Agg { Agg(a.minute, [], Emitted(a)) }

  function Apply(a: Agg, op: Op): Agg {
    match op
    case Add(s) => Added(a, s)
    case Flush => Flushed(a)
  }

  function Run(ops: seq<Op>): Agg {
    if ops == [] then Agg(ZERO_TIME, [], []) else Apply(Run(ops[..|ops| - 1]), ops[|ops| - 1])
  }

  class MinuteAgg {
    var minute: Time
    var samples: seq<Sample>
    ghost var out: seq<Block>

    constructor ()
      ensures View() == Agg(ZERO_TIME, [], [])
    {
      minute, samples, out := ZERO_TIME, [], [];
    }

    ghost function View(): Agg
      reads this
    {
      Agg(minute, samples, out)
    }

    /** Add returns the minute that is complete, if the sample opens a new one. */
    method Add(s: Sample) returns (hm: Option<HostMinute>)
      modifies this
      ensures View() == Added(old(View()), s)
      ensures hm.Some? <==> |out| > |old(out)|
      ensures hm.Some? ==> old(samples) != [] && hm.value == EmitOf(old(minute), old(samples))
    {
      var min := MinuteOf(s.ts);
      hm := None;
      if minute != ZERO_TIME && min != minute && |samples| > 0 {
        var m := Emit(minute, samples);
        hm := Some(m);
        out := out + [Block(minute, samples)];
      }
      if minute == ZERO_TIME || min != minute {
        minute := min;
        samples := [];
      }
      samples := samples + [s];
    }

    method FlushPartial() returns (hm: Option<HostMinute>)
      modifies this
      ensures View() == Flushed(old(View()))
      ensures hm.Some? <==> old(samples) != []
      ensures hm.Some? ==> hm.value == EmitOf(old(minute), old(samples))
    {
      if |samples| == 0 {
        return None;
      }
      var m := Emit(minute, samples);
      hm := Some(m);
      out := out + [Block(minute, samples)];
      samples := [];
    }
  }

  /** The sums and counts kept for each device. */
  ghost predicate DisksAre(ss: seq<Sample>, k: nat, acc: map<string, real>, count: map<string, nat>)
    requires k <= |ss|
  {
    && acc.Keys == count.Keys
    && (forall dev :: dev in acc <==> Readings(ss, k, BusyOf(dev)) != [])
    && forall dev :: dev in acc ==> acc[dev] == Sum(Readings(ss, k, BusyOf(dev))) && count[dev] == |Readings(ss, k, BusyOf(dev))|
  }

  /** What the devices of one sample outside `rest` add. */
  ghost predicate Visited(disks: map<string, real>, rest: set<string>, acc0: map<string, real>, count0: map<string, nat>,
      acc: map<string, real>, count: map<string, nat>)
  {
    && acc.Keys == count.Keys == acc0.Keys + (disks.Keys - rest) && count0.Keys == acc0.Keys
    && forall dev :: dev in acc ==> OneDevice(disks, rest, acc0, count0, acc, count, dev)
  }

  ghost predicate OneDevice(disks: map<string, real>, rest: set<string>, acc0: map<string, real>, count0: map<string, nat>,
      acc: map<string, real>, count: map<string, nat>, dev: string)
    requires dev in acc && dev in count && acc0.Keys == count0.Keys
  {
    var sum, n := if dev in acc0 then acc0[dev] else 0.0, if dev in count0 then count0[dev] else 0;
    if dev in disks && dev !in rest then acc[dev] == sum + disks[dev] && count[dev] == n + 1
    else acc[dev] == sum && count[dev] == n
  }

  /** The devices of one sample, in whatever order its map yields them. */
  method AddDisks(disks: map<string, real>, acc0: map<string, real>, count0: map<string, nat>)
    returns (acc: map<string, real>, count: map<string, nat>)
    requires acc0.Keys == count0.Keys
    ensures Visited(disks, {}, acc0, count0, acc, count)
  {
    acc, count := acc0, count0;
    var rest := disks.Keys;
    while rest != {}
      invariant rest <= disks.Keys && Visited(disks, rest, acc0, count0, acc, count)
    {
      var dev :| dev in rest;
      ghost var was, had := acc, count;
      if dev !in acc {
        acc, count := acc[dev := 0.0], count[dev := 0];
      }
      acc, count := acc[dev := acc[dev] + disks[dev]], count[dev := count[dev] + 1];
      rest := rest - {dev};
      forall d | d in acc ensures OneDevice(disks, rest, acc0, count0, acc, count, d) {
        if d in was { assert OneDevice(disks, rest + {dev}, acc0, count0, was, had, d); }
      }
    }
  }

  lemma DisksOneMore(ss: seq<Sample>, k: nat, acc0: map<string, real>, count0: map<string, nat>,
      acc: map<string, real>, count: map<string, nat>)
    requires k < |ss| && DisksAre(ss, k, acc0, count0) && Visited(ss[k].disks, {}, acc0, count0, acc, count)
    ensures DisksAre(ss, k + 1, acc, count)
  {
    forall dev | dev in acc
      ensures acc[dev] == Sum(Readings(ss, k + 1, BusyOf(dev))) && count[dev] == |Readings(ss, k + 1, BusyOf(dev))|
    {
      assert OneDevice(ss[k].disks, {}, acc0, count0, acc, count, dev);
      ReadOneMore(ss, k, dev);
    }
    forall dev ensures dev in acc <==> Readings(ss, k + 1, BusyOf(dev)) != [] {
      ReadOneMore(ss, k, dev);
    }
  }

  lemma ReadOneMore(ss: seq<Sample>, k: nat, dev: string)
    requires k < |ss|
    ensures var before, after := Readings(ss, k, BusyOf(dev)), Readings(ss, k + 1, BusyOf(dev));
            if dev in ss[k].disks then Sum(after) == Sum(before) + ss[k].disks[dev] && |after| == |before| + 1
            else after == before
  {
    var before := Readings(ss, k, BusyOf(dev));
    if dev in ss[k].disks {
      assert (before + [ss[k].disks[dev]])[..|before|] == before;
    }
  }

  lemma AverageIs(ss: seq<Sample>, acc: map<string, real>, count: map<string, nat>, dev: string)
    requires DisksAre(ss, |ss|, acc, count) && dev in acc
    ensures count[dev] > 0 && Round2(acc[dev] / count[dev] as real) == Average(Readings(ss, |ss|, BusyOf(dev)))
  {
  }

  lemma DisksAreDevices(ss: seq<Sample>, acc: map<string, real>, count: map<string, nat>)
    requires DisksAre(ss, |ss|, acc, count)
    ensures acc.Keys == Devices(ss)
  {
    forall dev ensures dev in acc <==> dev in Devices(ss) {
      DeviceIsRead(ss, |ss|, dev);
    }
  }

  lemma MeansAre(ss: seq<Sample>, disks: map<string, real>)
    requires disks.Keys == Devices(ss)
    requires forall dev :: dev in disks ==> disks[dev] == Average(Readings(ss, |ss|, BusyOf(dev)))
    ensures disks == DeviceMeans(ss)
  {
  }

  /** The averages over the samples that have the device. */
  method AverageDisks(ss: seq<Sample>, acc: map<string, real>, count: map<string, nat>) returns (disks: map<string, real>)
    requires DisksAre(ss, |ss|, acc, count)
    ensures disks == DeviceMeans(ss)
  {
    disks := map[];
    var rest := acc.Keys;
    while rest != {}
      invariant rest <= acc.Keys && disks.Keys == acc.Keys - rest
      invariant forall dev :: dev in disks ==> disks[dev] == Average(Readings(ss, |ss|, BusyOf(dev)))
    {
      var dev :| dev in rest;
      AverageIs(ss, acc, count, dev);
      disks := disks[dev := Round2(acc[dev] / count[dev] as real)];
      rest := rest - {dev};
    }
    DisksAreDevices(ss, acc, count);
    MeansAre(ss, disks);
  }

  /** The running figures of emit's loop beside the devices. */
  datatype Sums = Sums(
    cpuAvg: real, cpuMax: real, memAvg: real, memMax: real, usedBytes: nat, availMin: nat, swapUsed: nat,
    psiCount: nat, psiSum: real, psiMax: real)

  ghost predicate SumsAre(ss: seq<Sample>, k: nat, t: Sums)
    requires k <= |ss|
  {
    && t.cpuAvg == MeanTo(ss, k, CPU) && t.cpuMax == MaxTo(ss, k, CPU)
    && t.memAvg == MeanTo(ss, k, MEM) && t.memMax == MaxTo(ss, k, MEM)
    && t.usedBytes == BytesTo(ss, k) && t.availMin == AvailTo(ss, k) && t.swapUsed == SwapTo(ss, k)
    && PressureIs(Readings(ss, k, MEM_SOME), t)
  }

  ghost predicate PressureIs(some: seq<real>, t: Sums) {
    t.psiCount == |some| && t.psiSum == Sum(some) && t.psiMax == Greatest(some)
  }

  /** What one sample adds to them. */
  method AddSample(ss: seq<Sample>, k: nat, sums: Sums) returns (t: Sums)
    requires k < |ss| && SumsAre(ss, k, sums)
    ensures SumsAre(ss, k + 1, t)
  {
    var s, n := ss[k], |ss|;
    t := sums.(cpuAvg := sums.cpuAvg + s.cpuPct / n as real, cpuMax := MaxReal(sums.cpuMax, s.cpuPct),
               memAvg := sums.memAvg + s.memPct / n as real, memMax := MaxReal(sums.memMax, s.memPct),
               usedBytes := sums.usedBytes + s.memUsedBytes / n);
    if sums.availMin == 0 || s.memAvailBytes < sums.availMin {
      t := t.(availMin := s.memAvailBytes);
    }
    if s.swapUsedBytes > sums.swapUsed {
      t := t.(swapUsed := s.swapUsedBytes);
    }
    if s.memSome.Some? {
      t := t.(psiCount := sums.psiCount + 1, psiSum := sums.psiSum + s.memSome.value,
              psiMax := MaxReal(sums.psiMax, s.memSome.value));
      PressureOneMore(Readings(ss, k, MEM_SOME), s.memSome.value);
    }
  }

  lemma PressureOneMore(some: seq<real>, v: real)
    ensures Sum(some + [v]) == Sum(some) + v && Greatest(some + [v]) == MaxReal(Greatest(some), v)
  {
    assert (some + [v])[..|some|] == some;
  }

  /** emit. */
  method Emit(minute: Time, ss: seq<Sample>) returns (hm: HostMinute)
    requires ss != []
    ensures hm == EmitOf(minute, ss)
  {
    var n := |ss|;
    var t := Sums(0.0, 0.0, 0.0, 0.0, 0, 0, 0, 0, 0.0, 0.0);
    var acc, count := map[], map[];
    for k := 0 to n
      invariant SumsAre(ss, k, t) && DisksAre(ss, k, acc, count)
    {
      t := AddSample(ss, k, t);
      ghost var acc0, count0 := acc, count;
      acc, count := AddDisks(ss[k].disks, acc, count);
      DisksOneMore(ss, k, acc0, count0, acc, count);
    }
    var disks := AverageDisks(ss, acc, count);
    hm := HostMinute(minute, n, Round2(t.cpuAvg), Round2(t.cpuMax), Round2(t.memAvg), Round2(t.memMax),
                     t.usedBytes, t.availMin, t.swapUsed, disks,
                     if t.psiCount == 0 then None else Some(Pressure(Round2(t.psiSum / t.psiCount as real), t.psiMax)));
  }

  // ---- what grouping keeps ----------------------------------------------------------------

  function Flat(blocks: seq<Block>): seq<Sample> {
    if blocks == [] then [] else Flat(blocks[..|blocks| - 1]) + blocks[|blocks| - 1].samples
  }

  /** The newest operation added a sample of the very first minute of the calendar. */
  predicate EndsInMinuteZero(ops: seq<Op>) {
    ops != [] && ops[|ops| - 1].Add? && MinuteOf(ops[|ops| - 1].s.ts) == ZERO_TIME
  }

  /** Such a sample is forgotten by an Add that follows directly. */
  predicate LosesAt(ops: seq<Op>, i: nat)
    requires i < |ops|
  {
    ops[i].Add? && EndsInMinuteZero(ops[..i])
  }

  ghost predicate NoneLost(ops: seq<Op>) { forall i :: 0 <= i < |ops| ==> !LosesAt(ops, i) }

  /** All samples among the operations. */
  function Taken(ops: seq<Op>): seq<Sample> {
    if ops == [] then []
    else Taken(ops[..|ops| - 1]) + if ops[|ops| - 1].Add? then [ops[|ops| - 1].s] else []
  }

  /** The samples that are not forgotten. */
  function Kept(ops: seq<Op>): (r: seq<Sample>)
    ensures ops != [] && ops[|ops| - 1].Add? ==> r != []
  {
    if ops == [] then []
    else
      var init, op := ops[..|ops| - 1], ops[|ops| - 1];
      match op
      case Flush => Kept(init)
      case Add(s) => (if EndsInMinuteZero(init) then Kept(init)[..|Kept(init)| - 1] else Kept(init)) + [s]
  }

  predicate OfMinute(ss: seq<Sample>, minute: Time) { forall s | s in ss :: MinuteOf(s.ts) == minute }

  /** What the aggregator holds after the operations `ops`. */
  ghost predicate AggOk(ops: seq<Op>, a: Agg) {
    && OfMinute(a.samples, a.minute)
    && (a.samples != [] <==> ops != [] && ops[|ops| - 1].Add?)
    && (a.samples != [] ==> a.samples[|a.samples| - 1] == ops[|ops| - 1].s)
    && (a.minute == ZERO_TIME ==> |a.samples| <= 1)
    && forall b :: b in a.out ==> b.samples != [] && OfMinute(b.samples, b.minute)
  }

  lemma {:induction false} RunOk(ops: seq<Op>)
    ensures AggOk(ops, Run(ops))
  {
    if ops != [] { RunOk(ops[..|ops| - 1]); }
  }

  lemma FlatEmitted(a: Agg)
    ensures Flat(Emitted(a)) == Flat(a.out) + a.samples
  {
    assert (a.out + [Block(a.minute, a.samples)])[..|a.out|] == a.out;
  }

  lemma ZeroMinutePending(ops: seq<Op>, a: Agg)
    requires AggOk(ops, a)
    ensures EndsInMinuteZero(ops) <==> a.minute == ZERO_TIME && a.samples != []
  {
    if a.samples != [] { assert a.samples[|a.samples| - 1] in a.samples; }
  }

  lemma AddInMinute(a: Agg, s: Sample, min: Time)
    requires a.minute == min != ZERO_TIME
    ensures var b := AddedIn(a, s, min); Flat(b.out) + b.samples == Flat(a.out) + a.samples + [s]
  {
    assert AddedIn(a, s, min) == Agg(min, a.samples + [s], a.out);
  }

  lemma AddOpensMinute(a: Agg, s: Sample, min: Time)
    requires a.minute != ZERO_TIME && a.minute != min
    ensures var b := AddedIn(a, s, min); Flat(b.out) + b.samples == Flat(a.out) + a.samples + [s]
  {
    assert AddedIn(a, s, min) == Agg(min, [s], Emitted(a));
    FlatEmitted(a);
  }

  lemma WithoutOne(flat: seq<Sample>, ss: seq<Sample>)
    requires |ss| <= 1
    ensures flat == if ss == [] then flat + ss else (flat + ss)[..|flat + ss| - 1]
  {
  }

  lemma AddKeeps(a: Agg, s: Sample, min: Time)
    requires a.minute == ZERO_TIME ==> |a.samples| <= 1
    ensures var b, all := AddedIn(a, s, min), Flat(a.out) + a.samples;
            Flat(b.out) + b.samples
            == (if a.minute == ZERO_TIME && a.samples != [] then all[..|all| - 1] else all) + [s]
  {
    if a.minute == ZERO_TIME {
      assert AddedIn(a, s, min) == Agg(min, [s], a.out);
      WithoutOne(Flat(a.out), a.samples);
    } else if min == a.minute {
      AddInMinute(a, s, min);
    } else {
      AddOpensMinute(a, s, min);
    }
  }

  lemma StepKeeps(init: seq<Op>, a: Agg, ops: seq<Op>)
    requires ops != [] && init == ops[..|ops| - 1]
    requires AggOk(init, a) && Flat(a.out) + a.samples == Kept(init)
    ensures var b := Apply(a, ops[|ops| - 1]); Flat(b.out) + b.samples == Kept(ops)
  {
    match ops[|ops| - 1]
    case Flush =>
      FlatEmitted(a);
    case Add(s) =>
      ZeroMinutePending(init, a);
      AddKeeps(a, s, MinuteOf(s.ts));
  }

  /** Nothing is lost or reordered but what the zero minute forgets: the emitted blocks and the one
      in progress concatenate to the kept samples. */
  lemma {:induction false} BlocksAreKept(ops: seq<Op>)
    ensures Flat(Run(ops).out) + Run(ops).samples == Kept(ops)
  {
    if ops != [] {
      var init := ops[..|ops| - 1];
      BlocksAreKept(init);
      RunOk(init);
      StepKeeps(init, Run(init), ops);
    }
  }

  lemma NoneLostSnoc(ops: seq<Op>)
    requires ops != []
    ensures NoneLost(ops) <==> NoneLost(ops[..|ops| - 1]) && !LosesAt(ops, |ops| - 1)
  {
    var init := ops[..|ops| - 1];
    forall i | 0 <= i < |init| ensures LosesAt(init, i) == LosesAt(ops, i) {
      assert init[..i] == ops[..i];
    }
  }

  lemma {:induction false} KeptIsTaken(ops: seq<Op>)
    ensures if NoneLost(ops) then Kept(ops) == Taken(ops) else |Kept(ops)| < |Taken(ops)|
  {
    if ops != [] {
      KeptIsTaken(ops[..|ops| - 1]);
      NoneLostSnoc(ops);
    }
  }

  /** The blocks and the one in progress are exactly the input, in order, if and only if no sample
      of the first minute of the calendar is followed directly by another. */
  lemma BlocksAreTheInput(ops: seq<Op>)
    ensures Flat(Run(ops).out) + Run(ops).samples == Taken(ops) <==> NoneLost(ops)
  {
    BlocksAreKept(ops);
    KeptIsTaken(ops);
  }

  ghost predicate AddsOnly(ops: seq<Op>) { forall op :: op in ops ==> op.Add? }

  ghost predicate Apart(a: Agg) {
    && (forall i :: 0 < i < |a.out| ==> a.out[i - 1].minute != a.out[i].minute)
    && (a.out != [] ==> a.out[|a.out| - 1].minute != a.minute)
  }

  /** Without a flush the blocks are maximal runs: every block holds samples of one UTC minute, and
      neighbours, including the block in progress, belong to different minutes. */
  lemma {:induction false} BlocksAreMaximal(ops: seq<Op>)
    requires AddsOnly(ops) && NoneLost(ops)
    ensures AggOk(ops, Run(ops)) && Apart(Run(ops))
  {
    RunOk(ops);
    if ops != [] {
      var init, op := ops[..|ops| - 1], ops[|ops| - 1];
      assert op in ops;
      NoneLostSnoc(ops);
      BlocksAreMaximal(init);
      RunOk(init);
      ZeroMinutePending(init, Run(init));
      if init != [] {
        assert ops[|init| - 1] in ops;
      }
    }
  }

  /** Time does not run backwards. */
  ghost predicate InOrder(ops: seq<Op>) {
    forall i, j :: 0 <= i < j < |ops| && ops[i].Add? && ops[j].Add? ==> ops[i].s.ts <= ops[j].s.ts
  }

  ghost predicate Increasing(a: Agg) {
    && (forall i, j :: 0 <= i < j < |a.out| ==> a.out[i].minute < a.out[j].minute)
    && forall b :: b in a.out ==> b.minute < a.minute
  }

  lemma MinuteMonotone(s: Time, t: Time)
    requires s <= t
    ensures MinuteOf(s) <= MinuteOf(t)
  {
    assert s - s % MINUTE == MINUTE * (s / MINUTE) && t - t % MINUTE == MINUTE * (t / MINUTE);
  }

  /** For monotone time and no flush, the emitted minutes strictly increase. */
  lemma {:induction false} MinutesIncrease(ops: seq<Op>)
    requires AddsOnly(ops) && InOrder(ops)
    ensures Increasing(Run(ops))
  {
    if ops != [] {
      var init, op := ops[..|ops| - 1], ops[|ops| - 1];
      assert op in ops;
      MinutesIncrease(init);
      RunOk(init);
      var a := Run(init);
      if init != [] {
        assert ops[|init| - 1] in ops;
        var newest := a.samples[|a.samples| - 1];
        assert newest in a.samples;
        MinuteMonotone(newest.ts, op.s.ts);
        assert a.minute <= MinuteOf(op.s.ts);
      }
    }
  }

  /** The minute of the newest sample, if there is one. */
  function Newest(ops: seq<Op>): Option<Time> {
    if ops == [] then None
    else if ops[|ops| - 1].Add? then Some(MinuteOf(ops[|ops| - 1].s.ts))
    else Newest(ops[..|ops| - 1])
  }

  /** Operation `i` adds to a minute that a flush has already emitted. */
  predicate ResumesAt(ops: seq<Op>, i: nat)
    requires i < |ops|
  {
    ops[i].Add? && i > 0 && ops[i - 1].Flush? && Newest(ops[..i]) == Some(MinuteOf(ops[i].s.ts))
  }

  ghost predicate NeverResumes(ops: seq<Op>) { forall i: nat :: i < |ops| ==> !ResumesAt(ops, i) }

  ghost predicate StrictMinutes(bs: seq<Block>) { forall i, j :: 0 <= i < j < |bs| ==> bs[i].minute < bs[j].minute }

  lemma {:induction false} NewestIs(ops: seq<Op>)
    ensures Newest(ops).Some? ==> exists i :: 0 <= i < |ops| && ops[i].Add? && Newest(ops) == Some(MinuteOf(ops[i].s.ts))
  {
    if ops != [] && ops[|ops| - 1].Flush? { NewestIs(ops[..|ops| - 1]); }
  }

  lemma NeverResumesSnoc(ops: seq<Op>)
    requires ops != []
    ensures NeverResumes(ops) <==> NeverResumes(ops[..|ops| - 1]) && !ResumesAt(ops, |ops| - 1)
  {
    var init := ops[..|ops| - 1];
    forall i: nat | i < |init| ensures ResumesAt(init, i) == ResumesAt(ops, i) {
      assert init[..i] == ops[..i];
    }
  }

  lemma StrictSnoc(bs: seq<Block>, b: Block)
    ensures StrictMinutes(bs + [b]) <==> StrictMinutes(bs) && (bs == [] || bs[|bs| - 1].minute < b.minute)
  {
    var all := bs + [b];
    if StrictMinutes(all) {
      forall i, j | 0 <= i < j < |bs| ensures bs[i].minute < bs[j].minute {
        assert all[i].minute < all[j].minute;
      }
      if bs != [] { assert all[|bs| - 1].minute < all[|bs|].minute; }
    }
  }

  /** The newest block is that of the newest sample. */
  ghost predicate NewestIsLast(a: Agg, newest: Option<Time>) {
    match newest
    case None => Emitted(a) == [] && a.minute == ZERO_TIME
    case Some(m) => Emitted(a) != [] && Emitted(a)[|Emitted(a)| - 1].minute == m == a.minute
  }

  lemma AddedEmits(a: Agg, s: Sample, min: Time, newest: Option<Time>)
    requires NewestIsLast(a, newest) && !(a.minute == ZERO_TIME && a.samples != [])
    ensures NewestIsLast(AddedIn(a, s, min), Some(min))
    ensures newest.Some? && newest.value <= min ==>
              (StrictMinutes(Emitted(AddedIn(a, s, min)))
               <==> StrictMinutes(Emitted(a)) && !(a.samples == [] && newest.value == min))
    ensures newest.None? ==> StrictMinutes(Emitted(AddedIn(a, s, min)))
  {
    var b := AddedIn(a, s, min);
    if a.samples != [] && a.minute == min {
      StrictSnoc(a.out, Block(a.minute, a.samples));
      StrictSnoc(a.out, Block(min, b.samples));
    } else {
      assert Emitted(b) == Emitted(a) + [Block(min, b.samples)];
      StrictSnoc(Emitted(a), Block(min, b.samples));
    }
  }

  lemma NewestMonotone(ops: seq<Op>)
    requires ops != [] && InOrder(ops) && ops[|ops| - 1].Add? && Newest(ops[..|ops| - 1]).Some?
    ensures Newest(ops[..|ops| - 1]).value <= MinuteOf(ops[|ops| - 1].s.ts)
  {
    var init := ops[..|ops| - 1];
    NewestIs(init);
    var i :| 0 <= i < |init| && init[i].Add? && Newest(init) == Some(MinuteOf(init[i].s.ts));
    MinuteMonotone(ops[i].s.ts, ops[|ops| - 1].s.ts);
  }

  /** With flushes too, for monotone time: the minutes of the blocks, the one in progress included,
      strictly increase if and only if no sample follows a flush into the minute it emitted. */
  lemma {:induction false} MinutesIncreaseExactlyWhen(ops: seq<Op>)
    requires InOrder(ops) && NoneLost(ops)
    ensures NewestIsLast(Run(ops), Newest(ops))
    ensures StrictMinutes(Emitted(Run(ops))) <==> NeverResumes(ops)
  {
    if ops != [] {
      var init, op, a := ops[..|ops| - 1], ops[|ops| - 1], Run(ops[..|ops| - 1]);
      NoneLostSnoc(ops);
      NeverResumesSnoc(ops);
      MinutesIncreaseExactlyWhen(init);
      RunOk(init);
      ZeroMinutePending(init, a);
      if op.Add? {
        if Newest(init).Some? { NewestMonotone(ops); }
        AddedEmits(a, op.s, MinuteOf(op.s.ts), Newest(init));
      } else {
        assert Emitted(Flushed(a)) == Emitted(a);
      }
    }
  }

  /** A flush in the middle of a minute emits that minute twice, here even with equal contents. */
  lemma FlushSplitsMinute(s: Sample)
    ensures var b := Block(MinuteOf(s.ts), [s]); Run([Add(s), Flush, Add(s), Flush]).out == [b, b]
  {
    var ops, b := [Add(s), Flush, Add(s), Flush], Block(MinuteOf(s.ts), [s]);
    assert ops[..3][..2] == ops[..2] && ops[..2][..1] == ops[..1] && ops[..1] == [Add(s)] && [Add(s)][..0] == [];
    assert Run(ops[..1]) == Agg(b.minute, [s], []);
    assert Run(ops[..2]) == Agg(b.minute, [], [b]);
    assert Run(ops[..3]) == Agg(b.minute, [s], [b]);
  }
}
