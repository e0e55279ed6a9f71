/** What the figures of an emitted minute say about its samples (emit in internal/sampler/sampler.go). */
module MinuteFigures {
  import opened Common
  import opened Minutes
  import opened Totals

  // ---- averages ---------------------------------------------------------------------------

  lemma ShareTimes(n: nat, mean: real, v: real)
    requires n > 0
    ensures n as real * (mean + v / n as real) == n as real * mean + v
  {
    assert n as real * (v / n as real) == v;
  }

  /** The shares of all samples add up to the mean. */
  lemma {:induction false} SharesAddUp(ss: seq<Sample>, k: nat, f: Sample -> real)
    requires 0 < |ss| && k <= |ss|
    ensures |ss| as real * MeanTo(ss, k, f) == Total(ss[..k], f)
  {
    if k > 0 {
      SharesAddUp(ss, k - 1, f);
      TotalPrefix(ss, k - 1, f);
      ShareTimes(|ss|, MeanTo(ss, k - 1, f), f(ss[k - 1]));
    }
  }

  lemma MeanIsMean(ss: seq<Sample>, f: Sample -> real)
    requires ss != []
    ensures IsMean(ss, f, MeanTo(ss, |ss|, f))
  {
    SharesAddUp(ss, |ss|, f);
    assert ss[..|ss|] == ss;
  }

  /** The CPU and memory averages of an emitted minute are the rounded arithmetic means of its samples. */
  lemma EmittedAverages(minute: Time, ss: seq<Sample>) returns (cpu: real, mem: real)
    requires ss != []
    ensures IsMean(ss, CPU, cpu) && IsMean(ss, MEM, mem)
    ensures var hm := EmitOf(minute, ss);
            hm.ts == minute && hm.samples == |ss| && hm.cpuAvg == Round2(cpu) && hm.memAvg == Round2(mem)
  {
    MeanIsMean(ss, CPU);
    MeanIsMean(ss, MEM);
    cpu, mem := MeanTo(ss, |ss|, CPU), MeanTo(ss, |ss|, MEM);
  }

  lemma RoundedBetween(ss: seq<Sample>, f: Sample -> real, mean: real, lo: real, hi: real)
    requires ss != [] && IsMean(ss, f, mean) && AllWithin(ss, f, lo, hi)
    ensures Round2(lo) <= Round2(mean) <= Round2(hi)
  {
    MeanBetween(ss, f, mean, lo, hi);
    Round2Monotone(lo, mean);
    Round2Monotone(mean, hi);
  }

  /** They lie between the rounded least and greatest sample. */
  lemma AveragesAreBetween(minute: Time, ss: seq<Sample>, lo: real, hi: real)
    requires ss != []
    ensures AllWithin(ss, CPU, lo, hi) ==> Round2(lo) <= EmitOf(minute, ss).cpuAvg <= Round2(hi)
    ensures AllWithin(ss, MEM, lo, hi) ==> Round2(lo) <= EmitOf(minute, ss).memAvg <= Round2(hi)
  {
    var cpu, mem := EmittedAverages(minute, ss);
    if AllWithin(ss, CPU, lo, hi) { RoundedBetween(ss, CPU, cpu, lo, hi); }
    if AllWithin(ss, MEM, lo, hi) { RoundedBetween(ss, MEM, mem, lo, hi); }
  }

  // ---- maxima -----------------------------------------------------------------------------

  /** `m` is the greatest of f over the samples, and of zero. */
  ghost predicate IsGreatest(ss: seq<Sample>, f: Sample -> real, m: real) {
    && m >= 0.0 && (forall i :: 0 <= i < |ss| ==> f(ss[i]) <= m)
    && (m == 0.0 || exists i :: 0 <= i < |ss| && f(ss[i]) == m)
  }

  /** The maxima are the rounded greatest readings, at least zero. */
  lemma EmittedMaxima(minute: Time, ss: seq<Sample>) returns (cpu: real, mem: real)
    requires ss != []
    ensures IsGreatest(ss, CPU, cpu) && IsGreatest(ss, MEM, mem)
    ensures EmitOf(minute, ss).cpuMax == Round2(cpu) && EmitOf(minute, ss).memMax == Round2(mem)
  {
    MaxCovers(ss, |ss|, CPU);
    MaxCovers(ss, |ss|, MEM);
    cpu, mem := MaxTo(ss, |ss|, CPU), MaxTo(ss, |ss|, MEM);
  }

  lemma {:induction false} SwapCovers(ss: seq<Sample>, k: nat)
    requires k <= |ss|
    ensures forall i :: 0 <= i < k ==> ss[i].swapUsedBytes <= SwapTo(ss, k)
    ensures SwapTo(ss, k) == 0 || exists i :: 0 <= i < k && ss[i].swapUsedBytes == SwapTo(ss, k)
  {
    if k > 0 { SwapCovers(ss, k - 1); }
  }

  /** The byte figures: the swap in use is the greatest seen; the memory in use falls short of the mean by
      less than one byte a sample; and the memory available is the least seen exactly when no sample
      read zero, or the last one did. */
  lemma EmittedBytes(minute: Time, ss: seq<Sample>)
    requires ss != []
    ensures var swap := EmitOf(minute, ss).swapUsedBytes;
            && (forall i :: 0 <= i < |ss| ==> ss[i].swapUsedBytes <= swap)
            && (swap == 0 || exists i :: 0 <= i < |ss| && ss[i].swapUsedBytes == swap)
    ensures var used := EmitOf(minute, ss).usedBytesAvg;
            |ss| * used <= TotalBytes(ss, |ss|) <= |ss| * used + |ss| * (|ss| - 1)
    ensures IsLeast(ss, |ss|, EmitOf(minute, ss).availBytesMin)
       <==> (forall i :: 0 <= i < |ss| ==> ss[i].memAvailBytes != 0) || ss[|ss| - 1].memAvailBytes == 0
  {
    SwapCovers(ss, |ss|);
    UsedBytesNearMean(ss, |ss|);
    AvailIsMinimum(ss);
  }

  // ---- order ------------------------------------------------------------------------------

  lemma GreatestPermuted(a: seq<Sample>, b: seq<Sample>, f: Sample -> real, x: real, y: real)
    requires multiset(a) == multiset(b) && IsGreatest(a, f, x) && IsGreatest(b, f, y)
    ensures x <= y
  {
    if x > 0.0 {
      var i :| 0 <= i < |a| && f(a[i]) == x;
      assert a[i] in multiset(b);
      var j :| 0 <= j < |b| && b[j] == a[i];
    }
  }

  lemma MeansAgree(minute: Time, a: seq<Sample>, b: seq<Sample>)
    requires a != [] && b != [] && multiset(a) == multiset(b)
    ensures EmitOf(minute, a).cpuAvg == EmitOf(minute, b).cpuAvg && EmitOf(minute, a).memAvg == EmitOf(minute, b).memAvg
  {
    var cpu, mem := EmittedAverages(minute, a);
    var cpu', mem' := EmittedAverages(minute, b);
    MeanPermuted(a, b, CPU, cpu, cpu');
    MeanPermuted(a, b, MEM, mem, mem');
  }

  /** The averages and maxima do not depend on the order of the samples. */
  lemma OrderDoesNotMatter(minute: Time, a: seq<Sample>, b: seq<Sample>)
    requires a != [] && multiset(a) == multiset(b)
    ensures b != []
    ensures var x, y := EmitOf(minute, a), EmitOf(minute, b);
            && x.samples == y.samples
            && x.cpuAvg == y.cpuAvg && x.memAvg == y.memAvg && x.cpuMax == y.cpuMax && x.memMax == y.memMax
  {
    TotalPermuted(a, b, CPU);
    MeansAgree(minute, a, b);
    var cpu, mem := EmittedMaxima(minute, a);
    var cpu', mem' := EmittedMaxima(minute, b);
    GreatestPermuted(a, b, CPU, cpu, cpu');
    GreatestPermuted(b, a, CPU, cpu', cpu);
    GreatestPermuted(a, b, MEM, mem, mem');
    GreatestPermuted(b, a, MEM, mem', mem);
  }

  // ---- readings that not every sample has -------------------------------------------------

  /** How many samples have the reading. */
  function Having(ss: seq<Sample>, f: Sample -> Option<real>): nat {
    if ss == [] then 0 else (if f(ss[0]).Some? then 1 else 0) + Having(ss[1..], f)
  }

  /** The reading, or nothing to add. */
  function OrZero(f: Sample -> Option<real>): Sample -> real {
    (s: Sample) => if f(s).Some? then f(s).value else 0.0
  }

  lemma {:induction false} HavingSnoc(ss: seq<Sample>, s: Sample, f: Sample -> Option<real>)
    ensures Having(ss + [s], f) == Having(ss, f) + if f(s).Some? then 1 else 0
  {
    if ss == [] {
      assert ss + [s] == [s] && [s][1..] == [];
    } else {
      assert (ss + [s])[1..] == ss[1..] + [s];
      HavingSnoc(ss[1..], s, f);
    }
  }

  lemma {:induction false} ReadingsAddUp(ss: seq<Sample>, k: nat, f: Sample -> Option<real>)
    requires k <= |ss|
    ensures |Readings(ss, k, f)| == Having(ss[..k], f) && Sum(Readings(ss, k, f)) == Total(ss[..k], OrZero(f))
  {
    if k > 0 {
      ReadingsAddUp(ss, k - 1, f);
      assert ss[..k] == ss[..k - 1] + [ss[k - 1]];
      HavingSnoc(ss[..k - 1], ss[k - 1], f);
      TotalPrefix(ss, k - 1, OrZero(f));
      var before := Readings(ss, k - 1, f);
      if f(ss[k - 1]).Some? { PressureOneMore(before, f(ss[k - 1]).value); }
    }
  }

  /** `mean` is the arithmetic mean of the reading over the samples that have it. */
  ghost predicate IsMeanOfThose(ss: seq<Sample>, f: Sample -> Option<real>, mean: real) {
    Having(ss, f) > 0 && Having(ss, f) as real * mean == Total(ss, OrZero(f))
  }

  lemma AverageOfThose(ss: seq<Sample>, f: Sample -> Option<real>)
    returns (mean: real)
    requires Readings(ss, |ss|, f) != []
    ensures IsMeanOfThose(ss, f, mean) && Average(Readings(ss, |ss|, f)) == Round2(mean)
  {
    var vs := Readings(ss, |ss|, f);
    ReadingsAddUp(ss, |ss|, f);
    assert ss[..|ss|] == ss;
    mean := Sum(vs) / |vs| as real;
  }

  /** Exactly the devices that some sample saw have a figure, the rounded mean over the samples that did. */
  lemma DeviceAverages(minute: Time, ss: seq<Sample>, dev: string) returns (mean: real)
    requires ss != []
    ensures var hm := EmitOf(minute, ss);
            && (dev in hm.disks <==> exists i :: 0 <= i < |ss| && dev in ss[i].disks)
            && (dev in hm.disks ==> hm.disks[dev] == Round2(mean) && IsMeanOfThose(ss, BusyOf(dev), mean))
  {
    DeviceIsRead(ss, |ss|, dev);
    mean := 0.0;
    if dev in Devices(ss) { mean := AverageOfThose(ss, BusyOf(dev)); }
  }

  /** Some sample reads the value. */
  ghost predicate Reads(ss: seq<Sample>, f: Sample -> Option<real>, v: real) {
    exists i :: 0 <= i < |ss| && f(ss[i]) == Some(v)
  }

  lemma ReadsSnoc(ss: seq<Sample>, s: Sample, f: Sample -> Option<real>, v: real)
    ensures Reads(ss + [s], f, v) <==> Reads(ss, f, v) || f(s) == Some(v)
  {
    var more := ss + [s];
    if Reads(ss, f, v) {
      var i :| 0 <= i < |ss| && f(ss[i]) == Some(v);
      assert more[i] == ss[i];
    }
    assert more[|ss|] == s;
  }

  lemma {:induction false} ReadingsRead(ss: seq<Sample>, k: nat, f: Sample -> Option<real>, v: real)
    requires k <= |ss|
    ensures v in Readings(ss, k, f) <==> Reads(ss[..k], f, v)
  {
    if k > 0 {
      ReadingsRead(ss, k - 1, f, v);
      assert ss[..k] == ss[..k - 1] + [ss[k - 1]];
      ReadsSnoc(ss[..k - 1], ss[k - 1], f, v);
    }
  }

  lemma {:induction false} GreatestIsAttained(vs: seq<real>)
    ensures Greatest(vs) == 0.0 || Greatest(vs) in vs
  {
    if vs != [] { GreatestIsAttained(vs[..|vs| - 1]); }
  }

  /** `m` is the greatest of the readings there are, and of zero. */
  ghost predicate IsGreatestOfThose(ss: seq<Sample>, f: Sample -> Option<real>, m: real) {
    && m >= 0.0 && (m == 0.0 || Reads(ss, f, m))
    && forall v :: Reads(ss, f, v) ==> v <= m
  }

  lemma GreatestOfThose(ss: seq<Sample>, f: Sample -> Option<real>)
    ensures IsGreatestOfThose(ss, f, Greatest(Readings(ss, |ss|, f)))
  {
    var vs := Readings(ss, |ss|, f);
    assert ss[..|ss|] == ss;
    SumBelow(vs);
    GreatestIsAttained(vs);
    ReadingsRead(ss, |ss|, f, Greatest(vs));
    forall v | Reads(ss, f, v) ensures v <= Greatest(vs) {
      ReadingsRead(ss, |ss|, f, v);
    }
  }

  /** The memory pressure is there when some sample has a reading, and gives their rounded mean and their
      greatest, which is at least zero and not rounded. */
  lemma PressureFigures(minute: Time, ss: seq<Sample>) returns (mean: real)
    requires ss != []
    ensures var psi := EmitOf(minute, ss).psi;
            && (psi.Some? <==> Having(ss, MEM_SOME) > 0)
            && (psi.Some? ==>
                  && psi.value.memSomeAvg == Round2(mean) && IsMeanOfThose(ss, MEM_SOME, mean)
                  && IsGreatestOfThose(ss, MEM_SOME, psi.value.memSomeMax))
  {
    ReadingsAddUp(ss, |ss|, MEM_SOME);
    GreatestOfThose(ss, MEM_SOME);
    assert ss[..|ss|] == ss;
    mean := 0.0;
    if Readings(ss, |ss|, MEM_SOME) != [] { mean := AverageOfThose(ss, MEM_SOME); }
  }

  /** A sample belongs to the minute that began last before it. */
  lemma MinuteHolds(t: Time)
    ensures MinuteOf(t) <= t < MinuteOf(t) + MINUTE && MinuteOf(t) % MINUTE == 0
  {
    var q := t / MINUTE;
    assert t == q * MINUTE + t % MINUTE;
    assert MinuteOf(t) == q * MINUTE;
  }
}
