/** Consolidating bundles into one dataset (internal/analyzer/dataset.go). */
module Dataset {
  import opened Common
  import opened Records
  import opened Bundle
  import opened Sorting

  /** The records that satisfy `p`, in order. */
  function Where(rs: seq<Record>, p: Record -> bool): seq<Record> {
    if rs == [] then []
    else
      var init := Where(rs[..|rs| - 1], p);
      if p(rs[|rs| - 1]) then init + [rs[|rs| - 1]] else init
  }

  lemma {:induction false} WhereIs(rs: seq<Record>, p: Record -> bool)
    ensures forall r :: r in Where(rs, p) <==> r in rs && p(r)
  {
    if rs != [] {
      assert rs == rs[..|rs| - 1] + [rs[|rs| - 1]];
      WhereIs(rs[..|rs| - 1], p);
    }
  }

  // ---- minutes ----------------------------------------------------------------------------

  function TsOf(r: Record): int { r.ts }

  /** One record per timestamp of a sorted sequence: the first of each group of equals. */
  function DedupMinutes(s: seq<Record>): seq<Record> {
    if s == [] then []
    else
      var init := DedupMinutes(s[..|s| - 1]);
      if |s| > 1 && s[|s| - 1].ts == s[|s| - 2].ts then init else init + [s[|s| - 1]]
  }

  ghost predicate StrictlyIncreasing(s: seq<Record>) {
    forall i, j :: 0 <= i < j < |s| ==> s[i].ts < s[j].ts
  }

  ghost predicate HasTs(s: seq<Record>, t: Time) { exists r :: r in s && r.ts == t }

  /** Deduplication keeps every timestamp, exactly once, in order, with a record that was there. */
  lemma {:induction false} DedupIsExact(s: seq<Record>)
    requires SortedBy(s, TsOf)
    ensures StrictlyIncreasing(DedupMinutes(s))
    ensures forall t :: HasTs(DedupMinutes(s), t) <==> HasTs(s, t)
    ensures forall r :: r in DedupMinutes(s) ==> r in s
    ensures s != [] ==> DedupMinutes(s) != [] && DedupMinutes(s)[|DedupMinutes(s)| - 1].ts == s[|s| - 1].ts
  {
    if s != [] {
      var init, last := s[..|s| - 1], s[|s| - 1];
      assert s == init + [last];
      assert SortedBy(init, TsOf) by {
        forall i, j | 0 <= i < j < |init| ensures TsOf(init[i]) <= TsOf(init[j]) {
          assert TsOf(s[i]) <= TsOf(s[j]);
        }
      }
      DedupIsExact(init);
      var d, e := DedupMinutes(init), DedupMinutes(s);
      if init != [] { assert TsOf(s[|s| - 2]) <= TsOf(last); }
      forall t ensures HasTs(e, t) <==> HasTs(s, t) {
        assert HasTs(s, t) <==> HasTs(init, t) || last.ts == t;
        if e != d {
          assert HasTs(e, t) <==> HasTs(d, t) || last.ts == t;
        } else {
          assert HasTs(init, last.ts) by { assert init[|init| - 1] in init; }
        }
      }
    }
  }

  /** The filtering loop of normalize, over the very array it reads: although kept records overwrite
      the slice being scanned, each comparison still sees the original predecessor. */
  method DedupMinutesInPlace(a: array<Record>) returns (kept: nat)
    modifies a
    ensures kept <= a.Length && a[..kept] == DedupMinutes(old(a[..]))
  {
    ghost var was := a[..];
    kept := 0;
    for i := 0 to a.Length
      invariant kept <= i
      invariant a[..kept] == DedupMinutes(was[..i])
      invariant forall j :: kept <= j < a.Length ==> a[j] == was[j]
      invariant kept == i ==> a[..i] == was[..i]
    {
      assert was[..i + 1][..i] == was[..i];
      var m := a[i];
      assert i > 0 ==> a[i - 1] == was[i - 1];
      if i > 0 && m.ts == a[i - 1].ts {
        continue;
      }
      ghost var before := a[..kept];
      a[kept] := m;
      kept := kept + 1;
      assert a[..kept] == before + [m];
    }
    assert was[..a.Length] == was;
  }

  // ---- spikes -----------------------------------------------------------------------------

  function StartOf(r: Record): int { if r.body.SpikeEvent? then r.body.startTs else 0 }

  function IdOf(r: Record): string { if r.body.SpikeEvent? then r.body.eventId else "" }

  ghost predicate HasId(s: seq<Record>, id: string) { exists r :: r in s && IdOf(r) == id }

  /** The first event of each non-empty id, and every event without an id. */
  ghost function DedupSpikes(s: seq<Record>): seq<Record> {
    if s == [] then []
    else
      var init, last := s[..|s| - 1], s[|s| - 1];
      if IdOf(last) != "" && HasId(init, IdOf(last)) then DedupSpikes(init) else DedupSpikes(init) + [last]
  }

  const WITHOUT_ID: Record -> bool := (r: Record) => IdOf(r) == ""

  function Anonymous(s: seq<Record>): seq<Record> { Where(s, WITHOUT_ID) }

  lemma {:induction false} SpikesKept(s: seq<Record>)
    ensures forall r :: r in DedupSpikes(s) ==> r in s
    ensures forall id :: HasId(DedupSpikes(s), id) <==> HasId(s, id)
    ensures Anonymous(DedupSpikes(s)) == Anonymous(s)
  {
    if s != [] {
      var init, last := s[..|s| - 1], s[|s| - 1];
      assert s == init + [last];
      SpikesKept(init);
      var d, e := DedupSpikes(init), DedupSpikes(s);
      forall id ensures HasId(e, id) <==> HasId(s, id) {
        assert HasId(s, id) <==> HasId(init, id) || IdOf(last) == id;
        if e != d {
          assert HasId(e, id) <==> HasId(d, id) || IdOf(last) == id;
        }
      }
      if e == d + [last] {
        assert e[..|d|] == d;
      }
    }
  }

  lemma {:induction false} SpikesOrdered(s: seq<Record>)
    requires SortedBy(s, StartOf)
    ensures SortedBy(DedupSpikes(s), StartOf) && UniqueIds(DedupSpikes(s), IdOf)
  {
    if s != [] {
      var init, last := s[..|s| - 1], s[|s| - 1];
      assert s == init + [last];
      SortedInit(s, StartOf);
      SpikesOrdered(init);
      SpikesKept(init);
      var d := DedupSpikes(init);
      forall r | r in d ensures r in s {
        assert r in init;
      }
      if DedupSpikes(s) == d + [last] {
        SortedSnoc(d, last, StartOf);
        forall i | 0 <= i < |d| ensures IdOf(d[i]) == "" || IdOf(d[i]) != IdOf(last) {
          assert HasId(d, IdOf(d[i]));
        }
      }
    }
  }

  /** Exactly one event per non-empty id survives, in start order; all events without an id do. */
  lemma SpikesAreExact(s: seq<Record>)
    requires SortedBy(s, StartOf)
    ensures SortedBy(DedupSpikes(s), StartOf) && UniqueIds(DedupSpikes(s), IdOf)
    ensures forall r :: r in DedupSpikes(s) ==> r in s
    ensures forall id :: HasId(DedupSpikes(s), id) <==> HasId(s, id)
    ensures Anonymous(DedupSpikes(s)) == Anonymous(s)
  {
    SpikesKept(s);
    SpikesOrdered(s);
  }

  lemma HasIdSnoc(s: seq<Record>, r: Record)
    ensures forall id :: HasId(s + [r], id) <==> HasId(s, id) || id == IdOf(r)
  {
    forall id ensures HasId(s + [r], id) <==> HasId(s, id) || id == IdOf(r) {
      assert r in s + [r];
    }
  }

  method DedupSpikesInPlace(a: array<Record>) returns (kept: nat)
    modifies a
    ensures kept <= a.Length && a[..kept] == DedupSpikes(old(a[..]))
  {
    ghost var was := a[..];
    var seen: set<string> := {};
    kept := 0;
    for i := 0 to a.Length
      invariant kept <= i
      invariant a[..kept] == DedupSpikes(was[..i])
      invariant forall j :: i <= j < a.Length ==> a[j] == was[j]
      invariant forall id :: id in seen <==> HasId(was[..i], id)
    {
      assert was[..i + 1][..i] == was[..i];
      var s := a[i];
      HasIdSnoc(was[..i], s);
      assert was[..i] + [s] == was[..i + 1];
      if IdOf(s) != "" && IdOf(s) in seen {
        continue;
      }
      seen := seen + {IdOf(s)};
      ghost var before := a[..kept];
      a[kept] := s;
      kept := kept + 1;
      assert a[..kept] == before + [s];
    }
    assert was[..a.Length] == was;
  }

  // ---- decoding and loading ---------------------------------------------------------------

  /** What one host's records decode into. */
  datatype Content = Content(
    inventory: Option<Record>, minutes: seq<Record>, spikes: seq<Record>, sqlInventories: map<string, Record>,
    sqlSamples: map<string, seq<Record>>, health: seq<Record>, procTops: seq<Record>,
    schedules: seq<Record>, sqlSpikes: seq<Record>)

  datatype Host = Host(content: Content, manifests: seq<Manifest>, problems: seq<SegmentResult>)

  const EMPTY_CONTENT := Content(None, [], [], map[], map[], [], [], [], [])

  function SamplesOf(c: Content, k: string): seq<Record> { if k in c.sqlSamples then c.sqlSamples[k] else [] }

  function SqlInventoryOf(c: Content, k: string): Option<Record> {
    if k in c.sqlInventories then Some(c.sqlInventories[k]) else None
  }

  /** decodeInto. */
  function Decode(c: Content, r: Record): Content {
    match r.body
    case Inventory(_) => if c.inventory.None? || r.ts > c.inventory.value.ts then c.(inventory := Some(r)) else c
    case HostMinute(_) => c.(minutes := c.minutes + [r])
    case SpikeEvent(_, _, _) => c.(spikes := c.spikes + [r])
    case SqlInventory(k, _) =>
      if k !in c.sqlInventories || r.ts > c.sqlInventories[k].ts then c.(sqlInventories := c.sqlInventories[k := r]) else c
    case SqlSample(k, _) => c.(sqlSamples := c.sqlSamples[k := SamplesOf(c, k) + [r]])
    case Health(_) => c.(health := c.health + [r])
    case ProcTop(_) => c.(procTops := c.procTops + [r])
    case Schedule(_) => c.(schedules := c.schedules + [r])
    case SqlSpike(_) => c.(sqlSpikes := c.sqlSpikes + [r])
  }

  function Contents(rs: seq<Record>): Content {
    if rs == [] then EMPTY_CONTENT else Decode(Contents(rs[..|rs| - 1]), rs[|rs| - 1])
  }

  const IS_MINUTE: Record -> bool := (r: Record) => r.body.HostMinute?
  const IS_SPIKE: Record -> bool := (r: Record) => r.body.SpikeEvent?
  const IS_INVENTORY: Record -> bool := (r: Record) => r.body.Inventory?
  const IS_HEALTH: Record -> bool := (r: Record) => r.body.Health?
  const IS_PROC_TOP: Record -> bool := (r: Record) => r.body.ProcTop?
  const IS_SCHEDULE: Record -> bool := (r: Record) => r.body.Schedule?
  const IS_SQL_SPIKE: Record -> bool := (r: Record) => r.body.SqlSpike?

  /** The newest of `invs`, and of equally new ones the first. */
  ghost predicate IsLatest(invs: seq<Record>, latest: Option<Record>) {
    match latest
    case None => invs == []
    case Some(v) => exists i :: 0 <= i < |invs| && LatestAt(invs, i, v)
  }

  ghost predicate LatestAt(invs: seq<Record>, i: nat, v: Record)
    requires i < |invs|
  {
    && invs[i] == v
    && (forall j :: 0 <= j < i ==> invs[j].ts < v.ts)
    && (forall j :: i < j < |invs| ==> invs[j].ts <= v.ts)
  }

  function IsSqlInventory(k: string): Record -> bool { (r: Record) => r.body.SqlInventory? && r.body.instance == k }

  function IsSqlSample(k: string): Record -> bool { (r: Record) => r.body.SqlSample? && r.body.instance == k }

  ghost predicate InstanceIsExact(c: Content, rs: seq<Record>, k: string) {
    && IsLatest(Where(rs, IsSqlInventory(k)), SqlInventoryOf(c, k))
    && SamplesOf(c, k) == Where(rs, IsSqlSample(k))
  }

  /** A collection that decoding extends by exactly the records that satisfy `p`. */
  ghost predicate Collects(get: Content -> seq<Record>, p: Record -> bool) {
    && get(EMPTY_CONTENT) == []
    && forall c, r :: get(Decode(c, r)) == if p(r) then get(c) + [r] else get(c)
  }

  lemma {:induction false} CollectionIs(get: Content -> seq<Record>, p: Record -> bool, rs: seq<Record>)
    requires Collects(get, p)
    ensures get(Contents(rs)) == Where(rs, p)
  {
    if rs != [] { CollectionIs(get, p, rs[..|rs| - 1]); }
  }

  lemma MinutesAre(rs: seq<Record>)
    ensures Contents(rs).minutes == Where(rs, IS_MINUTE)
  {
    CollectionIs((c: Content) => c.minutes, IS_MINUTE, rs);
  }

  lemma SpikesAre(rs: seq<Record>)
    ensures Contents(rs).spikes == Where(rs, IS_SPIKE)
  {
    CollectionIs((c: Content) => c.spikes, IS_SPIKE, rs);
  }

  lemma HealthIs(rs: seq<Record>)
    ensures Contents(rs).health == Where(rs, IS_HEALTH)
  {
    CollectionIs((c: Content) => c.health, IS_HEALTH, rs);
  }

  lemma ProcTopsAre(rs: seq<Record>)
    ensures Contents(rs).procTops == Where(rs, IS_PROC_TOP)
  {
    CollectionIs((c: Content) => c.procTops, IS_PROC_TOP, rs);
  }

  lemma SchedulesAre(rs: seq<Record>)
    ensures Contents(rs).schedules == Where(rs, IS_SCHEDULE)
  {
    CollectionIs((c: Content) => c.schedules, IS_SCHEDULE, rs);
  }

  lemma SqlSpikesAre(rs: seq<Record>)
    ensures Contents(rs).sqlSpikes == Where(rs, IS_SQL_SPIKE)
  {
    CollectionIs((c: Content) => c.sqlSpikes, IS_SQL_SPIKE, rs);
  }

  lemma {:induction false} InventoryIsLatest(rs: seq<Record>)
    ensures IsLatest(Where(rs, IS_INVENTORY), Contents(rs).inventory)
  {
    if rs != [] {
      var init, last := rs[..|rs| - 1], rs[|rs| - 1];
      InventoryIsLatest(init);
      if last.body.Inventory? { LatestSnoc(Where(init, IS_INVENTORY), Contents(init).inventory, last); }
    }
  }

  lemma {:induction false} InstancesAreExact(rs: seq<Record>, k: string)
    ensures InstanceIsExact(Contents(rs), rs, k)
  {
    if rs != [] {
      var init, last := rs[..|rs| - 1], rs[|rs| - 1];
      InstancesAreExact(init, k);
      if IsSqlInventory(k)(last) {
        LatestSnoc(Where(init, IsSqlInventory(k)), SqlInventoryOf(Contents(init), k), last);
      }
    }
  }

  /** Every record lands in its own collection, in the order of reading and as often as it is read;
      of the inventories the latest stays, the first of equally late ones, for the host and for each
      SQL instance. */
  lemma ContentsAreExact(rs: seq<Record>)
    ensures Contents(rs).minutes == Where(rs, IS_MINUTE) && Contents(rs).spikes == Where(rs, IS_SPIKE)
    ensures Contents(rs).health == Where(rs, IS_HEALTH) && Contents(rs).procTops == Where(rs, IS_PROC_TOP)
    ensures Contents(rs).schedules == Where(rs, IS_SCHEDULE) && Contents(rs).sqlSpikes == Where(rs, IS_SQL_SPIKE)
    ensures IsLatest(Where(rs, IS_INVENTORY), Contents(rs).inventory)
    ensures forall k :: InstanceIsExact(Contents(rs), rs, k)
  {
    MinutesAre(rs);
    SpikesAre(rs);
    HealthIs(rs);
    ProcTopsAre(rs);
    SchedulesAre(rs);
    SqlSpikesAre(rs);
    InventoryIsLatest(rs);
    forall k ensures InstanceIsExact(Contents(rs), rs, k) {
      InstancesAreExact(rs, k);
    }
  }

  lemma LatestSnoc(invs: seq<Record>, latest: Option<Record>, r: Record)
    requires IsLatest(invs, latest)
    ensures IsLatest(invs + [r], if latest.None? || r.ts > latest.value.ts then Some(r) else latest)
  {
    var all := invs + [r];
    if latest.Some? {
      var i :| 0 <= i < |invs| && LatestAt(invs, i, latest.value);
      if r.ts > latest.value.ts {
        assert LatestAt(all, |invs|, r);
      } else {
        assert LatestAt(all, i, latest.value);
      }
    } else {
      assert LatestAt(all, 0, r);
    }
  }

  lemma MinutesAreExact(rs: seq<Record>)
    ensures forall r :: r in Contents(rs).minutes <==> r in rs && r.body.HostMinute?
  {
    MinutesAre(rs);
    WhereIs(rs, IS_MINUTE);
  }

  function AcceptedRecords(segments: seq<SegmentResult>): seq<Record> {
    if segments == [] then []
    else AcceptedRecords(segments[..|segments| - 1])
         + if Accepted(segments[|segments| - 1]) then segments[|segments| - 1].records else []
  }

  /** The segments that are reported as problems. */
  function Damaged(segments: seq<SegmentResult>): seq<SegmentResult> {
    if segments == [] then []
    else Damaged(segments[..|segments| - 1])
         + if segments[|segments| - 1].status != StatusOk then [segments[|segments| - 1]] else []
  }

  predicate Intact(segments: seq<SegmentResult>) { forall j :: 0 <= j < |segments| ==> segments[j].status == StatusOk }

  predicate BelongsTo(r: ImportResult, host: string) {
    r.fatal == NoFatal && r.manifest.Some? && r.manifest.value.hostId == host
  }

  ghost predicate Appears(results: seq<ImportResult>, host: string) {
    exists i :: 0 <= i < |results| && BelongsTo(results[i], host)
  }

  /** All records that a list of imported bundles holds for one host. */
  function Gathered(results: seq<ImportResult>, host: string): seq<Record> {
    if results == [] then []
    else
      var last := results[|results| - 1];
      Gathered(results[..|results| - 1], host) + if BelongsTo(last, host) then AcceptedRecords(last.segments) else []
  }

  /** Their manifests, and their damaged segments. */
  function Manifests(results: seq<ImportResult>, host: string): seq<Manifest> {
    if results == [] then []
    else
      var last := results[|results| - 1];
      Manifests(results[..|results| - 1], host) + if BelongsTo(last, host) then [last.manifest.value] else []
  }

  function Problems(results: seq<ImportResult>, host: string): seq<SegmentResult> {
    if results == [] then []
    else
      var last := results[|results| - 1];
      Problems(results[..|results| - 1], host) + if BelongsTo(last, host) then Damaged(last.segments) else []
  }

  function ImportAll(files: seq<BundleFile>, identities: set<Key>): (rs: seq<ImportResult>)
    ensures |rs| == |files| && forall i :: 0 <= i < |files| ==> rs[i] == Imported(files[i], identities)
  {
    seq(|files|, i requires 0 <= i < |files| => Imported(files[i], identities))
  }

  /** `t` is `s` in order of time. */
  ghost predicate SortedOf(s: seq<Record>, t: seq<Record>) { SortedBy(t, TsOf) && multiset(t) == multiset(s) }

  /** What normalize makes of one host's decoded records. */
  ghost predicate Normalized(c: Content, d: Content) {
    && d.inventory == c.inventory && d.sqlInventories == c.sqlInventories
    && d.procTops == c.procTops && d.schedules == c.schedules && d.sqlSpikes == c.sqlSpikes
    && SortedOf(c.health, d.health)
    && d.sqlSamples.Keys == c.sqlSamples.Keys
    && (forall k :: k in d.sqlSamples ==> SortedOf(c.sqlSamples[k], d.sqlSamples[k]))
    && StrictlyIncreasing(d.minutes)
    && (forall t :: HasTs(d.minutes, t) <==> HasTs(c.minutes, t))
    && (forall r :: r in d.minutes ==> r in c.minutes)
    && SortedBy(d.spikes, StartOf) && UniqueIds(d.spikes, IdOf)
    && (forall id :: HasId(d.spikes, id) <==> HasId(c.spikes, id))
    && (forall r :: r in d.spikes ==> r in c.spikes)
    && multiset(Anonymous(d.spikes)) == multiset(Anonymous(c.spikes))
  }

  ghost predicate NormalizedHost(h: Host, g: Host) {
    Normalized(h.content, g.content) && g.manifests == h.manifests && g.problems == h.problems
  }

  lemma PermutedTs(s: seq<Record>, t: seq<Record>)
    requires multiset(s) == multiset(t)
    ensures forall r :: r in s <==> r in t
    ensures forall x :: HasTs(s, x) <==> HasTs(t, x)
    ensures forall id :: HasId(s, id) <==> HasId(t, id)
  {
    forall r ensures r in s <==> r in t {
      assert r in s <==> r in multiset(s);
      assert r in t <==> r in multiset(t);
    }
  }

  lemma {:induction false} AnonymousCount(s: seq<Record>, r: Record)
    ensures multiset(Anonymous(s))[r] == if IdOf(r) == "" then multiset(s)[r] else 0
  {
    if s != [] {
      var init, last := s[..|s| - 1], s[|s| - 1];
      assert s == init + [last];
      AnonymousCount(init, r);
    }
  }

  lemma PermutedAnonymous(s: seq<Record>, t: seq<Record>)
    requires multiset(s) == multiset(t)
    ensures multiset(Anonymous(s)) == multiset(Anonymous(t))
  {
    forall r ensures multiset(Anonymous(s))[r] == multiset(Anonymous(t))[r] {
      AnonymousCount(s, r);
      AnonymousCount(t, r);
    }
  }

  method NormalizeMinutes(minutes: seq<Record>) returns (out: seq<Record>)
    ensures StrictlyIncreasing(out)
    ensures forall t :: HasTs(out, t) <==> HasTs(minutes, t)
    ensures forall r :: r in out ==> r in minutes
  {
    var a := new Record[|minutes|](i requires 0 <= i < |minutes| => minutes[i]);
    assert a[..] == minutes;
    SortSlice(a, TsOf);
    PermutedTs(a[..], minutes);
    DedupIsExact(a[..]);
    var kept := DedupMinutesInPlace(a);
    out := a[..kept];
  }

  method NormalizeSpikes(spikes: seq<Record>) returns (out: seq<Record>)
    ensures SortedBy(out, StartOf) && UniqueIds(out, IdOf)
    ensures forall id :: HasId(out, id) <==> HasId(spikes, id)
    ensures forall r :: r in out ==> r in spikes
    ensures multiset(Anonymous(out)) == multiset(Anonymous(spikes))
  {
    var a := new Record[|spikes|](i requires 0 <= i < |spikes| => spikes[i]);
    assert a[..] == spikes;
    SortSlice(a, StartOf);
    PermutedTs(a[..], spikes);
    PermutedAnonymous(a[..], spikes);
    SpikesAreExact(a[..]);
    var kept := DedupSpikesInPlace(a);
    out := a[..kept];
  }

  method SortByTime(s: seq<Record>) returns (t: seq<Record>)
    ensures SortedOf(s, t)
  {
    var a := new Record[|s|](i requires 0 <= i < |s| => s[i]);
    assert a[..] == s;
    SortSlice(a, TsOf);
    t := a[..];
  }

  method NormalizeSamples(samples: map<string, seq<Record>>) returns (out: map<string, seq<Record>>)
    ensures out.Keys == samples.Keys && forall k :: k in out ==> SortedOf(samples[k], out[k])
  {
    out := samples;
    var rest := samples.Keys;
    while rest != {}
      invariant rest <= out.Keys == samples.Keys
      invariant forall k :: k in rest ==> out[k] == samples[k]
      invariant forall k :: k in out && k !in rest ==> SortedOf(samples[k], out[k])
    {
      var k :| k in rest;
      var sorted := SortByTime(out[k]);
      out := out[k := sorted];
      rest := rest - {k};
    }
  }

  /** normalize. */
  method Normalize(c: Content) returns (d: Content)
    ensures Normalized(c, d)
  {
    var minutes := NormalizeMinutes(c.minutes);
    var spikes := NormalizeSpikes(c.spikes);
    var samples := NormalizeSamples(c.sqlSamples);
    var health := SortByTime(c.health);
    d := c.(minutes := minutes, spikes := spikes, sqlSamples := samples, health := health);
  }

  /** The three ways in which a bundle counts. */
  const IS_OK: ImportResult -> bool := (r: ImportResult) => r.fatal == NoFatal && Intact(r.segments)
  const IS_PARTIAL: ImportResult -> bool := (r: ImportResult) => r.fatal == NoFatal && !Intact(r.segments)
  const IS_REJECTED: ImportResult -> bool := (r: ImportResult) => r.fatal != NoFatal

  function Count(results: seq<ImportResult>, p: ImportResult -> bool): nat {
    if results == [] then 0
    else Count(results[..|results| - 1], p) + if p(results[|results| - 1]) then 1 else 0
  }

  datatype Warning = BundleRejected(why: Fatal) | BundleDamaged(host: string)

  /** A warning for every bundle that is not ok, in the order of loading. */
  function Warnings(results: seq<ImportResult>): seq<Warning> {
    if results == [] then []
    else
      var last := results[|results| - 1];
      Warnings(results[..|results| - 1])
      + if last.fatal != NoFatal then [BundleRejected(last.fatal)]
        else if last.manifest.Some? && !Intact(last.segments) then [BundleDamaged(last.manifest.value.hostId)]
        else []
  }

  /** Every bundle counts in exactly one way. */
  lemma {:induction false} CountsAddUp(results: seq<ImportResult>)
    ensures Count(results, IS_OK) + Count(results, IS_PARTIAL) + Count(results, IS_REJECTED) == |results|
  {
    if results != [] { CountsAddUp(results[..|results| - 1]); }
  }

  lemma CountSnoc(before: seq<ImportResult>, res: ImportResult, p: ImportResult -> bool)
    ensures Count(before + [res], p) == Count(before, p) + if p(res) then 1 else 0
  {
    assert (before + [res])[..|before|] == before;
  }

  /** The loader's counters and warnings. */
  datatype Tally = Tally(bundles: nat, ok: nat, partial: nat, rejected: nat, warnings: seq<Warning>)

  function TallyOf(results: seq<ImportResult>): Tally {
    Tally(|results|, Count(results, IS_OK), Count(results, IS_PARTIAL), Count(results, IS_REJECTED), Warnings(results))
  }

  lemma TallySnoc(before: seq<ImportResult>, res: ImportResult)
    ensures var t, n := TallyOf(before), TallyOf(before + [res]);
            && n.bundles == t.bundles + 1
            && n.ok == t.ok + (if IS_OK(res) then 1 else 0)
            && n.partial == t.partial + (if IS_PARTIAL(res) then 1 else 0)
            && n.rejected == t.rejected + (if IS_REJECTED(res) then 1 else 0)
            && n.warnings == Warnings(before + [res])
  {
    CountSnoc(before, res, IS_OK);
    CountSnoc(before, res, IS_PARTIAL);
    CountSnoc(before, res, IS_REJECTED);
  }

  lemma WarningsSnoc(before: seq<ImportResult>, res: ImportResult)
    ensures res.fatal != NoFatal ==> Warnings(before + [res]) == Warnings(before) + [BundleRejected(res.fatal)]
    ensures IS_OK(res) ==> Warnings(before + [res]) == Warnings(before)
    ensures IS_PARTIAL(res) && res.manifest.Some? ==>
              Warnings(before + [res]) == Warnings(before) + [BundleDamaged(res.manifest.value.hostId)]
  {
    assert (before + [res])[..|before|] == before;
  }

  /** How one bundle changes the counters. */
  function Tallied(t: Tally, res: ImportResult): Tally
    requires res.fatal == NoFatal ==> res.manifest.Some?
  {
    if res.fatal != NoFatal then
      t.(bundles := t.bundles + 1, rejected := t.rejected + 1, warnings := t.warnings + [BundleRejected(res.fatal)])
    else if Intact(res.segments) then t.(bundles := t.bundles + 1, ok := t.ok + 1)
    else t.(bundles := t.bundles + 1, partial := t.partial + 1,
            warnings := t.warnings + [BundleDamaged(res.manifest.value.hostId)])
  }

  lemma TalliedIs(before: seq<ImportResult>, res: ImportResult)
    requires res.fatal == NoFatal ==> res.manifest.Some?
    ensures Tallied(TallyOf(before), res) == TallyOf(before + [res])
  {
    TallySnoc(before, res);
    WarningsSnoc(before, res);
  }

  /** What loading knows of one host, before it is normalized. */
  function HostOf(results: seq<ImportResult>, host: string): Host {
    Host(Contents(Gathered(results, host)), Manifests(results, host), Problems(results, host))
  }

  /** The map has the keys that satisfy `has`, with the values of `f`. */
  ghost predicate Tabulates<V>(m: map<string, V>, has: string -> bool, f: string -> V) {
    forall h :: (h in m <==> has(h)) && (h in m ==> m[h] == f(h))
  }

  ghost predicate HostsAre(hosts: map<string, Host>, results: seq<ImportResult>) {
    Tabulates(hosts, h => Appears(results, h), h => HostOf(results, h))
  }

  lemma TabulatesMore<V>(m: map<string, V>, has0: string -> bool, f0: string -> V, has: string -> bool, f: string -> V, id: string)
    requires Tabulates(m, has0, f0)
    requires forall h :: (has(h) <==> has0(h) || h == id) && (h != id ==> f(h) == f0(h))
    ensures Tabulates(m[id := f(id)], has, f)
  {
  }

  lemma OthersStay(before: seq<ImportResult>, res: ImportResult, h: string)
    ensures Appears(before + [res], h) <==> Appears(before, h) || BelongsTo(res, h)
    ensures !BelongsTo(res, h) ==> HostOf(before + [res], h) == HostOf(before, h)
  {
    BelongingSnoc(before, res);
  }

  lemma HostsAfter(hosts: map<string, Host>, before: seq<ImportResult>, res: ImportResult)
    requires HostsAre(hosts, before)
    ensures res.fatal != NoFatal ==> HostsAre(hosts, before + [res])
    ensures res.fatal == NoFatal && res.manifest.Some? ==>
              var id := res.manifest.value.hostId;
              HostsAre(hosts[id := HostOf(before + [res], id)], before + [res])
  {
    var has0, f0 := (h: string) => Appears(before, h), (h: string) => HostOf(before, h);
    var has, f := (h: string) => Appears(before + [res], h), (h: string) => HostOf(before + [res], h);
    forall h ensures (has(h) <==> has0(h) || BelongsTo(res, h)) && (!BelongsTo(res, h) ==> f(h) == f0(h)) {
      OthersStay(before, res, h);
    }
    if res.fatal == NoFatal && res.manifest.Some? {
      TabulatesMore(hosts, has0, f0, has, f, res.manifest.value.hostId);
    } else {
      assert Tabulates(hosts, has0, f0) && Tabulates(hosts, has, f);
    }
  }

  /** Dataset, as the loader updates it in place. */
  class Dataset {
    var hosts: map<string, Host>
    var bundles: nat
    var okBundles: nat
    var partialBundles: nat
    var rejectedBundles: nat
    var warnings: seq<Warning>

    constructor ()
      ensures hosts == map[] && Tallies() == TallyOf([])
    {
      hosts, warnings := map[], [];
      bundles, okBundles, partialBundles, rejectedBundles := 0, 0, 0, 0;
    }

    ghost predicate Holds(results: seq<ImportResult>)
      reads this
    {
      HostsAre(hosts, results) && Tallies() == TallyOf(results)
    }

    function Tallies(): Tally
      reads this
    {
      Tally(bundles, okBundles, partialBundles, rejectedBundles, warnings)
    }

    /** One bundle of the loading loop. */
    method AddBundle(res: ImportResult, ghost before: seq<ImportResult>)
      requires Holds(before)
      requires res.fatal == NoFatal ==> res.manifest.Some?
      modifies this
      ensures Holds(before + [res])
    {
      HostsAfter(hosts, before, res);
      TalliedIs(before, res);
      var partial := false;
      if res.fatal == NoFatal {
        var h;
        h, partial := AddToHost(hosts, res, before);
        hosts := hosts[res.manifest.value.hostId := h];
      }
      CountBundle(res, partial);
    }

    /** The counters and warnings of one bundle. */
    method CountBundle(res: ImportResult, partial: bool)
      requires res.fatal == NoFatal ==> res.manifest.Some? && (!partial <==> Intact(res.segments))
      modifies this`bundles, this`okBundles, this`partialBundles, this`rejectedBundles, this`warnings
      ensures Tallies() == Tallied(old(Tallies()), res)
    {
      bundles := bundles + 1;
      if res.fatal != NoFatal {
        rejectedBundles := rejectedBundles + 1;
        warnings := warnings + [BundleRejected(res.fatal)];
      } else if partial {
        partialBundles := partialBundles + 1;
        warnings := warnings + [BundleDamaged(res.manifest.value.hostId)];
      } else {
        okBundles := okBundles + 1;
      }
    }

    /** The host of the bundle, with the records of the bundle added. */
    static method AddToHost(hosts: map<string, Host>, res: ImportResult, ghost before: seq<ImportResult>)
      returns (h: Host, partial: bool)
      requires HostsAre(hosts, before) && res.fatal == NoFatal && res.manifest.Some?
      ensures h == HostOf(before + [res], res.manifest.value.hostId)
      ensures !partial <==> Intact(res.segments)
    {
      var id := res.manifest.value.hostId;
      StartsEmpty(hosts, before, id);
      HostGrows(before, res);
      h := if id in hosts then hosts[id] else Host(EMPTY_CONTENT, [], []);
      h, partial := AddSegments(h.(manifests := h.manifests + [res.manifest.value]), res.segments, Gathered(before, id));
    }

    static method AddSegments(h0: Host, segments: seq<SegmentResult>, ghost start: seq<Record>)
      returns (h: Host, partial: bool)
      requires h0.content == Contents(start)
      ensures h == Host(Contents(start + AcceptedRecords(segments)), h0.manifests, h0.problems + Damaged(segments))
      ensures !partial <==> Intact(segments)
    {
      h, partial := h0, false;
      ghost var sofar := start;
      for i := 0 to |segments|
        invariant sofar == start + AcceptedRecords(segments[..i])
        invariant h == Host(Contents(sofar), h0.manifests, h0.problems + Damaged(segments[..i]))
        invariant !partial <==> Intact(segments[..i])
      {
        h := AddSegment(h, segments[i], sofar);
        sofar := if Accepted(segments[i]) then sofar + segments[i].records else sofar;
        AcceptedOneMore(start, segments, i);
        DamagedOneMore(h0.problems, segments, i);
        IntactOneMore(segments, i);
        partial := partial || segments[i].status != StatusOk;
      }
      assert segments[..|segments|] == segments;
    }

    static lemma IntactOneMore(segments: seq<SegmentResult>, i: nat)
      requires i < |segments|
      ensures Intact(segments[..i + 1]) <==> Intact(segments[..i]) && segments[i].status == StatusOk
    {
      assert segments[..i + 1] == segments[..i] + [segments[i]];
    }

    static lemma AcceptedOneMore(start: seq<Record>, segments: seq<SegmentResult>, i: nat)
      requires i < |segments|
      ensures start + AcceptedRecords(segments[..i + 1])
           == start + AcceptedRecords(segments[..i]) + if Accepted(segments[i]) then segments[i].records else []
      ensures start + AcceptedRecords(segments[..i]) + [] == start + AcceptedRecords(segments[..i])
    {
      assert segments[..i + 1][..i] == segments[..i];
    }

    static lemma DamagedOneMore(start: seq<SegmentResult>, segments: seq<SegmentResult>, i: nat)
      requires i < |segments|
      ensures start + Damaged(segments[..i + 1])
           == if segments[i].status != StatusOk then start + Damaged(segments[..i]) + [segments[i]] else start + Damaged(segments[..i])
    {
      assert segments[..i + 1][..i] == segments[..i];
    }

    static method AddSegment(h0: Host, seg: SegmentResult, ghost sofar: seq<Record>) returns (h: Host)
      requires h0.content == Contents(sofar)
      ensures h.content == Contents(if Accepted(seg) then sofar + seg.records else sofar) && h.manifests == h0.manifests
      ensures h.problems == if seg.status != StatusOk then h0.problems + [seg] else h0.problems
    {
      h := h0;
      if seg.status != StatusOk {
        h := h.(problems := h.problems + [seg]);
      }
      if seg.status == StatusOk || seg.status == TruncatedRecords {
        var c := DecodeAll(h.content, seg.records, sofar);
        h := h.(content := c);
      }
    }

    static method DecodeAll(c: Content, recs: seq<Record>, ghost sofar: seq<Record>) returns (d: Content)
      requires c == Contents(sofar)
      ensures d == Contents(sofar + recs)
    {
      d := c;
      assert sofar + recs[..0] == sofar;
      for i := 0 to |recs|
        invariant d == Contents(sofar + recs[..i])
      {
        assert (sofar + recs[..i + 1])[..|sofar| + i] == sofar + recs[..i];
        d := Decode(d, recs[i]);
      }
      assert recs[..|recs|] == recs;
    }

    /** normalize for every host. */
    method NormalizeAll()
      modifies this`hosts
      ensures hosts.Keys == old(hosts).Keys
      ensures forall h :: h in hosts ==> NormalizedHost(old(hosts)[h], hosts[h])
    {
      hosts := NormalizeHosts(hosts);
    }

    static method NormalizeHosts(was: map<string, Host>) returns (hosts: map<string, Host>)
      ensures hosts.Keys == was.Keys
      ensures forall h :: h in hosts ==> NormalizedHost(was[h], hosts[h])
    {
      hosts := was;
      var rest := hosts.Keys;
      while rest != {}
        invariant rest <= hosts.Keys == was.Keys
        invariant forall h :: h in rest ==> hosts[h] == was[h]
        invariant forall h :: h in was && h !in rest ==> NormalizedHost(was[h], hosts[h])
      {
        var id :| id in rest;
        var h := NormalizeHost(hosts[id]);
        hosts := hosts[id := h];
        rest := rest - {id};
      }
    }

    static method NormalizeHost(h: Host) returns (g: Host)
      ensures NormalizedHost(h, g)
    {
      var d := Normalize(h.content);
      g := h.(content := d);
    }
  }

  lemma BelongingSnoc(before: seq<ImportResult>, res: ImportResult)
    ensures forall h :: Appears(before + [res], h) <==> Appears(before, h) || BelongsTo(res, h)
    ensures forall h :: Gathered(before + [res], h)
                     == if BelongsTo(res, h) then Gathered(before, h) + AcceptedRecords(res.segments) else Gathered(before, h)
    ensures forall h :: Manifests(before + [res], h)
                     == if BelongsTo(res, h) then Manifests(before, h) + [res.manifest.value] else Manifests(before, h)
    ensures forall h :: Problems(before + [res], h)
                     == if BelongsTo(res, h) then Problems(before, h) + Damaged(res.segments) else Problems(before, h)
  {
    var all := before + [res];
    assert all[..|before|] == before;
    forall h ensures Appears(all, h) <==> Appears(before, h) || BelongsTo(res, h) {
      if i :| 0 <= i < |before| && BelongsTo(before[i], h) {
        assert BelongsTo(all[i], h);
      }
      if BelongsTo(res, h) {
        assert BelongsTo(all[|before|], h);
      }
    }
  }

  lemma {:induction false} NothingGathered(results: seq<ImportResult>, host: string)
    requires !Appears(results, host)
    ensures Gathered(results, host) == [] && Manifests(results, host) == [] && Problems(results, host) == []
  {
    if results != [] {
      assert !BelongsTo(results[|results| - 1], host);
      assert Appears(results[..|results| - 1], host) ==> Appears(results, host);
      NothingGathered(results[..|results| - 1], host);
    }
  }

  lemma StartsEmpty(hosts: map<string, Host>, results: seq<ImportResult>, id: string)
    requires HostsAre(hosts, results)
    ensures HostOf(results, id) == if id in hosts then hosts[id] else Host(EMPTY_CONTENT, [], [])
  {
    if id !in hosts { NothingGathered(results, id); }
  }

  lemma HostGrows(before: seq<ImportResult>, res: ImportResult)
    requires res.fatal == NoFatal && res.manifest.Some?
    ensures var id := res.manifest.value.hostId;
            HostOf(before + [res], id)
            == Host(Contents(Gathered(before, id) + AcceptedRecords(res.segments)),
                    Manifests(before, id) + [res.manifest.value], Problems(before, id) + Damaged(res.segments))
  {
    BelongingSnoc(before, res);
  }

  /** The hosts that appear, each with the normalized records of its accepted segments, its manifests
      and its damaged segments. */
  ghost predicate NormalizedHosts(hosts: map<string, Host>, results: seq<ImportResult>) {
    && (forall h :: h in hosts <==> Appears(results, h))
    && forall h :: h in hosts ==>
         && Normalized(Contents(Gathered(results, h)), hosts[h].content)
         && hosts[h].manifests == Manifests(results, h) && hosts[h].problems == Problems(results, h)
  }

  lemma AreNormalized(was: map<string, Host>, hosts: map<string, Host>, results: seq<ImportResult>)
    requires HostsAre(was, results) && hosts.Keys == was.Keys
    requires forall h :: h in hosts ==> NormalizedHost(was[h], hosts[h])
    ensures NormalizedHosts(hosts, results)
  {
    forall h | h in hosts
      ensures Normalized(Contents(Gathered(results, h)), hosts[h].content)
      ensures hosts[h].manifests == Manifests(results, h) && hosts[h].problems == Problems(results, h)
    {
      assert was[h] == HostOf(results, h);
    }
  }

  /** The loading loop. */
  method Gather(files: seq<BundleFile>, identities: set<Key>) returns (ds: Dataset)
    ensures fresh(ds) && ds.Holds(ImportAll(files, identities))
  {
    ds := new Dataset();
    ghost var results := ImportAll(files, identities);
    for i := 0 to |files|
      invariant fresh(ds) && ds.Holds(results[..i])
    {
      var res := Import(files[i], identities);
      assert results[..i] + [res] == results[..i + 1];
      ds.AddBundle(res, results[..i]);
    }
    assert results[..|files|] == results;
  }

  /** LoadBundles; `None` when there is no bundle at all. */
  method LoadBundles(files: seq<BundleFile>, identities: set<Key>) returns (out: Option<Dataset>)
    ensures out.None? <==> files == []
    ensures out.Some? ==>
              var ds := out.value;
              && fresh(ds) && NormalizedHosts(ds.hosts, ImportAll(files, identities))
              && ds.Tallies() == TallyOf(ImportAll(files, identities))
  {
    if files == [] {
      return None;
    }
    var ds := Gather(files, identities);
    ghost var was := ds.hosts;
    ds.NormalizeAll();
    AreNormalized(was, ds.hosts, ImportAll(files, identities));
    return Some(ds);
  }
}
