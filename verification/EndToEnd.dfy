/** From the spool to the analyzer: at-least-once export plus deduplication is exactly-once minutes. */
module EndToEnd {
  import opened Common
  import opened Records
  import opened Spool
  import opened SpoolLog
  import opened SpoolCrash
  import opened SpoolListing
  import opened Bundle
  import opened Dataset
  import Export

  /** One completed bundle: who sealed it and which segment files it carries. */
  datatype Exported = Exported(e: Exporter, items: seq<Item>)

  /** The agent as far as records are concerned: its spool, the bundles whose rename has happened,
      and the exported segments that are still to be removed from the spool. */
  datatype Agent = Agent(spool: State, exports: seq<Exported>, pending: seq<SegName>)

  datatype AgentOp =
    | SpoolStep(op: Op)
    | Publish(e: Exporter, segs: seq<SegmentInfo>, removeAfter: bool)
    | RemoveNext(io: RemoveIO)

  function Names(segs: seq<SegmentInfo>): (ns: seq<SegName>)
    ensures |ns| == |segs| && forall i :: 0 <= i < |segs| ==> ns[i] == segs[i].name
  {
    seq(|segs|, i requires 0 <= i < |segs| => segs[i].name)
  }

  /** A publication needs a complete listing; one export runs at a time. */
  ghost predicate CanPublish(a: Agent, segs: seq<SegmentInfo>) {
    a.spool.up && a.pending == [] && segs != [] && IsListing(a.spool.disk, segs)
  }

  ghost function Step(a: Agent, op: AgentOp): Agent {
    match op
    case SpoolStep(o) => a.(spool := Apply(a.spool, o), pending := if o.DoCrash? then [] else a.pending)
    case Publish(e, segs, removeAfter) =>
      if !CanPublish(a, segs) then a
      else a.(exports := a.exports + [Exported(e, ItemsOf(a.spool.disk, segs))],
              pending := if removeAfter then Names(segs) else [])
    case RemoveNext(io) =>
      if !a.spool.up || a.pending == [] then a
      else a.(spool := Remove(a.spool, a.pending[0], io), pending := a.pending[1..])
  }

  ghost function RunAgent(a: Agent, ops: seq<AgentOp>): Agent {
    if ops == [] then a else Step(RunAgent(a, ops[..|ops| - 1]), ops[|ops| - 1])
  }

  function Fresh(maxSegment: int): Agent { Agent(EmptySpool(maxSegment), [], []) }

  // ---- where a record can be --------------------------------------------------------------

  ghost predicate InItems(items: seq<Item>, r: Record) {
    exists i :: 0 <= i < |items| && r in ReadFile(items[i].file).recs
  }

  ghost predicate InExports(exports: seq<Exported>, r: Record) {
    exists i :: 0 <= i < |exports| && InItems(exports[i].items, r)
  }

  ghost predicate InListed(d: Disk, r: Record) {
    exists n :: Listed(d, n) && r in ReadFile(d.closed[n]).recs
  }

  ghost predicate Safe(a: Agent, r: Record) { InListed(a.spool.disk, r) || InExports(a.exports, r) }

  ghost predicate Carried(exports: seq<Exported>, f: File) {
    forall r :: r in ReadFile(f).recs ==> InExports(exports, r)
  }

  ghost predicate AgentInv(a: Agent) {
    && Inv(a.spool)
    && Unique(a.pending)
    && (forall n :: n in a.pending ==> n in a.spool.disk.closed && Carried(a.exports, a.spool.disk.closed[n]))
    && (forall i :: 0 <= i < |a.exports| ==> DistinctNames(a.exports[i].items))
  }

  lemma ExportsGrow(exports: seq<Exported>, x: Exported, r: Record)
    ensures InExports(exports + [x], r) <==> InExports(exports, r) || InItems(x.items, r)
  {
    var all := exports + [x];
    if i :| 0 <= i < |exports| && InItems(exports[i].items, r) {
      assert InItems(all[i].items, r);
    }
    if InItems(x.items, r) {
      assert InItems(all[|exports|].items, r);
    }
  }

  /** The items of a listing hold exactly the listed records. */
  lemma ItemsAreListed(d: Disk, segs: seq<SegmentInfo>)
    requires IsListing(d, segs)
    ensures forall r :: InListed(d, r) <==> InItems(ItemsOf(d, segs), r)
    ensures DistinctNames(ItemsOf(d, segs))
    ensures forall n :: n in Names(segs) ==> Listed(d, n)
  {
    var items := ItemsOf(d, segs);
    forall r ensures InListed(d, r) <==> InItems(items, r) {
      if n :| Listed(d, n) && r in ReadFile(d.closed[n]).recs {
        var i :| 0 <= i < |segs| && segs[i].name == n;
        assert r in ReadFile(items[i].file).recs;
      }
      if i :| 0 <= i < |items| && r in ReadFile(items[i].file).recs {
        assert Listed(d, segs[i].name);
      }
    }
  }

  lemma PublishKeeps(a: Agent, e: Exporter, segs: seq<SegmentInfo>, removeAfter: bool)
    requires AgentInv(a) && CanPublish(a, segs)
    ensures AgentInv(Step(a, Publish(e, segs, removeAfter)))
    ensures forall r :: Safe(a, r) ==> Safe(Step(a, Publish(e, segs, removeAfter)), r)
  {
    var d, items, b := a.spool.disk, ItemsOf(a.spool.disk, segs), Step(a, Publish(e, segs, removeAfter));
    ItemsAreListed(d, segs);
    forall r ensures InExports(b.exports, r) <==> InExports(a.exports, r) || InItems(items, r) {
      ExportsGrow(a.exports, Exported(e, items), r);
    }
    forall n | n in b.pending ensures n in d.closed && Carried(b.exports, d.closed[n]) {
      assert Listed(d, n);
      forall r | r in ReadFile(d.closed[n]).recs ensures InExports(b.exports, r) {
        assert InListed(d, r);
      }
    }
  }

  lemma RemoveKeepsInv(a: Agent, io: RemoveIO)
    requires AgentInv(a) && a.spool.up && a.pending != []
    ensures AgentInv(Step(a, RemoveNext(io)))
  {
    var n, b := a.pending[0], Step(a, RemoveNext(io));
    RemoveInv(a.spool, n, io, AUTO_FLUSH_RECORDS - 1);
    assert forall m :: m in b.pending ==> m in a.pending && m != n;
  }

  lemma RemovedIsSafe(a: Agent, io: RemoveIO, r: Record)
    requires AgentInv(a) && a.spool.up && a.pending != [] && InListed(a.spool.disk, r)
    ensures Safe(Step(a, RemoveNext(io)), r)
  {
    var n, b := a.pending[0], Step(a, RemoveNext(io));
    var m :| Listed(a.spool.disk, m) && r in ReadFile(a.spool.disk.closed[m]).recs;
    if m == n {
      assert Carried(a.exports, a.spool.disk.closed[n]);
    } else {
      assert Listed(b.spool.disk, m);
    }
  }

  lemma RemoveKeeps(a: Agent, io: RemoveIO)
    requires AgentInv(a)
    ensures AgentInv(Step(a, RemoveNext(io)))
    ensures forall r :: Safe(a, r) ==> Safe(Step(a, RemoveNext(io)), r)
  {
    if a.spool.up && a.pending != [] {
      RemoveKeepsInv(a, io);
      forall r | InListed(a.spool.disk, r) ensures Safe(Step(a, RemoveNext(io)), r) {
        RemovedIsSafe(a, io, r);
      }
    }
  }

  lemma SpoolStepKeeps(a: Agent, op: Op)
    requires AgentInv(a)
    ensures AgentInv(Step(a, SpoolStep(op)))
    ensures forall r :: Safe(a, r) ==> Safe(Step(a, SpoolStep(op)), r)
  {
    StepInv(a.spool, op);
    StepClosedKept(a.spool, op);
    var b := Step(a, SpoolStep(op));
    forall r | InListed(a.spool.disk, r) ensures InListed(b.spool.disk, r) {
      var n :| Listed(a.spool.disk, n) && r in ReadFile(a.spool.disk.closed[n]).recs;
      assert Listed(b.spool.disk, n);
    }
  }

  /** No step loses a record that was once listed: it leaves the spool only when a complete bundle
      holds it, wherever the process dies and whatever removal does. */
  lemma StepKeepsSafe(a: Agent, op: AgentOp)
    requires AgentInv(a)
    ensures AgentInv(Step(a, op))
    ensures forall r :: Safe(a, r) ==> Safe(Step(a, op), r)
  {
    match op {
      case SpoolStep(o) => SpoolStepKeeps(a, o);
      case RemoveNext(io) => RemoveKeeps(a, io);
      case Publish(e, segs, removeAfter) =>
        if CanPublish(a, segs) {
          PublishKeeps(a, e, segs, removeAfter);
        }
    }
  }

  lemma {:induction false} RunKeepsSafe(a: Agent, ops: seq<AgentOp>)
    requires AgentInv(a)
    ensures AgentInv(RunAgent(a, ops))
    ensures forall r :: Safe(a, r) ==> Safe(RunAgent(a, ops), r)
  {
    if ops != [] {
      RunKeepsSafe(a, ops[..|ops| - 1]);
      StepKeepsSafe(RunAgent(a, ops[..|ops| - 1]), ops[|ops| - 1]);
    }
  }

  // ---- the export method is such a run ----------------------------------------------------

  function Removals(segs: seq<SegmentInfo>, io: SegName -> RemoveIO): seq<AgentOp> {
    if segs == [] then []
    else Removals(segs[..|segs| - 1], io) + [RemoveNext(io(segs[|segs| - 1].name))]
  }

  lemma {:induction false} RemovalsRun(a: Agent, segs: seq<SegmentInfo>, rest: seq<SegName>, io: SegName -> RemoveIO)
    requires a.spool.up && a.pending == Names(segs) + rest
    ensures var b := RunAgent(a, Removals(segs, io));
            b.spool == Export.RemoveAll(a.spool, segs, io) && b.spool.up && b.pending == rest && b.exports == a.exports
  {
    if segs == [] {
      assert Names(segs) + rest == rest;
    } else {
      var init, last := segs[..|segs| - 1], segs[|segs| - 1];
      assert Names(segs) + rest == Names(init) + ([last.name] + rest);
      RemovalsRun(a, init, [last.name] + rest, io);
      assert Removals(segs, io)[..|Removals(segs, io)| - 1] == Removals(init, io);
    }
  }

  /** The state Export leaves after publishing a listing with removal is the one these steps reach. */
  lemma ExportIsARun(a: Agent, e: Exporter, segs: seq<SegmentInfo>, io: SegName -> RemoveIO)
    requires CanPublish(a, segs)
    ensures var b := RunAgent(Step(a, Publish(e, segs, true)), Removals(segs, io));
            && b.spool == Export.RemoveAll(a.spool, segs, io) && b.pending == []
            && b.exports == a.exports + [Exported(e, ItemsOf(a.spool.disk, segs))]
  {
    assert Names(segs) + [] == Names(segs);
    RemovalsRun(Step(a, Publish(e, segs, true)), segs, [], io);
  }

  // ---- what the analyzer reads ------------------------------------------------------------

  function BundleFiles(exports: seq<Exported>): (files: seq<BundleFile>)
    ensures |files| == |exports|
    ensures forall i :: 0 <= i < |exports| ==> files[i] == BundleOf(exports[i].e, exports[i].items)
  {
    seq(|exports|, i requires 0 <= i < |exports| => BundleOf(exports[i].e, exports[i].items))
  }

  /** All exports are this host's and can be opened. */
  ghost predicate Readable(exports: seq<Exported>, host: string, identities: set<Key>) {
    forall i :: 0 <= i < |exports| ==>
      exports[i].e.hostId == host && exports[i].e.recipient in identities && DistinctNames(exports[i].items)
  }

  lemma ItemsGrow(items: seq<Item>, item: Item, r: Record)
    ensures InItems(items + [item], r) <==> InItems(items, r) || r in ReadFile(item.file).recs
  {
    var all := items + [item];
    if i :| 0 <= i < |items| && r in ReadFile(items[i].file).recs {
      assert r in ReadFile(all[i].file).recs;
    }
    assert all[|items|] == item;
  }

  lemma {:induction false} AcceptedAreItems(e: Exporter, items: seq<Item>, segs: seq<SegmentResult>, r: Record)
    requires |segs| == |items| && forall i :: 0 <= i < |items| ==> segs[i] == Faithful(e, items[i])
    ensures r in AcceptedRecords(segs) <==> InItems(items, r)
  {
    if items != [] {
      var n := |items| - 1;
      assert items[..n] + [items[n]] == items;
      ItemsGrow(items[..n], items[n], r);
      AcceptedAreItems(e, items[..n], segs[..n], r);
      assert Accepted(segs[n]) && segs[n].records == ReadFile(items[n].file).recs;
    }
  }

  /** For the host, an imported bundle yields exactly what was packed into it. */
  ghost predicate Carries(res: ImportResult, x: Exported, host: string, r: Record) {
    BelongsTo(res, host) && (r in AcceptedRecords(res.segments) <==> InItems(x.items, r))
  }

  lemma BundleCarries(x: Exported, host: string, identities: set<Key>, r: Record)
    requires x.e.hostId == host && x.e.recipient in identities && DistinctNames(x.items)
    ensures Carries(Imported(BundleOf(x.e, x.items), identities), x, host, r)
  {
    RoundTrip(x.e, x.items, identities);
    AcceptedAreItems(x.e, x.items, Imported(BundleOf(x.e, x.items), identities).segments, r);
  }

  /** The result belongs to the host and holds the record. */
  predicate Gives(res: ImportResult, host: string, r: Record) {
    BelongsTo(res, host) && r in AcceptedRecords(res.segments)
  }

  lemma {:induction false} GatheredFrom(results: seq<ImportResult>, host: string, r: Record)
    ensures r in Gathered(results, host) <==> exists res :: res in results && Gives(res, host, r)
  {
    if results != [] {
      var init, last := results[..|results| - 1], results[|results| - 1];
      GatheredFrom(init, host, r);
      assert results == init + [last];
      if Gives(last, host, r) { assert last in results; }
      assert r in Gathered(results, host) <==> r in Gathered(init, host) || Gives(last, host, r);
    }
  }

  /** What the analyzer finds below its directory: the bundle of every export, in any order, among files
      that do not belong to this host. */
  ghost predicate Directory(files: seq<BundleFile>, exports: seq<Exported>, host: string, identities: set<Key>) {
    && (forall f :: f in BundleFiles(exports) ==> f in files)
    && (forall f :: f in files ==> f in BundleFiles(exports) || !BelongsTo(Imported(f, identities), host))
  }

  /** What the analyzer gathers for the host is exactly what its bundles carry. */
  lemma GatheredIsExported(files: seq<BundleFile>, exports: seq<Exported>, host: string, identities: set<Key>, r: Record)
    requires Readable(exports, host, identities) && Directory(files, exports, host, identities)
    ensures r in Gathered(ImportAll(files, identities), host) <==> InExports(exports, r)
  {
    var results, bundles := ImportAll(files, identities), BundleFiles(exports);
    GatheredFrom(results, host, r);
    if res :| res in results && Gives(res, host, r) {
      var i :| 0 <= i < |files| && results[i] == res;
      assert files[i] in bundles;
      var j :| 0 <= j < |exports| && bundles[j] == files[i];
      BundleCarries(exports[j], host, identities, r);
    }
    if j :| 0 <= j < |exports| && InItems(exports[j].items, r) {
      BundleCarries(exports[j], host, identities, r);
      assert bundles[j] in files;
      var i :| 0 <= i < |files| && files[i] == bundles[j];
      assert results[i] in results && Gives(results[i], host, r);
    }
  }

  ghost predicate MinuteAt(r: Record, t: Time) { r.body.HostMinute? && r.ts == t }

  lemma MinutesOf(rs: seq<Record>, t: Time)
    ensures HasTs(Contents(rs).minutes, t) <==> exists r :: MinuteAt(r, t) && r in rs
  {
    MinutesAreExact(rs);
    if r :| MinuteAt(r, t) && r in rs {
      assert r in Contents(rs).minutes;
    }
  }

  /** Loading the bundles gives exactly the exported minutes. */
  lemma MinutesAreExported(exports: seq<Exported>, gathered: seq<Record>, d: Content, t: Time)
    requires forall r :: r in gathered <==> InExports(exports, r)
    requires Normalized(Contents(gathered), d)
    ensures HasTs(d.minutes, t) <==> exists r :: MinuteAt(r, t) && InExports(exports, r)
  {
    MinutesOf(gathered, t);
    assert HasTs(d.minutes, t) <==> HasTs(Contents(gathered).minutes, t);
  }

  lemma NothingIsLost(mid: Agent, a: Agent, minutes: seq<Record>, r: Record, t: Time)
    requires forall q :: Safe(mid, q) ==> Safe(a, q)
    requires HasTs(minutes, t) <==> exists q :: MinuteAt(q, t) && InExports(a.exports, q)
    requires MinuteAt(r, t) && InListed(mid.spool.disk, r)
    ensures InListed(a.spool.disk, r) || HasTs(minutes, t)
  {
    assert Safe(mid, r);
    assert Safe(a, r);
  }

  /** The analyzer, able to open all bundles, has loaded the files and made `d` of this host's records. */
  ghost predicate Loaded(files: seq<BundleFile>, exports: seq<Exported>, host: string, identities: set<Key>, d: Content) {
    && Readable(exports, host, identities) && Directory(files, exports, host, identities)
    && Normalized(Contents(Gathered(ImportAll(files, identities), host)), d)
  }

  lemma LoadedMinutes(files: seq<BundleFile>, exports: seq<Exported>, host: string, identities: set<Key>, d: Content, t: Time)
    requires Loaded(files, exports, host, identities, d)
    ensures HasTs(d.minutes, t) <==> exists r :: MinuteAt(r, t) && InExports(exports, r)
  {
    var gathered := Gathered(ImportAll(files, identities), host);
    forall r ensures r in gathered <==> InExports(exports, r) {
      GatheredIsExported(files, exports, host, identities, r);
    }
    MinutesAreExported(exports, gathered, d, t);
  }

  lemma ExactlyOnceFrom(mid: Agent, after: seq<AgentOp>, files: seq<BundleFile>, host: string, identities: set<Key>, d: Content)
    requires AgentInv(mid) && Loaded(files, RunAgent(mid, after).exports, host, identities, d)
    ensures ExactMinutes(mid, RunAgent(mid, after), d.minutes)
  {
    RunKeepsSafe(mid, after);
    var a := RunAgent(mid, after);
    forall t ensures HasTs(d.minutes, t) <==> exists r :: MinuteAt(r, t) && InExports(a.exports, r) {
      LoadedMinutes(files, a.exports, host, identities, d, t);
    }
    forall r, t | MinuteAt(r, t) && InListed(mid.spool.disk, r)
      ensures InListed(a.spool.disk, r) || HasTs(d.minutes, t)
    {
      NothingIsLost(mid, a, d.minutes, r, t);
    }
  }

  /** The minutes have strictly increasing timestamps, exactly those of the exported minutes; and
      every minute that was listed at `mid` is among them or still listed. */
  ghost predicate ExactMinutes(mid: Agent, a: Agent, minutes: seq<Record>) {
    && StrictlyIncreasing(minutes)
    && (forall t :: HasTs(minutes, t) <==> exists r :: MinuteAt(r, t) && InExports(a.exports, r))
    && (forall r, t :: MinuteAt(r, t) && InListed(mid.spool.disk, r) ==> InListed(a.spool.disk, r) || HasTs(minutes, t))
  }

  lemma ReachableIsOk(maxSegment: int, ops: seq<AgentOp>)
    ensures AgentInv(RunAgent(Fresh(maxSegment), ops))
  {
    RunKeepsSafe(Fresh(maxSegment), ops);
  }

  /** Exactly once: over every run of appends, rotations, exports, removals and crashes, loading the
      completed bundles, in any order and among other hosts', gives minutes whose timestamps strictly increase and are exactly those of
      the exported minutes; and every minute that was ever listed is among them or still listed. */
  lemma ExactlyOnce(maxSegment: int, before: seq<AgentOp>, after: seq<AgentOp>, files: seq<BundleFile>,
      host: string, identities: set<Key>, d: Content)
    requires Loaded(files, RunAgent(RunAgent(Fresh(maxSegment), before), after).exports, host, identities, d)
    ensures var mid := RunAgent(Fresh(maxSegment), before);
            ExactMinutes(mid, RunAgent(mid, after), d.minutes)
  {
    ReachableIsOk(maxSegment, before);
    ExactlyOnceFrom(RunAgent(Fresh(maxSegment), before), after, files, host, identities, d);
  }
}
