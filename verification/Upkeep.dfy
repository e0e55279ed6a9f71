/** Removal in whole agent runs, retention included: when the sidecars stay exact, and when not. */
module Upkeep {
  import opened Common
  import opened Records
  import opened Spool
  import opened SpoolLog
  import opened SpoolCrash
  import opened SpoolListing
  import opened Bundle
  import opened Retention
  import opened EndToEnd

  // ---- runs with retention ----------------------------------------------------------------

  /** A step of the agent, or one removal by retention.  One loop runs both, so no removal falls into
      an export. */
  datatype UpkeepOp = OfAgent(op: AgentOp) | Retain(name: SegName, io: RemoveIO)

  ghost function UpkeepStep(a: Agent, op: UpkeepOp): Agent {
    match op
    case OfAgent(o) => Step(a, o)
    case Retain(n, io) => if a.spool.up && a.pending == [] then a.(spool := Remove(a.spool, n, io)) else a
  }

  ghost function RunUpkeep(a: Agent, ops: seq<UpkeepOp>): Agent {
    if ops == [] then a else UpkeepStep(RunUpkeep(a, ops[..|ops| - 1]), ops[|ops| - 1])
  }

  predicate LeavesSidecar(s: State, n: SegName, io: RemoveIO) {
    s.up && io.segmentOk && !io.sidecarOk && n in s.disk.sidecars
  }

  /** The operation removes a segment and not its sidecar. */
  predicate Leaves(a: Agent, op: UpkeepOp) {
    match op
    case OfAgent(RemoveNext(io)) => a.pending != [] && LeavesSidecar(a.spool, a.pending[0], io)
    case Retain(n, io) => a.pending == [] && LeavesSidecar(a.spool, n, io)
    case _ => false
  }

  /** Removing a segment but not its sidecar leaves a stale one; nothing else does. */
  lemma RemovalAndStaleness(s: State, n: SegName, io: RemoveIO)
    requires ListingOk(s.disk)
    ensures Accurate(Remove(s, n, io).disk)
    ensures NoStaleSidecar(Remove(s, n, io).disk) <==> !(io.segmentOk && !io.sidecarOk && n in s.disk.sidecars)
  {
    var d, e := s.disk, Remove(s, n, io).disk;
    forall m | Listed(e, m) ensures Describes(e.sidecars[m].info, m, e.closed[m]) {
      assert Listed(d, m);
    }
    if io.segmentOk && !io.sidecarOk && n in d.sidecars {
      assert n in e.sidecars && n !in e.closed;
    }
  }

  lemma UpkeepStepInv(a: Agent, op: UpkeepOp)
    requires AgentInv(a)
    ensures AgentInv(UpkeepStep(a, op))
  {
    match op
    case OfAgent(o) => StepKeepsSafe(a, o);
    case Retain(n, io) => RemoveInv(a.spool, n, io, AUTO_FLUSH_RECORDS - 1);
  }

  lemma UpkeepStepListing(a: Agent, op: UpkeepOp)
    requires AgentInv(a) && ListingOk(a.spool.disk)
    ensures ListingOk(UpkeepStep(a, op).spool.disk) <==> !Leaves(a, op)
  {
    match op {
      case OfAgent(SpoolStep(o)) => StepListing(a.spool, o);
      case OfAgent(RemoveNext(io)) =>
        if a.spool.up && a.pending != [] { RemovalAndStaleness(a.spool, a.pending[0], io); }
      case Retain(n, io) => RemovalAndStaleness(a.spool, n, io);
      case OfAgent(Publish(_, _, _)) =>
    }
  }

  lemma {:induction false} UpkeepInv(maxSegment: int, ops: seq<UpkeepOp>)
    ensures AgentInv(RunUpkeep(Fresh(maxSegment), ops))
  {
    if ops != [] {
      UpkeepInv(maxSegment, ops[..|ops| - 1]);
      UpkeepStepInv(RunUpkeep(Fresh(maxSegment), ops[..|ops| - 1]), ops[|ops| - 1]);
    }
  }

  /** The agent after the first `i` steps. */
  ghost function After(maxSegment: int, ops: seq<UpkeepOp>, i: nat): Agent
    requires i <= |ops|
  {
    RunUpkeep(Fresh(maxSegment), ops[..i])
  }

  lemma AfterNext(maxSegment: int, ops: seq<UpkeepOp>, i: nat)
    requires i < |ops|
    ensures After(maxSegment, ops, i + 1) == UpkeepStep(After(maxSegment, ops, i), ops[i])
    ensures AgentInv(After(maxSegment, ops, i))
  {
    assert ops[..i + 1][..i] == ops[..i];
    UpkeepInv(maxSegment, ops[..i]);
  }

  /** What every harmless step keeps and every other step ends holds throughout exactly when all
      steps are harmless. */
  lemma {:induction false} Throughout(good: nat -> bool, harmless: nat -> bool, n: nat)
    requires good(0) && forall i: nat :: i < n && good(i) ==> (good(i + 1) <==> harmless(i))
    ensures (forall i: nat :: i <= n ==> good(i)) <==> (forall i: nat :: i < n ==> harmless(i))
  {
    if n > 0 {
      Throughout(good, harmless, n - 1);
      assert good(n - 1) ==> (good(n - 1 + 1) <==> harmless(n - 1));
    }
  }

  /** Step `i` of the run leaves a sidecar behind. */
  ghost predicate LeavesAt(maxSegment: int, ops: seq<UpkeepOp>, i: nat)
    requires i < |ops|
  {
    Leaves(After(maxSegment, ops, i), ops[i])
  }

  /** After `i` steps every listed sidecar describes its file exactly and none is stale. */
  ghost predicate ListedAfter(maxSegment: int, ops: seq<UpkeepOp>, i: nat)
    requires i <= |ops|
  {
    ListingOk(After(maxSegment, ops, i).spool.disk)
  }

  /** Over every run of the agent with retention, whatever crashes: the sidecars stay exact and none
      is stale throughout, if and only if no removal deletes a segment and leaves its sidecar. */
  lemma UpkeepKeepsListing(maxSegment: int, ops: seq<UpkeepOp>)
    ensures (forall i: nat :: i <= |ops| ==> ListedAfter(maxSegment, ops, i))
            <==> (forall i: nat :: i < |ops| ==> !LeavesAt(maxSegment, ops, i))
  {
    var good := (i: nat) => i <= |ops| && ListedAfter(maxSegment, ops, i);
    var harmless := (i: nat) => i < |ops| && !LeavesAt(maxSegment, ops, i);
    forall i: nat | i < |ops| && good(i) ensures good(i + 1) <==> harmless(i) {
      AfterNext(maxSegment, ops, i);
      UpkeepStepListing(After(maxSegment, ops, i), ops[i]);
    }
    Throughout(good, harmless, |ops|);
    assert forall i: nat :: i <= |ops| ==> (good(i) <==> ListedAfter(maxSegment, ops, i));
    assert forall i: nat :: i < |ops| ==> (harmless(i) <==> !LeavesAt(maxSegment, ops, i));
  }

  // ---- removal that unlists ---------------------------------------------------------------

  predicate UnlistsSegment(s: State, n: SegName, io: RemoveIO) {
    s.up && Listed(s.disk, n) && !io.segmentOk && io.sidecarOk
  }

  /** The operation makes a closed segment unlisted: it dies between the renames with a file moved, or
      it removes a sidecar and not its segment. */
  predicate Unlists(a: Agent, op: UpkeepOp) {
    match op
    case OfAgent(SpoolStep(o)) => Strands(a.spool, o)
    case OfAgent(RemoveNext(io)) => a.pending != [] && UnlistsSegment(a.spool, a.pending[0], io)
    case Retain(n, io) => a.pending == [] && UnlistsSegment(a.spool, n, io)
    case _ => false
  }

  /** Removing a sidecar but not its segment leaves a segment that no listing shows; no other removal
      of a listed segment does. */
  lemma RemovalAndOrphans(s: State, n: SegName, io: RemoveIO)
    requires AllListed(s.disk)
    ensures AllListed(Remove(s, n, io).disk) <==> !(Listed(s.disk, n) && !io.segmentOk && io.sidecarOk)
  {
    var d, e := s.disk, Remove(s, n, io).disk;
    if Listed(d, n) && !io.segmentOk && io.sidecarOk {
      assert Orphan(e, n);
    } else {
      forall m ensures !Orphan(e, m) {
        assert !Orphan(d, m);
      }
    }
  }

  /** Segments and sidecars correspond: every closed segment has its sidecar, and that describes it. */
  ghost predicate Matched(d: Disk) { ListingOk(d) && AllListed(d) }

  lemma UpkeepStepMatched(a: Agent, op: UpkeepOp)
    requires AgentInv(a) && Matched(a.spool.disk)
    ensures Matched(UpkeepStep(a, op).spool.disk) <==> !Leaves(a, op) && !Unlists(a, op)
  {
    UpkeepStepListing(a, op);
    match op {
      case OfAgent(SpoolStep(o)) => StepAllListed(a.spool, o);
      case OfAgent(RemoveNext(io)) =>
        if a.spool.up && a.pending != [] { RemovalAndOrphans(a.spool, a.pending[0], io); }
      case Retain(n, io) => RemovalAndOrphans(a.spool, n, io);
      case OfAgent(Publish(_, _, _)) =>
    }
  }

  ghost predicate UnlistsAt(maxSegment: int, ops: seq<UpkeepOp>, i: nat)
    requires i < |ops|
  {
    Unlists(After(maxSegment, ops, i), ops[i])
  }

  ghost predicate MatchedAfter(maxSegment: int, ops: seq<UpkeepOp>, i: nat)
    requires i <= |ops|
  {
    Matched(After(maxSegment, ops, i).spool.disk)
  }

  /** Over every run of the agent with retention, whatever crashes: segments and sidecars correspond
      throughout, if and only if no removal deletes only one of the two and no step dies between the
      renames with a file moved. */
  lemma UpkeepKeepsMatched(maxSegment: int, ops: seq<UpkeepOp>)
    ensures (forall i: nat :: i <= |ops| ==> MatchedAfter(maxSegment, ops, i))
            <==> (forall i: nat :: i < |ops| ==> !LeavesAt(maxSegment, ops, i) && !UnlistsAt(maxSegment, ops, i))
  {
    var good := (i: nat) => i <= |ops| && MatchedAfter(maxSegment, ops, i);
    var harmless := (i: nat) => i < |ops| && !LeavesAt(maxSegment, ops, i) && !UnlistsAt(maxSegment, ops, i);
    forall i: nat | i < |ops| && good(i) ensures good(i + 1) <==> harmless(i) {
      AfterNext(maxSegment, ops, i);
      UpkeepStepMatched(After(maxSegment, ops, i), ops[i]);
    }
    Throughout(good, harmless, |ops|);
    assert forall i: nat :: i <= |ops| ==> (good(i) <==> MatchedAfter(maxSegment, ops, i));
    assert forall i: nat :: i < |ops| ==>
                      (harmless(i) <==> !LeavesAt(maxSegment, ops, i) && !UnlistsAt(maxSegment, ops, i));
  }

  // ---- retention in whole runs ------------------------------------------------------------

  /** What the sweep removes at one segment's turn. */
  function TurnOps(w: Sweep, seg: SegmentInfo, l: Limits, io: RemoveIO): seq<UpkeepOp> {
    if TooOld(seg, l) || OverCap(w.total, l) then [Retain(seg.name, io)] else []
  }

  /** The removals of one sweep. */
  function SweepOps(w: Sweep, segs: seq<SegmentInfo>, l: Limits, io: SegName -> RemoveIO): seq<UpkeepOp> {
    if segs == [] then []
    else
      var init, last := segs[..|segs| - 1], segs[|segs| - 1];
      SweepOps(w, init, l, io) + TurnOps(SweepAll(w, init, l, io), last, l, io(last.name))
  }

  lemma TurnIsUpkeep(a: Agent, w: Sweep, seg: SegmentInfo, l: Limits, io: RemoveIO)
    requires a.spool.up && a.pending == [] && w.state == a.spool
    ensures RunUpkeep(a, TurnOps(w, seg, l, io)) == a.(spool := SweepStep(w, seg, l, io).state)
    ensures SweepStep(w, seg, l, io).state.up
  {
    if TurnOps(w, seg, l, io) != [] {
      assert [Retain(seg.name, io)][..0] == [];
    }
  }

  lemma {:induction false} RunUpkeepConcat(a: Agent, left: seq<UpkeepOp>, right: seq<UpkeepOp>)
    ensures RunUpkeep(a, left + right) == RunUpkeep(RunUpkeep(a, left), right)
  {
    if right == [] {
      assert left + right == left;
    } else {
      assert (left + right)[..|left + right| - 1] == left + right[..|right| - 1];
      RunUpkeepConcat(a, left, right[..|right| - 1]);
    }
  }

  /** EnforceRetention is such a run of removals. */
  lemma {:induction false} SweepIsUpkeep(a: Agent, w: Sweep, segs: seq<SegmentInfo>, l: Limits, io: SegName -> RemoveIO)
    requires a.spool.up && a.pending == [] && w.state == a.spool
    ensures RunUpkeep(a, SweepOps(w, segs, l, io)) == a.(spool := SweepAll(w, segs, l, io).state)
    ensures SweepAll(w, segs, l, io).state.up
  {
    if segs != [] {
      var init, last := segs[..|segs| - 1], segs[|segs| - 1];
      SweepIsUpkeep(a, w, init, l, io);
      var v := SweepAll(w, init, l, io);
      TurnIsUpkeep(a.(spool := v.state), v, last, l, io(last.name));
      RunUpkeepConcat(a, SweepOps(w, init, l, io), TurnOps(v, last, l, io(last.name)));
    }
  }

  /** So in every such run retention meets its limits. */
  lemma RetentionInRuns(maxSegment: int, ops: seq<UpkeepOp>, segs: seq<SegmentInfo>, l: Limits)
    requires forall i: nat :: i < |ops| ==> !LeavesAt(maxSegment, ops, i)
    requires IsListing(RunUpkeep(Fresh(maxSegment), ops).spool.disk, segs)
    ensures MeetsLimits(RunUpkeep(Fresh(maxSegment), ops).spool, segs, l)
  {
    UpkeepKeepsListing(maxSegment, ops);
    assert ListedAfter(maxSegment, ops, |ops|);
    assert ops[..|ops|] == ops;
    RetentionMeetsLimits(RunUpkeep(Fresh(maxSegment), ops).spool, segs, l);
  }

  // ---- where the sidecars stop being exact ------------------------------------------------

  /** A death between the renames keeps the sidecars exact if and only if a sidecar that already
      bears the new name happens to describe the moved file. */
  lemma WindowKeepsAccurate(s: State, k: Kind, sum: Summary, io: IO)
    requires k in s.disk.active && Accurate(s.disk)
    ensures var n := CloseName(s.disk, k, sum, io);
            Accurate(MoveToClosed(s, k, sum, io).disk)
            <==> (n in s.disk.sidecars ==> Describes(s.disk.sidecars[n].info, n, s.disk.active[k]))
  {
    var n, m := CloseName(s.disk, k, sum, io), MoveToClosed(s, k, sum, io).disk;
    if n in s.disk.sidecars ==> Describes(s.disk.sidecars[n].info, n, s.disk.active[k]) {
      forall j | Listed(m, j) ensures Describes(m.sidecars[j].info, j, m.closed[j]) {
        assert j != n ==> Listed(s.disk, j);
      }
    } else {
      assert Listed(m, n);
    }
  }

  /** An open spool without active or closed segments; it may hold stale sidecars. */
  predicate Idle(s: State) { s.up && s.active == map[] && s.disk.active == map[] && s.disk.closed == map[] }

  /** One record taken into an idle spool. */
  function Holding(s: State, k: Kind, r: Record): State {
    s.(active := map[k := ActiveSeg(DateOf(r.ts), [r], 1, Bounds(r.ts, r.ts), 0, r.bytes)])
  }

  lemma AppendToIdle(s: State, k: Kind, r: Record, io: IO)
    requires Idle(s) && r.ts > ZERO_TIME
    ensures Apply(s, DoAppend(k, Some(r), io, io)) == Holding(s, k, r)
  {
    var a := ActiveSeg(DateOf(r.ts), [r], 1, Bounds(r.ts, r.ts), 0, r.bytes);
    assert [] + [r] == [r];
    assert s.active[k := a] == map[k := a];
    assert Buffer(s, k, r) == Holding(s, k, r);
  }

  function FirstName(k: Kind, r: Record): SegName { SegName(k, DateOf(r.ts), 0) }

  function FileOf(r: Record, io: IO): File { [Complete([r], io.memberBytes)] }

  function SummaryOf(r: Record): Summary { Summary(1, Bounds(r.ts, r.ts), false) }

  function CardOf(k: Kind, r: Record, io: IO): Sidecar { SidecarFor(FirstName(k, r), FileOf(r, io), SummaryOf(r), io) }

  /** One segment of one record, closed in an idle spool. */
  function Keeping(s: State, k: Kind, r: Record, io: IO): State {
    var n := FirstName(k, r);
    s.(disk := s.disk.(closed := map[n := FileOf(r, io)], sidecars := s.disk.sidecars[n := CardOf(k, r, io)]),
       order := s.order + [n])
  }

  lemma FlushHolding(s: State, k: Kind, r: Record, io: IO)
    requires Idle(s) && r.ts > ZERO_TIME && io.writeOk
    ensures Closes(Holding(s, k, r), k, io)
    ensures Detached(Holding(s, k, r), k, io) == s.(disk := s.disk.(active := map[k := FileOf(r, io)]))
    ensures CloseName(s.disk.(active := map[k := FileOf(r, io)]), k, SummaryOf(r), io) == FirstName(k, r)
  {
    assert [] + FileOf(r, io) == FileOf(r, io);
    assert Flush(Holding(s, k, r), k, io).disk == s.disk.(active := map[k := FileOf(r, io)]);
    assert Flush(Holding(s, k, r), k, io).active - {k} == s.active;
  }

  lemma RotateHolding(s: State, k: Kind, r: Record, io: IO)
    requires Idle(s) && r.ts > ZERO_TIME && io.writeOk
    ensures Apply(Holding(s, k, r), DoRotate(k, io)) == Keeping(s, k, r, io)
  {
    FlushHolding(s, k, r, io);
    var gone := s.(disk := s.disk.(active := map[k := FileOf(r, io)]));
    assert gone.disk.active - {k} == s.disk.active;
    assert s.disk.closed[FirstName(k, r) := FileOf(r, io)] == map[FirstName(k, r) := FileOf(r, io)];
  }

  lemma DieHolding(s: State, k: Kind, r: Record, io: IO)
    requires Idle(s) && r.ts > ZERO_TIME && io.writeOk
    ensures var d := Apply(Holding(s, k, r), DoCrash(None, BetweenRenames(k, io, 0))).disk;
            d.closed == map[FirstName(k, r) := FileOf(r, io)] && d.sidecars == s.disk.sidecars
  {
    FlushHolding(s, k, r, io);
    assert s.disk.closed[FirstName(k, r) := FileOf(r, io)] == map[FirstName(k, r) := FileOf(r, io)];
  }

  lemma ReadOne(r: Record, io: IO)
    ensures ReadFile(FileOf(r, io)).recs == [r]
  {
    assert FileOf(r, io)[1..] == [];
    assert [r] + [] == [r];
  }

  lemma RunSnoc(a: Agent, ops: seq<AgentOp>, op: AgentOp)
    ensures RunAgent(a, ops + [op]) == Step(RunAgent(a, ops), op)
  {
    assert (ops + [op])[..|ops|] == ops;
  }

  /** An export of the one segment, and its removal without the sidecar. */
  lemma RemoveBadly(a: Agent, s: State, k: Kind, r: Record, io: IO, e: Exporter)
    requires Idle(s) && s.disk.sidecars == map[] && a.pending == [] && a.spool == Keeping(s, k, r, io)
    ensures var t := Step(Step(a, Publish(e, [CardOf(k, r, io).info], true)), RemoveNext(RemoveIO(true, false))).spool;
            Idle(t) && t.disk.sidecars == map[FirstName(k, r) := CardOf(k, r, io)]
  {
    var seg, d := CardOf(k, r, io).info, a.spool.disk;
    assert [seg][0].name == FirstName(k, r);
    assert IsListing(d, [seg]);
    assert Step(a, Publish(e, [seg], true)).pending == [FirstName(k, r)];
    assert d.closed - {FirstName(k, r)} == map[];
  }

  /** One segment closed, exported and removed, except for its sidecar. */
  function RemovedBadly(k: Kind, r: Record, io: IO, e: Exporter): seq<AgentOp> {
    [SpoolStep(DoAppend(k, Some(r), io, io))] + [SpoolStep(DoRotate(k, io))]
    + [Publish(e, [CardOf(k, r, io).info], true)] + [RemoveNext(RemoveIO(true, false))]
  }

  lemma RemovedBadlyLeaves(maxSegment: int, k: Kind, r: Record, io: IO, e: Exporter)
    requires r.ts > ZERO_TIME && io.writeOk
    ensures var t := RunAgent(Fresh(maxSegment), RemovedBadly(k, r, io, e)).spool;
            Idle(t) && t.disk.sidecars == map[FirstName(k, r) := CardOf(k, r, io)]
  {
    var a0, s0 := Fresh(maxSegment), EmptySpool(maxSegment);
    var append, rotate := SpoolStep(DoAppend(k, Some(r), io, io)), SpoolStep(DoRotate(k, io));
    var publish := Publish(e, [CardOf(k, r, io).info], true);
    AppendToIdle(s0, k, r, io);
    RotateHolding(s0, k, r, io);
    assert [] + [append] == [append];
    RunSnoc(a0, [], append);
    RunSnoc(a0, [append], rotate);
    RunSnoc(a0, [append] + [rotate], publish);
    RunSnoc(a0, [append] + [rotate] + [publish], RemoveNext(RemoveIO(true, false)));
    RemoveBadly(RunAgent(a0, [append] + [rotate]), s0, k, r, io, e);
  }

  /** A run that removes a segment but not its sidecar, takes in a later record of that kind and day
      and dies between the renames: the listing then describes the new segment by the old sidecar. */
  lemma StaleSidecarMisleads(maxSegment: int, k: Kind, r1: Record, r2: Record, io: IO, e: Exporter)
    requires ZERO_TIME < r1.ts < r2.ts && DateOf(r1.ts) == DateOf(r2.ts) && io.writeOk
    ensures var ops := RemovedBadly(k, r1, io, e)
                       + [SpoolStep(DoAppend(k, Some(r2), io, io))] + [SpoolStep(DoCrash(None, BetweenRenames(k, io, 0)))];
            !Accurate(RunAgent(Fresh(maxSegment), ops).spool.disk)
  {
    var before, a0, n := RemovedBadly(k, r1, io, e), Fresh(maxSegment), FirstName(k, r2);
    var append, crash := SpoolStep(DoAppend(k, Some(r2), io, io)), SpoolStep(DoCrash(None, BetweenRenames(k, io, 0)));
    RemovedBadlyLeaves(maxSegment, k, r1, io, e);
    RunSnoc(a0, before, append);
    RunSnoc(a0, before + [append], crash);
    var s := RunAgent(a0, before).spool;
    AppendToIdle(s, k, r2, io);
    DieHolding(s, k, r2, io);
    ReadOne(r2, io);
    var d := RunAgent(a0, before + [append] + [crash]).spool.disk;
    assert Listed(d, n) && r2 in ReadFile(d.closed[n]).recs;
  }
}
