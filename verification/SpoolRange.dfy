/** The time range that a segment's metadata records: what it is for a file, when a sidecar has it
    exactly, and what retention by age then deletes. */
module SpoolRange {
  import opened Common
  import opened Records
  import opened Spool
  import opened SpoolLog
  import opened SpoolCrash
  import opened SpoolListing
  import opened Retention
  import opened EndToEnd
  import opened Upkeep

  // ---- the range of a sequence of records -------------------------------------------------

  ghost predicate Attained(rs: seq<Record>, ts: Time) { exists i :: 0 <= i < |rs| && rs[i].ts == ts }

  /** The earliest timestamp; and the latest, unless all lie before the zero time. */
  lemma {:induction false} RangeIsExact(rs: seq<Record>)
    requires rs != [] && forall r :: r in rs ==> r.ts != ZERO_TIME
    ensures forall r :: r in rs ==> Within(r, RangeOf(rs))
    ensures Attained(rs, RangeOf(rs).minTs)
    ensures if forall r :: r in rs ==> r.ts < ZERO_TIME then RangeOf(rs).maxTs == ZERO_TIME
            else Attained(rs, RangeOf(rs).maxTs)
  {
    var init, last := rs[..|rs| - 1], rs[|rs| - 1];
    assert rs == init + [last];
    RangeBrackets(rs);
    assert last in rs;
    if init != [] {
      RangeIsExact(init);
      forall ts | Attained(init, ts) ensures Attained(rs, ts) {
        var i :| 0 <= i < |init| && init[i].ts == ts;
        assert rs[i].ts == ts;
      }
      assert forall r :: r in init ==> r in rs;
    }
    assert rs[|rs| - 1].ts == last.ts;
  }

  // ---- sidecars with exact ranges ---------------------------------------------------------

  ghost predicate RangeExact(info: SegmentInfo, f: File) {
    Bounds(info.minTs, info.maxTs) == RangeOf(ReadFile(f).recs)
  }

  ghost predicate SidecarsExact(d: Disk) {
    forall n :: Listed(d, n) ==> RangeExact(d.sidecars[n].info, d.closed[n])
  }

  /** An open segment's range is that of what it holds. */
  ghost predicate SegExact(a: ActiveSeg, f: File) { a.range == RangeOf(ReadFile(f).recs + a.buf) }

  ghost predicate SegsExact(s: State) {
    forall k :: k in s.active ==> SegExact(s.active[k], ActiveFile(s.disk, k))
  }

  ghost predicate RangesExact(s: State) { SegsExact(s) && SidecarsExact(s.disk) }

  /** The step is an append that drops a batch. */
  predicate Drops(s: State, op: Op) {
    op.DoAppend? && s.up && Append(s, op.k, op.input, op.rot, op.io).outcome.BatchDropped?
  }

  lemma FlushedExact(a: ActiveSeg, f: File, m: Member)
    requires SegExact(a, f) && AllComplete(f) && m.recs == a.buf
    ensures SegExact(a.(buf := []), f + [m])
  {
    ReadAppended(f, m);
    assert ReadFile(f).recs + a.buf + [] == ReadFile(f).recs + a.buf;
  }

  lemma SameSidecars(d: Disk, e: Disk)
    requires e.closed == d.closed && e.sidecars == d.sidecars && SidecarsExact(d)
    ensures SidecarsExact(e)
  {
    forall n | Listed(e, n) ensures RangeExact(e.sidecars[n].info, e.closed[n]) {
      assert Listed(d, n);
    }
  }

  lemma FlushExact(s: State, k: Kind, io: IO, limit: nat)
    requires RangesExact(s) && (k in s.active ==> ActiveOk(s, k, limit))
    ensures RangesExact(Flush(s, k, io))
  {
    var t := Flush(s, k, io);
    SameSidecars(s.disk, t.disk);
    if t != s {
      FlushedExact(s.active[k], ActiveFile(s.disk, k), Complete(s.active[k].buf, io.memberBytes));
      forall j | j in t.active ensures SegExact(t.active[j], ActiveFile(t.disk, j)) {
        if j != k { assert SegExact(s.active[j], ActiveFile(s.disk, j)); }
      }
    }
  }

  lemma CloseExact(s: State, k: Kind, sum: Summary, io: IO)
    requires RangesExact(s) && NoStaleSidecar(s.disk) && k in s.disk.active && k !in s.active
    requires sum.range == RangeOf(ReadFile(s.disk.active[k]).recs)
    ensures RangesExact(MoveToClosed(s, k, sum, io)) && RangesExact(CloseFile(s, k, sum, io))
  {
    var m, t := MoveToClosed(s, k, sum, io), CloseFile(s, k, sum, io);
    forall n | Listed(m.disk, n) ensures RangeExact(m.disk.sidecars[n].info, m.disk.closed[n]) {
      assert Listed(s.disk, n);
    }
    forall n | Listed(t.disk, n) ensures RangeExact(t.disk.sidecars[n].info, t.disk.closed[n]) {
      if n != CloseName(s.disk, k, sum, io) { assert Listed(s.disk, n); }
    }
    forall j | j in s.active ensures SegExact(s.active[j], ActiveFile(m.disk, j)) && SegExact(s.active[j], ActiveFile(t.disk, j)) {
      assert SegExact(s.active[j], ActiveFile(s.disk, j));
    }
  }

  lemma WithoutExact(s: State, k: Kind)
    requires RangesExact(s)
    ensures RangesExact(s.(active := s.active - {k}))
    ensures k !in s.active ==> RangesExact(s.(disk := s.disk.(active := s.disk.active - {k})))
  {
    var t := s.(active := s.active - {k});
    forall j | j in t.active ensures SegExact(t.active[j], ActiveFile(t.disk, j)) {
      assert SegExact(s.active[j], ActiveFile(s.disk, j));
    }
    var u := s.(disk := s.disk.(active := s.disk.active - {k}));
    SameSidecars(s.disk, t.disk);
    SameSidecars(s.disk, u.disk);
    forall j | j in u.active && j != k ensures SegExact(u.active[j], ActiveFile(u.disk, j)) {
      assert SegExact(s.active[j], ActiveFile(s.disk, j));
    }
  }

  /** Up to its close a rotated segment keeps its range, and all of it is in the file. */
  lemma DetachedExact(s: State, k: Kind, io: IO, limit: nat)
    requires RangesExact(s) && k in s.active && ActiveOk(s, k, limit) && !FlushFails(s, k, io)
    ensures RangesExact(Detached(s, k, io))
    ensures s.active[k].range == RangeOf(ReadFile(ActiveFile(Detached(s, k, io).disk, k)).recs)
  {
    FlushExact(s, k, io, limit);
    FlushActive(s, k, io, limit);
    var t := Flush(s, k, io);
    assert SegExact(t.active[k], ActiveFile(t.disk, k));
    assert ReadFile(ActiveFile(t.disk, k)).recs + [] == ReadFile(ActiveFile(t.disk, k)).recs;
    FlushKeeps(s, k, io);
    WithoutExact(t, k);
  }

  lemma RotateExact(s: State, k: Kind, io: IO, limit: nat)
    requires RangesExact(s) && NoStaleSidecar(s.disk) && (k in s.active ==> ActiveOk(s, k, limit))
    ensures RangesExact(Rotate(s, k, io)) && RangesExact(ReachedClose(s, k, io))
  {
    if k in s.active && !FlushFails(s, k, io) {
      var gone := Detached(s, k, io);
      DetachedExact(s, k, io, limit);
      if Closes(s, k, io) {
        CloseExact(gone, k, SegSummary(s.active[k]), io);
      } else {
        WithoutExact(gone, k);
      }
    }
  }

  lemma RangeSnoc(rs: seq<Record>, r: Record)
    ensures RangeOf(rs + [r]) == Widen(RangeOf(rs), r.ts)
  {
    assert (rs + [r])[..|rs|] == rs;
  }

  lemma BufferedExact(recs: seq<Record>, buf: seq<Record>, range: Bounds, r: Record)
    requires range == RangeOf(recs + buf)
    ensures Widen(range, r.ts) == RangeOf(recs + (buf + [r]))
  {
    RangeSnoc(recs + buf, r);
    assert recs + buf + [r] == recs + (buf + [r]);
  }

  lemma BufferedSegExact(s: State, k: Kind, r: Record)
    requires if k in s.active then SegExact(s.active[k], ActiveFile(s.disk, k)) else ReadFile(ActiveFile(s.disk, k)).recs == []
    ensures SegExact(Buffer(s, k, r).active[k], ActiveFile(s.disk, k))
  {
    var recs := ReadFile(ActiveFile(s.disk, k)).recs;
    BufferedExact(recs, Buffered(s, k), if k in s.active then s.active[k].range else Bounds(ZERO_TIME, ZERO_TIME), r);
  }

  lemma BufferExact(s: State, k: Kind, r: Record)
    requires RangesExact(s) && (k !in s.active ==> ReadFile(ActiveFile(s.disk, k)).recs == [])
    ensures RangesExact(Buffer(s, k, r))
  {
    var t := Buffer(s, k, r);
    BufferedSegExact(s, k, r);
    forall j | j in t.active ensures SegExact(t.active[j], ActiveFile(t.disk, j)) {
      if j != k { assert SegExact(s.active[j], ActiveFile(s.disk, j)); }
    }
  }

  lemma PushExact(s: State, k: Kind, r: Record, rot: IO)
    requires RangesExact(s) && NoStaleSidecar(s.disk) && Inv(s) && s.up
    ensures RangesExact(Push(s, k, r, rot))
  {
    assert k in s.active ==> ActiveOk(s, k, AUTO_FLUSH_RECORDS - 1);
    PushIs(s, k, r, rot);
    if NeedsRotation(s, k, r) && !Refuses(s, k, r, rot) {
      RotateExact(s, k, rot, AUTO_FLUSH_RECORDS - 1);
      RotateInv(s, k, rot, AUTO_FLUSH_RECORDS - 1);
      BufferExact(Rotate(s, k, rot), k, r);
    } else if !NeedsRotation(s, k, r) {
      BufferExact(s, k, r);
    }
  }

  lemma AppendExact(s: State, k: Kind, input: Option<Record>, rot: IO, io: IO)
    requires RangesExact(s) && NoStaleSidecar(s.disk) && Inv(s) && s.up
    requires !Append(s, k, input, rot, io).outcome.BatchDropped?
    ensures RangesExact(Append(s, k, input, rot, io).state)
  {
    if input.Some? && input.value.ts != ZERO_TIME && !Refuses(s, k, input.value, rot) {
      var t := Push(s, k, input.value, rot);
      PushExact(s, k, input.value, rot);
      PushInv(s, k, input.value, rot);
      assert ActiveOk(t, k, AUTO_FLUSH_RECORDS);
      FlushExact(t, k, io, AUTO_FLUSH_RECORDS);
    }
  }

  /** Without a process only the closed segments' sidecars count. */
  lemma DownExact(s: State, t: State)
    requires SidecarsExact(s.disk) && t.active == map[]
    requires t.disk.closed == s.disk.closed && t.disk.sidecars == s.disk.sidecars
    ensures RangesExact(t)
  {
    SameSidecars(s.disk, t.disk);
  }

  lemma ReachedExact(s: State, during: Option<InFlight>)
    requires RangesExact(s) && ListingOk(s.disk) && Inv(s) && s.up
    ensures RangesExact(Reached(s, during)) && NoStaleSidecar(Reached(s, during).disk)
  {
    if during.Some? {
      PushExact(s, during.value.k, during.value.r, during.value.rot);
      PushListing(s, during.value.k, during.value.r, during.value.rot);
    }
  }

  lemma LastWritesExact(s: State, p: CrashPoint)
    requires RangesExact(s) && NoStaleSidecar(s.disk)
    requires p.BetweenRenames? && p.k in s.active ==> ActiveOk(s, p.k, AUTO_FLUSH_RECORDS)
    ensures SidecarsExact(LastWrites(s, p).disk)
  {
    if p.BetweenRenames? {
      RotateExact(s, p.k, p.io, AUTO_FLUSH_RECORDS);
      SameSidecars(ReachedClose(s, p.k, p.io).disk, LastWrites(s, p).disk);
    } else {
      SameSidecars(s.disk, LastWrites(s, p).disk);
    }
  }

  lemma CrashExact(s: State, during: Option<InFlight>, p: CrashPoint)
    requires RangesExact(s) && ListingOk(s.disk) && Inv(s) && s.up
    ensures RangesExact(Crash(s, during, p))
  {
    ReachedExact(s, during);
    ReachedInv(s, during);
    LastWritesExact(Reached(s, during), p);
    DownExact(LastWrites(Reached(s, during), p), Crash(s, during, p));
  }

  lemma RecoverExact(s: State, k: Kind, io: IO, litter: nat)
    requires RangesExact(s) && NoStaleSidecar(s.disk) && s.active == map[]
    ensures RangesExact(Recover(s, k, io)) && RangesExact(RecoverCrash(s, k, io, litter))
  {
    if k in s.disk.active {
      var sum := RecoverySummary(s.disk.active[k]);
      CloseExact(s, k, sum, io);
      DownExact(MoveToClosed(s, k, sum, io), RecoverCrash(s, k, io, litter));
    }
  }

  lemma StepExact(s: State, op: Op)
    requires RangesExact(s) && ListingOk(s.disk) && Inv(s) && !Drops(s, op)
    ensures RangesExact(Apply(s, op))
  {
    if Enabled(s, op) {
      match op
      case DoAppend(k, input, rot, io) => AppendExact(s, k, input, rot, io);
      case DoFlush(k, io) =>
        assert k in s.active ==> ActiveOk(s, k, AUTO_FLUSH_RECORDS - 1);
        FlushExact(s, k, io, AUTO_FLUSH_RECORDS - 1);
      case DoRotate(k, io) =>
        assert k in s.active ==> ActiveOk(s, k, AUTO_FLUSH_RECORDS - 1);
        RotateExact(s, k, io, AUTO_FLUSH_RECORDS - 1);
      case DoCrash(during, p) => CrashExact(s, during, p);
      case DoRecover(k, io) => RecoverExact(s, k, io, 0);
      case DoRecoverCrash(k, io, litter) => RecoverExact(s, k, io, litter);
      case DoStart =>
    }
  }

  lemma RemoveExact(s: State, n: SegName, io: RemoveIO)
    requires RangesExact(s)
    ensures RangesExact(Remove(s, n, io))
  {
    var t := Remove(s, n, io);
    forall m | Listed(t.disk, m) ensures RangeExact(t.disk.sidecars[m].info, t.disk.closed[m]) {
      assert Listed(s.disk, m);
    }
    forall j | j in t.active ensures SegExact(t.active[j], ActiveFile(t.disk, j)) {
      assert SegExact(s.active[j], ActiveFile(s.disk, j));
    }
  }

  // ---- over whole runs --------------------------------------------------------------------

  /** The step drops a batch, or removes a segment and leaves its sidecar. */
  predicate Blurs(a: Agent, op: UpkeepOp) {
    Leaves(a, op) || (op.OfAgent? && op.op.SpoolStep? && Drops(a.spool, op.op.op))
  }

  lemma UpkeepStepExact(a: Agent, op: UpkeepOp)
    requires RangesExact(a.spool) && ListingOk(a.spool.disk) && AgentInv(a) && !Blurs(a, op)
    ensures RangesExact(UpkeepStep(a, op).spool) && ListingOk(UpkeepStep(a, op).spool.disk)
  {
    UpkeepStepListing(a, op);
    match op
    case OfAgent(SpoolStep(o)) => StepExact(a.spool, o);
    case OfAgent(RemoveNext(io)) =>
      if a.spool.up && a.pending != [] { RemoveExact(a.spool, a.pending[0], io); }
    case Retain(n, io) => RemoveExact(a.spool, n, io);
    case OfAgent(Publish(_, _, _)) =>
  }

  /** Over every run, whatever crashes: as long as no batch is dropped and no removal leaves a sidecar
      behind, the range in every listed sidecar is exactly that of its file's records. */
  lemma {:induction false} SidecarRangesAreExact(maxSegment: int, ops: seq<UpkeepOp>)
    requires forall i: nat :: i < |ops| ==> !Blurs(After(maxSegment, ops, i), ops[i])
    ensures var s := RunUpkeep(Fresh(maxSegment), ops).spool; RangesExact(s) && ListingOk(s.disk)
  {
    if ops != [] {
      var init := ops[..|ops| - 1];
      forall i: nat | i < |init| ensures !Blurs(After(maxSegment, init, i), init[i]) {
        assert init[..i] == ops[..i];
        assert !Blurs(After(maxSegment, ops, i), ops[i]);
      }
      SidecarRangesAreExact(maxSegment, init);
      UpkeepInv(maxSegment, init);
      assert !Blurs(After(maxSegment, ops, |ops| - 1), ops[|ops| - 1]);
      UpkeepStepExact(RunUpkeep(Fresh(maxSegment), init), ops[|ops| - 1]);
    }
  }

  // ---- what age means for the records -----------------------------------------------------

  ghost predicate AllBefore(rs: seq<Record>, cutoff: Time) { forall r :: r in rs ==> r.ts < cutoff }

  /** A segment that retention finds too old has only records older than the age limit. */
  lemma TooOldMeansOld(info: SegmentInfo, n: SegName, f: File, l: Limits)
    requires Describes(info, n, f) && TooOld(info, l)
    ensures l.maxAgeDays > 0 && AllBefore(ReadFile(f).recs, l.now - l.maxAgeDays * DAY)
  {
  }

  /** And with an exact range it finds exactly those too old, of the segments with records of our era. */
  lemma TooOldExactlyWhen(info: SegmentInfo, f: File, l: Limits)
    requires RangeExact(info, f) && ReadFile(f).recs != [] && forall r :: r in ReadFile(f).recs ==> r.ts > ZERO_TIME
    ensures TooOld(info, l) <==> l.maxAgeDays > 0 && AllBefore(ReadFile(f).recs, l.now - l.maxAgeDays * DAY)
  {
    var recs := ReadFile(f).recs;
    RangeIsExact(recs);
    assert recs[0] in recs;
    var i :| 0 <= i < |recs| && recs[i].ts == RangeOf(recs).maxTs;
    assert recs[i] in recs;
  }
}
