/** How large a segment file can become: over every run no file holds more than the size limit before its
    last member. */
module SpoolSize {
  import opened Common
  import opened Records
  import opened Spool
  import opened SpoolLog
  import opened SpoolCrash
  import opened EndToEnd
  import opened Upkeep

  function Limit(s: State): nat { if s.maxSegment < 0 then 0 else s.maxSegment }

  /** All members but the last are within the limit. */
  ghost predicate FileCapped(f: File, limit: nat) { f != [] ==> FileBytes(f[..|f| - 1]) <= limit }

  /** Without the newest buffered record the file and the buffer are within the limit. */
  ghost predicate SegCapped(a: ActiveSeg, limit: nat) {
    a.buf != [] ==> a.size + a.rawBuffered <= limit + a.buf[|a.buf| - 1].bytes
  }

  ghost predicate FilesCapped(d: Disk, limit: nat) {
    && (forall k :: k in d.active ==> FileCapped(d.active[k], limit))
    && (forall n :: n in d.closed ==> FileCapped(d.closed[n], limit))
  }

  ghost predicate SegsCapped(active: map<Kind, ActiveSeg>, limit: nat) {
    forall k :: k in active ==> SegCapped(active[k], limit)
  }

  ghost predicate Capped(s: State) { FilesCapped(s.disk, Limit(s)) && SegsCapped(s.active, Limit(s)) }

  // ---- every step keeps it ----------------------------------------------------------------

  lemma AppendedCapped(f: File, m: Member, limit: nat)
    requires FileBytes(f) <= limit
    ensures FileCapped(f + [m], limit)
  {
    assert (f + [m])[..|f|] == f;
  }

  lemma LastIsCounted(rs: seq<Record>)
    requires rs != []
    ensures rs[|rs| - 1].bytes <= RawBytes(rs)
  {
  }

  /** A segment with something buffered can still be written to. */
  lemma FileHasRoom(s: State, k: Kind, limit: nat)
    requires k in s.active && ActiveOk(s, k, limit) && SegCapped(s.active[k], Limit(s)) && s.active[k].buf != []
    ensures FileBytes(ActiveFile(s.disk, k)) <= Limit(s)
  {
    LastIsCounted(s.active[k].buf);
  }

  lemma WrittenCapped(s: State, k: Kind, limit: nat, m: Member)
    requires k in s.active && ActiveOk(s, k, limit) && Capped(s) && s.active[k].buf != []
    ensures FilesCapped(s.disk.(active := s.disk.active[k := ActiveFile(s.disk, k) + [m]]), Limit(s))
  {
    FileHasRoom(s, k, limit);
    AppendedCapped(ActiveFile(s.disk, k), m, Limit(s));
  }

  lemma FlushCapped(s: State, k: Kind, io: IO, limit: nat)
    requires Capped(s) && (k in s.active ==> ActiveOk(s, k, limit))
    ensures Capped(Flush(s, k, io)) && Flush(s, k, io).maxSegment == s.maxSegment
  {
    if k in s.active && s.active[k].buf != [] {
      WrittenCapped(s, k, limit, Complete(s.active[k].buf, io.memberBytes));
    }
  }

  lemma CloseCapped(s: State, k: Kind, sum: Summary, io: IO)
    requires Capped(s) && k in s.disk.active
    ensures Capped(MoveToClosed(s, k, sum, io)) && Capped(CloseFile(s, k, sum, io))
  {
  }

  lemma DetachedCapped(s: State, k: Kind, io: IO, limit: nat)
    requires Capped(s) && (k in s.active ==> ActiveOk(s, k, limit))
    ensures Capped(Detached(s, k, io)) && Detached(s, k, io).maxSegment == s.maxSegment
  {
    FlushCapped(s, k, io, limit);
  }

  lemma RotateCapped(s: State, k: Kind, io: IO, limit: nat)
    requires Capped(s) && (k in s.active ==> ActiveOk(s, k, limit))
    ensures Capped(Rotate(s, k, io)) && Rotate(s, k, io).maxSegment == s.maxSegment
    ensures Capped(ReachedClose(s, k, io)) && ReachedClose(s, k, io).maxSegment == s.maxSegment
  {
    if k in s.active {
      var gone := Detached(s, k, io);
      DetachedCapped(s, k, io, limit);
      if k in gone.disk.active { CloseCapped(gone, k, SegSummary(s.active[k]), io); }
    }
  }

  lemma BufferCapped(s: State, k: Kind, r: Record)
    requires Capped(s) && (k in s.active ==> s.active[k].size + s.active[k].rawBuffered <= s.maxSegment)
    ensures Capped(Buffer(s, k, r)) && Buffer(s, k, r).maxSegment == s.maxSegment
  {
  }

  lemma PushCapped(s: State, k: Kind, r: Record, rot: IO)
    requires Capped(s) && Inv(s) && s.up
    ensures Capped(Push(s, k, r, rot)) && Push(s, k, r, rot).maxSegment == s.maxSegment
  {
    assert k in s.active ==> ActiveOk(s, k, AUTO_FLUSH_RECORDS - 1);
    PushIs(s, k, r, rot);
    if NeedsRotation(s, k, r) && !Refuses(s, k, r, rot) {
      RotateCapped(s, k, rot, AUTO_FLUSH_RECORDS - 1);
      RotateInv(s, k, rot, AUTO_FLUSH_RECORDS - 1);
      BufferCapped(Rotate(s, k, rot), k, r);
    } else if !NeedsRotation(s, k, r) {
      BufferCapped(s, k, r);
    }
  }

  lemma AutoFlushCapped(s: State, k: Kind, io: IO)
    requires Capped(s) && k in s.active && ActiveOk(s, k, AUTO_FLUSH_RECORDS)
    ensures Capped(AutoFlush(s, k, io).state) && AutoFlush(s, k, io).state.maxSegment == s.maxSegment
  {
    FlushCapped(s, k, io, AUTO_FLUSH_RECORDS);
  }

  lemma AppendCapped(s: State, k: Kind, input: Option<Record>, rot: IO, io: IO)
    requires Capped(s) && Inv(s) && s.up
    ensures Capped(Append(s, k, input, rot, io).state) && Append(s, k, input, rot, io).state.maxSegment == s.maxSegment
  {
    if input.Some? && input.value.ts != ZERO_TIME && !Refuses(s, k, input.value, rot) {
      PushCapped(s, k, input.value, rot);
      PushInv(s, k, input.value, rot);
      assert ActiveOk(Push(s, k, input.value, rot), k, AUTO_FLUSH_RECORDS);
      AutoFlushCapped(Push(s, k, input.value, rot), k, io);
    }
  }

  lemma LastWritesCapped(s: State, p: CrashPoint)
    requires Capped(s) && InvUpTo(s, AUTO_FLUSH_RECORDS) && s.up
    ensures FilesCapped(LastWrites(s, p).disk, Limit(s)) && LastWrites(s, p).maxSegment == s.maxSegment
  {
    match p
    case AtRest =>
    case InFlush(k, n, bytes) =>
      if k in s.active && s.active[k].buf != [] {
        assert ActiveOk(s, k, AUTO_FLUSH_RECORDS);
        var kept := s.active[k].buf[..if n < |s.active[k].buf| then n else |s.active[k].buf|];
        WrittenCapped(s, k, AUTO_FLUSH_RECORDS, Torn(kept, bytes));
      }
    case AfterWrite(k, bytes) =>
      if k in s.active && s.active[k].buf != [] {
        assert ActiveOk(s, k, AUTO_FLUSH_RECORDS);
        WrittenCapped(s, k, AUTO_FLUSH_RECORDS, Complete(s.active[k].buf, bytes));
      }
    case BetweenRenames(k, io, litter) =>
      assert k in s.active ==> ActiveOk(s, k, AUTO_FLUSH_RECORDS);
      RotateCapped(s, k, io, AUTO_FLUSH_RECORDS);
  }

  lemma ReachedCapped(s: State, during: Option<InFlight>)
    requires Capped(s) && Inv(s) && s.up
    ensures Capped(Reached(s, during)) && Reached(s, during).maxSegment == s.maxSegment
  {
    if during.Some? { PushCapped(s, during.value.k, during.value.r, during.value.rot); }
  }

  lemma CrashCapped(s: State, during: Option<InFlight>, p: CrashPoint)
    requires Capped(s) && Inv(s) && s.up
    ensures Capped(Crash(s, during, p)) && Crash(s, during, p).maxSegment == s.maxSegment
  {
    ReachedCapped(s, during);
    ReachedInv(s, during);
    LastWritesCapped(Reached(s, during), p);
  }

  lemma RecoverCapped(s: State, k: Kind, io: IO, litter: nat)
    requires Capped(s)
    ensures Capped(Recover(s, k, io)) && Recover(s, k, io).maxSegment == s.maxSegment
    ensures Capped(RecoverCrash(s, k, io, litter)) && RecoverCrash(s, k, io, litter).maxSegment == s.maxSegment
  {
    if k in s.disk.active { CloseCapped(s, k, RecoverySummary(s.disk.active[k]), io); }
  }

  lemma RemoveCapped(s: State, n: SegName, io: RemoveIO)
    requires Capped(s)
    ensures Capped(Remove(s, n, io)) && Remove(s, n, io).maxSegment == s.maxSegment
  {
  }

  lemma StepCapped(s: State, op: Op)
    requires Capped(s) && Inv(s)
    ensures Capped(Apply(s, op)) && Apply(s, op).maxSegment == s.maxSegment
  {
    if Enabled(s, op) {
      match op
      case DoAppend(k, input, rot, io) => AppendCapped(s, k, input, rot, io);
      case DoFlush(k, io) =>
        assert k in s.active ==> ActiveOk(s, k, AUTO_FLUSH_RECORDS - 1);
        FlushCapped(s, k, io, AUTO_FLUSH_RECORDS - 1);
      case DoRotate(k, io) =>
        assert k in s.active ==> ActiveOk(s, k, AUTO_FLUSH_RECORDS - 1);
        RotateCapped(s, k, io, AUTO_FLUSH_RECORDS - 1);
      case DoCrash(during, p) => CrashCapped(s, during, p);
      case DoRecover(k, io) => RecoverCapped(s, k, io, 0);
      case DoRecoverCrash(k, io, litter) => RecoverCapped(s, k, io, litter);
      case DoStart =>
    }
  }

  lemma UpkeepStepCapped(a: Agent, op: UpkeepOp)
    requires Capped(a.spool) && AgentInv(a)
    ensures Capped(UpkeepStep(a, op).spool) && UpkeepStep(a, op).spool.maxSegment == a.spool.maxSegment
  {
    match op
    case OfAgent(SpoolStep(o)) => StepCapped(a.spool, o);
    case OfAgent(RemoveNext(io)) =>
      if a.spool.up && a.pending != [] { RemoveCapped(a.spool, a.pending[0], io); }
    case Retain(n, io) => RemoveCapped(a.spool, n, io);
    case OfAgent(Publish(_, _, _)) =>
  }

  /** Over every run of the agent, with crashes, recoveries, exports and retention at any point, no segment
      file, open or closed, holds more than the limit before its last member: what passes the limit is one
      member at most. */
  lemma {:induction false} SegmentsAreCapped(maxSegment: int, ops: seq<UpkeepOp>)
    ensures var s := RunUpkeep(Fresh(maxSegment), ops).spool; s.maxSegment == maxSegment && Capped(s)
  {
    if ops != [] {
      SegmentsAreCapped(maxSegment, ops[..|ops| - 1]);
      UpkeepInv(maxSegment, ops[..|ops| - 1]);
      UpkeepStepCapped(RunUpkeep(Fresh(maxSegment), ops[..|ops| - 1]), ops[|ops| - 1]);
    }
  }
}
