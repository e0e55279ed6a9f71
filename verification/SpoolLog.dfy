/** The spool is a log per kind: the invariant of every run, and the refinement of a plain ledger. */
module SpoolLog {
  import opened Common
  import opened Records
  import opened Spool

  // ---- the abstraction --------------------------------------------------------------------

  function ClosedLog(closed: map<SegName, File>, order: seq<SegName>, k: Kind): seq<Record> {
    if order == [] then []
    else
      var last := order[|order| - 1];
      ClosedLog(closed, order[..|order| - 1], k)
      + (if last.kind == k && last in closed then ReadFile(closed[last]).recs else [])
  }

  /** What is safe from a crash: the closed segments in closing order, then the active file. */
  function DurableLog(s: State, k: Kind): seq<Record> {
    ClosedLog(s.disk.closed, s.order, k) + ReadFile(ActiveFile(s.disk, k)).recs
  }

  function Buffered(s: State, k: Kind): seq<Record> { if k in s.active then s.active[k].buf else [] }

  /** The one logical sequence a kind's records form. */
  function Log(s: State, k: Kind): seq<Record> { DurableLog(s, k) + Buffered(s, k) }

  // ---- the invariant ----------------------------------------------------------------------

  predicate Dated(r: Record, date: int) { r.ts != ZERO_TIME && DateOf(r.ts) == date }

  predicate Within(r: Record, b: Bounds) { b.minTs <= r.ts <= b.maxTs }

  /** An open segment: bounded buffer, intact file, exact counters, one UTC date, bracketing range. */
  ghost predicate SegOk(a: ActiveSeg, f: File, limit: nat) {
    && |a.buf| <= limit
    && AllComplete(f)
    && a.records == |ReadFile(f).recs| + |a.buf|
    && (forall r :: r in ReadFile(f).recs ==> Dated(r, a.date) && Within(r, a.range))
    && (forall r :: r in a.buf ==> Dated(r, a.date) && Within(r, a.range))
    && a.size == FileBytes(f)
    && RawBytes(a.buf) <= a.rawBuffered
    && a.range.minTs != ZERO_TIME && DateOf(a.range.minTs) == a.date
  }

  ghost predicate ActiveOk(s: State, k: Kind, limit: nat)
    requires k in s.active
  {
    SegOk(s.active[k], ActiveFile(s.disk, k), limit)
  }

  ghost predicate OneDate(rs: seq<Record>) {
    forall r :: r in rs ==> r.ts != ZERO_TIME && DateOf(r.ts) == DateOf(rs[0].ts)
  }

  /** A file that a dead process left in active/. */
  ghost predicate LeftOverOk(f: File) { TornOnlyLast(f) && OneDate(ReadFile(f).recs) }

  ghost predicate Unique(names: seq<SegName>) { forall i, j :: 0 <= i < j < |names| ==> names[i] != names[j] }

  /** A sidecar names the segment it lies beside. */
  ghost predicate NamesOk(d: Disk) {
    forall n :: n in d.sidecars ==> d.sidecars[n].info.name == n
  }

  ghost predicate ClosedOk(s: State) {
    && Unique(s.order)
    && (forall n :: n in s.order <==> n in s.disk.closed)
    && (forall n :: n in s.disk.closed ==>
          TornOnlyLast(s.disk.closed[n]) && forall r :: r in ReadFile(s.disk.closed[n]).recs ==> Dated(r, n.date))
    && NamesOk(s.disk)
  }

  /** `limit` is how many records a buffer may hold: 511 between calls, 512 inside Append. */
  ghost predicate InvUpTo(s: State, limit: nat) {
    && ClosedOk(s)
    && (s.up ==> forall k :: k in s.disk.active ==> k in s.active)
    && (forall k :: k in s.active ==> ActiveOk(s, k, limit))
    && (!s.up ==> s.active == map[] && forall k :: k in s.disk.active ==> LeftOverOk(s.disk.active[k]))
  }

  ghost predicate Inv(s: State) { InvUpTo(s, AUTO_FLUSH_RECORDS - 1) }

  /** A segment is listed when its sidecar is there too. */
  predicate Listed(d: Disk, n: SegName) { n in d.closed && n in d.sidecars }

  /** A segment that listing will never see. */
  predicate Orphan(d: Disk, n: SegName) { n in d.closed && n !in d.sidecars }

  ghost predicate Describes(info: SegmentInfo, n: SegName, f: File) {
    && info.name == n && info.kind == n.kind
    && info.records == |ReadFile(f).recs|
    && info.sizeBytes == FileBytes(f)
    && forall r :: r in ReadFile(f).recs ==> info.minTs <= r.ts <= info.maxTs
  }

  ghost predicate Accurate(d: Disk) {
    forall n :: Listed(d, n) ==> Describes(d.sidecars[n].info, n, d.closed[n])
  }

  ghost predicate NoStaleSidecar(d: Disk) { forall n :: n in d.sidecars ==> n in d.closed }

  // ---- lemmas about the pieces ------------------------------------------------------------

  lemma {:induction false} ClosedLogFrame(c1: map<SegName, File>, c2: map<SegName, File>, order: seq<SegName>, k: Kind)
    requires forall n :: n in order && n.kind == k ==> (n in c1 <==> n in c2) && (n in c1 ==> c1[n] == c2[n])
    ensures ClosedLog(c1, order, k) == ClosedLog(c2, order, k)
  {
    if order != [] {
      ClosedLogFrame(c1, c2, order[..|order| - 1], k);
    }
  }

  lemma ClosedLogAdded(c: map<SegName, File>, order: seq<SegName>, n: SegName, f: File, k: Kind)
    requires n !in order
    ensures ClosedLog(c[n := f], order + [n], k)
         == ClosedLog(c, order, k) + if n.kind == k then ReadFile(f).recs else []
  {
    assert (order + [n])[..|order|] == order;
    ClosedLogFrame(c, c[n := f], order, k);
  }

  lemma {:induction false} RangeBrackets(rs: seq<Record>)
    requires forall r :: r in rs ==> r.ts != ZERO_TIME
    ensures forall r :: r in rs ==> Within(r, RangeOf(rs))
    ensures rs != [] ==> exists r :: r in rs && r.ts == RangeOf(rs).minTs
  {
    if rs != [] {
      var init, last := rs[..|rs| - 1], rs[|rs| - 1];
      assert rs == init + [last];
      RangeBrackets(init);
      assert last in rs;
    }
  }

  // ---- every step keeps the invariant -----------------------------------------------------

  lemma FlushLog(s: State, k: Kind, io: IO, limit: nat, j: Kind)
    requires k in s.active ==> ActiveOk(s, k, limit)
    ensures Log(Flush(s, k, io), j) == Log(s, j)
    ensures DurableLog(Flush(s, k, io), j) == DurableLog(s, j)
         || DurableLog(Flush(s, k, io), j) == Log(s, j)
  {
    if k in s.active && j == k {
      ReadAppended(ActiveFile(s.disk, k), Complete(s.active[k].buf, io.memberBytes));
      var closed, recs := ClosedLog(s.disk.closed, s.order, k), ReadFile(ActiveFile(s.disk, k)).recs;
      assert closed + (recs + s.active[k].buf) + [] == closed + recs + s.active[k].buf;
    }
  }

  lemma FlushActive(s: State, k: Kind, io: IO, limit: nat)
    requires k in s.active && ActiveOk(s, k, limit)
    ensures k in Flush(s, k, io).active && ActiveOk(Flush(s, k, io), k, limit)
    ensures !FlushFails(s, k, io) ==> Flush(s, k, io).active[k].buf == []
  {
    var f, m := ActiveFile(s.disk, k), Complete(s.active[k].buf, io.memberBytes);
    ReadAppended(f, m);
    BytesAppended(f, m);
  }

  lemma FlushInv(s: State, k: Kind, io: IO, limit: nat)
    requires InvUpTo(s, limit)
    ensures InvUpTo(Flush(s, k, io), limit)
  {
    var t := Flush(s, k, io);
    if t != s {
      FlushActive(s, k, io, limit);
      forall j | j in t.active ensures ActiveOk(t, j, limit) {
        if j != k { assert ActiveOk(s, j, limit); }
      }
    }
  }

  /** The invariant while kind `k` is between its counters and its file. */
  ghost predicate InvExcept(s: State, limit: nat, k: Kind) {
    && ClosedOk(s)
    && k !in s.active
    && (s.up ==> forall j :: j in s.disk.active && j != k ==> j in s.active)
    && (forall j :: j in s.active ==> ActiveOk(s, j, limit))
    && (!s.up ==> s.active == map[] && forall j :: j in s.disk.active && j != k ==> LeftOverOk(s.disk.active[j]))
  }

  lemma ActiveAfterMove(s: State, k: Kind, sum: Summary, io: IO, j: Kind)
    requires k in s.disk.active
    ensures ActiveFile(MoveToClosed(s, k, sum, io).disk, j) == if j == k then [] else ActiveFile(s.disk, j)
  {
  }

  lemma MovedReads(closed: seq<Record>, moved: seq<Record>, active: seq<Record>, same: bool)
    requires same ==> moved == active
    ensures closed + (if same then moved else []) + (if same then [] else active) == closed + active
  {
  }

  lemma MoveLog(s: State, k: Kind, sum: Summary, io: IO, j: Kind)
    requires ClosedOk(s) && k in s.disk.active
    ensures DurableLog(MoveToClosed(s, k, sum, io), j) == DurableLog(s, j)
  {
    var name, file := CloseName(s.disk, k, sum, io), s.disk.active[k];
    assert name !in s.order;
    ClosedLogAdded(s.disk.closed, s.order, name, file, j);
    ActiveAfterMove(s, k, sum, io, j);
    MovedReads(ClosedLog(s.disk.closed, s.order, j), ReadFile(file).recs, ReadFile(ActiveFile(s.disk, j)).recs, j == k);
  }

  lemma CloseLog(s: State, k: Kind, sum: Summary, io: IO, j: Kind)
    requires ClosedOk(s) && k in s.disk.active
    ensures DurableLog(MoveToClosed(s, k, sum, io), j) == DurableLog(s, j)
    ensures DurableLog(CloseFile(s, k, sum, io), j) == DurableLog(s, j)
  {
    MoveLog(s, k, sum, io, j);
    var m, c := MoveToClosed(s, k, sum, io), CloseFile(s, k, sum, io);
    assert c.disk.closed == m.disk.closed && c.order == m.order && c.disk.active == m.disk.active;
  }

  lemma CloseInv(s: State, k: Kind, sum: Summary, io: IO, limit: nat)
    requires InvExcept(s, limit, k) && k in s.disk.active && TornOnlyLast(s.disk.active[k])
    requires forall r :: r in ReadFile(s.disk.active[k]).recs ==> Dated(r, CloseName(s.disk, k, sum, io).date)
    ensures InvUpTo(MoveToClosed(s, k, sum, io), limit)
    ensures InvUpTo(CloseFile(s, k, sum, io), limit)
  {
    var t := MoveToClosed(s, k, sum, io);
    assert ClosedOk(t) by {
      var name := CloseName(s.disk, k, sum, io);
      assert name !in s.order;
      forall n ensures n in t.order <==> n in t.disk.closed {
        assert n in t.order <==> n in s.order || n == name;
      }
    }
    forall j | j in t.active ensures ActiveOk(t, j, limit) {
      assert ActiveOk(s, j, limit);
    }
    var u := CloseFile(s, k, sum, io);
    forall j | j in u.active ensures ActiveOk(u, j, limit) {
      assert ActiveOk(t, j, limit);
    }
  }

  /** After the flush of a rotation the file alone holds what the counters describe. */
  lemma DetachedFile(s: State, k: Kind, io: IO, limit: nat)
    requires k in s.active && ActiveOk(s, k, limit) && !FlushFails(s, k, io)
    ensures var f := ActiveFile(Detached(s, k, io).disk, k);
            && AllComplete(f)
            && |ReadFile(f).recs| == s.active[k].records
            && (forall r :: r in ReadFile(f).recs ==> Dated(r, s.active[k].date) && Within(r, s.active[k].range))
            && s.active[k].range.minTs != ZERO_TIME && DateOf(s.active[k].range.minTs) == s.active[k].date
  {
    FlushActive(s, k, io, limit);
    assert SegOk(Flush(s, k, io).active[k], ActiveFile(Detached(s, k, io).disk, k), limit);
  }

  lemma WithoutActive(s: State, k: Kind, limit: nat)
    requires InvUpTo(s, limit) && s.up && k in s.active
    ensures InvExcept(s.(active := s.active - {k}), limit, k)
  {
    var gone := s.(active := s.active - {k});
    forall j | j in gone.active ensures ActiveOk(gone, j, limit) {
      assert ActiveOk(s, j, limit);
    }
    assert ClosedOk(gone);
  }

  lemma DetachedInv(s: State, k: Kind, io: IO, limit: nat)
    requires InvUpTo(s, limit) && s.up && k in s.active && !FlushFails(s, k, io)
    ensures InvExcept(Detached(s, k, io), limit, k)
  {
    FlushInv(s, k, io, limit);
    FlushKeeps(s, k, io);
    WithoutActive(Flush(s, k, io), k, limit);
  }

  lemma FlushKeeps(s: State, k: Kind, io: IO)
    requires k in s.active
    ensures k in Flush(s, k, io).active && Flush(s, k, io).up == s.up
    ensures Detached(s, k, io) == Flush(s, k, io).(active := Flush(s, k, io).active - {k})
  {
    assert Flush(s, k, io).active - {k} == s.active - {k};
  }

  /** A segment with records to its name has a file once it is flushed. */
  lemma RecordsMeanFile(s: State, k: Kind, io: IO)
    requires k in s.active && ActiveOk(s, k, AUTO_FLUSH_RECORDS - 1) && !FlushFails(s, k, io)
    ensures s.active[k].records != 0 <==> Closes(s, k, io)
  {
    DetachedFile(s, k, io, AUTO_FLUSH_RECORDS - 1);
  }

  lemma DetachedLog(s: State, k: Kind, io: IO, limit: nat, j: Kind)
    requires InvUpTo(s, limit) && s.up && k in s.active && !FlushFails(s, k, io)
    ensures Log(Detached(s, k, io), j) == Log(s, j)
  {
    FlushLog(s, k, io, limit, j);
    FlushActive(s, k, io, limit);
    var flushed, gone := Flush(s, k, io), Detached(s, k, io);
    assert DurableLog(gone, j) == DurableLog(flushed, j);
    assert Buffered(gone, j) == Buffered(flushed, j);
  }

  lemma RotateInv(s: State, k: Kind, io: IO, limit: nat)
    requires InvUpTo(s, limit) && s.up
    ensures InvUpTo(Rotate(s, k, io), limit) && InvUpTo(ReachedClose(s, k, io), limit)
    ensures !FlushFails(s, k, io) ==> k !in Rotate(s, k, io).active && k !in Rotate(s, k, io).disk.active
  {
    if k in s.active && !FlushFails(s, k, io) {
      DetachedInv(s, k, io, limit);
      DetachedFile(s, k, io, limit);
      var gone, t := Detached(s, k, io), Rotate(s, k, io);
      if Closes(s, k, io) {
        CloseInv(gone, k, SegSummary(s.active[k]), io, limit);
      } else {
        forall j | j in t.active ensures ActiveOk(t, j, limit) {
          assert ActiveOk(gone, j, limit);
        }
        assert ClosedOk(t);
      }
    }
  }

  lemma RotateLog(s: State, k: Kind, io: IO, limit: nat, j: Kind)
    requires InvUpTo(s, limit) && s.up
    ensures Log(Rotate(s, k, io), j) == Log(s, j) && Log(ReachedClose(s, k, io), j) == Log(s, j)
  {
    if k in s.active && !FlushFails(s, k, io) {
      DetachedInv(s, k, io, limit);
      DetachedFile(s, k, io, limit);
      DetachedLog(s, k, io, limit, j);
      if Closes(s, k, io) {
        CloseLog(Detached(s, k, io), k, SegSummary(s.active[k]), io, j);
      }
    }
  }

  lemma BufferActive(s: State, k: Kind, r: Record, limit: nat)
    requires r.ts != ZERO_TIME
    requires if k in s.active then ActiveOk(s, k, limit) && s.active[k].date == DateOf(r.ts) else k !in s.disk.active
    ensures ActiveOk(Buffer(s, k, r), k, limit + 1)
    ensures Buffer(s, k, r).active[k].buf == Buffered(s, k) + [r]
  {
    var a := Buffer(s, k, r).active[k];
    assert a.buf[..|a.buf| - 1] == Buffered(s, k);
  }

  lemma PushInv(s: State, k: Kind, r: Record, rot: IO)
    requires Inv(s) && s.up && r.ts != ZERO_TIME
    ensures InvUpTo(Push(s, k, r, rot), AUTO_FLUSH_RECORDS)
    ensures Push(s, k, r, rot).up
    ensures !Refuses(s, k, r, rot) ==> k in Push(s, k, r, rot).active
  {
    var t := Push(s, k, r, rot);
    if !Refuses(s, k, r, rot) {
      RotateInv(s, k, rot, AUTO_FLUSH_RECORDS - 1);
      var s0 := if NeedsRotation(s, k, r) then Rotate(s, k, rot) else s;
      BufferActive(s0, k, r, AUTO_FLUSH_RECORDS - 1);
      forall j | j in t.active ensures ActiveOk(t, j, AUTO_FLUSH_RECORDS) {
        if j != k { assert ActiveOk(s0, j, AUTO_FLUSH_RECORDS - 1); }
      }
    } else {
      forall j | j in t.active ensures ActiveOk(t, j, AUTO_FLUSH_RECORDS) {
        assert ActiveOk(s, j, AUTO_FLUSH_RECORDS - 1);
      }
    }
  }

  lemma BufferLog(s: State, k: Kind, r: Record, j: Kind)
    ensures Log(Buffer(s, k, r), j) == Log(s, j) + if j == k then [r] else []
  {
    assert DurableLog(Buffer(s, k, r), j) == DurableLog(s, j);
  }

  /** A push that is not refused buffers the record, after the rotation it may need. */
  lemma PushIs(s: State, k: Kind, r: Record, rot: IO)
    ensures Push(s, k, r, rot) ==
            if Refuses(s, k, r, rot) then s
            else if NeedsRotation(s, k, r) then Buffer(Rotate(s, k, rot), k, r)
            else Buffer(s, k, r)
  {
  }

  lemma RotatedPushLog(s: State, k: Kind, r: Record, rot: IO, j: Kind)
    requires Inv(s) && s.up
    ensures Log(Buffer(Rotate(s, k, rot), k, r), j) == Log(s, j) + if j == k then [r] else []
    ensures Buffer(Rotate(s, k, rot), k, r).dropped == s.dropped
  {
    RotateLog(s, k, rot, AUTO_FLUSH_RECORDS - 1, j);
    BufferLog(Rotate(s, k, rot), k, r, j);
  }

  lemma PushLog(s: State, k: Kind, r: Record, rot: IO, j: Kind)
    requires Inv(s) && s.up && r.ts != ZERO_TIME
    ensures Log(Push(s, k, r, rot), j) == Log(s, j) + if j == k && !Refuses(s, k, r, rot) then [r] else []
    ensures Push(s, k, r, rot).dropped == s.dropped
  {
    PushIs(s, k, r, rot);
    RotatedPushLog(s, k, r, rot, j);
    BufferLog(s, k, r, j);
  }

  lemma AutoFlushActive(s: State, k: Kind, io: IO)
    requires k in s.active && ActiveOk(s, k, AUTO_FLUSH_RECORDS)
    ensures k in AutoFlush(s, k, io).state.active
    ensures ActiveOk(AutoFlush(s, k, io).state, k, AUTO_FLUSH_RECORDS - 1)
  {
    FlushActive(s, k, io, AUTO_FLUSH_RECORDS);
  }

  lemma AutoFlushInv(s: State, k: Kind, io: IO)
    requires InvUpTo(s, AUTO_FLUSH_RECORDS) && s.up && k in s.active
    requires forall j :: j in s.active && j != k ==> |s.active[j].buf| < AUTO_FLUSH_RECORDS
    ensures Inv(AutoFlush(s, k, io).state)
  {
    var t := AutoFlush(s, k, io).state;
    AutoFlushActive(s, k, io);
    forall j | j in t.active && j != k ensures ActiveOk(t, j, AUTO_FLUSH_RECORDS - 1) {
      assert ActiveOk(s, j, AUTO_FLUSH_RECORDS);
    }
    assert ClosedOk(t);
  }

  lemma AppendInv(s: State, k: Kind, input: Option<Record>, rot: IO, io: IO)
    requires Inv(s) && s.up
    ensures Inv(Append(s, k, input, rot, io).state)
  {
    if input.Some? && input.value.ts != ZERO_TIME && !Refuses(s, k, input.value, rot) {
      PushInv(s, k, input.value, rot);
      forall j { OthersShort(s, k, input.value, rot, j); }
      AutoFlushInv(Push(s, k, input.value, rot), k, io);
    }
  }

  /** Only the kind being appended to can reach the flush limit. */
  lemma OthersShort(s: State, k: Kind, r: Record, rot: IO, j: Kind)
    requires Inv(s)
    ensures j != k && j in Push(s, k, r, rot).active ==> |Push(s, k, r, rot).active[j].buf| < AUTO_FLUSH_RECORDS
  {
    if j != k && j in s.active { assert ActiveOk(s, j, AUTO_FLUSH_RECORDS - 1); }
  }

  function WithoutLast(rs: seq<Record>, n: nat): seq<Record> {
    if n <= |rs| then rs[..|rs| - n] else []
  }

  /** What one append makes of a kind's log, by its outcome. */
  function AfterAppend(log: seq<Record>, input: Option<Record>, outcome: Outcome): seq<Record> {
    match outcome
    case Taken => if input.Some? then log + [input.value] else log
    case BatchDropped(n) => if input.Some? then WithoutLast(log + [input.value], n) else log
    case _ => log
  }

  function DroppedBy(outcome: Outcome): nat { if outcome.BatchDropped? then outcome.count else 0 }

  lemma AutoFlushLog(s: State, k: Kind, io: IO, j: Kind)
    requires k in s.active && ActiveOk(s, k, AUTO_FLUSH_RECORDS)
    ensures var res := AutoFlush(s, k, io);
            && (res.outcome == Taken || res.outcome == BatchDropped(|s.active[k].buf|))
            && res.state.dropped == s.dropped + DroppedBy(res.outcome)
            && (j != k || res.outcome == Taken ==> Log(res.state, j) == Log(s, j))
            && (j == k && res.outcome != Taken ==> Log(res.state, j) == WithoutLast(Log(s, j), |s.active[k].buf|))
  {
    var res := AutoFlush(s, k, io);
    if res.outcome == Taken {
      FlushLog(s, k, io, AUTO_FLUSH_RECORDS, j);
    } else {
      assert DurableLog(res.state, j) == DurableLog(s, j);
    }
  }

  lemma AppendPasses(s: State, k: Kind, r: Record, rot: IO, io: IO, j: Kind)
    requires Inv(s) && s.up && r.ts != ZERO_TIME && !Refuses(s, k, r, rot)
    ensures k in Push(s, k, r, rot).active
    ensures var res := AutoFlush(Push(s, k, r, rot), k, io);
            && Log(res.state, j) == (if j == k then AfterAppend(Log(s, j), Some(r), res.outcome) else Log(s, j))
            && res.state.dropped == s.dropped + DroppedBy(res.outcome)
            && (res.outcome == Taken || res.outcome.BatchDropped?)
  {
    PushInv(s, k, r, rot);
    PushLog(s, k, r, rot, j);
    AutoFlushLog(Push(s, k, r, rot), k, io, j);
  }

  /** The open segment has the record's UTC date and its file and buffer are within the size limit. */
  predicate HasRoom(s: State, k: Kind, r: Record)
    requires k in s.active
  {
    s.active[k].date == DateOf(r.ts) && s.active[k].size + s.active[k].rawBuffered <= s.maxSegment
  }

  /** When Append refuses a record, and when it drops the batch, which is then a full one. */
  ghost predicate OutcomeFits(s: State, k: Kind, r: Record, rot: IO, io: IO, outcome: Outcome) {
    && (outcome == Refused <==> k in s.active && !HasRoom(s, k, r) && s.active[k].buf != [] && !rot.writeOk)
    && (outcome.BatchDropped? <==>
          k in s.active && HasRoom(s, k, r) && |s.active[k].buf| == AUTO_FLUSH_RECORDS - 1 && !io.writeOk)
    && (outcome.BatchDropped? ==> outcome.count == AUTO_FLUSH_RECORDS)
  }

  /** The buffer to which the record comes, once any rotation is done. */
  lemma PushBuffer(s: State, k: Kind, r: Record, rot: IO)
    requires !Refuses(s, k, r, rot)
    ensures k in Push(s, k, r, rot).active
    ensures Push(s, k, r, rot).active[k].buf == (if NeedsRotation(s, k, r) then [] else Buffered(s, k)) + [r]
    ensures Push(s, k, r, rot).active[k].rawBuffered
         == (if NeedsRotation(s, k, r) then 0 else RawBuffered(s, k)) + r.bytes
  {
  }

  lemma OutcomeIsFit(s: State, k: Kind, r: Record, rot: IO, io: IO)
    requires Inv(s) && s.up && r.ts != ZERO_TIME
    ensures OutcomeFits(s, k, r, rot, io, Append(s, k, Some(r), rot, io).outcome)
  {
    assert k in s.active ==> ActiveOk(s, k, AUTO_FLUSH_RECORDS - 1);
    if !Refuses(s, k, r, rot) { PushBuffer(s, k, r, rot); }
  }

  /** What Append does to the log: it appends the record, or cuts out exactly the dropped batch and
      counts it, or rejects or refuses the record and changes nothing; and exactly when. */
  lemma AppendLog(s: State, k: Kind, input: Option<Record>, rot: IO, io: IO, j: Kind)
    requires Inv(s) && s.up
    ensures var res := Append(s, k, input, rot, io);
            && Log(res.state, j) == (if j == k then AfterAppend(Log(s, j), input, res.outcome) else Log(s, j))
            && res.state.dropped == s.dropped + DroppedBy(res.outcome)
            && (res.outcome == Rejected <==> input.None? || input.value.ts == ZERO_TIME)
            && (res.outcome != Rejected ==> OutcomeFits(s, k, input.value, rot, io, res.outcome))
            && (res.outcome == Rejected || res.outcome == Refused ==> res.state == s)
  {
    if input.Some? && input.value.ts != ZERO_TIME {
      OutcomeIsFit(s, k, input.value, rot, io);
      if !Refuses(s, k, input.value, rot) {
        AppendPasses(s, k, input.value, rot, io, j);
      }
    }
  }

  /** The segment that the record came to, and what became of the closed ones. */
  ghost predicate JoinsAsDue(s: State, k: Kind, r: Record, rot: IO, res: Appended) {
    if k in s.active && !HasRoom(s, k, r) then
      if s.active[k].buf != [] && !rot.writeOk then res == Appended(s, Refused)
      else
        && res.outcome == Taken && StartsWith(res.state, k, r)
        && |res.state.order| == |s.order| + if s.active[k].records != 0 then 1 else 0
    else
      && res.state.order == s.order && res.state.disk.closed == s.disk.closed
      && k in res.state.active && res.state.active[k].date == DateOf(r.ts)
      && (k !in s.active ==> res.outcome == Taken && StartsWith(res.state, k, r))
      && (k in s.active ==>
            res.state.active[k].records == s.active[k].records + 1 - DroppedBy(res.outcome))
  }

  /** The record is the only one of its kind's open segment. */
  ghost predicate StartsWith(s: State, k: Kind, r: Record) {
    && k in s.active && s.active[k].date == DateOf(r.ts)
    && s.active[k].records == 1 && s.active[k].buf == [r] && s.active[k].size == 0 && s.active[k].rawBuffered == r.bytes
  }

  lemma RotatedPush(s: State, k: Kind, r: Record, rot: IO)
    requires Inv(s) && s.up && k in s.active && NeedsRotation(s, k, r) && !Refuses(s, k, r, rot)
    ensures StartsWith(Push(s, k, r, rot), k, r)
    ensures |Push(s, k, r, rot).order| == |s.order| + if s.active[k].records != 0 then 1 else 0
  {
    RotateInv(s, k, rot, AUTO_FLUSH_RECORDS - 1);
    RecordsMeanFile(s, k, rot);
  }

  lemma JoinedPush(s: State, k: Kind, r: Record, rot: IO)
    requires !NeedsRotation(s, k, r)
    ensures var t := Push(s, k, r, rot);
            && t.order == s.order && t.disk.closed == s.disk.closed
            && k in t.active && t.active[k].date == DateOf(r.ts)
            && (k !in s.active ==> StartsWith(t, k, r))
            && (k in s.active ==> t.active[k].records == s.active[k].records + 1)
  {
  }

  lemma AutoFlushKeeps(s: State, k: Kind, io: IO)
    requires k in s.active
    ensures var res := AutoFlush(s, k, io);
            && res.state.order == s.order && res.state.disk.closed == s.disk.closed
            && k in res.state.active && res.state.active[k].date == s.active[k].date
            && res.state.active[k].records == s.active[k].records - DroppedBy(res.outcome)
            && (|s.active[k].buf| < AUTO_FLUSH_RECORDS ==> res == Appended(s, Taken))
  {
  }

  /** A record joins the segment that is already open only when that is of its date and within the size
      limit, and then no segment closes; otherwise that segment is flushed, and closed if it holds any
      record, and the record is the first of a new one, unless the flush fails. */
  lemma JoinsExactlyWhen(s: State, k: Kind, r: Record, rot: IO, io: IO)
    requires Inv(s) && s.up && r.ts != ZERO_TIME
    ensures JoinsAsDue(s, k, r, rot, Append(s, k, Some(r), rot, io))
  {
    assert k in s.active ==> ActiveOk(s, k, AUTO_FLUSH_RECORDS - 1);
    if !Refuses(s, k, r, rot) {
      if NeedsRotation(s, k, r) { RotatedPush(s, k, r, rot); } else { JoinedPush(s, k, r, rot); }
      AutoFlushKeeps(Push(s, k, r, rot), k, io);
    }
  }

  function RawBuffered(s: State, k: Kind): nat { if k in s.active then s.active[k].rawBuffered else 0 }

  /** `rawBuffered` counts the buffered bytes, and not too many. */
  predicate RawExact(s: State, k: Kind) { RawBuffered(s, k) == RawBytes(Buffered(s, k)) }

  lemma RawSnoc(rs: seq<Record>, r: Record)
    ensures RawBytes(rs + [r]) == RawBytes(rs) + r.bytes
  {
    assert (rs + [r])[..|rs|] == rs;
  }

  /** What the end of an append makes of `rawBuffered`. */
  lemma AutoFlushRaw(s: State, k: Kind, io: IO)
    requires k in s.active
    ensures var res := AutoFlush(s, k, io);
            && (res.outcome.BatchDropped? ==> (RawExact(res.state, k) <==> s.active[k].rawBuffered == 0))
            && (!res.outcome.BatchDropped? ==>
                  (RawExact(res.state, k) <==> RawExact(s, k) || |s.active[k].buf| >= AUTO_FLUSH_RECORDS))
  {
  }

  lemma PushRaw(s: State, k: Kind, r: Record, rot: IO)
    requires !Refuses(s, k, r, rot)
    ensures RawExact(Push(s, k, r, rot), k) <==> NeedsRotation(s, k, r) || RawExact(s, k)
  {
    PushBuffer(s, k, r, rot);
    RawSnoc(Buffered(s, k), r);
    RawSnoc([], r);
  }

  /** An exact `rawBuffered` stays exact unless the append drops a batch with bytes in it; an inexact
      one stays so until the buffer is flushed or a new segment begins. */
  lemma RawExactExactlyWhen(s: State, k: Kind, r: Record, rot: IO, io: IO)
    requires Inv(s) && s.up && r.ts != ZERO_TIME
    ensures var res := Append(s, k, Some(r), rot, io);
            && (RawExact(s, k) ==>
                  (RawExact(res.state, k) <==> !(res.outcome.BatchDropped? && RawBytes(Buffered(s, k) + [r]) > 0)))
            && (!RawExact(s, k) && res.outcome == Taken ==>
                  (RawExact(res.state, k) <==> !HasRoom(s, k, r) || |Buffered(s, k)| == AUTO_FLUSH_RECORDS - 1))
  {
    assert k in s.active ==> ActiveOk(s, k, AUTO_FLUSH_RECORDS - 1);
    if !Refuses(s, k, r, rot) {
      OutcomeIsFit(s, k, r, rot, io);
      PushBuffer(s, k, r, rot);
      PushRaw(s, k, r, rot);
      AutoFlushRaw(Push(s, k, r, rot), k, io);
      RawSnoc(Buffered(s, k), r);
    }
  }

  // ---- removal and listing ----------------------------------------------------------------

  lemma {:induction false} WithoutIsFilter(names: seq<SegName>, n: SegName)
    requires Unique(names)
    ensures Unique(Without(names, n))
    ensures forall m :: m in Without(names, n) <==> m in names && m != n
  {
    if names != [] {
      var init, last := names[..|names| - 1], names[|names| - 1];
      assert names == init + [last];
      WithoutIsFilter(init, n);
      assert last !in init;
    }
  }

  lemma RemoveInv(s: State, n: SegName, io: RemoveIO, limit: nat)
    requires InvUpTo(s, limit)
    ensures InvUpTo(Remove(s, n, io), limit)
  {
    WithoutIsFilter(s.order, n);
    var t := Remove(s, n, io);
    forall k | k in t.active ensures ActiveOk(t, k, limit) {
      assert ActiveOk(s, k, limit);
    }
    assert ClosedOk(t);
  }

  /** What ListClosed returns: the metadata of every listed segment, each once. */
  ghost predicate IsListing(d: Disk, segs: seq<SegmentInfo>) {
    && (forall i, j :: 0 <= i < j < |segs| ==> segs[i].name != segs[j].name)
    && (forall i :: 0 <= i < |segs| ==> Listed(d, segs[i].name) && segs[i] == d.sidecars[segs[i].name].info)
    && (forall n :: Listed(d, n) ==> exists i :: 0 <= i < |segs| && segs[i].name == n)
  }
}
