/** Crashes, recovery and whole runs of the spool. */
module SpoolCrash {
  import opened Common
  import opened Records
  import opened Spool
  import opened SpoolLog

  /** How many of kind `j`'s newest records a crash at `p` loses: the part of its buffer that
      did not reach the disk. */
  function Lost(s: State, p: CrashPoint, j: Kind): nat {
    var n := |Buffered(s, j)|;
    match p
    case AtRest => n
    case InFlush(k, written, _) => if j == k && written < n then n - written else if j == k then 0 else n
    case AfterWrite(k, _) => if j == k then 0 else n
    case BetweenRenames(k, io, _) => if j == k && Closes(s, k, io) then 0 else n
  }

  lemma LeftOver(a: ActiveSeg, f: File, g: File)
    requires SegOk(a, f, AUTO_FLUSH_RECORDS) && TornOnlyLast(g)
    requires forall r :: r in ReadFile(g).recs ==> r in ReadFile(f).recs || r in a.buf
    ensures LeftOverOk(g)
  {
    var rs := ReadFile(g).recs;
    if rs != [] {
      assert rs[0] in rs;
      assert Dated(rs[0], a.date);
      forall r | r in rs ensures r.ts != ZERO_TIME && DateOf(r.ts) == DateOf(rs[0].ts) {
        assert Dated(r, a.date);
      }
    }
  }

  /** The file of kind `k` after the last write before a crash. */
  function LastFile(s: State, p: CrashPoint, k: Kind): File {
    ActiveFile(LastWrites(s, p).disk, k)
  }

  lemma LastFileReads(s: State, p: CrashPoint, k: Kind)
    requires k in s.active && ActiveOk(s, k, AUTO_FLUSH_RECORDS) && !p.BetweenRenames?
    ensures TornOnlyLast(LastFile(s, p, k))
    ensures ReadFile(LastFile(s, p, k)).recs
         == ReadFile(ActiveFile(s.disk, k)).recs + s.active[k].buf[..|s.active[k].buf| - Lost(s, p, k)]
  {
    var f, g := ActiveFile(s.disk, k), LastFile(s, p, k);
    if g != f {
      assert g == f + [g[|f|]];
      ReadAppended(f, g[|f|]);
      var buf := s.active[k].buf;
      assert buf[..|buf|] == buf;
    } else {
      var recs := ReadFile(f).recs;
      assert recs + [] == recs;
    }
  }

  /** With the process gone, a live state becomes a spool with left-over files only. */
  lemma ProcessLost(s: State, litter: nat)
    requires InvUpTo(s, AUTO_FLUSH_RECORDS) && s.up
    ensures Inv(s.(disk := s.disk.(litter := litter), active := map[], dropped := 0, up := false))
  {
    var t := s.(disk := s.disk.(litter := litter), active := map[], dropped := 0, up := false);
    forall k | k in t.disk.active ensures LeftOverOk(t.disk.active[k]) {
      assert ActiveOk(s, k, AUTO_FLUSH_RECORDS);
      LeftOver(s.active[k], s.disk.active[k], t.disk.active[k]);
    }
    assert ClosedOk(t);
  }

  lemma CrashInv(s: State, p: CrashPoint)
    requires InvUpTo(s, AUTO_FLUSH_RECORDS) && s.up
    ensures Inv(LastWrites(s, p).(active := map[], dropped := 0, up := false))
  {
    var t := LastWrites(s, p).(active := map[], dropped := 0, up := false);
    match p {
      case BetweenRenames(k, io, litter) =>
        RotateInv(s, k, io, AUTO_FLUSH_RECORDS);
        ProcessLost(ReachedClose(s, k, io), t.disk.litter);
      case AtRest => ProcessLost(s, s.disk.litter);
      case _ =>
        ProcessLost(s, s.disk.litter);
        var k := p.k;
        if k in s.active {
          assert ActiveOk(s, k, AUTO_FLUSH_RECORDS);
          LastFileReads(s, p, k);
          LeftOver(s.active[k], ActiveFile(s.disk, k), LastFile(s, p, k));
        }
        assert ClosedOk(t);
    }
  }

  lemma CutTail(closed: seq<Record>, recs: seq<Record>, buf: seq<Record>, n: nat)
    requires n <= |buf|
    ensures closed + (recs + buf[..|buf| - n]) == WithoutLast(closed + recs + buf, n)
  {
  }

  lemma CrashLogInPlace(s: State, p: CrashPoint, j: Kind)
    requires j in s.active ==> ActiveOk(s, j, AUTO_FLUSH_RECORDS)
    requires !p.BetweenRenames?
    ensures DurableLog(LastWrites(s, p), j) == WithoutLast(Log(s, j), Lost(s, p, j))
  {
    var t := LastWrites(s, p);
    assert t.disk.closed == s.disk.closed && t.order == s.order;
    var closed, recs := ClosedLog(s.disk.closed, s.order, j), ReadFile(ActiveFile(s.disk, j)).recs;
    CutTail(closed, recs, Buffered(s, j), Lost(s, p, j));
    if j in s.active {
      LastFileReads(s, p, j);
    } else {
      assert recs + [] == recs;
    }
  }

  /** In the window the moved kind has nothing buffered; the others lose their buffers. */
  lemma WindowBuffers(s: State, p: CrashPoint, j: Kind)
    requires p.BetweenRenames?
    ensures |Buffered(ReachedClose(s, p.k, p.io), j)| == Lost(s, p, j)
    ensures DurableLog(LastWrites(s, p), j) == DurableLog(ReachedClose(s, p.k, p.io), j)
  {
    var moved, t := ReachedClose(s, p.k, p.io), LastWrites(s, p);
    assert t.disk.closed == moved.disk.closed && t.order == moved.order && t.disk.active == moved.disk.active;
  }

  lemma WithoutTail(durable: seq<Record>, buffered: seq<Record>)
    ensures WithoutLast(durable + buffered, |buffered|) == durable
  {
  }

  lemma CrashLogInWindow(s: State, p: CrashPoint, j: Kind)
    requires InvUpTo(s, AUTO_FLUSH_RECORDS) && s.up && p.BetweenRenames?
    ensures DurableLog(LastWrites(s, p), j) == WithoutLast(Log(s, j), Lost(s, p, j))
  {
    var moved := ReachedClose(s, p.k, p.io);
    RotateLog(s, p.k, p.io, AUTO_FLUSH_RECORDS, j);
    WindowBuffers(s, p, j);
    WithoutTail(DurableLog(moved, j), Buffered(moved, j));
  }

  lemma LostBound(s: State, p: CrashPoint, j: Kind)
    requires InvUpTo(s, AUTO_FLUSH_RECORDS)
    ensures Lost(s, p, j) <= |Buffered(s, j)| <= AUTO_FLUSH_RECORDS
  {
    assert j in s.active ==> ActiveOk(s, j, AUTO_FLUSH_RECORDS);
  }

  /** A crash cuts each kind's log down to a prefix, by no more than its unflushed buffer. */
  lemma CrashLog(s: State, p: CrashPoint, j: Kind)
    requires InvUpTo(s, AUTO_FLUSH_RECORDS) && s.up
    ensures Lost(s, p, j) <= |Buffered(s, j)| <= AUTO_FLUSH_RECORDS
    ensures DurableLog(LastWrites(s, p), j) == WithoutLast(Log(s, j), Lost(s, p, j))
  {
    LostBound(s, p, j);
    if p.BetweenRenames? {
      CrashLogInWindow(s, p, j);
    } else {
      assert j in s.active ==> ActiveOk(s, j, AUTO_FLUSH_RECORDS);
      CrashLogInPlace(s, p, j);
    }
  }

  lemma RecoveryDates(f: File, today: int)
    requires LeftOverOk(f)
    ensures var min := RecoverySummary(f).range.minTs;
            forall r :: r in ReadFile(f).recs ==> Dated(r, if min == ZERO_TIME then today else DateOf(min))
  {
    var recs := ReadFile(f).recs;
    RangeBrackets(recs);
    if recs != [] {
      var r :| r in recs && r.ts == RangeOf(recs).minTs;
    }
  }

  lemma LitterInv(s: State, litter: nat, limit: nat)
    requires InvUpTo(s, limit)
    ensures InvUpTo(s.(disk := s.disk.(litter := s.disk.litter + litter)), limit)
  {
    var t := s.(disk := s.disk.(litter := s.disk.litter + litter));
    forall k | k in t.active ensures ActiveOk(t, k, limit) {
      assert ActiveOk(s, k, limit);
    }
    assert ClosedOk(t);
  }

  lemma DownExcept(s: State, k: Kind, limit: nat)
    requires InvUpTo(s, limit) && !s.up
    ensures InvExcept(s, limit, k)
  {
  }

  lemma LeftOverCloses(s: State, k: Kind, io: IO)
    requires Inv(s) && !s.up && k in s.disk.active
    ensures var sum := RecoverySummary(s.disk.active[k]);
            Inv(MoveToClosed(s, k, sum, io)) && Inv(CloseFile(s, k, sum, io))
  {
    DownExcept(s, k, AUTO_FLUSH_RECORDS - 1);
    RecoveryDates(s.disk.active[k], io.today);
    CloseInv(s, k, RecoverySummary(s.disk.active[k]), io, AUTO_FLUSH_RECORDS - 1);
  }

  lemma RecoverInv(s: State, k: Kind, io: IO, litter: nat)
    requires Inv(s) && !s.up
    ensures Inv(Recover(s, k, io)) && Inv(RecoverCrash(s, k, io, litter))
  {
    if k in s.disk.active {
      LeftOverCloses(s, k, io);
      LitterInv(MoveToClosed(s, k, RecoverySummary(s.disk.active[k]), io), litter, AUTO_FLUSH_RECORDS - 1);
    }
  }

  lemma RecoverLog(s: State, k: Kind, io: IO, litter: nat, j: Kind)
    requires Inv(s) && !s.up
    ensures Log(Recover(s, k, io), j) == Log(s, j) && Log(RecoverCrash(s, k, io, litter), j) == Log(s, j)
    ensures k !in Recover(s, k, io).disk.active && k !in RecoverCrash(s, k, io, litter).disk.active
  {
    if k in s.disk.active {
      var sum := RecoverySummary(s.disk.active[k]);
      CloseLog(s, k, sum, io, j);
      assert DurableLog(RecoverCrash(s, k, io, litter), j) == DurableLog(MoveToClosed(s, k, sum, io), j);
    }
  }

  // ---- the ledger: what a caller who sees only outcomes would write down ------------------

  datatype Event =
    | Took(k: Kind, r: Record)
    | Cut(k: Kind, n: nat)                 // a batch dropped under disk pressure
    | Crashed(cut: map<Kind, nat>)         // unflushed tails lost with the process

  function Booked(before: seq<Record>, e: Event, k: Kind): seq<Record> {
    match e
    case Took(j, r) => if j == k then before + [r] else before
    case Cut(j, n) => if j == k then WithoutLast(before, n) else before
    case Crashed(cut) => if k in cut then WithoutLast(before, cut[k]) else before
  }

  /** What a sequence of events makes of the records booked before. */
  function BookAll(before: seq<Record>, events: seq<Event>, k: Kind): seq<Record> {
    if events == [] then before
    else Booked(BookAll(before, events[..|events| - 1], k), events[|events| - 1], k)
  }

  /** The records of kind `k` taken in, with dropped batches and lost tails cut out. */
  function Ledger(events: seq<Event>, k: Kind): seq<Record> { BookAll([], events, k) }

  lemma {:induction false} BookConcat(before: seq<Record>, a: seq<Event>, b: seq<Event>, k: Kind)
    ensures BookAll(before, a + b, k) == BookAll(BookAll(before, a, k), b, k)
  {
    if b == [] {
      assert a + b == a;
    } else {
      assert (a + b)[..|a + b| - 1] == a + b[..|b| - 1];
      BookConcat(before, a, b[..|b| - 1], k);
    }
  }

  /** Records dropped since the process started. */
  function DroppedSince(events: seq<Event>): nat {
    if events == [] then 0
    else
      match events[|events| - 1]
      case Took(_, _) => DroppedSince(events[..|events| - 1])
      case Cut(_, n) => DroppedSince(events[..|events| - 1]) + n
      case Crashed(_) => 0
  }

  function LostMap(s: State, p: CrashPoint): map<Kind, nat> {
    map k | k in s.active :: Lost(s, p, k)
  }

  function AppendEvents(k: Kind, input: Option<Record>, outcome: Outcome): seq<Event> {
    if input.None? then []
    else match outcome
      case Taken => [Took(k, input.value)]
      case BatchDropped(n) => [Took(k, input.value), Cut(k, n)]
      case _ => []
  }

  function InFlightEvents(s: State, during: Option<InFlight>): seq<Event> {
    if during.Some? && during.value.r.ts != ZERO_TIME && !Refuses(s, during.value.k, during.value.r, during.value.rot)
    then [Took(during.value.k, during.value.r)] else []
  }

  function EventsOf(s: State, op: Op): seq<Event> {
    if !Enabled(s, op) then []
    else match op
      case DoAppend(k, input, rot, io) =>
        AppendEvents(k, input, Append(s, k, input, rot, io).outcome)
      case DoCrash(during, p) =>
        InFlightEvents(s, during) + [Crashed(LostMap(Reached(s, during), p))]
      case _ => []
  }

  function History(s: State, ops: seq<Op>): seq<Event> {
    if ops == [] then []
    else History(s, ops[..|ops| - 1]) + EventsOf(Run(s, ops[..|ops| - 1]), ops[|ops| - 1])
  }

  ghost predicate Refines(s: State, events: seq<Event>) {
    && DroppedSince(events) == s.dropped
    && forall k :: Ledger(events, k) == Log(s, k)
  }

  lemma ReachedInv(s: State, during: Option<InFlight>)
    requires Inv(s) && s.up
    ensures InvUpTo(Reached(s, during), AUTO_FLUSH_RECORDS) && Reached(s, during).up
  {
    if during.Some? && during.value.r.ts != ZERO_TIME {
      PushInv(s, during.value.k, during.value.r, during.value.rot);
    } else {
      forall k | k in s.active ensures ActiveOk(s, k, AUTO_FLUSH_RECORDS) {
        assert ActiveOk(s, k, AUTO_FLUSH_RECORDS - 1);
      }
    }
  }

  lemma BookOne(before: seq<Record>, e: Event, k: Kind)
    ensures BookAll(before, [e], k) == Booked(before, e, k)
  {
    assert [e][..0] == [];
  }

  lemma AppendBooks(before: seq<Record>, k: Kind, input: Option<Record>, outcome: Outcome, j: Kind)
    requires outcome in {Rejected, Refused} || input.Some?
    ensures BookAll(before, AppendEvents(k, input, outcome), j)
         == if j == k then AfterAppend(before, input, outcome) else before
  {
    if input.Some? && (outcome.Taken? || outcome.BatchDropped?) {
      var took := Took(k, input.value);
      BookOne(before, took, j);
      if outcome.BatchDropped? {
        assert [took, Cut(k, outcome.count)] == [took] + [Cut(k, outcome.count)];
        BookConcat(before, [took], [Cut(k, outcome.count)], j);
        BookOne(BookAll(before, [took], j), Cut(k, outcome.count), j);
      }
    }
  }

  lemma ReachedBooks(s: State, during: Option<InFlight>, k: Kind)
    requires Inv(s) && s.up
    ensures BookAll(Log(s, k), InFlightEvents(s, during), k) == Log(Reached(s, during), k)
  {
    if during.Some? && during.value.r.ts != ZERO_TIME {
      PushLog(s, during.value.k, during.value.r, during.value.rot, k);
      BookOne(Log(s, k), Took(during.value.k, during.value.r), k);
      assert Log(s, k) + [] == Log(s, k);
    }
  }

  lemma LostBooks(s: State, p: CrashPoint, k: Kind)
    requires InvUpTo(s, AUTO_FLUSH_RECORDS) && s.up
    ensures Booked(Log(s, k), Crashed(LostMap(s, p)), k) == DurableLog(LastWrites(s, p), k)
  {
    CrashLog(s, p, k);
  }

  /** A dead process leaves what is on disk. */
  lemma DownReads(s: State, during: Option<InFlight>, p: CrashPoint, k: Kind)
    ensures Log(Crash(s, during, p), k) == DurableLog(LastWrites(Reached(s, during), p), k)
  {
  }

  lemma CrashEvents(before: seq<Record>, taken: seq<Event>, crashed: Event, k: Kind)
    ensures BookAll(before, taken + [crashed], k) == Booked(BookAll(before, taken, k), crashed, k)
  {
    BookConcat(before, taken, [crashed], k);
    BookOne(BookAll(before, taken, k), crashed, k);
  }

  /** Booking what was in flight and then the crash, from one log over another to what is left. */
  lemma BookCrash(before: seq<Record>, taken: seq<Event>, reached: seq<Record>, crashed: Event, left: seq<Record>, k: Kind)
    requires BookAll(before, taken, k) == reached && Booked(reached, crashed, k) == left
    ensures BookAll(before, taken + [crashed], k) == left
  {
    CrashEvents(before, taken, crashed, k);
  }

  lemma CrashHistory(s: State, during: Option<InFlight>, p: CrashPoint)
    requires s.up
    ensures EventsOf(s, DoCrash(during, p)) == InFlightEvents(s, during) + [Crashed(LostMap(Reached(s, during), p))]
  {
  }

  lemma CrashBooks(s: State, during: Option<InFlight>, p: CrashPoint, k: Kind)
    requires Inv(s) && s.up
    ensures BookAll(Log(s, k), EventsOf(s, DoCrash(during, p)), k) == Log(Crash(s, during, p), k)
  {
    var reached := Reached(s, during);
    ReachedInv(s, during);
    ReachedBooks(s, during, k);
    LostBooks(reached, p, k);
    DownReads(s, during, p, k);
    CrashHistory(s, during, p);
    BookCrash(Log(s, k), InFlightEvents(s, during), Log(reached, k), Crashed(LostMap(reached, p)),
              Log(Crash(s, during, p), k), k);
  }

  lemma StepInv(s: State, op: Op)
    requires Inv(s)
    ensures Inv(Apply(s, op))
  {
    if Enabled(s, op) {
      match op
      case DoAppend(k, input, rot, io) => AppendInv(s, k, input, rot, io);
      case DoCrash(during, p) =>
        ReachedInv(s, during);
        CrashInv(Reached(s, during), p);
      case DoFlush(k, io) => FlushInv(s, k, io, AUTO_FLUSH_RECORDS - 1);
      case DoRotate(k, io) => RotateInv(s, k, io, AUTO_FLUSH_RECORDS - 1);
      case DoRecover(k, io) => RecoverInv(s, k, io, 0);
      case DoRecoverCrash(k, io, litter) => RecoverInv(s, k, io, litter);
      case DoStart => assert ClosedOk(Apply(s, op));
    }
  }

  lemma QuietFlush(s: State, op: Op, j: Kind)
    requires Inv(s) && Enabled(s, op) && op.DoFlush?
    ensures Log(Apply(s, op), j) == Log(s, j) && Apply(s, op).dropped == s.dropped
  {
    FlushLog(s, op.k, op.io, AUTO_FLUSH_RECORDS - 1, j);
  }

  lemma QuietRotate(s: State, op: Op, j: Kind)
    requires Inv(s) && Enabled(s, op) && op.DoRotate?
    ensures Log(Apply(s, op), j) == Log(s, j) && Apply(s, op).dropped == s.dropped
  {
    RotateLog(s, op.k, op.io, AUTO_FLUSH_RECORDS - 1, j);
  }

  lemma QuietRecover(s: State, op: Op, j: Kind)
    requires Inv(s) && Enabled(s, op) && (op.DoRecover? || op.DoRecoverCrash?)
    ensures Log(Apply(s, op), j) == Log(s, j) && Apply(s, op).dropped == s.dropped
  {
    RecoverLog(s, op.k, op.io, if op.DoRecoverCrash? then op.litter else 0, j);
  }

  lemma QuietStart(s: State, op: Op, j: Kind)
    requires Inv(s) && Enabled(s, op) && op.DoStart?
    ensures Log(Apply(s, op), j) == Log(s, j) && Apply(s, op).dropped == s.dropped
  {
    assert DurableLog(Apply(s, op), j) == DurableLog(s, j);
  }

  /** Flushing, rotating, recovering and starting move records but keep the log. */
  lemma QuietLog(s: State, op: Op, j: Kind)
    requires Inv(s) && !op.DoAppend? && !op.DoCrash?
    ensures Log(Apply(s, op), j) == Log(s, j) && Apply(s, op).dropped == s.dropped
  {
    if Enabled(s, op) {
      if op.DoFlush? {
        QuietFlush(s, op, j);
      } else if op.DoRotate? {
        QuietRotate(s, op, j);
      } else if op.DoStart? {
        QuietStart(s, op, j);
      } else {
        QuietRecover(s, op, j);
      }
    }
  }

  /** One step makes of a kind's log what its events make of it. */
  lemma StepBooks(s: State, op: Op, k: Kind)
    requires Inv(s)
    ensures BookAll(Log(s, k), EventsOf(s, op), k) == Log(Apply(s, op), k)
  {
    if Enabled(s, op) && op.DoAppend? {
      AppendLog(s, op.k, op.input, op.rot, op.io, k);
      AppendBooks(Log(s, k), op.k, op.input, Append(s, op.k, op.input, op.rot, op.io).outcome, k);
    } else if Enabled(s, op) && op.DoCrash? {
      CrashBooks(s, op.during, op.p, k);
    } else if Enabled(s, op) {
      QuietLog(s, op, k);
    }
  }

  lemma DroppedStep(events: seq<Event>, e: Event)
    ensures e.Took? ==> DroppedSince(events + [e]) == DroppedSince(events)
    ensures e.Cut? ==> DroppedSince(events + [e]) == DroppedSince(events) + e.n
    ensures e.Crashed? ==> DroppedSince(events + [e]) == 0
  {
    assert (events + [e])[..|events|] == events;
  }

  lemma AppendDrops(events: seq<Event>, k: Kind, input: Option<Record>, outcome: Outcome)
    requires outcome in {Rejected, Refused} || input.Some?
    ensures DroppedSince(events + AppendEvents(k, input, outcome)) == DroppedSince(events) + DroppedBy(outcome)
  {
    assert events + [] == events;
    if input.Some? {
      DroppedStep(events, Took(k, input.value));
      if outcome.BatchDropped? {
        var took := events + [Took(k, input.value)];
        DroppedStep(took, Cut(k, outcome.count));
        assert events + AppendEvents(k, input, outcome) == took + [Cut(k, outcome.count)];
      }
    }
  }

  lemma StepDrops(s: State, events: seq<Event>, op: Op)
    requires Inv(s) && DroppedSince(events) == s.dropped
    ensures DroppedSince(events + EventsOf(s, op)) == Apply(s, op).dropped
  {
    assert events + [] == events;
    if Enabled(s, op) && op.DoAppend? {
      AppendLog(s, op.k, op.input, op.rot, op.io, op.k);
      AppendDrops(events, op.k, op.input, Append(s, op.k, op.input, op.rot, op.io).outcome);
    } else if Enabled(s, op) && op.DoCrash? {
      var crashed := Crashed(LostMap(Reached(s, op.during), op.p));
      assert events + EventsOf(s, op) == (events + InFlightEvents(s, op.during)) + [crashed];
      DroppedStep(events + InFlightEvents(s, op.during), crashed);
    } else if Enabled(s, op) {
      QuietLog(s, op, "");
    }
  }

  lemma StepRefines(s: State, events: seq<Event>, op: Op)
    requires Inv(s) && Refines(s, events)
    ensures Refines(Apply(s, op), events + EventsOf(s, op))
  {
    StepDrops(s, events, op);
    forall k ensures Ledger(events + EventsOf(s, op), k) == Log(Apply(s, op), k) {
      BookConcat([], events, EventsOf(s, op), k);
      StepBooks(s, op, k);
    }
  }

  /** The spool refines the ledger over every run: whatever fails and wherever the process dies,
      each kind's closed segments in closing order, active file and buffer read as the records
      taken in with exactly the dropped batches and the lost tails cut out. */
  lemma {:induction false} RunRefinesLedger(maxSegment: int, ops: seq<Op>)
    ensures var s := Run(EmptySpool(maxSegment), ops);
            Inv(s) && Refines(s, History(EmptySpool(maxSegment), ops))
  {
    var s0 := EmptySpool(maxSegment);
    if ops != [] {
      var init := ops[..|ops| - 1];
      RunRefinesLedger(maxSegment, init);
      StepInv(Run(s0, init), ops[|ops| - 1]);
      StepRefines(Run(s0, init), History(s0, init), ops[|ops| - 1]);
    }
  }

  // ---- what a crash can cost --------------------------------------------------------------

  lemma RotateDurable(s: State, k: Kind, rot: IO, j: Kind)
    requires Inv(s) && s.up && k in s.active && !FlushFails(s, k, rot)
    ensures DurableLog(s, j) <= DurableLog(Rotate(s, k, rot), j)
  {
    FlushLog(s, k, rot, AUTO_FLUSH_RECORDS - 1, j);
    DetachedInv(s, k, rot, AUTO_FLUSH_RECORDS - 1);
    RecordsMeanFile(s, k, rot);
    assert DurableLog(Detached(s, k, rot), j) == DurableLog(Flush(s, k, rot), j);
    if Closes(s, k, rot) {
      CloseLog(Detached(s, k, rot), k, SegSummary(s.active[k]), rot, j);
    } else {
      DetachedFile(s, k, rot, AUTO_FLUSH_RECORDS - 1);
      QuietDurable(s, k, rot, j);
    }
  }

  /** A rotation that closes nothing at most removes an empty file. */
  lemma QuietDurable(s: State, k: Kind, rot: IO, j: Kind)
    requires k in s.active && !FlushFails(s, k, rot) && !Closes(s, k, rot)
    requires s.active[k].records == 0 ==> ReadFile(ActiveFile(Detached(s, k, rot).disk, k)).recs == []
    ensures DurableLog(Rotate(s, k, rot), j) == DurableLog(Detached(s, k, rot), j)
  {
  }

  lemma PushDurable(s: State, k: Kind, r: Record, rot: IO, j: Kind)
    requires Inv(s) && s.up
    ensures DurableLog(s, j) <= DurableLog(Push(s, k, r, rot), j)
  {
    if NeedsRotation(s, k, r) && !FlushFails(s, k, rot) {
      RotateDurable(s, k, rot, j);
      assert DurableLog(Push(s, k, r, rot), j) == DurableLog(Rotate(s, k, rot), j);
    } else {
      assert DurableLog(Push(s, k, r, rot), j) == DurableLog(s, j);
    }
  }

  predicate Recovering(op: Op) { op.DoRecover? || op.DoRecoverCrash? || op.DoStart? }

  lemma {:induction false} RunInv(s: State, ops: seq<Op>)
    requires Inv(s)
    ensures Inv(Run(s, ops))
  {
    if ops != [] {
      RunInv(s, ops[..|ops| - 1]);
      StepInv(Run(s, ops[..|ops| - 1]), ops[|ops| - 1]);
    }
  }

  lemma {:induction false} RecoveryLog(s: State, ops: seq<Op>, k: Kind)
    requires Inv(s) && forall op :: op in ops ==> Recovering(op)
    ensures Log(Run(s, ops), k) == Log(s, k)
  {
    if ops != [] {
      var init, op := ops[..|ops| - 1], ops[|ops| - 1];
      assert Recovering(op);
      RecoveryLog(s, init, k);
      RunInv(s, init);
      QuietLog(Run(s, init), op, k);
    }
  }

  lemma ReachedDurable(s: State, during: Option<InFlight>, k: Kind)
    requires Inv(s) && s.up
    ensures DurableLog(s, k) <= DurableLog(Reached(s, during), k)
  {
    if during.Some? && during.value.r.ts != ZERO_TIME {
      PushDurable(s, during.value.k, during.value.r, during.value.rot, k);
    }
  }

  lemma DownLog(s: State, during: Option<InFlight>, p: CrashPoint, k: Kind)
    requires Inv(s) && s.up
    ensures var taken, kept := Log(Reached(s, during), k), Log(Crash(s, during, p), k);
            kept <= taken && DurableLog(s, k) <= kept && |taken| - |kept| <= AUTO_FLUSH_RECORDS
    ensures Inv(Crash(s, during, p))
  {
    var reached, down := Reached(s, during), Crash(s, during, p);
    ReachedInv(s, during);
    CrashInv(reached, p);
    CrashLog(reached, p, k);
    ReachedDurable(s, during, k);
    assert Log(down, k) == DurableLog(LastWrites(reached, p), k);
  }

  /** A process may die at any point, in the middle of an append or a rotation, and its recovery
      may die any number of times: afterwards each kind reads as a prefix of what had been taken
      in, with every flushed member in it and at most one buffer missing.  Once the store is open
      again nothing is left in active/, so no store ever appends behind a torn member. */
  lemma CrashThenReopen(s: State, during: Option<InFlight>, p: CrashPoint, recovery: seq<Op>, k: Kind)
    requires Inv(s) && s.up
    requires forall op :: op in recovery ==> Recovering(op)
    ensures var t, taken := Run(Crash(s, during, p), recovery), Log(Reached(s, during), k);
            && Inv(t)
            && Log(t, k) <= taken
            && DurableLog(s, k) <= Log(t, k)
            && |taken| - |Log(t, k)| <= AUTO_FLUSH_RECORDS
            && (t.up ==> t.disk.active == map[] && Log(t, k) == ClosedLog(t.disk.closed, t.order, k))
  {
    var down := Crash(s, during, p);
    DownLog(s, during, p, k);
    RunInv(down, recovery);
    RecoveryLog(down, recovery, k);
    StartedClean(down, recovery);
  }

  lemma {:induction false} StartedClean(s: State, ops: seq<Op>)
    requires !s.up && s.active == map[] && forall op :: op in ops ==> Recovering(op)
    ensures Run(s, ops).active == map[]
    ensures Run(s, ops).up ==> Run(s, ops).disk.active == map[]
  {
    if ops != [] {
      assert Recovering(ops[|ops| - 1]);
      StartedClean(s, ops[..|ops| - 1]);
    }
  }

  // ---- loops over kinds, in whatever order a map yields them ------------------------------

  function RecoverOps(kinds: seq<Kind>, io: Kind -> IO): seq<Op> {
    if kinds == [] then []
    else RecoverOps(kinds[..|kinds| - 1], io) + [DoRecover(kinds[|kinds| - 1], io(kinds[|kinds| - 1]))]
  }

  function FlushOps(kinds: seq<Kind>, io: Kind -> IO): seq<Op> {
    if kinds == [] then []
    else FlushOps(kinds[..|kinds| - 1], io) + [DoFlush(kinds[|kinds| - 1], io(kinds[|kinds| - 1]))]
  }

  function RotateOps(kinds: seq<Kind>, io: Kind -> IO): seq<Op> {
    if kinds == [] then []
    else RotateOps(kinds[..|kinds| - 1], io) + [DoRotate(kinds[|kinds| - 1], io(kinds[|kinds| - 1]))]
  }

  lemma RunSnoc(s: State, ops: seq<Op>, op: Op)
    ensures Run(s, ops + [op]) == Apply(Run(s, ops), op)
  {
    assert (ops + [op])[..|ops|] == ops;
  }
}
