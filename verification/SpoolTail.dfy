/** One spool step told by what is open: whatever was removed before, its events turn the open records
    of a kind into what it closes and what is then open. */
module SpoolTail {
  import opened Common
  import opened Records
  import opened Spool
  import opened SpoolLog
  import opened SpoolCrash
  import opened SpoolListing

  /** The records of kind `k` that are not in a closed segment yet. */
  function Open(s: State, k: Kind): seq<Record> { ReadFile(ActiveFile(s.disk, k)).recs + Buffered(s, k) }

  /** A cut that fits into the tail leaves the records before it alone. */
  lemma CutInTail(before: seq<Record>, tail: seq<Record>, n: nat)
    requires n <= |tail|
    ensures WithoutLast(before + tail, n) == before + WithoutLast(tail, n)
  {
  }

  lemma AppendInTail(before: seq<Record>, tail: seq<Record>, input: Option<Record>, outcome: Outcome)
    requires outcome.BatchDropped? ==> outcome.count <= |tail| + 1
    ensures AfterAppend(before + tail, input, outcome) == before + AfterAppend(tail, input, outcome)
  {
    if input.Some? {
      assert before + tail + [input.value] == before + (tail + [input.value]);
      if outcome.BatchDropped? { CutInTail(before, tail + [input.value], outcome.count); }
    }
  }

  /** Pushing a record buffers at most one record more. */
  lemma PushBuffers(s: State, k: Kind, r: Record, rot: IO, j: Kind)
    ensures |Buffered(Push(s, k, r, rot), j)| <= |Buffered(s, j)| + if j == k && !Refuses(s, k, r, rot) then 1 else 0
  {
  }

  lemma DroppedFits(s: State, k: Kind, input: Option<Record>, rot: IO, io: IO)
    ensures var outcome := Append(s, k, input, rot, io).outcome;
            outcome.BatchDropped? ==> outcome.count <= |Open(s, k)| + 1
  {
    if input.Some? { PushBuffers(s, k, input.value, rot, k); }
  }

  lemma AppendTail(s: State, op: Op, before: seq<Record>, k: Kind)
    requires op.DoAppend? && Enabled(s, op)
    ensures TailOnly(before, Open(s, k), EventsOf(s, op), k)
  {
    var outcome := Append(s, op.k, op.input, op.rot, op.io).outcome;
    AppendBooks(before + Open(s, k), op.k, op.input, outcome, k);
    AppendBooks(Open(s, k), op.k, op.input, outcome, k);
    DroppedFits(s, op.k, op.input, op.rot, op.io);
    AppendInTail(before, Open(s, op.k), op.input, outcome);
  }

  lemma TookTail(before: seq<Record>, open: seq<Record>, j: Kind, r: Record, k: Kind)
    ensures BookAll(before + open, [Took(j, r)], k) == before + BookAll(open, [Took(j, r)], k)
    ensures BookAll(open, [Took(j, r)], k) == if j == k then open + [r] else open
  {
    BookOne(before + open, Took(j, r), k);
    BookOne(open, Took(j, r), k);
    assert before + open + [r] == before + (open + [r]);
  }

  lemma InFlightTail(s: State, during: Option<InFlight>, before: seq<Record>, k: Kind)
    ensures BookAll(before + Open(s, k), InFlightEvents(s, during), k) == before + BookAll(Open(s, k), InFlightEvents(s, during), k)
    ensures |Buffered(Reached(s, during), k)| <= |BookAll(Open(s, k), InFlightEvents(s, during), k)|
  {
    if during.Some? && during.value.r.ts != ZERO_TIME {
      var f := during.value;
      PushBuffers(s, f.k, f.r, f.rot, k);
      TookTail(before, Open(s, k), f.k, f.r, k);
    }
  }

  lemma LostFits(s: State, p: CrashPoint, k: Kind)
    ensures Lost(s, p, k) <= |Buffered(s, k)|
  {
  }

  lemma CrashTail(s: State, op: Op, before: seq<Record>, k: Kind)
    requires op.DoCrash? && Enabled(s, op)
    ensures TailOnly(before, Open(s, k), EventsOf(s, op), k)
  {
    var taken, reached := InFlightEvents(s, op.during), Reached(s, op.during);
    var crashed := Crashed(LostMap(reached, op.p));
    CrashEvents(before + Open(s, k), taken, crashed, k);
    CrashEvents(Open(s, k), taken, crashed, k);
    InFlightTail(s, op.during, before, k);
    LostFits(reached, op.p, k);
    CutInTail(before, BookAll(Open(s, k), taken, k), Lost(reached, op.p, k));
  }

  /** Events that reach no further back than `tail`. */
  ghost predicate TailOnly(before: seq<Record>, tail: seq<Record>, events: seq<Event>, k: Kind) {
    BookAll(before + tail, events, k) == before + BookAll(tail, events, k)
  }

  /** No event of a step reaches behind what is still open, so whatever lies before stays. */
  lemma EventsTail(s: State, op: Op, before: seq<Record>, k: Kind)
    ensures TailOnly(before, Open(s, k), EventsOf(s, op), k)
  {
    if Enabled(s, op) && op.DoAppend? {
      AppendTail(s, op, before, k);
    } else if Enabled(s, op) && op.DoCrash? {
      CrashTail(s, op, before, k);
    }
  }

  /** What one name contributes to the closed log of a kind. */
  function ClosedRecords(closed: map<SegName, File>, n: SegName, k: Kind): seq<Record> {
    if n.kind == k && n in closed then ReadFile(closed[n]).recs else []
  }

  lemma ClosedLogSnoc(closed: map<SegName, File>, order: seq<SegName>, n: SegName, k: Kind)
    ensures ClosedLog(closed, order + [n], k) == ClosedLog(closed, order, k) + ClosedRecords(closed, n, k)
  {
    assert (order + [n])[..|order|] == order;
  }

  lemma Assoc(a: seq<Record>, b: seq<Record>, c: seq<Record>)
    ensures a + b + c == a + (b + c)
  {
  }

  lemma {:induction false} ClosedLogConcat(closed: map<SegName, File>, a: seq<SegName>, b: seq<SegName>, k: Kind)
    ensures ClosedLog(closed, a + b, k) == ClosedLog(closed, a, k) + ClosedLog(closed, b, k)
  {
    if b == [] {
      assert a + b == a;
    } else {
      var init, last := b[..|b| - 1], b[|b| - 1];
      assert a + b == (a + init) + [last] && b == init + [last];
      ClosedLogConcat(closed, a, init, k);
      ClosedLogSnoc(closed, a + init, last, k);
      ClosedLogSnoc(closed, init, last, k);
      Assoc(ClosedLog(closed, a, k), ClosedLog(closed, init, k), ClosedRecords(closed, last, k));
    }
  }

  /** The names a step adds to the closing order. */
  function NewNames(s: State, t: State): seq<SegName> { if s.order <= t.order then t.order[|s.order|..] else [] }

  lemma OrderGrows(s: State, t: State, k: Kind)
    requires ClosedOk(s) && ClosedKept(s.disk, t.disk) && s.order <= t.order
    ensures ClosedLog(t.disk.closed, t.order, k)
         == ClosedLog(s.disk.closed, s.order, k) + ClosedLog(t.disk.closed, NewNames(s, t), k)
  {
    assert t.order == s.order + NewNames(s, t);
    ClosedLogConcat(t.disk.closed, s.order, NewNames(s, t), k);
    ClosedLogFrame(s.disk.closed, t.disk.closed, s.order, k);
  }

  lemma LogParts(s: State, k: Kind)
    ensures Log(s, k) == ClosedLog(s.disk.closed, s.order, k) + Open(s, k)
  {
  }

  lemma Rebased(closed: seq<Record>, tail: seq<Record>, now: seq<Record>, open: seq<Record>, before: seq<Record>)
    requires closed + tail == closed + now + open
    ensures before + tail == before + now + open
  {
    assert tail == (closed + tail)[|closed|..];
    assert now + open == (closed + now + open)[|closed|..];
    assert before + (now + open) == before + now + open;
  }

  lemma StateOpens(s: State, t: State, events: seq<Event>, before: seq<Record>, k: Kind)
    requires ClosedOk(s) && ClosedKept(s.disk, t.disk) && s.order <= t.order
    requires BookAll(Log(s, k), events, k) == Log(t, k)
    requires forall base :: TailOnly(base, Open(s, k), events, k)
    ensures BookAll(before + Open(s, k), events, k)
         == before + ClosedLog(t.disk.closed, NewNames(s, t), k) + Open(t, k)
  {
    var closed := ClosedLog(s.disk.closed, s.order, k);
    LogParts(s, k);
    LogParts(t, k);
    OrderGrows(s, t, k);
    assert TailOnly(closed, Open(s, k), events, k) && TailOnly(before, Open(s, k), events, k);
    Rebased(closed, BookAll(Open(s, k), events, k), ClosedLog(t.disk.closed, NewNames(s, t), k), Open(t, k), before);
  }

  /** One step turns what is open, by its events, into what it closes and what is then open. */
  lemma StepOpens(s: State, op: Op, before: seq<Record>, k: Kind)
    requires Inv(s)
    ensures BookAll(before + Open(s, k), EventsOf(s, op), k)
         == before + ClosedLog(Apply(s, op).disk.closed, NewNames(s, Apply(s, op)), k) + Open(Apply(s, op), k)
  {
    StepBooks(s, op, k);
    StepClosedKept(s, op);
    forall base ensures TailOnly(base, Open(s, k), EventsOf(s, op), k) {
      EventsTail(s, op, base, k);
    }
    StateOpens(s, Apply(s, op), EventsOf(s, op), before, k);
  }
}
