/** The ledger of whole agent runs, exports, removals and retention included, and what the analyzer
    shows of it. */
module AgentLedger {
  import opened Common
  import opened Records
  import opened Spool
  import opened SpoolLog
  import opened SpoolCrash
  import opened SpoolListing
  import opened SpoolTail
  import opened Bundle
  import opened Dataset
  import opened EndToEnd
  import opened Upkeep

  // ---- every segment a run ever closed ----------------------------------------------------

  /** One closing: the name, the file, whether it had a sidecar then, and whether retention has since
      taken it from the listing before any export held it. */
  datatype Closing = Closing(name: SegName, file: File, listed: bool, lost: bool)

  predicate Kept(c: Closing) { c.listed && !c.lost }

  function ClosingOf(d: Disk, n: SegName): Closing {
    Closing(n, if n in d.closed then d.closed[n] else [], n in d.sidecars, false)
  }

  function ClosingsOf(d: Disk, names: seq<SegName>): (cs: seq<Closing>)
    ensures |cs| == |names| && forall i :: 0 <= i < |cs| ==> cs[i] == ClosingOf(d, names[i])
  {
    seq(|names|, i requires 0 <= i < |names| => ClosingOf(d, names[i]))
  }

  /** The newest closing of that name becomes a lost one. */
  function Forfeit(cs: seq<Closing>, n: SegName): (r: seq<Closing>)
    ensures |r| == |cs|
  {
    if cs == [] then []
    else
      var init, last := cs[..|cs| - 1], cs[|cs| - 1];
      if last.name == n then init + [last.(lost := true)] else Forfeit(init, n) + [last]
  }

  /** No later closing has the name of closing `i`. */
  predicate IsNewest(cs: seq<Closing>, i: nat)
    requires i < |cs|
  {
    forall j :: i < j < |cs| ==> cs[j].name != cs[i].name
  }

  lemma {:induction false} ForfeitAt(cs: seq<Closing>, n: SegName, i: nat)
    requires i < |cs|
    ensures Forfeit(cs, n)[i] == if cs[i].name == n && IsNewest(cs, i) then cs[i].(lost := true) else cs[i]
  {
    var init, last := cs[..|cs| - 1], cs[|cs| - 1];
    if last.name == n {
      assert i < |init| && cs[i].name == n ==> !IsNewest(cs, i);
    } else if i < |init| {
      ForfeitAt(init, n, i);
      assert cs[i].name == n ==> (IsNewest(cs, i) <==> IsNewest(init, i));
    }
  }

  /** Retention takes the segment, or only its sidecar, before any export holds all its records. */
  ghost predicate Loses(a: Agent, op: UpkeepOp) {
    && op.Retain? && a.spool.up && a.pending == [] && (op.io.segmentOk || op.io.sidecarOk)
    && Listed(a.spool.disk, op.name) && !Carried(a.exports, a.spool.disk.closed[op.name])
  }

  ghost function NextClosings(cs: seq<Closing>, a: Agent, op: UpkeepOp): seq<Closing> {
    if Loses(a, op) then Forfeit(cs, op.name)
    else if op.OfAgent? && op.op.SpoolStep? then
      cs + ClosingsOf(UpkeepStep(a, op).spool.disk, NewNames(a.spool, UpkeepStep(a, op).spool))
    else cs
  }

  /** All closings of a run, removed segments included. */
  ghost function Closings(a: Agent, ops: seq<UpkeepOp>): seq<Closing> {
    if ops == [] then []
    else
      var init := ops[..|ops| - 1];
      NextClosings(Closings(a, init), RunUpkeep(a, init), ops[|ops| - 1])
  }

  ghost function StepEvents(a: Agent, op: UpkeepOp): seq<Event> {
    if op.OfAgent? && op.op.SpoolStep? then EventsOf(a.spool, op.op.op) else []
  }

  /** What callers of the spool would write down over a run. */
  ghost function AgentHistory(a: Agent, ops: seq<UpkeepOp>): seq<Event> {
    if ops == [] then []
    else
      var init := ops[..|ops| - 1];
      AgentHistory(a, init) + StepEvents(RunUpkeep(a, init), ops[|ops| - 1])
  }

  /** The records of kind `k` in a sequence of closings. */
  function ClosedIn(cs: seq<Closing>, k: Kind): seq<Record> {
    if cs == [] then []
    else
      var last := cs[|cs| - 1];
      ClosedIn(cs[..|cs| - 1], k) + if last.name.kind == k then ReadFile(last.file).recs else []
  }

  lemma ClosedInSnoc(cs: seq<Closing>, c: Closing, k: Kind)
    ensures ClosedIn(cs + [c], k) == ClosedIn(cs, k) + if c.name.kind == k then ReadFile(c.file).recs else []
  {
    assert (cs + [c])[..|cs|] == cs;
  }

  lemma {:induction false} ClosedInConcat(a: seq<Closing>, b: seq<Closing>, k: Kind)
    ensures ClosedIn(a + b, k) == ClosedIn(a, k) + ClosedIn(b, k)
  {
    if b == [] {
      assert a + b == a;
    } else {
      var init, last := b[..|b| - 1], b[|b| - 1];
      assert a + b == (a + init) + [last] && b == init + [last];
      ClosedInConcat(a, init, k);
      ClosedInSnoc(a + init, last, k);
      ClosedInSnoc(init, last, k);
    }
  }

  lemma ClosingsSnoc(d: Disk, names: seq<SegName>, n: SegName)
    ensures ClosingsOf(d, names + [n]) == ClosingsOf(d, names) + [ClosingOf(d, n)]
  {
  }

  lemma {:induction false} ClosingsRead(d: Disk, names: seq<SegName>, k: Kind)
    requires forall n :: n in names ==> n in d.closed
    ensures ClosedIn(ClosingsOf(d, names), k) == ClosedLog(d.closed, names, k)
  {
    if names != [] {
      var init, last := names[..|names| - 1], names[|names| - 1];
      assert names == init + [last] && last in names;
      ClosingsRead(d, init, k);
      ClosingsSnoc(d, init, last);
      ClosedInSnoc(ClosingsOf(d, init), ClosingOf(d, last), k);
      ClosedLogSnoc(d.closed, init, last, k);
    }
  }

  /** A loss does not change what was closed. */
  lemma {:induction false} ForfeitReads(cs: seq<Closing>, n: SegName, k: Kind)
    ensures ClosedIn(Forfeit(cs, n), k) == ClosedIn(cs, k)
  {
    if cs != [] {
      var init, last := cs[..|cs| - 1], cs[|cs| - 1];
      assert cs == init + [last];
      ForfeitReads(init, n, k);
      ClosedInSnoc(init, last, k);
      ClosedInSnoc(init, last.(lost := true), k);
      ClosedInSnoc(Forfeit(init, n), last, k);
    }
  }

  // ---- what every agent run keeps ---------------------------------------------------------

  /** Closing `i` is that of the closed segment `n`; if it is listed, it is a kept one. */
  ghost predicate IsCurrent(cs: seq<Closing>, d: Disk, n: SegName, i: nat)
    requires i < |cs| && n in d.closed
  {
    cs[i].name == n && IsNewest(cs, i) && cs[i].file == d.closed[n] && (n in d.sidecars ==> Kept(cs[i]))
  }

  /** The segment of closing `i` is still listed with its file, or its records are all in exports. */
  ghost predicate Accounted(a: Agent, cs: seq<Closing>, i: nat)
    requires i < |cs|
  {
    || Carried(a.exports, cs[i].file)
    || (IsNewest(cs, i) && Listed(a.spool.disk, cs[i].name) && a.spool.disk.closed[cs[i].name] == cs[i].file)
  }

  ghost predicate GivenAt(exports: seq<Exported>, cs: seq<Closing>, r: Record, i: nat)
    requires i < |cs|
  {
    Kept(cs[i]) && Carried(exports, cs[i].file) && r in ReadFile(cs[i].file).recs
  }

  ghost predicate AllCurrent(d: Disk, cs: seq<Closing>) {
    forall n :: n in d.closed ==> exists i: nat :: i < |cs| && IsCurrent(cs, d, n, i)
  }

  ghost predicate AllAccounted(a: Agent, cs: seq<Closing>) {
    forall i: nat :: i < |cs| && Kept(cs[i]) ==> Accounted(a, cs, i)
  }

  ghost predicate OnlyGiven(exports: seq<Exported>, cs: seq<Closing>) {
    forall r :: InExports(exports, r) ==> exists i: nat :: i < |cs| && GivenAt(exports, cs, r, i)
  }

  /** Every closed file is that of its newest closing; every kept closing is still listed or exported;
      every exported record comes from a kept closing that was exported whole. */
  ghost predicate Follows(a: Agent, cs: seq<Closing>) {
    AllCurrent(a.spool.disk, cs) && AllAccounted(a, cs) && OnlyGiven(a.exports, cs)
  }

  /** Each kind's ledger is what was ever closed, then the active file, then the buffer. */
  ghost predicate LedgerIs(a: Agent, events: seq<Event>, cs: seq<Closing>) {
    forall k :: Ledger(events, k) == ClosedIn(cs, k) + Open(a.spool, k)
  }

  /** The names that are closed in `e` and not in `d`, each once. */
  ghost predicate NamesNew(d: Disk, e: Disk, names: seq<SegName>) {
    && Unique(names)
    && (forall n :: n in names ==> n in e.closed && n !in d.closed)
    && (forall n :: n in e.closed && n !in d.closed ==> n in names)
  }

  /** The part of a list behind a prefix, when the list repeats nothing. */
  lemma SuffixFresh(head: seq<SegName>, tail: seq<SegName>)
    requires Unique(head + tail)
    ensures Unique(tail) && forall n :: n in tail ==> n !in head
  {
    var all := head + tail;
    forall i, j | 0 <= i < j < |tail| ensures tail[i] != tail[j] {
      assert all[|head| + i] == tail[i] && all[|head| + j] == tail[j];
    }
    forall n | n in tail ensures n !in head {
      var j :| 0 <= j < |tail| && tail[j] == n;
      assert all[|head| + j] == n;
      assert forall i :: 0 <= i < |head| ==> head[i] == all[i];
    }
  }

  /** New names are new, and each appears once. */
  lemma NewNamesFresh(s: State, t: State)
    requires ClosedOk(s) && ClosedOk(t) && s.order <= t.order
    ensures NamesNew(s.disk, t.disk, NewNames(s, t))
  {
    var names := NewNames(s, t);
    assert t.order == s.order + names;
    SuffixFresh(s.order, names);
    assert forall n :: n in t.order <==> n in s.order || n in names;
  }

  /** An old closing stays the newest of its name when that is not closed anew. */
  lemma NewestStays(cs: seq<Closing>, more: seq<Closing>, i: nat)
    requires i < |cs| && IsNewest(cs, i) && forall c :: c in more ==> c.name != cs[i].name
    ensures IsNewest(cs + more, i)
  {
    var all := cs + more;
    forall j | i < j < |all| ensures all[j].name != all[i].name {
      if j >= |cs| { assert all[j] in more; }
    }
  }

  lemma NewIsNewest(d: Disk, names: seq<SegName>, cs: seq<Closing>, i: nat)
    requires i < |names| && Unique(names)
    ensures IsNewest(cs + ClosingsOf(d, names), |cs| + i)
  {
  }

  lemma NewNamesIn(d: Disk, e: Disk, names: seq<SegName>)
    requires NamesNew(d, e, names)
    ensures forall c :: c in ClosingsOf(e, names) ==> c.name !in d.closed
  {
    forall c | c in ClosingsOf(e, names) ensures c.name !in d.closed {
      var i :| 0 <= i < |names| && ClosingsOf(e, names)[i] == c;
      assert names[i] in names;
    }
  }

  lemma CurrentGrows(d: Disk, e: Disk, names: seq<SegName>, cs: seq<Closing>)
    requires ClosedKept(d, e) && NamesNew(d, e, names) && AllCurrent(d, cs)
    ensures AllCurrent(e, cs + ClosingsOf(e, names))
  {
    var more := ClosingsOf(e, names);
    NewNamesIn(d, e, names);
    forall n | n in e.closed ensures exists i: nat :: i < |cs + more| && IsCurrent(cs + more, e, n, i) {
      if n in d.closed {
        var i: nat :| i < |cs| && IsCurrent(cs, d, n, i);
        NewestStays(cs, more, i);
        assert IsCurrent(cs + more, e, n, i);
      } else {
        var i :| 0 <= i < |names| && names[i] == n;
        NewIsNewest(e, names, cs, i);
        assert IsCurrent(cs + more, e, n, |cs| + i);
      }
    }
  }

  lemma AccountedGrows(a: Agent, b: Agent, names: seq<SegName>, cs: seq<Closing>)
    requires b.exports == a.exports && ClosedKept(a.spool.disk, b.spool.disk)
    requires NamesNew(a.spool.disk, b.spool.disk, names) && AllAccounted(a, cs)
    ensures AllAccounted(b, cs + ClosingsOf(b.spool.disk, names))
  {
    var more := ClosingsOf(b.spool.disk, names);
    var all := cs + more;
    NewNamesIn(a.spool.disk, b.spool.disk, names);
    forall i: nat | i < |all| && Kept(all[i]) ensures Accounted(b, all, i) {
      if i < |cs| {
        assert Kept(cs[i]) && Accounted(a, cs, i);
        if !Carried(a.exports, cs[i].file) { NewestStays(cs, more, i); }
      } else {
        NewIsNewest(b.spool.disk, names, cs, i - |cs|);
        assert names[i - |cs|] in names;
      }
    }
  }

  lemma GivenGrows(exports: seq<Exported>, cs: seq<Closing>, more: seq<Closing>)
    requires OnlyGiven(exports, cs)
    ensures OnlyGiven(exports, cs + more)
  {
    forall r | InExports(exports, r) ensures exists i: nat :: i < |cs + more| && GivenAt(exports, cs + more, r, i) {
      var i: nat :| i < |cs| && GivenAt(exports, cs, r, i);
      assert GivenAt(exports, cs + more, r, i);
    }
  }

  lemma StateFollows(a: Agent, b: Agent, cs: seq<Closing>)
    requires ClosedOk(a.spool) && ClosedOk(b.spool) && b.exports == a.exports && Follows(a, cs)
    requires ClosedKept(a.spool.disk, b.spool.disk) && a.spool.order <= b.spool.order
    ensures Follows(b, cs + ClosingsOf(b.spool.disk, NewNames(a.spool, b.spool)))
  {
    var names := NewNames(a.spool, b.spool);
    NewNamesFresh(a.spool, b.spool);
    CurrentGrows(a.spool.disk, b.spool.disk, names, cs);
    AccountedGrows(a, b, names, cs);
    GivenGrows(a.exports, cs, ClosingsOf(b.spool.disk, names));
  }

  lemma SpoolFollows(a: Agent, op: Op, cs: seq<Closing>)
    requires AgentInv(a) && Follows(a, cs)
    ensures Follows(UpkeepStep(a, OfAgent(SpoolStep(op))), NextClosings(cs, a, OfAgent(SpoolStep(op))))
  {
    StepInv(a.spool, op);
    StepClosedKept(a.spool, op);
    StateFollows(a, Step(a, SpoolStep(op)), cs);
  }

  lemma CarriedGrows(exports: seq<Exported>, x: Exported, f: File)
    requires Carried(exports, f)
    ensures Carried(exports + [x], f)
  {
    forall r | r in ReadFile(f).recs ensures InExports(exports + [x], r) {
      ExportsGrow(exports, x, r);
    }
  }

  lemma ListedIsCarried(exports: seq<Exported>, e: Exporter, d: Disk, segs: seq<SegmentInfo>, n: SegName)
    requires IsListing(d, segs) && Listed(d, n)
    ensures Carried(exports + [Exported(e, ItemsOf(d, segs))], d.closed[n])
  {
    ItemsAreListed(d, segs);
    forall r | r in ReadFile(d.closed[n]).recs ensures InExports(exports + [Exported(e, ItemsOf(d, segs))], r) {
      assert InListed(d, r);
      ExportsGrow(exports, Exported(e, ItemsOf(d, segs)), r);
    }
  }

  lemma PublishGives(exports: seq<Exported>, e: Exporter, d: Disk, segs: seq<SegmentInfo>, cs: seq<Closing>)
    requires IsListing(d, segs) && AllCurrent(d, cs) && OnlyGiven(exports, cs)
    ensures OnlyGiven(exports + [Exported(e, ItemsOf(d, segs))], cs)
  {
    var x := Exported(e, ItemsOf(d, segs));
    ItemsAreListed(d, segs);
    forall r | InExports(exports + [x], r) ensures exists i: nat :: i < |cs| && GivenAt(exports + [x], cs, r, i) {
      ExportsGrow(exports, x, r);
      if InExports(exports, r) {
        var i: nat :| i < |cs| && GivenAt(exports, cs, r, i);
        CarriedGrows(exports, x, cs[i].file);
        assert GivenAt(exports + [x], cs, r, i);
      } else {
        assert InListed(d, r);
        var n :| Listed(d, n) && r in ReadFile(d.closed[n]).recs;
        var i: nat :| i < |cs| && IsCurrent(cs, d, n, i);
        ListedIsCarried(exports, e, d, segs, n);
        assert GivenAt(exports + [x], cs, r, i);
      }
    }
  }

  lemma PublishFollows(a: Agent, e: Exporter, segs: seq<SegmentInfo>, removeAfter: bool, cs: seq<Closing>)
    requires Follows(a, cs) && CanPublish(a, segs)
    ensures Follows(Step(a, Publish(e, segs, removeAfter)), cs)
  {
    var b := Step(a, Publish(e, segs, removeAfter));
    PublishGives(a.exports, e, a.spool.disk, segs, cs);
    forall i: nat | i < |cs| && Kept(cs[i]) ensures Accounted(b, cs, i) {
      assert Accounted(a, cs, i);
      if Carried(a.exports, cs[i].file) { CarriedGrows(a.exports, Exported(e, ItemsOf(a.spool.disk, segs)), cs[i].file); }
    }
  }

  lemma RemovalCurrent(s: State, n: SegName, io: RemoveIO, cs: seq<Closing>)
    requires AllCurrent(s.disk, cs)
    ensures AllCurrent(Remove(s, n, io).disk, cs)
  {
    var d, e := s.disk, Remove(s, n, io).disk;
    forall m | m in e.closed ensures exists i: nat :: i < |cs| && IsCurrent(cs, e, m, i) {
      var i: nat :| i < |cs| && IsCurrent(cs, d, m, i);
      assert IsCurrent(cs, e, m, i);
    }
  }

  /** A removal that takes nothing from the listing that is not exported leaves all accounted for. */
  lemma RemovalFollows(a: Agent, b: Agent, n: SegName, io: RemoveIO, cs: seq<Closing>)
    requires Follows(a, cs) && b.exports == a.exports && b.spool == Remove(a.spool, n, io)
    requires Listed(a.spool.disk, n) && (io.segmentOk || io.sidecarOk) ==> Carried(a.exports, a.spool.disk.closed[n])
    ensures Follows(b, cs)
  {
    RemovalCurrent(a.spool, n, io, cs);
    forall i: nat | i < |cs| && Kept(cs[i]) ensures Accounted(b, cs, i) {
      assert Accounted(a, cs, i);
    }
  }

  lemma ForfeitNewest(cs: seq<Closing>, n: SegName, i: nat)
    requires i < |cs| && IsNewest(cs, i)
    ensures IsNewest(Forfeit(cs, n), i)
  {
    var r := Forfeit(cs, n);
    forall j: nat | i <= j < |cs| ensures r[j].name == cs[j].name {
      ForfeitAt(cs, n, j);
    }
  }

  /** The newest closing of a name is unique. */
  lemma OneNewest(cs: seq<Closing>, i: nat, j: nat)
    requires i < |cs| && j < |cs| && IsNewest(cs, i) && IsNewest(cs, j) && cs[i].name == cs[j].name
    ensures i == j
  {
  }

  lemma LossCurrent(s: State, n: SegName, io: RemoveIO, cs: seq<Closing>)
    requires AllCurrent(s.disk, cs) && (io.segmentOk || io.sidecarOk)
    ensures AllCurrent(Remove(s, n, io).disk, Forfeit(cs, n))
  {
    var d, e := s.disk, Remove(s, n, io).disk;
    forall m | m in e.closed ensures exists i: nat :: i < |cs| && IsCurrent(Forfeit(cs, n), e, m, i) {
      var i: nat :| i < |cs| && IsCurrent(cs, d, m, i);
      ForfeitAt(cs, n, i);
      ForfeitNewest(cs, n, i);
      assert IsCurrent(Forfeit(cs, n), e, m, i);
    }
  }

  lemma LossGives(exports: seq<Exported>, d: Disk, n: SegName, cs: seq<Closing>)
    requires AllCurrent(d, cs) && OnlyGiven(exports, cs) && n in d.closed && !Carried(exports, d.closed[n])
    ensures OnlyGiven(exports, Forfeit(cs, n))
  {
    var k: nat :| k < |cs| && IsCurrent(cs, d, n, k);
    forall r | InExports(exports, r) ensures exists i: nat :: i < |cs| && GivenAt(exports, Forfeit(cs, n), r, i) {
      var i: nat :| i < |cs| && GivenAt(exports, cs, r, i);
      ForfeitAt(cs, n, i);
      if cs[i].name == n && IsNewest(cs, i) { OneNewest(cs, i, k); }
      assert GivenAt(exports, Forfeit(cs, n), r, i);
    }
  }

  lemma LossFollows(a: Agent, b: Agent, n: SegName, io: RemoveIO, cs: seq<Closing>)
    requires Follows(a, cs) && b.exports == a.exports && b.spool == Remove(a.spool, n, io)
    requires Listed(a.spool.disk, n) && (io.segmentOk || io.sidecarOk) && !Carried(a.exports, a.spool.disk.closed[n])
    ensures Follows(b, Forfeit(cs, n))
  {
    var r := Forfeit(cs, n);
    LossCurrent(a.spool, n, io, cs);
    LossGives(a.exports, a.spool.disk, n, cs);
    forall i: nat | i < |r| && Kept(r[i]) ensures Accounted(b, r, i) {
      ForfeitAt(cs, n, i);
      assert Accounted(a, cs, i);
      if IsNewest(cs, i) { ForfeitNewest(cs, n, i); }
    }
  }

  lemma StepFollows(a: Agent, op: UpkeepOp, cs: seq<Closing>)
    requires AgentInv(a) && Follows(a, cs)
    ensures Follows(UpkeepStep(a, op), NextClosings(cs, a, op))
  {
    match op {
      case OfAgent(SpoolStep(o)) => SpoolFollows(a, o, cs);
      case OfAgent(RemoveNext(io)) =>
        if a.spool.up && a.pending != [] { RemovalFollows(a, UpkeepStep(a, op), a.pending[0], io, cs); }
      case OfAgent(Publish(e, segs, removeAfter)) =>
        if CanPublish(a, segs) { PublishFollows(a, e, segs, removeAfter, cs); }
      case Retain(n, io) =>
        if Loses(a, op) {
          LossFollows(a, UpkeepStep(a, op), n, io, cs);
        } else if a.spool.up && a.pending == [] {
          RemovalFollows(a, UpkeepStep(a, op), n, io, cs);
        }
    }
  }

  lemma SpoolLedger(a: Agent, op: Op, events: seq<Event>, cs: seq<Closing>, k: Kind)
    requires Inv(a.spool) && Ledger(events, k) == ClosedIn(cs, k) + Open(a.spool, k)
    ensures var t := Apply(a.spool, op);
            Ledger(events + EventsOf(a.spool, op), k)
            == ClosedIn(cs + ClosingsOf(t.disk, NewNames(a.spool, t)), k) + Open(t, k)
  {
    var t := Apply(a.spool, op);
    BookConcat([], events, EventsOf(a.spool, op), k);
    StepOpens(a.spool, op, ClosedIn(cs, k), k);
    StepInv(a.spool, op);
    StepClosedKept(a.spool, op);
    NewNamesFresh(a.spool, t);
    ClosingsRead(t.disk, NewNames(a.spool, t), k);
    ClosedInConcat(cs, ClosingsOf(t.disk, NewNames(a.spool, t)), k);
  }

  lemma RemoveOpens(s: State, n: SegName, io: RemoveIO, k: Kind)
    ensures Open(Remove(s, n, io), k) == Open(s, k)
  {
  }

  lemma OtherOpens(a: Agent, op: UpkeepOp, k: Kind)
    requires op.OfAgent? ==> !op.op.SpoolStep?
    ensures Open(UpkeepStep(a, op).spool, k) == Open(a.spool, k)
  {
    match op
    case OfAgent(RemoveNext(io)) =>
      if a.pending != [] { RemoveOpens(a.spool, a.pending[0], io, k); }
    case Retain(n, io) => RemoveOpens(a.spool, n, io, k);
    case _ =>
  }

  lemma OtherCloses(a: Agent, op: UpkeepOp, cs: seq<Closing>, k: Kind)
    requires op.OfAgent? ==> !op.op.SpoolStep?
    ensures ClosedIn(NextClosings(cs, a, op), k) == ClosedIn(cs, k)
  {
    if Loses(a, op) { ForfeitReads(cs, op.name, k); }
  }

  lemma StepLedger(a: Agent, op: UpkeepOp, events: seq<Event>, cs: seq<Closing>, k: Kind)
    requires AgentInv(a) && Ledger(events, k) == ClosedIn(cs, k) + Open(a.spool, k)
    ensures Ledger(events + StepEvents(a, op), k) == ClosedIn(NextClosings(cs, a, op), k) + Open(UpkeepStep(a, op).spool, k)
  {
    if op.OfAgent? && op.op.SpoolStep? {
      SpoolLedger(a, op.op.op, events, cs, k);
    } else {
      assert events + [] == events;
      OtherOpens(a, op, k);
      OtherCloses(a, op, cs, k);
    }
  }

  /** Over every agent run, with any exports, removals, retention and crashes: each kind's ledger is what
      was ever closed, in closing order, then the active file, then the buffer; every segment that was
      listed when it was closed is still listed with its file, or all its records are in exports, or
      retention took it before; and nothing is exported but the records of such segments. */
  lemma {:induction false} RunFollowsLedger(maxSegment: int, ops: seq<UpkeepOp>)
    ensures var a, cs := RunUpkeep(Fresh(maxSegment), ops), Closings(Fresh(maxSegment), ops);
            AgentInv(a) && Follows(a, cs) && LedgerIs(a, AgentHistory(Fresh(maxSegment), ops), cs)
  {
    var a0 := Fresh(maxSegment);
    if ops != [] {
      var init, op := ops[..|ops| - 1], ops[|ops| - 1];
      var a := RunUpkeep(a0, init);
      RunFollowsLedger(maxSegment, init);
      UpkeepStepInv(a, op);
      StepFollows(a, op, Closings(a0, init));
      forall k ensures Ledger(AgentHistory(a0, ops), k) == ClosedIn(Closings(a0, ops), k) + Open(RunUpkeep(a0, ops).spool, k) {
        StepLedger(a, op, AgentHistory(a0, init), Closings(a0, init), k);
      }
    }
  }

  // ---- runs that strand nothing -----------------------------------------------------------

  /** Every segment the step closed has its sidecar. */
  ghost predicate NewListed(s: State, t: State) { forall n :: n in NewNames(s, t) ==> n in t.disk.sidecars }

  lemma RotateNewListed(s: State, k: Kind, io: IO)
    ensures NewListed(s, Rotate(s, k, io))
  {
  }

  lemma PushNewListed(s: State, k: Kind, r: Record, rot: IO)
    ensures NewListed(s, Push(s, k, r, rot))
  {
    RotateNewListed(s, k, rot);
  }

  lemma SameNewListed(s: State, p: State, t: State)
    requires NewListed(s, p) && t.order == p.order && t.disk.sidecars == p.disk.sidecars
    ensures NewListed(s, t)
  {
  }

  lemma AppendNewListed(s: State, k: Kind, input: Option<Record>, rot: IO, io: IO)
    ensures NewListed(s, Append(s, k, input, rot, io).state)
  {
    if input.Some? && input.value.ts != ZERO_TIME && !Refuses(s, k, input.value, rot) {
      PushNewListed(s, k, input.value, rot);
      var pushed := Push(s, k, input.value, rot);
      SameNewListed(s, pushed, AutoFlush(pushed, k, io).state);
    }
  }

  lemma CrashNewListed(s: State, during: Option<InFlight>, p: CrashPoint)
    requires !(p.BetweenRenames? && Closes(Reached(s, during), p.k, p.io))
    ensures NewListed(s, Crash(s, during, p))
  {
    if during.Some? { PushNewListed(s, during.value.k, during.value.r, during.value.rot); }
    var reached := Reached(s, during);
    SameNewListed(s, reached, Crash(s, during, p));
  }

  /** Only a death between the renames closes a segment without its sidecar. */
  lemma NotStranded(s: State, op: Op)
    requires !Strands(s, op)
    ensures NewListed(s, Apply(s, op))
  {
    if Enabled(s, op) {
      match op
      case DoAppend(k, input, rot, io) => AppendNewListed(s, k, input, rot, io);
      case DoRotate(k, io) => RotateNewListed(s, k, io);
      case DoCrash(during, p) => CrashNewListed(s, during, p);
      case _ =>
    }
  }

  predicate StrandedStep(a: Agent, op: UpkeepOp) { op.OfAgent? && op.op.SpoolStep? && Strands(a.spool, op.op.op) }

  ghost predicate StrandedAt(maxSegment: int, ops: seq<UpkeepOp>, i: nat)
    requires i < |ops|
  {
    StrandedStep(After(maxSegment, ops, i), ops[i])
  }

  /** The process never dies between the two renames with a file moved. */
  ghost predicate StrandsNothing(maxSegment: int, ops: seq<UpkeepOp>) {
    forall i: nat :: i < |ops| ==> !StrandedAt(maxSegment, ops, i)
  }

  lemma NewClosingsListed(s: State, t: State)
    requires NewListed(s, t)
    ensures forall c :: c in ClosingsOf(t.disk, NewNames(s, t)) ==> c.listed
  {
    forall c | c in ClosingsOf(t.disk, NewNames(s, t)) ensures c.listed {
      var i :| 0 <= i < |NewNames(s, t)| && ClosingOf(t.disk, NewNames(s, t)[i]) == c;
      assert NewNames(s, t)[i] in NewNames(s, t);
    }
  }

  lemma StepAllListed(a: Agent, op: UpkeepOp, cs: seq<Closing>)
    requires !StrandedStep(a, op) && forall c :: c in cs ==> c.listed
    ensures forall c :: c in NextClosings(cs, a, op) ==> c.listed
  {
    if op.OfAgent? && op.op.SpoolStep? {
      NotStranded(a.spool, op.op.op);
      NewClosingsListed(a.spool, Apply(a.spool, op.op.op));
    } else if Loses(a, op) {
      forall i: nat | i < |cs| ensures Forfeit(cs, op.name)[i].listed {
        ForfeitAt(cs, op.name, i);
      }
    }
  }

  lemma {:induction false} AllListedClosings(maxSegment: int, ops: seq<UpkeepOp>)
    requires StrandsNothing(maxSegment, ops)
    ensures forall c :: c in Closings(Fresh(maxSegment), ops) ==> c.listed
  {
    if ops != [] {
      var init, last := ops[..|ops| - 1], |ops| - 1;
      forall i: nat | i < |init| ensures !StrandedAt(maxSegment, init, i) {
        assert init[..i] == ops[..i];
        assert !StrandedAt(maxSegment, ops, i);
      }
      AllListedClosings(maxSegment, init);
      assert !StrandedAt(maxSegment, ops, last);
      StepAllListed(RunUpkeep(Fresh(maxSegment), init), ops[last], Closings(Fresh(maxSegment), init));
    }
  }

  // ---- runs in which retention takes nothing too early ------------------------------------

  ghost predicate LosesAt(maxSegment: int, ops: seq<UpkeepOp>, i: nat)
    requires i < |ops|
  {
    Loses(After(maxSegment, ops, i), ops[i])
  }

  /** Retention takes no listed segment before an export holds it. */
  ghost predicate LosesNothing(maxSegment: int, ops: seq<UpkeepOp>) {
    forall i: nat :: i < |ops| ==> !LosesAt(maxSegment, ops, i)
  }

  lemma {:induction false} NothingLost(maxSegment: int, ops: seq<UpkeepOp>)
    requires LosesNothing(maxSegment, ops)
    ensures forall c :: c in Closings(Fresh(maxSegment), ops) ==> !c.lost
  {
    if ops != [] {
      var init, last := ops[..|ops| - 1], |ops| - 1;
      forall i: nat | i < |init| ensures !LosesAt(maxSegment, init, i) {
        assert init[..i] == ops[..i];
        assert !LosesAt(maxSegment, ops, i);
      }
      NothingLost(maxSegment, init);
      assert !LosesAt(maxSegment, ops, last);
    }
  }

  // ---- what the analyzer shows after a complete rotation and an export ---------------------

  /** Everything has been rotated, and no export is under way. */
  ghost predicate Rotated(a: Agent) { a.spool.up && a.spool.active == map[] && a.pending == [] }

  /** A run, then a complete rotation and the attempt to export what is listed. */
  ghost predicate ReadyToExport(maxSegment: int, ops: seq<UpkeepOp>, segs: seq<SegmentInfo>) {
    var a := RunUpkeep(Fresh(maxSegment), ops);
    Rotated(a) && IsListing(a.spool.disk, segs)
  }

  ghost function ExportsAfter(maxSegment: int, ops: seq<UpkeepOp>, e: Exporter, segs: seq<SegmentInfo>): seq<Exported> {
    Step(RunUpkeep(Fresh(maxSegment), ops), Publish(e, segs, true)).exports
  }

  lemma NothingOpen(a: Agent, k: Kind)
    requires Inv(a.spool) && Rotated(a)
    ensures Open(a.spool, k) == []
  {
    assert k !in a.spool.disk.active;
  }

  /** In a segment that was listed when it was closed and that retention did not take too early. */
  ghost predicate InKept(cs: seq<Closing>, r: Record) {
    exists c :: c in cs && Kept(c) && r in ReadFile(c.file).recs
  }

  lemma ListedIsPublished(a: Agent, e: Exporter, segs: seq<SegmentInfo>, r: Record)
    requires Rotated(a) && IsListing(a.spool.disk, segs)
    ensures InListed(a.spool.disk, r) || InExports(a.exports, r) ==> InExports(Step(a, Publish(e, segs, true)).exports, r)
  {
    ItemsAreListed(a.spool.disk, segs);
    ExportsGrow(a.exports, Exported(e, ItemsOf(a.spool.disk, segs)), r);
  }

  lemma AllPublished(a: Agent, e: Exporter, segs: seq<SegmentInfo>, cs: seq<Closing>, r: Record)
    requires AgentInv(a) && Follows(a, cs) && Rotated(a) && IsListing(a.spool.disk, segs)
    ensures InExports(Step(a, Publish(e, segs, true)).exports, r) <==> InKept(cs, r)
  {
    var b := Step(a, Publish(e, segs, true));
    StepFollows(a, OfAgent(Publish(e, segs, true)), cs);
    if InExports(b.exports, r) {
      var i: nat :| i < |cs| && GivenAt(b.exports, cs, r, i);
      assert cs[i] in cs;
    }
    if InKept(cs, r) {
      var c :| c in cs && Kept(c) && r in ReadFile(c.file).recs;
      var i :| 0 <= i < |cs| && cs[i] == c;
      assert Accounted(a, cs, i);
      ListedIsPublished(a, e, segs, r);
    }
  }

  /** After a rotation and the attempt to export what is listed, the bundles of all exports hold exactly
      the records of the segments that were listed when they were closed, but for those that retention
      took before any export held them. */
  lemma CleanExport(maxSegment: int, ops: seq<UpkeepOp>, e: Exporter, segs: seq<SegmentInfo>, r: Record)
    requires ReadyToExport(maxSegment, ops, segs)
    ensures InExports(ExportsAfter(maxSegment, ops, e, segs), r) <==> InKept(Closings(Fresh(maxSegment), ops), r)
  {
    RunFollowsLedger(maxSegment, ops);
    AllPublished(RunUpkeep(Fresh(maxSegment), ops), e, segs, Closings(Fresh(maxSegment), ops), r);
  }

  lemma {:induction false} InClosedIn(cs: seq<Closing>, k: Kind, r: Record)
    ensures r in ClosedIn(cs, k) <==> exists c :: c in cs && c.name.kind == k && r in ReadFile(c.file).recs
  {
    if cs != [] {
      var init, last := cs[..|cs| - 1], cs[|cs| - 1];
      assert forall c :: c in cs <==> c in init || c == last;
      InClosedIn(init, k, r);
    }
  }

  lemma LedgerIsClosed(maxSegment: int, ops: seq<UpkeepOp>, k: Kind)
    requires Rotated(RunUpkeep(Fresh(maxSegment), ops))
    ensures Ledger(AgentHistory(Fresh(maxSegment), ops), k) == ClosedIn(Closings(Fresh(maxSegment), ops), k)
  {
    var cs := ClosedIn(Closings(Fresh(maxSegment), ops), k);
    RunFollowsLedger(maxSegment, ops);
    NothingOpen(RunUpkeep(Fresh(maxSegment), ops), k);
    assert cs + [] == cs;
  }

  /** What the analyzer shows, whatever crashed and whatever else its directory holds: exactly the
      minutes in segments that were listed when they were closed and not taken too early, each once. */
  lemma ShownExactly(maxSegment: int, ops: seq<UpkeepOp>, e: Exporter, segs: seq<SegmentInfo>,
      files: seq<BundleFile>, host: string, identities: set<Key>, d: Content)
    requires ReadyToExport(maxSegment, ops, segs)
    requires Loaded(files, ExportsAfter(maxSegment, ops, e, segs), host, identities, d)
    ensures StrictlyIncreasing(d.minutes)
    ensures forall t :: HasTs(d.minutes, t) <==> exists r :: MinuteAt(r, t) && InKept(Closings(Fresh(maxSegment), ops), r)
  {
    var exports := ExportsAfter(maxSegment, ops, e, segs);
    forall r ensures InExports(exports, r) <==> InKept(Closings(Fresh(maxSegment), ops), r) {
      CleanExport(maxSegment, ops, e, segs, r);
    }
    forall t ensures HasTs(d.minutes, t) <==> exists r :: MinuteAt(r, t) && InKept(Closings(Fresh(maxSegment), ops), r) {
      LoadedMinutes(files, exports, host, identities, d, t);
    }
  }

  /** The closings that retention did not make a loss. */
  function Saved(cs: seq<Closing>): seq<Closing> {
    if cs == [] then []
    else if cs[|cs| - 1].lost then Saved(cs[..|cs| - 1])
    else Saved(cs[..|cs| - 1]) + [cs[|cs| - 1]]
  }

  lemma {:induction false} SavedAre(cs: seq<Closing>)
    ensures forall c :: c in Saved(cs) <==> c in cs && !c.lost
    ensures (forall c :: c in cs ==> !c.lost) ==> Saved(cs) == cs
  {
    if cs != [] {
      var init, last := cs[..|cs| - 1], cs[|cs| - 1];
      assert cs == init + [last];
      SavedAre(init);
    }
  }

  /** The ledger without what retention took too early. */
  ghost predicate InSavedLedger(maxSegment: int, ops: seq<UpkeepOp>, r: Record) {
    exists k :: r in ClosedIn(Saved(Closings(Fresh(maxSegment), ops)), k)
  }

  /** Taken in during the run and neither dropped nor lost with a crash. */
  ghost predicate InLedger(maxSegment: int, ops: seq<UpkeepOp>, r: Record) {
    exists k :: r in Ledger(AgentHistory(Fresh(maxSegment), ops), k)
  }

  lemma SavedIsKept(maxSegment: int, ops: seq<UpkeepOp>, r: Record)
    requires StrandsNothing(maxSegment, ops)
    ensures InSavedLedger(maxSegment, ops, r) <==> InKept(Closings(Fresh(maxSegment), ops), r)
  {
    var cs := Closings(Fresh(maxSegment), ops);
    AllListedClosings(maxSegment, ops);
    SavedAre(cs);
    if k :| r in ClosedIn(Saved(cs), k) {
      InClosedIn(Saved(cs), k, r);
    }
    if c :| c in cs && Kept(c) && r in ReadFile(c.file).recs {
      InClosedIn(Saved(cs), c.name.kind, r);
    }
  }

  /** Over every run of appends, flushes, rotations, exports, removals, retention and crashes that strands
      no segment, followed by a complete rotation and an export: the ledger, which is what was taken in
      less the dropped batches and the tails lost to crashes, is what was ever closed; and the analyzer's
      minutes are exactly those in it, each once, but for the segments that retention took before any
      export held them. */
  lemma LedgerMinutesExactly(maxSegment: int, ops: seq<UpkeepOp>, e: Exporter, segs: seq<SegmentInfo>,
      files: seq<BundleFile>, host: string, identities: set<Key>, d: Content)
    requires ReadyToExport(maxSegment, ops, segs) && StrandsNothing(maxSegment, ops)
    requires Loaded(files, ExportsAfter(maxSegment, ops, e, segs), host, identities, d)
    ensures forall k :: Ledger(AgentHistory(Fresh(maxSegment), ops), k) == ClosedIn(Closings(Fresh(maxSegment), ops), k)
    ensures StrictlyIncreasing(d.minutes)
    ensures forall t :: HasTs(d.minutes, t) <==> exists r :: MinuteAt(r, t) && InSavedLedger(maxSegment, ops, r)
  {
    forall k ensures Ledger(AgentHistory(Fresh(maxSegment), ops), k) == ClosedIn(Closings(Fresh(maxSegment), ops), k) {
      LedgerIsClosed(maxSegment, ops, k);
    }
    ShownExactly(maxSegment, ops, e, segs, files, host, identities, d);
    forall r ensures InSavedLedger(maxSegment, ops, r) <==> InKept(Closings(Fresh(maxSegment), ops), r) {
      SavedIsKept(maxSegment, ops, r);
    }
  }

  lemma SavedIsLedger(maxSegment: int, ops: seq<UpkeepOp>, r: Record)
    requires LosesNothing(maxSegment, ops) && Rotated(RunUpkeep(Fresh(maxSegment), ops))
    ensures InSavedLedger(maxSegment, ops, r) <==> InLedger(maxSegment, ops, r)
  {
    var cs := Closings(Fresh(maxSegment), ops);
    NothingLost(maxSegment, ops);
    SavedAre(cs);
    forall k ensures Ledger(AgentHistory(Fresh(maxSegment), ops), k) == ClosedIn(Saved(cs), k) {
      LedgerIsClosed(maxSegment, ops, k);
    }
  }

  /** If retention takes nothing before an export holds it, the analyzer's minutes are exactly those
      taken in, less the dropped batches and the tails lost to crashes, each once. */
  lemma LedgerMinutesOnce(maxSegment: int, ops: seq<UpkeepOp>, e: Exporter, segs: seq<SegmentInfo>,
      files: seq<BundleFile>, host: string, identities: set<Key>, d: Content)
    requires ReadyToExport(maxSegment, ops, segs) && StrandsNothing(maxSegment, ops) && LosesNothing(maxSegment, ops)
    requires Loaded(files, ExportsAfter(maxSegment, ops, e, segs), host, identities, d)
    ensures StrictlyIncreasing(d.minutes)
    ensures forall t :: HasTs(d.minutes, t) <==> exists r :: MinuteAt(r, t) && InLedger(maxSegment, ops, r)
  {
    LedgerMinutesExactly(maxSegment, ops, e, segs, files, host, identities, d);
    forall r ensures InSavedLedger(maxSegment, ops, r) <==> InLedger(maxSegment, ops, r) {
      SavedIsLedger(maxSegment, ops, r);
    }
  }
}
