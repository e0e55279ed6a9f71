/** Listing closed segments: which sidecars are exact, and which crashes lose one. */
module SpoolListing {
  import opened Common
  import opened Records
  import opened Spool
  import opened SpoolLog
  import opened SpoolCrash

  /** The process dies between the two renames of closeFile, with a file moved and its sidecar not
      yet written. */
  predicate Strands(s: State, op: Op) {
    match op
    case DoCrash(during, p) => s.up && p.BetweenRenames? && Closes(Reached(s, during), p.k, p.io)
    case DoRecoverCrash(k, _, _) => !s.up && k in s.disk.active
    case _ => false
  }

  ghost predicate ListingOk(d: Disk) { Accurate(d) && NoStaleSidecar(d) }

  lemma CloseListing(s: State, k: Kind, sum: Summary, io: IO)
    requires k in s.disk.active && ListingOk(s.disk)
    requires sum.records == |ReadFile(s.disk.active[k]).recs|
    requires forall r :: r in ReadFile(s.disk.active[k]).recs ==> Within(r, sum.range)
    ensures ListingOk(CloseFile(s, k, sum, io).disk) && ListingOk(MoveToClosed(s, k, sum, io).disk)
    ensures forall n :: Orphan(CloseFile(s, k, sum, io).disk, n) ==> Orphan(s.disk, n)
  {
    var t, m := CloseFile(s, k, sum, io).disk, MoveToClosed(s, k, sum, io).disk;
    forall n | Listed(t, n) ensures Describes(t.sidecars[n].info, n, t.closed[n]) {
      assert Listed(s.disk, n) || n == CloseName(s.disk, k, sum, io);
    }
    forall n | Listed(m, n) ensures Describes(m.sidecars[n].info, n, m.closed[n]) {
      assert Listed(s.disk, n);
    }
  }

  lemma RotateListing(s: State, k: Kind, io: IO)
    requires Inv(s) && s.up && ListingOk(s.disk)
    ensures ListingOk(Rotate(s, k, io).disk) && ListingOk(ReachedClose(s, k, io).disk)
    ensures forall n :: Orphan(Rotate(s, k, io).disk, n) ==> Orphan(s.disk, n)
  {
    if Closes(s, k, io) {
      assert ActiveOk(s, k, AUTO_FLUSH_RECORDS - 1);
      DetachedFile(s, k, io, AUTO_FLUSH_RECORDS - 1);
      CloseListing(Detached(s, k, io), k, SegSummary(s.active[k]), io);
    }
  }

  /** A closed segment gets the least number that is not in use for its kind and date. */
  lemma NameIsLeast(d: Disk, k: Kind, sum: Summary, io: IO)
    ensures var name := CloseName(d, k, sum, io);
            name !in d.closed && forall q: nat :: q < name.num ==> SegName(k, name.date, q) in d.closed
  {
  }

  /** A new sidecar says whether its segment was closed by rotation or put together again by recovery. */
  lemma RecoveredIsMarked(s: State, k: Kind, io: IO)
    ensures var t := Rotate(s, k, io).disk;
            forall n :: n in t.sidecars && n !in s.disk.sidecars ==> !t.sidecars[n].info.recovered
    ensures var t := Recover(s, k, io).disk;
            forall n :: n in t.sidecars && n !in s.disk.sidecars ==> t.sidecars[n].info.recovered
  {
  }

  lemma PushListing(s: State, k: Kind, r: Record, rot: IO)
    requires Inv(s) && s.up && ListingOk(s.disk)
    ensures ListingOk(Push(s, k, r, rot).disk)
    ensures forall n :: Orphan(Push(s, k, r, rot).disk, n) ==> Orphan(s.disk, n)
  {
    RotateListing(s, k, rot);
  }

  lemma LastWritesListing(s: State, p: CrashPoint)
    requires InvUpTo(s, AUTO_FLUSH_RECORDS) && s.up && ListingOk(s.disk)
    ensures ListingOk(LastWrites(s, p).disk)
    ensures !(p.BetweenRenames? && Closes(s, p.k, p.io)) ==> forall n :: Orphan(LastWrites(s, p).disk, n) ==> Orphan(s.disk, n)
  {
    var t := LastWrites(s, p).disk;
    if p.BetweenRenames? {
      if Closes(s, p.k, p.io) {
        assert ActiveOk(s, p.k, AUTO_FLUSH_RECORDS);
        DetachedFile(s, p.k, p.io, AUTO_FLUSH_RECORDS);
        CloseListing(Detached(s, p.k, p.io), p.k, SegSummary(s.active[p.k]), p.io);
      }
      var m := ReachedClose(s, p.k, p.io).disk;
      forall n | Listed(t, n) ensures Describes(t.sidecars[n].info, n, t.closed[n]) {
        assert Listed(m, n);
      }
    } else {
      forall n | Listed(t, n) ensures Describes(t.sidecars[n].info, n, t.closed[n]) {
        assert Listed(s.disk, n);
      }
    }
  }

  lemma RecoverListing(s: State, k: Kind, io: IO, litter: nat)
    requires Inv(s) && !s.up && ListingOk(s.disk)
    ensures ListingOk(Recover(s, k, io).disk) && ListingOk(RecoverCrash(s, k, io, litter).disk)
    ensures forall n :: Orphan(Recover(s, k, io).disk, n) ==> Orphan(s.disk, n)
    ensures k !in s.disk.active ==> RecoverCrash(s, k, io, litter) == s
  {
    if k in s.disk.active {
      var sum := RecoverySummary(s.disk.active[k]);
      var recs := ReadFile(s.disk.active[k]).recs;
      forall r | r in recs ensures r.ts != ZERO_TIME {
        assert LeftOverOk(s.disk.active[k]);
      }
      RangeBrackets(recs);
      CloseListing(s, k, sum, io);
      var m, t := MoveToClosed(s, k, sum, io).disk, RecoverCrash(s, k, io, litter).disk;
      forall n | Listed(t, n) ensures Describes(t.sidecars[n].info, n, t.closed[n]) {
        assert Listed(m, n);
      }
    }
  }

  lemma AppendListing(s: State, k: Kind, input: Option<Record>, rot: IO, io: IO)
    requires Inv(s) && s.up && ListingOk(s.disk)
    ensures ListingOk(Append(s, k, input, rot, io).state.disk)
    ensures forall n :: Orphan(Append(s, k, input, rot, io).state.disk, n) ==> Orphan(s.disk, n)
  {
    if input.Some? && input.value.ts != ZERO_TIME && !Refuses(s, k, input.value, rot) {
      PushListing(s, k, input.value, rot);
      PushInv(s, k, input.value, rot);
      AutoFlushListing(Push(s, k, input.value, rot), k, io);
    }
  }

  lemma AutoFlushListing(s: State, k: Kind, io: IO)
    requires k in s.active && ListingOk(s.disk)
    ensures ListingOk(AutoFlush(s, k, io).state.disk)
    ensures forall n :: Orphan(AutoFlush(s, k, io).state.disk, n) ==> Orphan(s.disk, n)
  {
    SameListing(s.disk, AutoFlush(s, k, io).state.disk);
  }

  lemma CrashListing(s: State, during: Option<InFlight>, p: CrashPoint)
    requires Inv(s) && s.up && ListingOk(s.disk)
    ensures ListingOk(Crash(s, during, p).disk)
    ensures !Strands(s, DoCrash(during, p)) ==> forall n :: Orphan(Crash(s, during, p).disk, n) ==> Orphan(s.disk, n)
  {
    ReachedInv(s, during);
    if during.Some? { PushListing(s, during.value.k, during.value.r, during.value.rot); }
    LastWritesListing(Reached(s, during), p);
  }

  /** One step: every sidecar that is listed keeps describing its file exactly, and only a death
      between the two renames makes a closed segment unlisted. */
  lemma StepListing(s: State, op: Op)
    requires Inv(s) && ListingOk(s.disk)
    ensures ListingOk(Apply(s, op).disk)
    ensures !Strands(s, op) ==> forall n :: Orphan(Apply(s, op).disk, n) ==> Orphan(s.disk, n)
  {
    if Enabled(s, op) {
      match op
      case DoAppend(k, input, rot, io) => AppendListing(s, k, input, rot, io);
      case DoCrash(during, p) => CrashListing(s, during, p);
      case DoFlush(k, io) => SameListing(s.disk, Apply(s, op).disk);
      case DoRotate(k, io) => RotateListing(s, k, io);
      case DoRecover(k, io) => RecoverListing(s, k, io, 0);
      case DoRecoverCrash(k, io, litter) => RecoverListing(s, k, io, litter);
      case DoStart => SameListing(s.disk, Apply(s, op).disk);
    }
  }

  lemma SameListing(d: Disk, e: Disk)
    requires d.closed == e.closed && d.sidecars == e.sidecars && ListingOk(d)
    ensures ListingOk(e) && forall n :: Orphan(e, n) ==> Orphan(d, n)
  {
    forall n | Listed(e, n) ensures Describes(e.sidecars[n].info, n, e.closed[n]) {
      assert Listed(d, n);
    }
  }

  /** Nothing but removal touches a closed segment, its sidecar or the order of closing. */
  ghost predicate ClosedKept(d: Disk, e: Disk) {
    forall n :: n in d.closed ==>
      && n in e.closed && e.closed[n] == d.closed[n]
      && (n in d.sidecars <==> n in e.sidecars)
      && (n in d.sidecars ==> e.sidecars[n] == d.sidecars[n])
  }

  lemma RotateClosedKept(s: State, k: Kind, io: IO)
    ensures ClosedKept(s.disk, Rotate(s, k, io).disk) && ClosedKept(s.disk, ReachedClose(s, k, io).disk)
    ensures s.order <= Rotate(s, k, io).order && s.order <= ReachedClose(s, k, io).order
  {
    assert Detached(s, k, io).disk.closed == s.disk.closed && Detached(s, k, io).disk.sidecars == s.disk.sidecars;
    if Closes(s, k, io) {
      CloseClosedKept(Detached(s, k, io), k, SegSummary(s.active[k]), io);
    }
  }

  lemma CloseClosedKept(s: State, k: Kind, sum: Summary, io: IO)
    requires k in s.disk.active
    ensures ClosedKept(s.disk, CloseFile(s, k, sum, io).disk) && ClosedKept(s.disk, MoveToClosed(s, k, sum, io).disk)
  {
  }

  lemma PushClosedKept(s: State, during: Option<InFlight>)
    ensures ClosedKept(s.disk, Reached(s, during).disk) && s.order <= Reached(s, during).order
  {
    if during.Some? { RotateClosedKept(s, during.value.k, during.value.rot); }
  }

  lemma AppendClosedKept(s: State, k: Kind, r: Record, rot: IO, io: IO)
    ensures ClosedKept(s.disk, Append(s, k, Some(r), rot, io).state.disk)
    ensures s.order <= Append(s, k, Some(r), rot, io).state.order
  {
    if r.ts != ZERO_TIME && !Refuses(s, k, r, rot) {
      PushClosedKept(s, Some(InFlight(k, r, rot)));
      var pushed := Push(s, k, r, rot);
      var t := AutoFlush(pushed, k, io).state;
      assert t.disk.closed == pushed.disk.closed && t.disk.sidecars == pushed.disk.sidecars && t.order == pushed.order;
    }
  }

  lemma LastWritesClosedKept(s: State, p: CrashPoint)
    ensures ClosedKept(s.disk, LastWrites(s, p).disk) && s.order <= LastWrites(s, p).order
  {
    if p.BetweenRenames? { RotateClosedKept(s, p.k, p.io); }
  }

  lemma StepClosedKept(s: State, op: Op)
    ensures ClosedKept(s.disk, Apply(s, op).disk) && s.order <= Apply(s, op).order
  {
    match op {
      case DoAppend(k, input, rot, io) =>
        if input.Some? { AppendClosedKept(s, k, input.value, rot, io); }
      case DoCrash(during, p) =>
        PushClosedKept(s, during);
        LastWritesClosedKept(Reached(s, during), p);
      case DoRotate(k, io) => RotateClosedKept(s, k, io);
      case _ =>
    }
  }

  /** A segment that lost its sidecar to a crash is never listed, whatever happens later. */
  lemma {:induction false} RunClosedKept(s: State, ops: seq<Op>)
    ensures ClosedKept(s.disk, Run(s, ops).disk)
    ensures forall n :: Orphan(s.disk, n) ==> Orphan(Run(s, ops).disk, n)
    ensures forall n :: Listed(s.disk, n) ==> Listed(Run(s, ops).disk, n)
  {
    if ops != [] {
      RunClosedKept(s, ops[..|ops| - 1]);
      StepClosedKept(Run(s, ops[..|ops| - 1]), ops[|ops| - 1]);
    }
  }

  // ---- which runs list all they closed ----------------------------------------------------

  /** No closed segment is without its sidecar. */
  ghost predicate AllListed(d: Disk) { forall n :: !Orphan(d, n) }

  /** A file that is moved under a fresh name has no sidecar. */
  lemma MoveStrands(s: State, k: Kind, sum: Summary, io: IO)
    requires k in s.disk.active && NoStaleSidecar(s.disk)
    ensures Orphan(MoveToClosed(s, k, sum, io).disk, CloseName(s.disk, k, sum, io))
  {
  }

  lemma StrandedCrash(s: State, during: Option<InFlight>, p: CrashPoint)
    requires Inv(s) && ListingOk(s.disk) && Strands(s, DoCrash(during, p))
    ensures !AllListed(Crash(s, during, p).disk)
  {
    if during.Some? { PushListing(s, during.value.k, during.value.r, during.value.rot); }
    var reached := Reached(s, during);
    var gone := Detached(reached, p.k, p.io);
    MoveStrands(gone, p.k, SegSummary(reached.active[p.k]), p.io);
    assert Orphan(Crash(s, during, p).disk, CloseName(gone.disk, p.k, SegSummary(reached.active[p.k]), p.io));
  }

  /** Such a death always leaves a segment that no listing shows. */
  lemma StrandsMakesOrphan(s: State, op: Op)
    requires Inv(s) && ListingOk(s.disk) && Strands(s, op)
    ensures !AllListed(Apply(s, op).disk)
  {
    if op.DoCrash? {
      StrandedCrash(s, op.during, op.p);
    } else {
      var sum := RecoverySummary(s.disk.active[op.k]);
      MoveStrands(s, op.k, sum, op.io);
      assert Orphan(Apply(s, op).disk, CloseName(s.disk, op.k, sum, op.io));
    }
  }

  lemma OrphansStay(d: Disk, e: Disk)
    requires ClosedKept(d, e)
    ensures AllListed(e) ==> AllListed(d)
  {
    forall n ensures Orphan(d, n) ==> Orphan(e, n) {
    }
  }

  lemma StepAllListed(s: State, op: Op)
    requires Inv(s) && ListingOk(s.disk)
    ensures ListingOk(Apply(s, op).disk)
    ensures AllListed(Apply(s, op).disk) <==> AllListed(s.disk) && !Strands(s, op)
  {
    StepListing(s, op);
    StepClosedKept(s, op);
    OrphansStay(s.disk, Apply(s, op).disk);
    if Strands(s, op) { StrandsMakesOrphan(s, op); }
  }

  /** Step `i` of the run strands a segment. */
  predicate StrandsAt(s: State, ops: seq<Op>, i: nat)
    requires i < |ops|
  {
    Strands(Run(s, ops[..i]), ops[i])
  }

  ghost predicate NeverStrands(s: State, ops: seq<Op>) { forall i: nat :: i < |ops| ==> !StrandsAt(s, ops, i) }

  lemma NeverStrandsSnoc(s: State, ops: seq<Op>)
    requires ops != []
    ensures NeverStrands(s, ops) <==> NeverStrands(s, ops[..|ops| - 1]) && !StrandsAt(s, ops, |ops| - 1)
  {
    var init := ops[..|ops| - 1];
    forall i: nat | i < |init| ensures StrandsAt(s, init, i) == StrandsAt(s, ops, i) {
      assert init[..i] == ops[..i];
    }
  }

  lemma NextAllListed(s0: State, ops: seq<Op>)
    requires ops != []
    requires var s := Run(s0, ops[..|ops| - 1]); Inv(s) && ListingOk(s.disk)
    ensures ListingOk(Run(s0, ops).disk)
    ensures AllListed(Run(s0, ops).disk)
       <==> AllListed(Run(s0, ops[..|ops| - 1]).disk) && !StrandsAt(s0, ops, |ops| - 1)
  {
    StepAllListed(Run(s0, ops[..|ops| - 1]), ops[|ops| - 1]);
  }

  lemma {:induction false} ListingFrom(s0: State, ops: seq<Op>)
    requires Inv(s0) && ListingOk(s0.disk) && AllListed(s0.disk)
    ensures Inv(Run(s0, ops)) && ListingOk(Run(s0, ops).disk)
    ensures AllListed(Run(s0, ops).disk) <==> NeverStrands(s0, ops)
  {
    if ops != [] {
      ListingFrom(s0, ops[..|ops| - 1]);
      NextAllListed(s0, ops);
      StepInv(Run(s0, ops[..|ops| - 1]), ops[|ops| - 1]);
      NeverStrandsSnoc(s0, ops);
    }
  }

  /** Over every run the listed sidecars are exact; and a run lists every segment it ever closed if
      and only if no step dies between the two renames with a file moved. */
  lemma RunListing(maxSegment: int, ops: seq<Op>)
    ensures ListingOk(Run(EmptySpool(maxSegment), ops).disk)
    ensures AllListed(Run(EmptySpool(maxSegment), ops).disk) <==> NeverStrands(EmptySpool(maxSegment), ops)
  {
    ListingFrom(EmptySpool(maxSegment), ops);
  }
}
