/** The store itself (internal/store/store.go): the object whose methods update the open segments
    in place, proved against the spool state machine. */
module Store {
  import opened Common
  import opened Records
  import opened Spool
  import opened SpoolLog
  import opened SpoolCrash
  import R = Retention

  /** activeSeg. */
  class Segment {
    var date: int
    var buf: seq<Record>
    var records: int
    var minTs: Time
    var maxTs: Time
    var size: nat
    var rawBuffered: nat

    constructor (date: int)
      ensures View() == ActiveSeg(date, [], 0, Bounds(ZERO_TIME, ZERO_TIME), 0, 0)
    {
      this.date := date;
      buf, records, minTs, maxTs, size, rawBuffered := [], 0, ZERO_TIME, ZERO_TIME, 0, 0;
    }

    ghost function View(): ActiveSeg
      reads this
    {
      ActiveSeg(date, buf, records, Bounds(minTs, maxTs), size, rawBuffered)
    }

    method Add(r: Record)
      modifies this
      ensures View() == ActiveSeg(old(date), old(buf) + [r], old(records) + 1,
                                  Widen(old(View()).range, r.ts), old(size), old(rawBuffered) + r.bytes)
    {
      buf := buf + [r];
      rawBuffered := rawBuffered + r.bytes;
      records := records + 1;
      if minTs == ZERO_TIME || r.ts < minTs {
        minTs := r.ts;
      }
      if r.ts > maxTs {
        maxTs := r.ts;
      }
    }

    method DropBatch()
      modifies this
      ensures View() == ActiveSeg(old(date), [], old(records) - |old(buf)|, old(View()).range, old(size), old(rawBuffered))
    {
      records := records - |buf|;
      buf := [];
    }
  }

  /** ListClosed, without the order of its result. */
  method ListClosed(disk: Disk) returns (segs: seq<SegmentInfo>)
    requires NamesOk(disk)
    ensures IsListing(disk, segs)
  {
    segs := [];
    var rest := disk.sidecars.Keys;
    while rest != {}
      invariant rest <= disk.sidecars.Keys
      invariant forall i, j :: 0 <= i < j < |segs| ==> segs[i].name != segs[j].name
      invariant forall i :: 0 <= i < |segs| ==>
                  segs[i].name !in rest && Listed(disk, segs[i].name) && segs[i] == disk.sidecars[segs[i].name].info
      invariant forall n :: Listed(disk, n) && n !in rest ==> exists i :: 0 <= i < |segs| && segs[i].name == n
    {
      var n :| n in rest;
      rest := rest - {n};
      var info := disk.sidecars[n].info;
      if info.name in disk.closed {
        ghost var before := segs;
        segs := segs + [info];
        assert segs[|before|].name == n;
        forall m | Listed(disk, m) && m !in rest ensures exists i :: 0 <= i < |segs| && segs[i].name == m {
          if m != n {
            var i :| 0 <= i < |before| && before[i].name == m;
            assert segs[i].name == m;
          }
        }
      }
    }
  }

  class Store {
    const maxSegment: int
    var disk: Disk
    var active: map<Kind, Segment>
    var dropped: nat
    ghost var order: seq<SegName>
    ghost var up: bool

    ghost function Segments(): set<Segment>
      reads this
    {
      set k | k in active :: active[k]
    }

    /** Each kind has its own open segment. */
    ghost predicate Valid()
      reads this
    {
      forall j, k :: j in active && k in active && j != k ==> active[j] != active[k]
    }

    ghost function View(): State
      reads this, Segments()
    {
      State(disk, order, map k | k in active :: active[k].View(), dropped, up, maxSegment)
    }

    /** Open: whatever an earlier process left in active/ is closed, in any order. */
    constructor Open(disk: Disk, ghost order: seq<SegName>, maxSegment: int, io: Kind -> IO)
      ensures Valid() && fresh(Segments())
      ensures exists visited: seq<Kind> ::
                View() == Apply(Run(State(disk, order, map[], 0, false, maxSegment), RecoverOps(visited, io)), DoStart)
      ensures up && this.disk.active == map[]
    {
      this.maxSegment := maxSegment;
      this.disk, this.order := disk, order;
      active, dropped, up := map[], 0, false;
      new;
      ghost var visited := Recover(io);
      ghost var down := View();
      up := true;
      assert View() == Apply(down, DoStart);
    }

    method Recover(io: Kind -> IO) returns (ghost visited: seq<Kind>)
      requires Valid() && !up && active == map[]
      modifies this`disk, this`order
      ensures View() == Run(old(View()), RecoverOps(visited, io))
      ensures disk.active == map[]
    {
      visited := [];
      while disk.active != map[]
        invariant !up && active == map[] && View() == Run(old(View()), RecoverOps(visited, io))
        decreases disk.active.Keys
      {
        var k :| k in disk.active;
        var range := RangeOfFile(disk.active[k]);
        var recs, _ := ReadSegment(disk.active[k]);
        CloseFile(k, Summary(|recs|, range, true), io(k));
        RunSnoc(old(View()), RecoverOps(visited, io), DoRecover(k, io(k)));
        visited := visited + [k];
        assert visited[..|visited| - 1] + [k] == visited;
      }
    }

    /** The time range that recover rebuilds from the complete records of a file. */
    static method RangeOfFile(f: File) returns (range: Bounds)
      ensures range == RangeOf(ReadFile(f).recs)
    {
      var recs, _ := ReadSegment(f);
      var minTs, maxTs := ZERO_TIME, ZERO_TIME;
      for i := 0 to |recs|
        invariant Bounds(minTs, maxTs) == RangeOf(recs[..i])
      {
        assert recs[..i + 1][..i] == recs[..i];
        if minTs == ZERO_TIME || recs[i].ts < minTs {
          minTs := recs[i].ts;
        }
        if recs[i].ts > maxTs {
          maxTs := recs[i].ts;
        }
      }
      assert recs[..|recs|] == recs;
      range := Bounds(minTs, maxTs);
    }

    /** closeFile: the first unused sequence number, then the two renames. */
    method CloseFile(kind: Kind, sum: Summary, io: IO)
      requires kind in disk.active
      modifies this`disk, this`order
      ensures View() == Spool.CloseFile(old(View()), kind, sum, io)
    {
      var date := if sum.range.minTs == ZERO_TIME then io.today else DateOf(sum.range.minTs);
      var num := 0;
      ghost var rest := disk.closed.Keys;
      while SegName(kind, date, num) in disk.closed
        invariant rest <= disk.closed.Keys
        invariant forall q: nat :: SegName(kind, date, q) in disk.closed && q >= num ==> SegName(kind, date, q) in rest
        invariant FirstFree(disk.closed.Keys, kind, date, 0) == FirstFree(rest, kind, date, num)
        decreases rest
      {
        rest := rest - {SegName(kind, date, num)};
        num := num + 1;
      }
      var name, file := SegName(kind, date, num), disk.active[kind];
      disk := disk.(active := disk.active - {kind}, closed := disk.closed[name := file]);
      order := order + [name];
      disk := disk.(sidecars := disk.sidecars[name := SidecarFor(name, file, sum, io)]);
    }

    /** flushLocked. */
    method FlushLocked(kind: Kind, io: IO) returns (ok: bool)
      requires Valid()
      modifies this`disk, Segments()
      ensures Valid() && active == old(active)
      ensures View() == Spool.Flush(old(View()), kind, io)
      ensures ok == !FlushFails(old(View()), kind, io)
    {
      if kind !in active || active[kind].buf == [] {
        return true;
      }
      if !io.writeOk {
        return false;
      }
      var a := active[kind];
      var file := ActiveFile(disk, kind) + [Complete(a.buf, io.memberBytes)];
      disk := disk.(active := disk.active[kind := file]);
      a.size := a.size + io.memberBytes;
      a.buf := [];
      a.rawBuffered := 0;
      return true;
    }

    /** rotateLocked. */
    method RotateLocked(kind: Kind, io: IO) returns (ok: bool)
      requires Valid() && up
      requires kind in active ==> ActiveOk(View(), kind, AUTO_FLUSH_RECORDS - 1)
      modifies this`disk, this`order, this`active, Segments()
      ensures Valid() && active == if ok then old(active) - {kind} else old(active)
      ensures View() == Spool.Rotate(old(View()), kind, io)
      ensures ok == !FlushFails(old(View()), kind, io)
    {
      if kind !in active {
        return true;
      }
      ghost var before := View();
      ok := FlushLocked(kind, io);
      if !ok {
        return;
      }
      RotatesAs(before, kind, io);
      var a := Detach(kind);
      Settle(kind, a, io);
    }

    /** The end of a rotation: nothing was ever kept, or the file is closed. */
    method Settle(kind: Kind, a: Segment, io: IO)
      requires a.records != 0 ==> kind in disk.active
      modifies this`disk, this`order
      ensures View() == Settled(old(View()), kind, a.View(), io)
    {
      if a.records == 0 {
        disk := disk.(active := disk.active - {kind});
      } else {
        CloseFile(kind, Summary(a.records, Bounds(a.minTs, a.maxTs), false), io);
      }
    }

    static ghost function Settled(s: State, kind: Kind, a: ActiveSeg, io: IO): State {
      if a.records == 0 then s.(disk := s.disk.(active := s.disk.active - {kind}))
      else if kind in s.disk.active then Spool.CloseFile(s, kind, SegSummary(a), io)
      else s
    }

    method Detach(kind: Kind) returns (a: Segment)
      requires Valid() && kind in active
      modifies this`active
      ensures a == old(active[kind]) && active == old(active) - {kind} && Valid()
      ensures View() == old(View()).(active := old(View()).active - {kind})
    {
      a := active[kind];
      active := active - {kind};
    }

    static lemma RotatesAs(s: State, kind: Kind, io: IO)
      requires kind in s.active && ActiveOk(s, kind, AUTO_FLUSH_RECORDS - 1) && !FlushFails(s, kind, io)
      ensures var flushed := Spool.Flush(s, kind, io);
              var gone := flushed.(active := flushed.active - {kind});
              && (flushed.active[kind].records != 0 ==> kind in gone.disk.active)
              && Spool.Rotate(s, kind, io) == Settled(gone, kind, flushed.active[kind], io)
    {
      RecordsMeanFile(s, kind, io);
      assert Spool.Flush(s, kind, io).active - {kind} == s.active - {kind};
    }

    /** Append up to and including the buffering. */
    method PushLocked(kind: Kind, r: Record, rot: IO) returns (ok: bool)
      requires Valid() && up && r.ts != ZERO_TIME
      requires kind in active ==> ActiveOk(View(), kind, AUTO_FLUSH_RECORDS - 1)
      modifies this`disk, this`order, this`active, Segments()
      ensures Valid() && fresh(Segments() - old(Segments()))
      ensures View() == Spool.Push(old(View()), kind, r, rot)
      ensures ok == !Refuses(old(View()), kind, r, rot) && (ok ==> kind in active)
    {
      var date := DateOf(r.ts);
      if kind in active && (active[kind].date != date || active[kind].size + active[kind].rawBuffered > maxSegment) {
        ok := RotateLocked(kind, rot);
        if !ok {
          return;
        }
      }
      BufferLocked(kind, r);
      ok := true;
    }

    method BufferLocked(kind: Kind, r: Record)
      requires Valid()
      modifies this`active, Segments()
      ensures Valid() && fresh(Segments() - old(Segments())) && kind in active
      ensures View() == Spool.Buffer(old(View()), kind, r)
    {
      if kind !in active {
        OpenSegment(kind, DateOf(r.ts));
      }
      AddToSegment(kind, r);
    }

    method AddToSegment(kind: Kind, r: Record)
      requires Valid() && kind in active
      modifies active[kind]
      ensures View() == Spool.Buffer(old(View()), kind, r)
    {
      ghost var before := View().active;
      active[kind].Add(r);
      OnlyChanged(before, kind);
    }

    method OpenSegment(kind: Kind, date: int)
      requires Valid() && kind !in active
      modifies this`active
      ensures Valid() && kind in active && fresh(active[kind]) && active == old(active)[kind := active[kind]]
      ensures View() == old(View()).(active := old(View()).active[kind := ActiveSeg(date, [], 0, Bounds(ZERO_TIME, ZERO_TIME), 0, 0)])
    {
      ghost var before := View().active;
      var a := new Segment(date);
      active := active[kind := a];
      OnlyChanged(before, kind);
    }

    /** Only the segment of one kind has changed. */
    lemma OnlyChanged(before: map<Kind, ActiveSeg>, kind: Kind)
      requires kind in active && active.Keys == before.Keys + {kind}
      requires forall k :: k in active && k != kind ==> active[k].View() == before[k]
      ensures View().active == before[kind := active[kind].View()]
    {
      Patched(before, View().active, kind);
    }

    /** The end of Append: a full buffer is flushed; if the disk refuses, the batch is dropped and counted. */
    method AutoFlushLocked(kind: Kind, io: IO) returns (outcome: Outcome)
      requires Valid() && kind in active
      modifies this`disk, this`dropped, Segments()
      ensures Valid() && active == old(active)
      ensures Spool.Appended(View(), outcome) == Spool.AutoFlush(old(View()), kind, io)
    {
      AutoFlushIs(View(), kind, io);
      ghost var before := View();
      assert before.active[kind].buf == active[kind].buf;
      if |active[kind].buf| < AUTO_FLUSH_RECORDS {
        return Taken;
      }
      var ok := FlushLocked(kind, io);
      if ok {
        return Taken;
      }
      var n := DropBuffer(kind);
      outcome := BatchDropped(n);
    }

    /** The batch is dropped and counted. */
    method DropBuffer(kind: Kind) returns (n: nat)
      requires Valid() && kind in active
      modifies this`dropped, active[kind]
      ensures Valid() && active == old(active) && n == |old(active[kind].buf)|
      ensures View() == Dropped(old(View()), kind)
    {
      ghost var before := View().active;
      n := |active[kind].buf|;
      dropped := dropped + n;
      active[kind].DropBatch();
      OnlyChanged(before, kind);
    }

    static ghost function Dropped(s: State, kind: Kind): State
      requires kind in s.active
    {
      var a := s.active[kind];
      s.(dropped := s.dropped + |a.buf|, active := s.active[kind := a.(records := a.records - |a.buf|, buf := [])])
    }

    static lemma AutoFlushIs(s: State, kind: Kind, io: IO)
      requires kind in s.active
      ensures Spool.AutoFlush(s, kind, io) ==
              if |s.active[kind].buf| < AUTO_FLUSH_RECORDS then Spool.Appended(s, Taken)
              else if !FlushFails(s, kind, io) then Spool.Appended(Spool.Flush(s, kind, io), Taken)
              else Spool.Appended(Dropped(Spool.Flush(s, kind, io), kind), BatchDropped(|s.active[kind].buf|))
    {
    }

    method Append(kind: Kind, input: Option<Record>, rot: IO, io: IO) returns (outcome: Outcome)
      requires Valid() && up && Inv(View())
      modifies this`disk, this`order, this`active, this`dropped, Segments()
      ensures Valid() && fresh(Segments() - old(Segments())) && Inv(View())
      ensures Spool.Appended(View(), outcome) == Spool.Append(old(View()), kind, input, rot, io)
    {
      AppendInv(View(), kind, input, rot, io);
      if input.None? || input.value.ts == ZERO_TIME {
        return Rejected;
      }
      assert kind in View().active ==> ActiveOk(View(), kind, AUTO_FLUSH_RECORDS - 1);
      var ok := PushLocked(kind, input.value, rot);
      if !ok {
        return Refused;
      }
      outcome := AutoFlushLocked(kind, io);
    }

    /** Flush: every kind's buffer, in whatever order the map yields the kinds. */
    method Flush(io: Kind -> IO) returns (ok: bool, ghost visited: seq<Kind>)
      requires Valid() && up
      modifies this`disk, Segments()
      ensures Valid() && active == old(active)
      ensures View() == Run(old(View()), FlushOps(visited, io))
      ensures forall k :: k in visited <==> k in active
      ensures ok ==> forall k :: k in active ==> active[k].buf == []
    {
      ok, visited := true, [];
      var rest := active.Keys;
      while rest != {}
        invariant Valid() && active == old(active)
        invariant forall k :: k in active <==> k in rest || k in visited
        invariant View() == Run(old(View()), FlushOps(visited, io))
        invariant ok ==> forall k :: k in active && k !in rest ==> active[k].buf == []
      {
        var k :| k in rest;
        var done := FlushOne(k, io(k));
        ok := ok && done;
        RunSnoc(old(View()), FlushOps(visited, io), DoFlush(k, io(k)));
        visited := visited + [k];
        assert visited[..|visited| - 1] + [k] == visited;
        rest := rest - {k};
      }
    }

    method FlushOne(kind: Kind, io: IO) returns (ok: bool)
      requires Valid() && up && kind in active
      modifies this`disk, Segments()
      ensures Valid() && active == old(active)
      ensures View() == Apply(old(View()), DoFlush(kind, io))
      ensures ok ==> active[kind].buf == []
      ensures forall k :: k in active && old(active[k].buf) == [] ==> active[k].buf == []
    {
      ghost var before := View();
      ok := FlushLocked(kind, io);
      forall k | k in active && before.active[k].buf == [] ensures active[k].buf == [] {
        assert active[k].buf == View().active[k].buf;
      }
      assert active[kind].buf == View().active[kind].buf;
    }

    /** Rotate: every open segment is closed; a kind whose flush fails stays open. */
    method Rotate(io: Kind -> IO) returns (ok: bool, ghost visited: seq<Kind>)
      requires Valid() && up && Inv(View())
      modifies this`disk, this`order, this`active, Segments()
      ensures Valid() && Segments() <= old(Segments())
      ensures View() == Run(old(View()), RotateOps(visited, io)) && Inv(View())
      ensures forall k :: k in visited <==> k in old(active)
      ensures ok <==> active == map[]
      ensures ok ==> disk.active == map[]
    {
      ok, visited := true, [];
      var rest := active.Keys;
      ghost var start := View();
      while rest != {}
        invariant Valid() && Segments() <= old(Segments())
        invariant forall k :: k in old(active) <==> k in rest || k in visited
        invariant rest <= active.Keys && (ok ==> active.Keys == rest)
        invariant !ok ==> exists k :: k in active && k !in rest
        invariant View() == Run(start, RotateOps(visited, io))
      {
        var k :| k in rest;
        KindOk(start, RotateOps(visited, io), k);
        var done := RotateOne(k, io(k));
        ok := ok && done;
        RunSnoc(start, RotateOps(visited, io), DoRotate(k, io(k)));
        visited := visited + [k];
        assert visited[..|visited| - 1] + [k] == visited;
        rest := rest - {k};
      }
      RunInv(start, RotateOps(visited, io));
      NothingOpen(View());
    }

    method RotateOne(kind: Kind, io: IO) returns (ok: bool)
      requires Valid() && up && kind in active && ActiveOk(View(), kind, AUTO_FLUSH_RECORDS - 1)
      modifies this`disk, this`order, this`active, Segments()
      ensures Valid() && active == (if ok then old(active) - {kind} else old(active)) && Segments() <= old(Segments())
      ensures View() == Apply(old(View()), DoRotate(kind, io))
    {
      ok := RotateLocked(kind, io);
    }

    static lemma NothingOpen(s: State)
      requires Inv(s)
      ensures s.up && s.active == map[] ==> s.disk.active == map[]
    {
      if s.up && s.active == map[] {
        assert forall k :: k in s.disk.active ==> k in s.active;
      }
    }

    static lemma KindOk(s: State, ops: seq<Op>, k: Kind)
      requires Inv(s)
      ensures k in Run(s, ops).active ==> ActiveOk(Run(s, ops), k, AUTO_FLUSH_RECORDS - 1)
    {
      RunInv(s, ops);
    }

    /** Remove; the result is whether the segment itself was deleted. */
    method Remove(name: SegName, io: RemoveIO) returns (ok: bool)
      requires Valid()
      modifies this`disk, this`order
      ensures View() == Spool.Remove(old(View()), name, io)
      ensures ok == io.segmentOk
    {
      ok := io.segmentOk;
      if ok {
        disk := disk.(closed := disk.closed - {name});
        order := Without(order, name);
      }
      if io.sidecarOk {
        disk := disk.(sidecars := disk.sidecars - {name});
      }
    }

    method SpoolBytes() returns (total: nat)
      ensures total == R.SpoolBytes(disk)
    {
      var sizes := map k | k in disk.active :: FileBytes(disk.active[k]);
      var closed := map n | n in disk.closed :: FileBytes(disk.closed[n]);
      var sidecars := map n | n in disk.sidecars :: disk.sidecars[n].bytes;
      var a := SumOf(sizes);
      var c := SumOf(closed);
      var m := SumOf(sidecars);
      total := a + c + m + disk.litter;
    }

    static method SumOf<K(==)>(m: map<K, nat>) returns (total: nat)
      ensures total == R.MapSum(m)
    {
      total := 0;
      var rest := m;
      while rest != map[]
        invariant total + R.MapSum(rest) == R.MapSum(m)
        decreases |rest|
      {
        var k :| k in rest;
        R.MapSumWithout(rest, k);
        total := total + rest[k];
        assert rest.Keys == (rest - {k}).Keys + {k};
        rest := rest - {k};
      }
    }

    /** One iteration of EnforceRetention. */
    method Consider(seg: SegmentInfo, l: R.Limits, io: RemoveIO, deleted0: nat, bytes0: nat, total0: int)
      returns (deleted: nat, bytes: nat, total: int)
      requires Valid()
      modifies this`disk, this`order
      ensures R.Sweep(View(), deleted, bytes, total)
           == R.SweepStep(R.Sweep(old(View()), deleted0, bytes0, total0), seg, l, io)
      ensures total + bytes == total0 + bytes0
    {
      deleted, bytes, total := deleted0, bytes0, total0;
      var tooOld := l.maxAgeDays > 0 && seg.maxTs != ZERO_TIME && seg.maxTs < l.now - l.maxAgeDays * DAY;
      var overCap := l.maxBytes > 0 && total > l.maxBytes;
      if !tooOld && !overCap {
        return;
      }
      var ok := Remove(seg.name, io);
      if ok {
        deleted := deleted + 1;
        bytes := bytes + seg.sizeBytes;
        total := total - seg.sizeBytes;
      }
    }

    /** EnforceRetention. */
    method EnforceRetention(l: R.Limits, io: SegName -> RemoveIO)
      returns (deleted: nat, bytes: nat, ghost segs: seq<SegmentInfo>)
      requires Valid() && NamesOk(disk)
      modifies this`disk, this`order
      ensures IsListing(old(disk), segs)
      ensures var start := R.Start(old(View()));
              R.Sweep(View(), deleted, bytes, start.total - bytes) == R.SweepAll(start, segs, l, io)
    {
      ghost var start := R.Start(View());
      var listed := ListClosed(disk);
      segs := listed;
      var total := SpoolBytes();
      assert start == R.Sweep(View(), 0, 0, total);
      deleted, bytes := ConsiderAll(listed, l, io, total);
    }

    method ConsiderAll(listed: seq<SegmentInfo>, l: R.Limits, io: SegName -> RemoveIO, total0: nat)
      returns (deleted: nat, bytes: nat)
      requires Valid()
      modifies this`disk, this`order
      ensures R.Sweep(View(), deleted, bytes, total0 - bytes)
           == R.SweepAll(R.Sweep(old(View()), 0, 0, total0), listed, l, io)
    {
      ghost var start := R.Sweep(View(), 0, 0, total0);
      var total: int := total0;
      deleted, bytes := 0, 0;
      for i := 0 to |listed|
        invariant R.SweepAll(start, listed[..i], l, io) == R.Sweep(View(), deleted, bytes, total)
        invariant total == total0 - bytes
      {
        assert listed[..i + 1][..i] == listed[..i];
        ghost var before := R.Sweep(View(), deleted, bytes, total);
        deleted, bytes, total := Consider(listed[i], l, io(listed[i].name), deleted, bytes, total);
        assert R.Sweep(View(), deleted, bytes, total) == R.SweepStep(before, listed[i], l, io(listed[i].name));
      }
      assert listed[..|listed|] == listed;
    }
  }
}
