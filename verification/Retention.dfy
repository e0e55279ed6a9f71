/** Retention (internal/store/store.go, EnforceRetention): what a sweep over the listed segments
    deletes, for any order of the listing. */
module Retention {
  import opened Common
  import opened Records
  import opened Spool
  import opened SpoolLog

  // ---- byte counts ------------------------------------------------------------------------

  ghost function MapSum<K>(m: map<K, nat>): nat {
    if m == map[] then 0
    else
      var k :| k in m;
      m[k] + MapSum(m - {k})
  }

  lemma {:induction false} MapSumWithout<K>(m: map<K, nat>, k: K)
    requires k in m
    ensures MapSum(m) == m[k] + MapSum(m - {k})
    decreases |m|
  {
    var j :| j in m && MapSum(m) == m[j] + MapSum(m - {j});
    if j != k {
      MapSumWithout(m - {j}, k);
      MapSumWithout(m - {k}, j);
      assert m - {j} - {k} == m - {k} - {j};
    }
  }

  ghost function FileSizes<K>(files: map<K, File>): map<K, nat> { map k | k in files :: FileBytes(files[k]) }

  ghost function SidecarSizes(sidecars: map<SegName, Sidecar>): map<SegName, nat> {
    map k | k in sidecars :: sidecars[k].bytes
  }

  /** Everything below the spool root. */
  ghost function SpoolBytes(d: Disk): nat {
    MapSum(FileSizes(d.active)) + MapSum(FileSizes(d.closed)) + MapSum(SidecarSizes(d.sidecars)) + d.litter
  }

  lemma RemoveBytes(s: State, n: SegName)
    requires Listed(s.disk, n)
    ensures var t := Remove(s, n, RemoveIO(true, true)).disk;
            && SpoolBytes(t) + FileBytes(s.disk.closed[n]) + s.disk.sidecars[n].bytes == SpoolBytes(s.disk)
            && MapSum(FileSizes(t.closed)) + FileBytes(s.disk.closed[n]) == MapSum(FileSizes(s.disk.closed))
  {
    MapSumWithout(FileSizes(s.disk.closed), n);
    MapSumWithout(SidecarSizes(s.disk.sidecars), n);
    assert FileSizes(s.disk.closed - {n}) == FileSizes(s.disk.closed) - {n};
    assert SidecarSizes(s.disk.sidecars - {n}) == SidecarSizes(s.disk.sidecars) - {n};
  }

  // ---- the sweep --------------------------------------------------------------------------

  datatype Limits = Limits(maxBytes: int, maxAgeDays: int, now: Time)

  predicate TooOld(info: SegmentInfo, l: Limits) {
    l.maxAgeDays > 0 && info.maxTs != ZERO_TIME && info.maxTs < l.now - l.maxAgeDays * DAY
  }

  predicate OverCap(total: int, l: Limits) { l.maxBytes > 0 && total > l.maxBytes }

  /** The loop's variables: the spool, the reported counts and the accounted total. */
  datatype Sweep = Sweep(state: State, deleted: nat, bytes: nat, total: int)

  function SweepStep(w: Sweep, seg: SegmentInfo, l: Limits, io: RemoveIO): Sweep {
    if !TooOld(seg, l) && !OverCap(w.total, l) then w
    else
      var removed := Remove(w.state, seg.name, io);
      if io.segmentOk then Sweep(removed, w.deleted + 1, w.bytes + seg.sizeBytes, w.total - seg.sizeBytes)
      else w.(state := removed)
  }

  function SweepAll(w: Sweep, segs: seq<SegmentInfo>, l: Limits, io: SegName -> RemoveIO): Sweep {
    if segs == [] then w
    else
      var last := segs[|segs| - 1];
      SweepStep(SweepAll(w, segs[..|segs| - 1], l, io), last, l, io(last.name))
  }

  ghost function Start(s: State): Sweep { Sweep(s, 0, 0, SpoolBytes(s.disk)) }

  const REMOVES: SegName -> RemoveIO := (n: SegName) => RemoveIO(true, true)

  /** What holds after sweeping the first `i` listed segments, when removals succeed: which files
      are left, what the counters say, and which limits the survivors meet. */
  ghost predicate FilesSwept(s: State, segs: seq<SegmentInfo>, i: nat, t: State)
    requires i <= |segs|
  {
    var d, e := s.disk, t.disk;
    && e.active == d.active && e.litter == d.litter
    && (forall n :: n in e.closed ==> n in d.closed && e.closed[n] == d.closed[n])
    && (forall n :: Listed(e, n) ==> Listed(d, n) && e.sidecars[n] == d.sidecars[n])
    && (forall n :: Orphan(d, n) <==> Orphan(e, n))
    && (forall j :: i <= j < |segs| ==> Listed(e, segs[j].name))
  }

  ghost predicate BytesSwept(s: State, w: Sweep) {
    var d, e := s.disk, w.state.disk;
    && SpoolBytes(e) <= w.total && w.total + w.bytes == SpoolBytes(d)
    && MapSum(FileSizes(e.closed)) + w.bytes == MapSum(FileSizes(d.closed))
    && |e.closed| + w.deleted == |d.closed|
  }

  ghost predicate LimitsSwept(segs: seq<SegmentInfo>, i: nat, l: Limits, w: Sweep)
    requires i <= |segs|
  {
    forall j :: 0 <= j < i && Listed(w.state.disk, segs[j].name) ==> !TooOld(segs[j], l) && !OverCap(w.total, l)
  }

  ghost predicate SweptTo(s: State, segs: seq<SegmentInfo>, i: nat, l: Limits, w: Sweep)
    requires i <= |segs|
  {
    FilesSwept(s, segs, i, w.state) && BytesSwept(s, w) && LimitsSwept(segs, i, l, w)
  }

  lemma {:induction false} SweepReaches(s: State, segs: seq<SegmentInfo>, i: nat, l: Limits)
    requires i <= |segs| && IsListing(s.disk, segs) && Accurate(s.disk)
    ensures SweptTo(s, segs, i, l, SweepAll(Start(s), segs[..i], l, REMOVES))
  {
    if i > 0 {
      var j := i - 1;
      SweepReaches(s, segs, j, l);
      SweepStepKeeps(s, segs, j, l, SweepAll(Start(s), segs[..j], l, REMOVES));
      SweepPrefix(Start(s), segs, l, j);
      assert j + 1 == i;
    } else {
      assert SweepAll(Start(s), segs[..0], l, REMOVES) == Start(s);
      NothingSwept(s, segs, l);
    }
  }

  lemma NothingSwept(s: State, segs: seq<SegmentInfo>, l: Limits)
    requires IsListing(s.disk, segs)
    ensures SweptTo(s, segs, 0, l, Start(s))
  {
  }

  lemma RemoveKeepsFiles(s: State, segs: seq<SegmentInfo>, i: nat, t: State)
    requires i < |segs| && IsListing(s.disk, segs) && FilesSwept(s, segs, i, t)
    ensures FilesSwept(s, segs, i + 1, Remove(t, segs[i].name, RemoveIO(true, true)))
  {
    var v := Remove(t, segs[i].name, RemoveIO(true, true));
    assert Listed(t.disk, segs[i].name);
    forall n ensures Orphan(v.disk, n) <==> Orphan(t.disk, n) {
    }
    forall n | Listed(v.disk, n) ensures Listed(t.disk, n) && v.disk.sidecars[n] == t.disk.sidecars[n] {
    }
  }

  lemma RemoveKeepsBytes(s: State, w: Sweep, seg: SegmentInfo, l: Limits)
    requires Listed(w.state.disk, seg.name) && BytesSwept(s, w)
    requires seg.sizeBytes == FileBytes(w.state.disk.closed[seg.name])
    ensures BytesSwept(s, SweepStep(w, seg, l, RemoveIO(true, true)))
  {
    RemoveBytes(w.state, seg.name);
    assert w.state.disk.closed.Keys == (w.state.disk.closed - {seg.name}).Keys + {seg.name};
  }

  lemma FilesKept(s: State, segs: seq<SegmentInfo>, i: nat, l: Limits, w: Sweep)
    requires i < |segs| && IsListing(s.disk, segs) && FilesSwept(s, segs, i, w.state)
    ensures FilesSwept(s, segs, i + 1, SweepStep(w, segs[i], l, RemoveIO(true, true)).state)
  {
    RemoveKeepsFiles(s, segs, i, w.state);
  }

  lemma LimitsKept(segs: seq<SegmentInfo>, i: nat, l: Limits, w: Sweep)
    requires i < |segs| && LimitsSwept(segs, i, l, w)
    ensures LimitsSwept(segs, i + 1, l, SweepStep(w, segs[i], l, RemoveIO(true, true)))
  {
    var v := SweepStep(w, segs[i], l, RemoveIO(true, true));
    forall j | 0 <= j < i + 1 && Listed(v.state.disk, segs[j].name)
      ensures !TooOld(segs[j], l) && !OverCap(v.total, l)
    {
      assert Listed(w.state.disk, segs[j].name);
    }
  }

  lemma SweepStepKeeps(s: State, segs: seq<SegmentInfo>, i: nat, l: Limits, w: Sweep)
    requires i < |segs| && IsListing(s.disk, segs) && Accurate(s.disk) && SweptTo(s, segs, i, l, w)
    ensures SweptTo(s, segs, i + 1, l, SweepStep(w, segs[i], l, RemoveIO(true, true)))
  {
    assert Listed(w.state.disk, segs[i].name);
    assert Describes(segs[i], segs[i].name, s.disk.closed[segs[i].name]);
    RemoveKeepsBytes(s, w, segs[i], l);
    FilesKept(s, segs, i, l, w);
    LimitsKept(segs, i, l, w);
  }

  /** No listed segment past the age limit is left; the spool fits under the cap or nothing is listed
      any more; what is reported is what was deleted; the active files and the unlisted segments are
      untouched. */
  ghost predicate MeetsLimits(s: State, segs: seq<SegmentInfo>, l: Limits) {
    var w := SweepAll(Start(s), segs, l, REMOVES);
    var d, e := s.disk, w.state.disk;
    && (forall n :: Listed(e, n) ==> Listed(d, n) && e.closed[n] == d.closed[n] && !TooOld(d.sidecars[n].info, l))
    && (l.maxBytes > 0 ==> SpoolBytes(e) <= l.maxBytes || forall n :: !Listed(e, n))
    && MapSum(FileSizes(e.closed)) + w.bytes == MapSum(FileSizes(d.closed))
    && |e.closed| + w.deleted == |d.closed|
    && e.active == d.active && forall n :: Orphan(d, n) <==> Orphan(e, n)
  }

  /** Retention with successful removals meets its limits. */
  lemma RetentionMeetsLimits(s: State, segs: seq<SegmentInfo>, l: Limits)
    requires IsListing(s.disk, segs) && Accurate(s.disk)
    ensures MeetsLimits(s, segs, l)
  {
    assert segs[..|segs|] == segs;
    SweepReaches(s, segs, |segs|, l);
  }

  lemma SweepPrefix(w: Sweep, segs: seq<SegmentInfo>, l: Limits, i: nat)
    requires i < |segs|
    ensures SweepAll(w, segs[..i + 1], l, REMOVES)
         == SweepStep(SweepAll(w, segs[..i], l, REMOVES), segs[i], l, RemoveIO(true, true))
  {
    assert segs[..i + 1][..i] == segs[..i];
  }

  lemma {:induction false} LaterStepsSpare(w: Sweep, segs: seq<SegmentInfo>, l: Limits, i: nat, j: nat)
    requires i < j <= |segs| && forall m :: i < m < |segs| ==> segs[m].name != segs[i].name
    ensures segs[i].name in SweepAll(w, segs[..j], l, REMOVES).state.disk.closed
        <==> segs[i].name in SweepAll(w, segs[..i + 1], l, REMOVES).state.disk.closed
  {
    if i + 1 < j {
      LaterStepsSpare(w, segs, l, i, j - 1);
      SweepPrefix(w, segs, l, j - 1);
    }
  }

  lemma AtTurn(s: State, segs: seq<SegmentInfo>, l: Limits, i: nat)
    requires i < |segs| && IsListing(s.disk, segs) && Accurate(s.disk)
    ensures var w := SweepAll(Start(s), segs[..i], l, REMOVES);
            segs[i].name in w.state.disk.closed && w.total == SpoolBytes(s.disk) - w.bytes
  {
    SweepReaches(s, segs, i, l);
    assert Listed(SweepAll(Start(s), segs[..i], l, REMOVES).state.disk, segs[i].name);
  }

  lemma DecidedAtTurn(w: Sweep, segs: seq<SegmentInfo>, l: Limits, i: nat)
    requires i < |segs| && forall m :: i < m < |segs| ==> segs[m].name != segs[i].name
    requires segs[i].name in SweepAll(w, segs[..i], l, REMOVES).state.disk.closed
    ensures (segs[i].name !in SweepAll(w, segs, l, REMOVES).state.disk.closed)
         == (TooOld(segs[i], l) || OverCap(SweepAll(w, segs[..i], l, REMOVES).total, l))
  {
    var all := segs[..|segs|];
    assert all == segs;
    LaterStepsSpare(w, segs, l, i, |segs|);
    SweepPrefix(w, segs, l, i);
  }

  /** Which segments go: exactly those past the age limit and those met while the accounted total,
      which is the size of the spool less what was already deleted, is still over the cap. */
  lemma DeletedExactlyWhen(s: State, segs: seq<SegmentInfo>, l: Limits, i: nat)
    requires i < |segs| && IsListing(s.disk, segs) && Accurate(s.disk)
    ensures (segs[i].name !in SweepAll(Start(s), segs, l, REMOVES).state.disk.closed)
         == (TooOld(segs[i], l)
             || 0 < l.maxBytes < SpoolBytes(s.disk) - SweepAll(Start(s), segs[..i], l, REMOVES).bytes)
  {
    AtTurn(s, segs, l, i);
    DecidedAtTurn(Start(s), segs, l, i);
  }
}
