/** What loading gathers, bundle by bundle and segment by segment (LoadBundles in
    internal/analyzer/dataset.go). */
module LoadFigures {
  import opened Records
  import opened Bundle
  import opened Dataset

  // ---- what is gathered for a host --------------------------------------------------------

  /** The `i`-th bundle is usable and of the host. */
  ghost predicate OfHost(results: seq<ImportResult>, host: string, i: nat) {
    && i < |results| && results[i].fatal == NoFatal
    && results[i].manifest.Some? && results[i].manifest.value.hostId == host
  }

  ghost predicate InAccepted(segments: seq<SegmentResult>, r: Record) {
    exists j :: 0 <= j < |segments| && segments[j].status in {StatusOk, TruncatedRecords} && r in segments[j].records
  }

  lemma {:induction false} AcceptedExactly(segments: seq<SegmentResult>, r: Record)
    ensures r in AcceptedRecords(segments) <==> InAccepted(segments, r)
  {
    if segments != [] {
      var init := segments[..|segments| - 1];
      AcceptedExactly(init, r);
      assert forall j :: 0 <= j < |init| ==> init[j] == segments[j];
      if InAccepted(init, r) {
        var j :| 0 <= j < |init| && init[j].status in {StatusOk, TruncatedRecords} && r in init[j].records;
        assert segments[j] == init[j];
      }
    }
  }

  /** A record is gathered for a host exactly when an accepted segment of a usable bundle of the host has it. */
  lemma {:induction false} GatheredExactly(results: seq<ImportResult>, host: string, r: Record)
    ensures r in Gathered(results, host) <==> exists i: nat :: OfHost(results, host, i) && InAccepted(results[i].segments, r)
  {
    if results != [] {
      var init, n := results[..|results| - 1], |results| - 1;
      GatheredExactly(init, host, r);
      AcceptedExactly(results[n].segments, r);
      forall i: nat ensures OfHost(init, host, i) <==> i < n && OfHost(results, host, i) {
      }
      if i: nat :| OfHost(results, host, i) && InAccepted(results[i].segments, r) {
        assert i < n ==> OfHost(init, host, i);
      }
      if i: nat :| OfHost(init, host, i) && InAccepted(init[i].segments, r) {
        assert OfHost(results, host, i);
      }
      assert OfHost(results, host, n) <==> BelongsTo(results[n], host);
    }
  }

  lemma {:induction false} DamagedExactly(segments: seq<SegmentResult>, seg: SegmentResult)
    ensures seg in Damaged(segments) <==> seg in segments && seg.status != StatusOk
  {
    if segments != [] {
      assert segments == segments[..|segments| - 1] + [segments[|segments| - 1]];
      DamagedExactly(segments[..|segments| - 1], seg);
    }
  }

  /** A segment is a problem of a host exactly when a usable bundle of the host has it and it is not ok. */
  lemma {:induction false} ProblemsExactly(results: seq<ImportResult>, host: string, seg: SegmentResult)
    ensures seg in Problems(results, host)
       <==> seg.status != StatusOk && exists i: nat :: OfHost(results, host, i) && seg in results[i].segments
  {
    if results != [] {
      var init, n := results[..|results| - 1], |results| - 1;
      ProblemsExactly(init, host, seg);
      DamagedExactly(results[n].segments, seg);
      forall i: nat ensures OfHost(init, host, i) <==> i < n && OfHost(results, host, i) {
      }
      if i: nat :| OfHost(results, host, i) && seg in results[i].segments {
        assert i < n ==> OfHost(init, host, i);
      }
      if i: nat :| OfHost(init, host, i) && seg in init[i].segments {
        assert OfHost(results, host, i);
      }
      assert OfHost(results, host, n) <==> BelongsTo(results[n], host);
    }
  }

  // ---- the counters -----------------------------------------------------------------------

  function Places(results: seq<ImportResult>, p: ImportResult -> bool): set<nat> {
    set i: nat | i < |results| && p(results[i])
  }

  lemma {:induction false} CountIsSize(results: seq<ImportResult>, p: ImportResult -> bool)
    ensures Count(results, p) == |Places(results, p)|
  {
    if results != [] {
      var init, n := results[..|results| - 1], |results| - 1;
      CountIsSize(init, p);
      assert Places(results, p) == if p(results[n]) then Places(init, p) + {n} else Places(init, p);
    }
  }

  /** Some segment was not read whole and intact. */
  predicate HasDamage(r: ImportResult) { exists j :: 0 <= j < |r.segments| && r.segments[j].status != StatusOk }

  /** The counters count the bundles that are fatal, those that are not but have a damaged segment, and the
      rest. */
  lemma TallyExactly(results: seq<ImportResult>)
    ensures var t := TallyOf(results);
            && t.bundles == |results|
            && t.rejected == |set i: nat | i < |results| && results[i].fatal != NoFatal|
            && t.partial == |set i: nat | i < |results| && results[i].fatal == NoFatal && HasDamage(results[i])|
            && t.ok == |set i: nat | i < |results| && results[i].fatal == NoFatal && !HasDamage(results[i])|
  {
    CountIsSize(results, IS_OK);
    CountIsSize(results, IS_PARTIAL);
    CountIsSize(results, IS_REJECTED);
    assert forall r: ImportResult :: r in results ==> (Intact(r.segments) <==> !HasDamage(r));
    assert Places(results, IS_REJECTED) == set i: nat | i < |results| && results[i].fatal != NoFatal;
    assert Places(results, IS_PARTIAL) == set i: nat | i < |results| && results[i].fatal == NoFatal && HasDamage(results[i]);
    assert Places(results, IS_OK) == set i: nat | i < |results| && results[i].fatal == NoFatal && !HasDamage(results[i]);
  }

  /** And there is one warning for each bundle that is fatal or damaged. */
  lemma {:induction false} WarningsExactly(results: seq<ImportResult>)
    requires forall r :: r in results && r.fatal == NoFatal ==> r.manifest.Some?
    ensures |Warnings(results)| == TallyOf(results).rejected + TallyOf(results).partial
  {
    if results != [] {
      var init, last := results[..|results| - 1], results[|results| - 1];
      assert results == init + [last];
      assert forall r :: r in init ==> r in results;
      assert last in results;
      WarningsExactly(init);
    }
  }
}
