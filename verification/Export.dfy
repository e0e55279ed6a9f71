/** The export itself (internal/bundle/bundle.go, Export), over a live store. */
module Export {
  import opened Common
  import opened Records
  import opened Spool
  import opened SpoolLog
  import opened SpoolCrash
  import opened Bundle
  import Store

  /** What the operating system answers during one export: to the rotation, to encrypting each
      segment, to writing and renaming the bundle, and to removing each segment afterwards. */
  datatype Env = Env(rotate: Kind -> IO, encrypts: SegName -> bool, publishes: bool, remove: SegName -> RemoveIO)

  function RemoveAll(s: State, segs: seq<SegmentInfo>, io: SegName -> RemoveIO): State {
    if segs == [] then s
    else
      var last := segs[|segs| - 1].name;
      Remove(RemoveAll(s, segs[..|segs| - 1], io), last, io(last))
  }

  /** The manifest entries, ciphertexts and period of the first `i` items. */
  ghost predicate Encrypts(items: seq<Item>, e: Exporter, i: nat, metas: seq<SegmentMeta>, ciphertexts: seq<Cipher>, period: Bounds)
    requires i <= |items|
  {
    && |metas| == |ciphertexts| == i && period == Period(items[..i])
    && forall j :: 0 <= j < i ==> metas[j] == MetaOf(e, items[j]) && ciphertexts[j] == Encrypted(e, items[j])
  }

  lemma EncryptsMore(items: seq<Item>, e: Exporter, i: nat, metas: seq<SegmentMeta>, ciphertexts: seq<Cipher>, period: Bounds)
    requires i < |items| && Encrypts(items, e, i, metas, ciphertexts, period)
    ensures Encrypts(items, e, i + 1, metas + [MetaOf(e, items[i])], ciphertexts + [Encrypted(e, items[i])],
                     WidenPeriod(period, items[i].info))
  {
    assert items[..i + 1][..i] == items[..i];
  }

  /** Every manifest entry of an export of an accurate listing tells the truth about the file whose
      ciphertext the bundle holds at the same place: its name and kind, how many records it reads back to, a
      range they lie in, and the digest of that ciphertext. */
  lemma ManifestIsTrue(d: Disk, segs: seq<SegmentInfo>, e: Exporter, i: nat)
    requires IsListing(d, segs) && Accurate(d) && i < |segs|
    ensures var items := ItemsOf(d, segs);
            var meta, file := ManifestOf(e, items).segments[i], d.closed[segs[i].name];
            && meta.entry == SegmentEntry(segs[i].name) && meta.kind == segs[i].name.kind
            && meta.records == |ReadFile(file).recs|
            && (forall r :: r in ReadFile(file).recs ==> meta.minTs <= r.ts <= meta.maxTs)
            && BundleOf(e, items)[i + 1] == Entry(meta.entry, meta.digest.of)
            && Decrypt(meta.digest.of, {e.recipient}) == Some(SegmentText(file))
  {
    assert Describes(segs[i], segs[i].name, d.closed[segs[i].name]);
  }

  /** The loop that encrypts the listed segments, collects their manifest entries and widens the period. */
  method EncryptAll(items: seq<Item>, e: Exporter, env: Env)
    returns (ok: bool, metas: seq<SegmentMeta>, ciphertexts: seq<Cipher>, period: Bounds)
    ensures ok <==> forall i :: 0 <= i < |items| ==> env.encrypts(items[i].info.name)
    ensures ok ==> metas == Metas(e, items) && |ciphertexts| == |items| && period == Period(items)
    ensures ok ==> forall i :: 0 <= i < |items| ==> ciphertexts[i] == Encrypted(e, items[i])
  {
    metas, ciphertexts := [], [];
    var periodStart, periodEnd := ZERO_TIME, ZERO_TIME;
    for i := 0 to |items|
      invariant forall j :: 0 <= j < i ==> env.encrypts(items[j].info.name)
      invariant Encrypts(items, e, i, metas, ciphertexts, Bounds(periodStart, periodEnd))
    {
      var seg := items[i].info;
      if !env.encrypts(seg.name) {
        return false, [], [], Bounds(ZERO_TIME, ZERO_TIME);
      }
      EncryptsMore(items, e, i, metas, ciphertexts, Bounds(periodStart, periodEnd));
      var entry := SegmentEntry(seg.name);
      var ciphertext := Sealed(e.recipient, e.nonce(entry), SegmentText(items[i].file));
      metas := metas + [SegmentMeta(entry, seg.kind, Sha256(ciphertext), seg.records, seg.minTs, seg.maxTs)];
      ciphertexts := ciphertexts + [ciphertext];
      if periodStart == ZERO_TIME || (seg.minTs != ZERO_TIME && seg.minTs < periodStart) {
        periodStart := seg.minTs;
      }
      if seg.maxTs > periodEnd {
        periodEnd := seg.maxTs;
      }
    }
    assert items[..|items|] == items;
    ok, period := true, Bounds(periodStart, periodEnd);
  }

  /** The bundle's tar: the sealed manifest, then the ciphertexts in manifest order. */
  method WriteTar(items: seq<Item>, e: Exporter, metas: seq<SegmentMeta>, ciphertexts: seq<Cipher>, period: Bounds)
    returns (tar: BundleFile)
    requires metas == Metas(e, items) && |ciphertexts| == |items| && period == Period(items)
    requires forall i :: 0 <= i < |items| ==> ciphertexts[i] == Encrypted(e, items[i])
    ensures tar == BundleOf(e, items)
  {
    var manifest := Manifest(e.hostId, metas, period.minTs, period.maxTs);
    tar := [Entry(ManifestEntry, Sealed(e.recipient, e.nonce(ManifestEntry), ManifestText(manifest)))];
    ghost var whole := BundleOf(e, items);
    for i := 0 to |metas|
      invariant |tar| == i + 1
      invariant forall j :: 0 <= j <= i ==> tar[j] == whole[j]
    {
      tar := tar + [Entry(metas[i].entry, ciphertexts[i])];
    }
    assert tar == whole;
  }

  method RemoveExported(st: Store.Store, segs: seq<SegmentInfo>, io: SegName -> RemoveIO)
    requires st.Valid()
    modifies st`disk, st`order
    ensures st.View() == RemoveAll(old(st.View()), segs, io)
  {
    for i := 0 to |segs|
      invariant st.View() == RemoveAll(old(st.View()), segs[..i], io)
    {
      assert segs[..i + 1][..i] == segs[..i];
      var _ := st.Remove(segs[i].name, io(segs[i].name));
    }
    assert segs[..|segs|] == segs;
  }

  /** What a successful publication leaves. */
  ghost predicate Published(rotated: State, e: Exporter, segs: seq<SegmentInfo>, tar: BundleFile) {
    && segs != [] && IsListing(rotated.disk, segs)
    && tar == BundleOf(e, ItemsOf(rotated.disk, segs))
  }

  ghost predicate NothingToPublish(rotated: State, env: Env) {
    || !env.publishes
    || (forall n :: !Listed(rotated.disk, n))
    || exists n :: Listed(rotated.disk, n) && !env.encrypts(n)
  }

  method Publish(disk: Disk, e: Exporter, env: Env, ghost s: State)
    returns (out: Option<BundleFile>, segs: seq<SegmentInfo>)
    requires disk == s.disk
    requires NamesOk(disk)
    ensures if out.Some? then Published(s, e, segs, out.value) else NothingToPublish(s, env)
  {
    segs := Store.ListClosed(disk);
    if segs == [] {
      return None, segs;
    }
    var items := ItemsOf(disk, segs);
    var encrypted, metas, ciphertexts, period := EncryptAll(items, e, env);
    if !encrypted || !env.publishes {
      return None, segs;
    }
    var tar := WriteTar(items, e, metas, ciphertexts, period);
    return Some(tar), segs;
  }

  /** Export behind the rotation: list, encrypt, publish with one rename, and only then remove. */
  method ExportListed(st: Store.Store, e: Exporter, removeAfter: bool, env: Env, ghost s: State)
    returns (out: Option<BundleFile>, segs: seq<SegmentInfo>)
    requires st.Valid() && s == st.View() && NamesOk(s.disk)
    modifies st`disk, st`order
    ensures if out.None? then st.View() == s && NothingToPublish(s, env)
            else Published(s, e, segs, out.value) && st.View() == if removeAfter then RemoveAll(s, segs, env.remove) else s
  {
    out, segs := Publish(st.disk, e, env, s);
    assert st.View() == s;
    if out.Some? && removeAfter {
      RemoveExported(st, segs, env.remove);
      assert st.View() == RemoveAll(s, segs, env.remove);
    }
  }

  /** Export: rotate, then the rest. */
  method Export(st: Store.Store, e: Exporter, removeAfter: bool, env: Env)
    returns (out: Option<BundleFile>, ghost visited: seq<Kind>, ghost segs: seq<SegmentInfo>)
    requires st.Valid() && st.up && Inv(st.View())
    modifies st`disk, st`order, st`active, st.Segments()
    ensures st.Valid()
    ensures var rotated := Run(old(st.View()), RotateOps(visited, env.rotate));
            if out.None? then st.View() == rotated && (rotated.active == map[] ==> NothingToPublish(rotated, env))
            else && rotated.active == map[] && Published(rotated, e, segs, out.value)
                 && st.View() == if removeAfter then RemoveAll(rotated, segs, env.remove) else rotated
  {
    segs := [];
    out := None;
    var ok;
    ok, visited := st.Rotate(env.rotate);
    if !ok {
      return;
    }
    NamesAreOk(st.View());
    out, segs := ExportListed(st, e, removeAfter, env, st.View());
  }

  lemma NamesAreOk(s: State)
    requires Inv(s)
    ensures NamesOk(s.disk)
  {
  }
}
