/** The encrypted export and its import (internal/bundle/bundle.go).  Encryption is symbolic: an
    age stream is a sealed plaintext that only its recipient's identity opens, and a SHA-256 sum
    determines its ciphertext. */
module Bundle {
  import opened Common
  import opened Records
  import opened Spool

  type Key = string

  datatype EntryName =
    | ManifestEntry
    | SegmentEntry(name: SegName)
    | OtherEntry(text: string)
    | EscapingEntry(text: string)        // the cleaned path still contains ".."

  datatype Digest = Sha256(of: Cipher)

  datatype Cipher =
    | Sealed(recipient: Key, nonce: int, plain: Plain)
    | NotAge(content: int)

  datatype Plain =
    | ManifestText(manifest: Manifest)
    | SegmentText(file: File)
    | OtherText(content: int)

  datatype SegmentMeta = SegmentMeta(
    entry: EntryName, kind: Kind, digest: Digest, records: int, minTs: Time, maxTs: Time)

  datatype Manifest = Manifest(hostId: string, segments: seq<SegmentMeta>, periodStart: Time, periodEnd: Time)

  /** What a tar reader yields: an entry, an entry whose data cannot be read, or a broken header. */
  datatype TarItem = Entry(name: EntryName, data: Cipher) | UnreadableEntry | BrokenHeader

  type BundleFile = seq<TarItem>

  function Decrypt(c: Cipher, identities: set<Key>): Option<Plain> {
    if c.Sealed? && c.recipient in identities then Some(c.plain) else None
  }

  // ---- export -----------------------------------------------------------------------------

  /** One exported segment: its listed metadata and the bytes of its spool file. */
  datatype Item = Item(info: SegmentInfo, file: File)

  /** What one export is made of beside the spool. */
  datatype Exporter = Exporter(hostId: string, recipient: Key, nonce: EntryName -> int)

  function ItemsOf(d: Disk, segs: seq<SegmentInfo>): (items: seq<Item>)
    requires forall i :: 0 <= i < |segs| ==> segs[i].name in d.closed
    ensures |items| == |segs|
    ensures forall i :: 0 <= i < |segs| ==> items[i] == Item(segs[i], d.closed[segs[i].name])
  {
    seq(|segs|, i requires 0 <= i < |segs| => Item(segs[i], d.closed[segs[i].name]))
  }

  function Encrypted(e: Exporter, item: Item): Cipher {
    Sealed(e.recipient, e.nonce(SegmentEntry(item.info.name)), SegmentText(item.file))
  }

  function MetaOf(e: Exporter, item: Item): SegmentMeta {
    SegmentMeta(SegmentEntry(item.info.name), item.info.kind, Sha256(Encrypted(e, item)),
                item.info.records, item.info.minTs, item.info.maxTs)
  }

  function Metas(e: Exporter, items: seq<Item>): (metas: seq<SegmentMeta>)
    ensures |metas| == |items|
    ensures forall i :: 0 <= i < |items| ==> metas[i] == MetaOf(e, items[i])
  {
    seq(|items|, i requires 0 <= i < |items| => MetaOf(e, items[i]))
  }

  /** How one segment widens the manifest's period. */
  function WidenPeriod(b: Bounds, info: SegmentInfo): Bounds {
    Bounds(if b.minTs == ZERO_TIME || (info.minTs != ZERO_TIME && info.minTs < b.minTs) then info.minTs else b.minTs,
           if info.maxTs > b.maxTs then info.maxTs else b.maxTs)
  }

  function Period(items: seq<Item>): Bounds {
    if items == [] then Bounds(ZERO_TIME, ZERO_TIME)
    else WidenPeriod(Period(items[..|items| - 1]), items[|items| - 1].info)
  }

  function ManifestOf(e: Exporter, items: seq<Item>): Manifest {
    Manifest(e.hostId, Metas(e, items), Period(items).minTs, Period(items).maxTs)
  }

  function SealedManifest(e: Exporter, items: seq<Item>): Cipher {
    Sealed(e.recipient, e.nonce(ManifestEntry), ManifestText(ManifestOf(e, items)))
  }

  /** The bundle an export writes: the manifest first, then every segment in manifest order. */
  function BundleOf(e: Exporter, items: seq<Item>): BundleFile {
    [Entry(ManifestEntry, SealedManifest(e, items))]
    + seq(|items|, i requires 0 <= i < |items| => Entry(SegmentEntry(items[i].info.name), Encrypted(e, items[i])))
  }

  predicate DistinctNames(items: seq<Item>) {
    forall i, j :: 0 <= i < j < |items| ==> items[i].info.name != items[j].info.name
  }

  /** The manifest's period brackets every exported segment that has a time range. */
  lemma {:induction false} PeriodBrackets(items: seq<Item>)
    ensures forall i :: 0 <= i < |items| ==>
              (items[i].info.minTs != ZERO_TIME ==> Period(items).minTs != ZERO_TIME && Period(items).minTs <= items[i].info.minTs)
              && items[i].info.maxTs <= Period(items).maxTs
  {
    if items != [] {
      PeriodBrackets(items[..|items| - 1]);
      forall i | 0 <= i < |items| - 1 ensures items[i] == items[..|items| - 1][i] {
      }
    }
  }

  ghost predicate StartsAt(items: seq<Item>, ts: Time) { exists i :: 0 <= i < |items| && items[i].info.minTs == ts }

  ghost predicate EndsAt(items: seq<Item>, ts: Time) { exists i :: 0 <= i < |items| && items[i].info.maxTs == ts }

  /** And both of its ends are those of exported segments, where any has a range. */
  lemma {:induction false} PeriodIsAttained(items: seq<Item>)
    ensures Period(items).minTs == ZERO_TIME || StartsAt(items, Period(items).minTs)
    ensures Period(items).maxTs == ZERO_TIME || EndsAt(items, Period(items).maxTs)
  {
    if items != [] {
      var init, last := items[..|items| - 1], items[|items| - 1];
      PeriodIsAttained(init);
      assert forall i :: 0 <= i < |init| ==> init[i] == items[i];
      if StartsAt(init, Period(init).minTs) {
        var i :| 0 <= i < |init| && init[i].info.minTs == Period(init).minTs;
        assert items[i].info.minTs == Period(init).minTs;
      }
      if EndsAt(init, Period(init).maxTs) {
        var i :| 0 <= i < |init| && init[i].info.maxTs == Period(init).maxTs;
        assert items[i].info.maxTs == Period(init).maxTs;
      }
      assert items[|items| - 1] == last;
    }
  }

  // ---- import -----------------------------------------------------------------------------

  datatype Status = StatusOk | TruncatedRecords | HashMismatch | DecryptFailed | Missing

  datatype SegmentResult = SegmentResult(meta: SegmentMeta, status: Status, records: seq<Record>)

  datatype Fatal = NoFatal | TarError | ManifestMissing | ManifestDecryptFailed | ManifestUnparsable

  datatype ImportResult = ImportResult(fatal: Fatal, manifest: Option<Manifest>, segments: seq<SegmentResult>)

  predicate Accepted(r: SegmentResult) { r.status == StatusOk || r.status == TruncatedRecords }

  datatype Collected = Collected(files: map<EntryName, Cipher>, broken: bool)

  /** The first pass of Import: entries by name, the last of a name winning, up to a broken header. */
  function Collect(tar: BundleFile): Collected {
    if tar == [] then Collected(map[], false)
    else match tar[0]
      case BrokenHeader => Collected(map[], true)
      case UnreadableEntry => Collect(tar[1..])
      case Entry(name, data) =>
        var rest := Collect(tar[1..]);
        if name.EscapingEntry? || name in rest.files then rest
        else rest.(files := rest.files[name := data])
  }

  /** The reader gets to an entry of the name at position `i`. */
  ghost predicate Seen(tar: BundleFile, name: EntryName, i: nat) {
    && i < |tar| && tar[i].Entry? && tar[i].name == name && !name.EscapingEntry?
    && forall j :: 0 <= j < i ==> !tar[j].BrokenHeader?
  }

  ghost predicate HasBrokenHeader(tar: BundleFile) { exists i :: 0 <= i < |tar| && tar[i].BrokenHeader? }

  lemma SeenInRest(tar: BundleFile, name: EntryName, i: nat)
    requires tar != []
    ensures Seen(tar, name, i + 1) <==> !tar[0].BrokenHeader? && Seen(tar[1..], name, i)
  {
    assert forall j :: 0 <= j < |tar| - 1 ==> tar[1..][j] == tar[j + 1];
    assert forall j :: 1 <= j < |tar| ==> tar[1..][j - 1] == tar[j];
  }

  lemma BrokenInRest(tar: BundleFile)
    requires tar != []
    ensures HasBrokenHeader(tar) <==> tar[0].BrokenHeader? || HasBrokenHeader(tar[1..])
  {
    assert forall j :: 1 <= j < |tar| ==> tar[1..][j - 1] == tar[j];
  }

  /** The last entry of the name that the reader gets to. */
  ghost predicate SeenLast(tar: BundleFile, name: EntryName, i: nat) {
    Seen(tar, name, i) && forall j: nat :: i < j ==> !Seen(tar, name, j)
  }

  lemma {:induction false} BrokenExactly(tar: BundleFile)
    ensures Collect(tar).broken <==> HasBrokenHeader(tar)
  {
    if tar != [] {
      BrokenExactly(tar[1..]);
      BrokenInRest(tar);
    }
  }

  lemma {:induction false} SeenCounts(tar: BundleFile, name: EntryName, i: nat)
    requires Seen(tar, name, i)
    ensures name in Collect(tar).files
  {
    if i > 0 {
      SeenInRest(tar, name, i - 1);
      SeenCounts(tar[1..], name, i - 1);
    }
  }

  /** The entry that a collected name comes from. */
  lemma {:induction false} CollectedFrom(tar: BundleFile, name: EntryName) returns (i: nat)
    requires name in Collect(tar).files
    ensures SeenLast(tar, name, i) && Collect(tar).files[name] == tar[i].data
  {
    var rest := tar[1..];
    if name in Collect(rest).files {
      var m := CollectedFrom(rest, name);
      i := m + 1;
      SeenInRest(tar, name, m);
    } else {
      i := 0;
    }
    forall j: nat | i < j ensures !Seen(tar, name, j) {
      SeenInRest(tar, name, j - 1);
      if Seen(rest, name, j - 1) { SeenCounts(rest, name, j - 1); }
    }
  }

  /** Of several entries of a name the last before a broken header counts; entries with escaping names and
      unreadable ones are passed over, and a broken header ends the reading. */
  lemma LastEntryCounts(tar: BundleFile, name: EntryName)
    ensures Collect(tar).broken <==> HasBrokenHeader(tar)
    ensures name in Collect(tar).files <==> exists i: nat :: Seen(tar, name, i)
    ensures forall i: nat :: SeenLast(tar, name, i) ==> name in Collect(tar).files && Collect(tar).files[name] == tar[i].data
  {
    BrokenExactly(tar);
    forall i: nat | Seen(tar, name, i) ensures name in Collect(tar).files {
      SeenCounts(tar, name, i);
    }
    if name in Collect(tar).files {
      var m := CollectedFrom(tar, name);
    }
  }

  /** Decoding a decrypted segment; bytes that are no segment have no readable header. */
  function DecodePlain(p: Plain): Decoded {
    if p.SegmentText? then ReadFile(p.file) else Decoded([], true)
  }

  function ImportSegment(meta: SegmentMeta, files: map<EntryName, Cipher>, identities: set<Key>): SegmentResult {
    if meta.entry !in files then SegmentResult(meta, Missing, [])
    else if Sha256(files[meta.entry]) != meta.digest then SegmentResult(meta, HashMismatch, [])
    else match Decrypt(files[meta.entry], identities)
      case None => SegmentResult(meta, DecryptFailed, [])
      case Some(plain) =>
        var d := DecodePlain(plain);
        SegmentResult(meta, if d.truncated then TruncatedRecords else StatusOk, d.recs)
  }

  function ImportSegments(metas: seq<SegmentMeta>, files: map<EntryName, Cipher>, identities: set<Key>)
    : (rs: seq<SegmentResult>)
    ensures |rs| == |metas|
    ensures forall i :: 0 <= i < |metas| ==> rs[i] == ImportSegment(metas[i], files, identities)
  {
    seq(|metas|, i requires 0 <= i < |metas| => ImportSegment(metas[i], files, identities))
  }

  function Imported(tar: BundleFile, identities: set<Key>): ImportResult {
    var c := Collect(tar);
    if ManifestEntry !in c.files then ImportResult(ManifestMissing, None, [])
    else match Decrypt(c.files[ManifestEntry], identities)
      case None => ImportResult(ManifestDecryptFailed, None, [])
      case Some(plain) =>
        if !plain.ManifestText? then ImportResult(ManifestUnparsable, None, [])
        else ImportResult(if c.broken then TarError else NoFatal, Some(plain.manifest),
                          ImportSegments(plain.manifest.segments, c.files, identities))
  }

  /** Import. */
  method Import(tar: BundleFile, identities: set<Key>) returns (res: ImportResult)
    ensures res == Imported(tar, identities)
  {
    var files: map<EntryName, Cipher> := map[];
    var fatal := NoFatal;
    var i := 0;
    while i < |tar| && fatal == NoFatal
      invariant 0 <= i <= |tar|
      invariant if fatal == NoFatal
                then Collect(tar) == Collected(files + Collect(tar[i..]).files, Collect(tar[i..]).broken)
                else fatal == TarError && Collect(tar) == Collected(files, true)
      decreases |tar| - i, fatal == NoFatal
    {
      assert tar[i..][1..] == tar[i + 1..];
      match tar[i] {
        case BrokenHeader => fatal := TarError;
        case UnreadableEntry =>
        case Entry(name, data) =>
          if !name.EscapingEntry? {
            files := files[name := data];
          }
      }
      i := i + 1;
    }
    if ManifestEntry !in files {
      return ImportResult(ManifestMissing, None, []);
    }
    var plain := Decrypt(files[ManifestEntry], identities);
    if plain.None? {
      return ImportResult(ManifestDecryptFailed, None, []);
    }
    if !plain.value.ManifestText? {
      return ImportResult(ManifestUnparsable, None, []);
    }
    var manifest := plain.value.manifest;
    var segments: seq<SegmentResult> := [];
    for j := 0 to |manifest.segments|
      invariant |segments| == j
      invariant forall m :: 0 <= m < j ==> segments[m] == ImportSegment(manifest.segments[m], files, identities)
    {
      var meta := manifest.segments[j];
      var sr: SegmentResult;
      if meta.entry !in files {
        sr := SegmentResult(meta, Missing, []);
      } else if Sha256(files[meta.entry]) != meta.digest {
        sr := SegmentResult(meta, HashMismatch, []);
      } else {
        var text := Decrypt(files[meta.entry], identities);
        if text.None? {
          sr := SegmentResult(meta, DecryptFailed, []);
        } else if text.value.SegmentText? {
          var recs, truncated := ReadSegment(text.value.file);
          sr := SegmentResult(meta, if truncated then TruncatedRecords else StatusOk, recs);
        } else {
          sr := SegmentResult(meta, TruncatedRecords, []);
        }
      }
      segments := segments + [sr];
    }
    return ImportResult(fatal, Some(manifest), segments);
  }

  /** ImportResult.Ok. */
  method Ok(res: ImportResult) returns (ok: bool)
    ensures ok <==> res.fatal == NoFatal && exists i :: 0 <= i < |res.segments| && Accepted(res.segments[i])
  {
    if res.fatal != NoFatal {
      return false;
    }
    for i := 0 to |res.segments|
      invariant forall j :: 0 <= j < i ==> !Accepted(res.segments[j])
    {
      if res.segments[i].status == StatusOk || res.segments[i].status == TruncatedRecords {
        return true;
      }
    }
    return false;
  }

  // ---- what a reader of the bundle can rely on --------------------------------------------

  /** What importing the exporter's own ciphertext of an item gives. */
  function Faithful(e: Exporter, item: Item): SegmentResult {
    var d := ReadFile(item.file);
    SegmentResult(MetaOf(e, item), if d.truncated then TruncatedRecords else StatusOk, d.recs)
  }

  /** Whatever else the tar holds: each segment of the sealed manifest is reported missing, reported
      as altered, or imported with exactly the exporter's records, by what its own entry holds;
      no other entry matters. */
  lemma TamperingIsIsolated(e: Exporter, items: seq<Item>, tar: BundleFile, identities: set<Key>)
    requires e.recipient in identities
    requires ManifestEntry in Collect(tar).files && Collect(tar).files[ManifestEntry] == SealedManifest(e, items)
    ensures var res, files := Imported(tar, identities), Collect(tar).files;
            && res.manifest == Some(ManifestOf(e, items))
            && (res.fatal == NoFatal <==> !Collect(tar).broken)
            && |res.segments| == |items|
            && forall i :: 0 <= i < |items| ==>
                 var entry := SegmentEntry(items[i].info.name);
                 res.segments[i] ==
                   if entry !in files then SegmentResult(MetaOf(e, items[i]), Missing, [])
                   else if files[entry] != Encrypted(e, items[i]) then SegmentResult(MetaOf(e, items[i]), HashMismatch, [])
                   else Faithful(e, items[i])
  {
  }

  lemma {:induction false} CollectEntries(tar: BundleFile)
    requires forall i :: 0 <= i < |tar| ==> tar[i].Entry? && !tar[i].name.EscapingEntry?
    requires forall i, j :: 0 <= i < j < |tar| ==> tar[i].name != tar[j].name
    ensures !Collect(tar).broken
    ensures forall i :: 0 <= i < |tar| ==> tar[i].name in Collect(tar).files && Collect(tar).files[tar[i].name] == tar[i].data
    ensures forall n :: n in Collect(tar).files ==> exists i :: 0 <= i < |tar| && tar[i].name == n
  {
    if tar != [] {
      var rest := tar[1..];
      CollectEntries(rest);
      forall i | 0 <= i < |rest| ensures rest[i].name != tar[0].name {
        assert rest[i] == tar[i + 1];
      }
      forall i | 0 <= i < |tar|
        ensures tar[i].name in Collect(tar).files && Collect(tar).files[tar[i].name] == tar[i].data
      {
        if i > 0 { assert tar[i] == rest[i - 1]; }
      }
      forall n | n in Collect(tar).files ensures exists i :: 0 <= i < |tar| && tar[i].name == n {
        if n != tar[0].name {
          var i :| 0 <= i < |rest| && rest[i].name == n;
          assert tar[i + 1].name == n;
        }
      }
    }
  }

  lemma {:induction false} NoManifest(tail: seq<TarItem>)
    requires forall i :: 0 <= i < |tail| ==> !tail[i].BrokenHeader? && !(tail[i].Entry? && tail[i].name == ManifestEntry)
    ensures ManifestEntry !in Collect(tail).files && !Collect(tail).broken
  {
    if tail != [] {
      forall i | 0 <= i < |tail| - 1 ensures tail[1..][i] == tail[i + 1] {
      }
      NoManifest(tail[1..]);
    }
  }

  /** Replace, swap, add or delete entries behind the manifest at will, as long as the tar can be
      read: every accepted segment still has the exporter's records, and what a segment's own entry
      holds alone decides its result, so an untouched one is imported as if nothing had happened. */
  lemma TamperedTail(e: Exporter, items: seq<Item>, tail: seq<TarItem>, identities: set<Key>)
    requires e.recipient in identities
    requires forall i :: 0 <= i < |tail| ==> !tail[i].BrokenHeader? && !(tail[i].Entry? && tail[i].name == ManifestEntry)
    ensures var res := Imported([Entry(ManifestEntry, SealedManifest(e, items))] + tail, identities);
            && res.fatal == NoFatal && |res.segments| == |items|
            && (forall i :: 0 <= i < |items| ==>
                  var entry := SegmentEntry(items[i].info.name);
                  Accepted(res.segments[i]) <==>
                    entry in Collect(tail).files && Collect(tail).files[entry] == Encrypted(e, items[i]))
            && (forall i :: 0 <= i < |items| && Accepted(res.segments[i]) ==> res.segments[i] == Faithful(e, items[i]))
  {
    var manifest := Entry(ManifestEntry, SealedManifest(e, items));
    var tar := [manifest] + tail;
    NoManifest(tail);
    assert tar[1..] == tail;
    TamperingIsIsolated(e, items, tar, identities);
  }

  /** Import undoes export: per segment and in manifest order, exactly what reading the spool file gives. */
  lemma RoundTrip(e: Exporter, items: seq<Item>, identities: set<Key>)
    requires e.recipient in identities && DistinctNames(items)
    ensures var res := Imported(BundleOf(e, items), identities);
            && res.fatal == NoFatal && res.manifest == Some(ManifestOf(e, items))
            && |res.segments| == |items|
            && forall i :: 0 <= i < |items| ==> res.segments[i] == Faithful(e, items[i])
  {
    var tar := BundleOf(e, items);
    CollectEntries(tar);
    assert tar[0].name in Collect(tar).files;
    TamperingIsIsolated(e, items, tar, identities);
    forall i | 0 <= i < |items| ensures Imported(tar, identities).segments[i] == Faithful(e, items[i]) {
      assert tar[i + 1].name in Collect(tar).files;
    }
  }

  /** Without the recipient's identity nothing is imported. */
  lemma WrongKeyIsFatal(e: Exporter, items: seq<Item>, identities: set<Key>)
    requires e.recipient !in identities && DistinctNames(items)
    ensures Imported(BundleOf(e, items), identities) == ImportResult(ManifestDecryptFailed, None, [])
  {
    var tar := BundleOf(e, items);
    CollectEntries(tar);
    assert tar[0].name in Collect(tar).files;
  }
}
