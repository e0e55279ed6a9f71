/** The record model shared by the agent and the analyzer (internal/model/model.go). */
module Records {
  import opened Common

  type Kind = string

  /** What a record carries beside its timestamp, as far as the analyzer tells records apart. */
  datatype Body =
    | HostMinute(payload: int)
    | SpikeEvent(eventId: string, startTs: Time, payload: int)
    | Inventory(payload: int)
    | SqlInventory(instance: string, payload: int)
    | SqlSample(instance: string, payload: int)
    | Health(payload: int)
    | ProcTop(payload: int)
    | Schedule(payload: int)
    | SqlSpike(payload: int)

  /** One NDJSON record: its meta timestamp, its encoded length and its content. */
  datatype Record = Record(ts: Time, bytes: nat, body: Body)

  /** One gzip member of a segment file.  A torn member is what a forced kill leaves of a
      member that was being written: its complete lines still decode. */
  datatype Member =
    | Complete(recs: seq<Record>, bytes: nat)
    | Torn(recs: seq<Record>, bytes: nat)

  type File = seq<Member>

  datatype Decoded = Decoded(recs: seq<Record>, truncated: bool)

  /** What multistream decoding yields: every member up to the first torn one. */
  function ReadFile(f: File): Decoded {
    if f == [] then Decoded([], false)
    else match f[0]
      case Torn(rs, _) => Decoded(rs, true)
      case Complete(rs, _) =>
        var rest := ReadFile(f[1..]);
        Decoded(rs + rest.recs, rest.truncated)
  }

  function FileBytes(f: File): nat {
    if f == [] then 0 else f[0].bytes + FileBytes(f[1..])
  }

  predicate AllComplete(f: File) { forall i :: 0 <= i < |f| ==> f[i].Complete? }

  /** A torn member can only be the last one. */
  predicate TornOnlyLast(f: File) { forall i :: 0 <= i < |f| - 1 ==> f[i].Complete? }

  /** Appending one member to an intact file appends exactly that member's lines to what reads back. */
  lemma {:induction false} ReadAppended(f: File, m: Member)
    requires AllComplete(f)
    ensures ReadFile(f + [m]) == Decoded(ReadFile(f).recs + m.recs, m.Torn?)
    ensures !ReadFile(f).truncated
  {
    if f == [] {
      assert [m][1..] == [];
      assert f + [m] == [m];
    } else {
      ReadAppended(f[1..], m);
      assert (f + [m])[1..] == f[1..] + [m];
    }
  }

  lemma {:induction false} BytesAppended(f: File, m: Member)
    ensures FileBytes(f + [m]) == FileBytes(f) + m.bytes
  {
    if f == [] {
      assert f + [m] == [m];
    } else {
      BytesAppended(f[1..], m);
      assert (f + [m])[1..] == f[1..] + [m];
    }
  }

  /** A file reads back whole exactly when no member is torn. */
  lemma {:induction false} TruncatedIffTorn(f: File)
    ensures ReadFile(f).truncated <==> !AllComplete(f)
  {
    if f != [] {
      TruncatedIffTorn(f[1..]);
      if f[0].Complete? {
        assert forall i :: 1 <= i < |f| ==> f[i] == f[1..][i - 1];
        assert forall i :: 0 <= i < |f| - 1 ==> f[1..][i] == f[i + 1];
      }
    }
  }

  /** ReadSegment: the scanner loop over the members of one segment. */
  method ReadSegment(f: File) returns (out: seq<Record>, truncated: bool)
    ensures Decoded(out, truncated) == ReadFile(f)
  {
    out, truncated := [], false;
    var i := 0;
    while i < |f| && !truncated
      invariant 0 <= i <= |f|
      invariant ReadFile(f) == if truncated then Decoded(out, true)
                               else Decoded(out + ReadFile(f[i..]).recs, ReadFile(f[i..]).truncated)
      decreases |f| - i, !truncated
    {
      assert f[i..][1..] == f[i + 1..];
      out := out + f[i].recs;
      truncated := f[i].Torn?;
      i := i + 1;
    }
  }
}
