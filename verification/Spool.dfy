/** The spool as a pure state machine (internal/store/store.go): every operation as a function
    of the state, the arguments and what the operating system does. */
module Spool {
  import opened Common
  import opened Records

  const AUTO_FLUSH_RECORDS: nat := 512

  /** A closed segment's file name, `seg-<kind>-<date>-<seq>`. */
  datatype SegName = SegName(kind: Kind, date: int, num: nat)

  datatype SegmentInfo = SegmentInfo(
    name: SegName, kind: Kind, records: int, minTs: Time, maxTs: Time, sizeBytes: nat, recovered: bool)

  datatype Sidecar = Sidecar(info: SegmentInfo, bytes: nat)

  /** The spool directory: all that a crash leaves behind.  `litter` is the size of abandoned
      temporary sidecar files. */
  datatype Disk = Disk(
    active: map<Kind, File>, closed: map<SegName, File>, sidecars: map<SegName, Sidecar>, litter: nat)

  datatype Bounds = Bounds(minTs: Time, maxTs: Time)

  datatype ActiveSeg = ActiveSeg(
    date: int, buf: seq<Record>, records: int, range: Bounds, size: nat, rawBuffered: nat)

  /** `order` is history: the names in closed/ in the order their segments were closed. */
  datatype State = State(
    disk: Disk, order: seq<SegName>, active: map<Kind, ActiveSeg>, dropped: nat, up: bool, maxSegment: int)

  /** What the operating system answers during one flush and close: whether the member write
      succeeds, the compressed size, the sidecar size and the current date. */
  datatype IO = IO(writeOk: bool, memberBytes: nat, sidecarBytes: nat, today: int)

  function ActiveFile(d: Disk, k: Kind): File { if k in d.active then d.active[k] else [] }

  function RawBytes(rs: seq<Record>): nat {
    if rs == [] then 0 else RawBytes(rs[..|rs| - 1]) + rs[|rs| - 1].bytes
  }

  /** How a timestamp widens a recorded time range; the zero time counts as unset. */
  function Widen(b: Bounds, ts: Time): Bounds {
    Bounds(if b.minTs == ZERO_TIME || ts < b.minTs then ts else b.minTs,
           if ts > b.maxTs then ts else b.maxTs)
  }

  function RangeOf(rs: seq<Record>): Bounds {
    if rs == [] then Bounds(ZERO_TIME, ZERO_TIME)
    else Widen(RangeOf(rs[..|rs| - 1]), rs[|rs| - 1].ts)
  }

  /** The first sequence number at or after `from` that closed/ does not use yet. */
  function FirstFree(taken: set<SegName>, kind: Kind, date: int, from: nat): (r: nat)
    ensures from <= r && SegName(kind, date, r) !in taken
    ensures forall q: nat :: from <= q < r ==> SegName(kind, date, q) in taken
    decreases taken
  {
    var name := SegName(kind, date, from);
    if name in taken then FirstFree(taken - {name}, kind, date, from + 1) else from
  }

  // ---- the steps of store.go --------------------------------------------------------------

  predicate FlushFails(s: State, k: Kind, io: IO) {
    k in s.active && s.active[k].buf != [] && !io.writeOk
  }

  /** flushLocked: the whole buffer becomes one gzip member, or nothing changes. */
  function Flush(s: State, k: Kind, io: IO): State {
    if k !in s.active || s.active[k].buf == [] || !io.writeOk then s
    else
      var a := s.active[k];
      var file := ActiveFile(s.disk, k) + [Complete(a.buf, io.memberBytes)];
      s.(disk := s.disk.(active := s.disk.active[k := file]),
         active := s.active[k := a.(buf := [], size := a.size + io.memberBytes, rawBuffered := 0)])
  }

  datatype Summary = Summary(records: int, range: Bounds, recovered: bool)

  function CloseName(d: Disk, k: Kind, sum: Summary, io: IO): (name: SegName)
    ensures name !in d.closed && name.kind == k
    ensures name.date == if sum.range.minTs == ZERO_TIME then io.today else DateOf(sum.range.minTs)
  {
    var date := if sum.range.minTs == ZERO_TIME then io.today else DateOf(sum.range.minTs);
    SegName(k, date, FirstFree(d.closed.Keys, k, date, 0))
  }

  /** The first rename of closeFile: the segment is in closed/, its sidecar is not written yet. */
  function MoveToClosed(s: State, k: Kind, sum: Summary, io: IO): State
    requires k in s.disk.active
  {
    var name := CloseName(s.disk, k, sum, io);
    s.(disk := s.disk.(active := s.disk.active - {k}, closed := s.disk.closed[name := s.disk.active[k]]),
       order := s.order + [name])
  }

  function SidecarFor(name: SegName, file: File, sum: Summary, io: IO): Sidecar {
    Sidecar(SegmentInfo(name, name.kind, sum.records, sum.range.minTs, sum.range.maxTs, FileBytes(file), sum.recovered),
            io.sidecarBytes)
  }

  /** closeFile carried through both renames. */
  function CloseFile(s: State, k: Kind, sum: Summary, io: IO): State
    requires k in s.disk.active
  {
    var name := CloseName(s.disk, k, sum, io);
    var moved := MoveToClosed(s, k, sum, io);
    moved.(disk := moved.disk.(
      sidecars := moved.disk.sidecars[name := SidecarFor(name, s.disk.active[k], sum, io)]))
  }

  function SegSummary(a: ActiveSeg): Summary { Summary(a.records, a.range, false) }

  /** Rotation up to the close: the buffer is flushed and the active entry deleted. */
  function Detached(s: State, k: Kind, io: IO): State {
    Flush(s, k, io).(active := s.active - {k})
  }

  /** rotateLocked. */
  function Rotate(s: State, k: Kind, io: IO): State {
    if k !in s.active || FlushFails(s, k, io) then s
    else
      var gone := Detached(s, k, io);
      if s.active[k].records == 0 then gone.(disk := gone.disk.(active := gone.disk.active - {k}))
      else if k in gone.disk.active then CloseFile(gone, k, SegSummary(s.active[k]), io)
      else gone
  }

  predicate NeedsRotation(s: State, k: Kind, r: Record) {
    k in s.active && (s.active[k].date != DateOf(r.ts) || s.active[k].size + s.active[k].rawBuffered > s.maxSegment)
  }

  /** Append refuses the record when the rotation it needs cannot flush. */
  predicate Refuses(s: State, k: Kind, r: Record, rot: IO) {
    NeedsRotation(s, k, r) && FlushFails(s, k, rot)
  }

  function Buffer(s: State, k: Kind, r: Record): State {
    var a := if k in s.active then s.active[k]
             else ActiveSeg(DateOf(r.ts), [], 0, Bounds(ZERO_TIME, ZERO_TIME), 0, 0);
    s.(active := s.active[k := a.(buf := a.buf + [r], records := a.records + 1,
                                  range := Widen(a.range, r.ts), rawBuffered := a.rawBuffered + r.bytes)])
  }

  /** The part of Append before the automatic flush: rotate if needed, then buffer. */
  function Push(s: State, k: Kind, r: Record, rot: IO): State {
    if Refuses(s, k, r, rot) then s
    else Buffer(if NeedsRotation(s, k, r) then Rotate(s, k, rot) else s, k, r)
  }

  /** What Append tells its caller. */
  datatype Outcome = Rejected | Refused | Taken | BatchDropped(count: nat)

  datatype Appended = Appended(state: State, outcome: Outcome)

  /** The part of Append after buffering: a full buffer is flushed, or dropped when that fails. */
  function AutoFlush(pushed: State, k: Kind, io: IO): Appended
    requires k in pushed.active
  {
    var a := pushed.active[k];
    if |a.buf| < AUTO_FLUSH_RECORDS then Appended(pushed, Taken)
    else if io.writeOk then Appended(Flush(pushed, k, io), Taken)
    else Appended(pushed.(dropped := pushed.dropped + |a.buf|,
                          active := pushed.active[k := a.(records := a.records - |a.buf|, buf := [])]),
                  BatchDropped(|a.buf|))
  }

  /** Append; `None` is a record that does not marshal. */
  function Append(s: State, k: Kind, input: Option<Record>, rot: IO, io: IO): Appended {
    if input.None? || input.value.ts == ZERO_TIME then Appended(s, Rejected)
    else if Refuses(s, k, input.value, rot) then Appended(s, Refused)
    else AutoFlush(Push(s, k, input.value, rot), k, io)
  }

  // ---- crash and recovery -----------------------------------------------------------------

  /** Where a process can die, apart from the instants at which the disk is at rest. */
  datatype CrashPoint =
    | AtRest
    | InFlush(k: Kind, written: nat, bytes: nat)         // the member write is cut short
    | AfterWrite(k: Kind, bytes: nat)                    // the member is on disk, nothing else happened
    | BetweenRenames(k: Kind, io: IO, litter: nat)       // rotation moved the segment, no sidecar yet

  /** The append that was under way, past its checks and not yet at its automatic flush. */
  datatype InFlight = InFlight(k: Kind, r: Record, rot: IO)

  function Reached(s: State, during: Option<InFlight>): State {
    match during
    case None => s
    case Some(f) => if f.r.ts == ZERO_TIME then s else Push(s, f.k, f.r, f.rot)
  }

  predicate Closes(s: State, k: Kind, io: IO) {
    k in s.active && !FlushFails(s, k, io) && s.active[k].records != 0 && k in Detached(s, k, io).disk.active
  }

  /** Rotation up to the first rename of closeFile. */
  function ReachedClose(s: State, k: Kind, io: IO): State {
    if Closes(s, k, io) then MoveToClosed(Detached(s, k, io), k, SegSummary(s.active[k]), io) else s
  }

  function LastWrites(s: State, p: CrashPoint): State {
    match p
    case AtRest => s
    case InFlush(k, n, bytes) =>
      if k in s.active && s.active[k].buf != [] then
        var torn := Torn(s.active[k].buf[..if n < |s.active[k].buf| then n else |s.active[k].buf|], bytes);
        s.(disk := s.disk.(active := s.disk.active[k := ActiveFile(s.disk, k) + [torn]]))
      else s
    case AfterWrite(k, bytes) =>
      if k in s.active && s.active[k].buf != [] then
        s.(disk := s.disk.(active := s.disk.active[k := ActiveFile(s.disk, k) + [Complete(s.active[k].buf, bytes)]]))
      else s
    case BetweenRenames(k, io, litter) =>
      var moved := ReachedClose(s, k, io);
      moved.(disk := moved.disk.(litter := moved.disk.litter + litter))
  }

  /** A crash keeps the disk and loses the process. */
  function Crash(s: State, during: Option<InFlight>, p: CrashPoint): State {
    LastWrites(Reached(s, during), p).(active := map[], dropped := 0, up := false)
  }

  function RecoverySummary(f: File): Summary {
    var recs := ReadFile(f).recs;
    Summary(|recs|, RangeOf(recs), true)
  }

  /** One iteration of recover: a left-over active file is closed with rebuilt metadata. */
  function Recover(s: State, k: Kind, io: IO): State {
    if k in s.disk.active then CloseFile(s, k, RecoverySummary(s.disk.active[k]), io) else s
  }

  /** The process dies again inside that iteration. */
  function RecoverCrash(s: State, k: Kind, io: IO, litter: nat): State {
    if k in s.disk.active then
      var moved := MoveToClosed(s, k, RecoverySummary(s.disk.active[k]), io);
      moved.(disk := moved.disk.(litter := moved.disk.litter + litter))
    else s
  }

  // ---- removal ----------------------------------------------------------------------------

  /** Whether the operating system lets the segment and its sidecar be deleted. */
  datatype RemoveIO = RemoveIO(segmentOk: bool, sidecarOk: bool)

  function Without(names: seq<SegName>, n: SegName): seq<SegName> {
    if names == [] then []
    else Without(names[..|names| - 1], n)
         + if names[|names| - 1] == n then [] else [names[|names| - 1]]
  }

  /** Remove: the sidecar goes even when the segment cannot be deleted. */
  function Remove(s: State, n: SegName, io: RemoveIO): State {
    var d := s.disk;
    s.(disk := d.(closed := if io.segmentOk then d.closed - {n} else d.closed,
                  sidecars := if io.sidecarOk then d.sidecars - {n} else d.sidecars),
       order := if io.segmentOk then Without(s.order, n) else s.order)
  }

  // ---- runs -------------------------------------------------------------------------------

  datatype Op =
    | DoAppend(k: Kind, input: Option<Record>, rot: IO, io: IO)
    | DoFlush(k: Kind, io: IO)
    | DoRotate(k: Kind, io: IO)
    | DoCrash(during: Option<InFlight>, p: CrashPoint)
    | DoRecover(k: Kind, io: IO)
    | DoRecoverCrash(k: Kind, io: IO, litter: nat)
    | DoStart                                            // Open returns: no active file is left

  predicate Enabled(s: State, op: Op) {
    match op
    case DoAppend(_, _, _, _) => s.up
    case DoFlush(_, _) => s.up
    case DoRotate(_, _) => s.up
    case DoCrash(_, _) => s.up
    case DoRecover(_, _) => !s.up
    case DoRecoverCrash(_, _, _) => !s.up
    case DoStart => !s.up && s.disk.active == map[]
  }

  function Apply(s: State, op: Op): State {
    if !Enabled(s, op) then s
    else match op
      case DoAppend(k, input, rot, io) => Append(s, k, input, rot, io).state
      case DoFlush(k, io) => Flush(s, k, io)
      case DoRotate(k, io) => Rotate(s, k, io)
      case DoCrash(during, p) => Crash(s, during, p)
      case DoRecover(k, io) => Recover(s, k, io)
      case DoRecoverCrash(k, io, litter) => RecoverCrash(s, k, io, litter)
      case DoStart => s.(up := true)
  }

  function Run(s: State, ops: seq<Op>): State {
    if ops == [] then s else Apply(Run(s, ops[..|ops| - 1]), ops[|ops| - 1])
  }

  function EmptySpool(maxSegment: int): State {
    State(Disk(map[], map[], map[], 0), [], map[], 0, true, maxSegment)
  }
}
