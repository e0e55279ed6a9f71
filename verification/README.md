# A model of the agent's spool, its encrypted export, the spike detector and the analyzer

The agent samples a host every few seconds, groups the samples into minutes, watches every series
for spikes, and keeps all records in a crash-tolerant spool. An export encrypts the spool's closed
segments into a bundle. The analyzer imports the bundles of many hosts, removes duplicates, looks for
recurring spikes and suggests smaller machine sizes. This project models those parts and proves what
they promise, for every input, every run and every failure the model allows.

`dafny verify dfyconfig.toml` checks all of it.

## How the model is laid out

* **Time** is an integer count of nanoseconds since 1 January of year 1, so the zero `time.Time` is 0
  and a UTC day begins at each multiple of a day. **Floating point** is `real`; rounding to one or two
  decimals is an explicit, monotone function.
* **Spool** (`Records`, `Spool`, `SpoolLog`, `SpoolCrash`, `SpoolListing`, `SpoolTail`, `SpoolSize`,
  `SpoolRange`, `Retention`, `Store`). A segment file is a
  sequence of gzip members, each complete or torn. `Spool` gives every operation as a function of the
  state, the arguments and what the operating system answers. `Store` is the object that updates its
  fields in place, proved against those functions. A run is any sequence of appends, flushes,
  rotations, crashes (also in the middle of an append, a flush or a rotation), recoveries (which may
  crash again) and starts.
* **Bundles** (`Bundle`, `Export`, `Dataset`, `LoadFigures`, `EndToEnd`, `AgentLedger`, `Upkeep`). An age stream is a
  sealed plaintext that only its recipient opens; a SHA-256 sum determines its ciphertext. `EndToEnd`
  runs spool, export and removal together, with crashes between the bundle's rename and the removals.
  `Upkeep` adds retention to the runs, and `AgentLedger` follows every record of such a run from its
  append to the analyzer, whatever order the analyzer finds the bundles in and whatever hosts they mix.
* **Spike detector** (`Stats`, `Spike`, `SpikeBaseline`, `SpikeTrace`, `SpikeEvents`, `SpikeCapture`,
  `SpikeTheorems`, `SpikeThresholds`, `Detector`). `Spike.Step` is one sample of one series. A trace is a run of one
  series over any samples; the theorems speak of sample indices. The zero `time.Time` in the state is
  `None`, and the random event id is part of the input. `Detector` holds the objects and the
  independence of the series.
* **Analyzer** (`Sorting`, `Sustained`, `Summaries`, `Recurrence`, `Patterns`, `PatternFigures`,
  `PatternDetection`, `Capacity`, `HostAnalysis`, `HostFigures`, `Fleet`), **minutes** (`Minutes`,
  `MinuteFigures`) and **cron** (`Cron`, `CronParts`, `CronWindow`). `Totals` holds the plain sums and
  means that their averages are measured against.

A loop over a Go map visits its keys in an arbitrary order; the model leaves the order open
everywhere (`:|`, or a sequence the caller cannot choose), so each result holds for every order.
Sorting with `sort.Slice` promises a sorted permutation and nothing about equal keys.

## Where the code does less than it says

Each of these is stated as it is in the code, with the exact condition or an example.

* A death between the two renames of `closeFile` with a file moved leaves a segment that is never
  listed again (`SpoolListing.StrandsMakesOrphan`, `SpoolListing.RunClosedKept`); a run lists all it
  closed if and only if no step of it does that (`SpoolListing.RunListing`).
* A segment removed without its sidecar leaves a stale sidecar, and nothing else does
  (`Upkeep.RemovalAndStaleness`, `Upkeep.UpkeepKeepsListing`). The next segment of that name, if its
  own sidecar is lost to a crash, is then described wrongly: exactly when, and a whole run in which it
  happens (`Upkeep.WindowKeepsAccurate`, `Upkeep.StaleSidecarMisleads`).
* The opposite failure: a removal that deletes the sidecar and not the segment leaves a segment that no
  listing shows, no export holds and no retention deletes (`Upkeep.RemovalAndOrphans`). Segments and
  sidecars correspond throughout a run if and only if no removal deletes one of the two only and no step
  dies between the renames with a file moved (`Upkeep.UpkeepKeepsMatched`).
* Retention deletes segments that no export holds yet; the analyzer then shows exactly the other minutes
  (`AgentLedger.LedgerMinutesExactly`).
* The time range of a sidecar also covers records of dropped batches; while none is dropped it is that of the
  file (`SpoolRange.SidecarRangesAreExact`), and retention by age then goes by the records
  (`SpoolRange.TooOldExactlyWhen`).
* A record whose append needs a rotation that fails is refused and not counted as dropped; the comment
  speaks of counting. That happens exactly when the rotation's flush cannot write a non-empty buffer
  (`SpoolLog.AppendLog`).
* The doc comment of `Append` speaks of dropping the oldest records; the code drops the whole buffer, the
  new record included. That happens exactly when the record is the 512th, no rotation comes before it and
  the flush fails (`SpoolLog.AppendLog`).
* `rawBuffered` survives a dropped batch: it counts the buffered bytes exactly until a batch with bytes in
  it is dropped, and again after the next flush or rotation (`SpoolLog.RawExactExactlyWhen`).
* Climb samples enter the baseline history, although the comment excludes the spike itself
  (`SpikeTheorems.HistoryTracked`); the peak starts at the opening sample and ignores the climb
  (`SpikeEvents.EveryEvent`).
* A tar read error makes the bundle fatal even when segments were read (`Bundle.TamperingIsIsolated`).
* The mean time of day is wrong for clusters around midnight: events at 23:55, 00:00 and 00:05 are
  reported at 08:00 (`Patterns.MidnightExample`); `Patterns.MeanMinute` says exactly when it is right.
* The least available memory of a minute takes zero for "not set"; it is right exactly under the
  condition of `Minutes.AvailIsMinimum`.
* A sample stamped in the first minute of year 1 is forgotten by the next sample, and no other sample
  ever is (`Minutes.BlocksAreTheInput`).
* After a flush the same UTC minute can be emitted a second time (`Minutes.FlushSplitsMinute`); the
  emitted minutes strictly increase if and only if no sample follows a flush into the minute it emitted
  (`Minutes.MinutesIncreaseExactlyWhen`). The analyzer's deduplication keeps one of the two.
* High CPU steal renames a likely candidate to a possible one, but keeps the higher confidence of the
  likely one (`Capacity.StealKeepsConfidence`); docs/LIMITATIONS.md lines 17-18 promise a lower one.
* docs/ARCHITECTURE.md line 122 wants the P99 peak below 100% of the new size; the code allows equality
  (`Capacity.PeakExample`), exactly when `Capacity.PeakReachesExactlyWhen` says.
* The upper RAM bound of a suggestion can exceed the allocation (`Capacity.RamExample`);
  `Capacity.RamIsLeast` says exactly when it does not.
* With instances that are primary in one group and secondary in another, the order of the map decides
  the role of the host (`HostAnalysis.RoleIsOrderFree`).
* A wider cron window can lose a match: at 11:59:30 the line `0 12 * * *` matches within 30 seconds
  and not within 55 (`CronWindow.PartMinutesLose`). Widening loses nothing if and only if the last
  instant looked at does not move back (`CronWindow.LosslessExactlyWhen`, and for clocks that show UTC
  `CronWindow.WiderLosesNothingExactlyWhen`).
* Day of month and day of week must both match (`CronWindow.LineMatchesExactlyWhen`), where section 4
  of IEEE Std 1003.1, `crontab`, asks for either.

## Model

| member | source | states |
|---|---|---|
| Records.ReadAppended | internal/store/store.go:402-430 | appending one member to an intact file appends exactly that member's lines to what reads back |
| Records.TruncatedIffTorn | internal/store/store.go:426-428 | a segment reads as truncated exactly when some member is torn |
| Records.ReadSegment | internal/store/store.go:402-430 | the scanner loop reads all complete members and the complete lines of the first torn one, and reports the tear |
| SpoolLog.FlushLog | internal/store/store.go:190-224 | a flush, successful or not, keeps the logical log; on disk there is then the old log or all of it |
| SpoolLog.FlushInv | internal/store/store.go:190-224 | a flush keeps the invariant of the spool |
| SpoolLog.CloseLog | internal/store/store.go:260-288 | neither rename of closeFile changes what is on disk for a kind |
| SpoolLog.CloseInv | internal/store/store.go:260-288 | both renames keep the invariant: fresh names, one UTC date a segment, tears only at the end |
| SpoolLog.RecordsMeanFile | internal/store/store.go:241-256 | after the flush of a rotation a segment with counted records has a file, one without has none |
| SpoolLog.RotateInv | internal/store/store.go:241-256 | rotation keeps the invariant, whatever fails in it |
| SpoolLog.RotateLog | internal/store/store.go:241-256 | rotation keeps the logical log of every kind, also when it dies between its renames |
| SpoolLog.AppendInv | internal/store/store.go:132-175 | append keeps the invariant: at most 511 buffered records between calls, exact record counts, a range that brackets every timestamp, one UTC date a segment |
| SpoolLog.AppendLog | internal/store/store.go:132-175 | append adds its record, or cuts out exactly the dropped batch and counts it, or rejects or refuses and changes nothing; it refuses exactly when a needed rotation cannot flush, and drops exactly when the 512th record finds no rotation before it and cannot be flushed |
| SpoolLog.JoinsExactlyWhen | internal/store/store.go:145-163 | a record joins a segment that is already open only when that is of its UTC date and its file and buffer are within the size limit, and then no segment closes; otherwise it is the first and only record of a new segment and the old one is closed if it holds any record, unless the flush fails and nothing changes |
| SpoolLog.RawExactExactlyWhen | internal/store/store.go:155-175 | `rawBuffered` stays exact unless a batch with bytes in it is dropped; once inexact it is exact again exactly after a flush or a rotation |
| SpoolLog.RemoveInv | internal/store/store.go:327-332 | removal keeps the invariant, also when the segment or its sidecar stays |
| SpoolCrash.CrashInv | internal/store/store.go:190-224 | what a crash leaves on disk is well formed: tears only in the last member of a file |
| SpoolCrash.CrashLog | internal/store/store.go:190-288 | a crash at any point cuts each kind's log to a prefix, by no more than its unflushed buffer |
| SpoolCrash.RecoverInv | internal/store/store.go:97-126 | one step of recovery keeps the invariant, also when it dies between the renames |
| SpoolCrash.RecoverLog | internal/store/store.go:97-126 | recovery of a kind keeps every kind's log and leaves no active file of that kind |
| SpoolCrash.RunRefinesLedger | internal/store/store.go:132-256 | over every run, closed segments in closing order, active file and buffer read as the records taken in, less exactly the dropped batches and the lost tails; the dropped count is exact |
| SpoolCrash.CrashThenReopen | internal/store/store.go:79-126 | after a crash anywhere and recoveries that may crash too, each kind reads as a prefix of what was taken in, holds all that was flushed and misses at most 512 records; an open store has no active file left, so nothing is appended behind a tear |
| SpoolListing.StepListing | internal/store/store.go:258-319 | every listed sidecar keeps describing its file exactly, and only a death between the renames makes a segment unlisted |
| SpoolListing.StrandsMakesOrphan | internal/store/store.go:279-287 | a death between the renames with a file moved always leaves a segment that no listing shows |
| SpoolListing.RunListing | internal/store/store.go:258-319 | over every run the listed sidecars are exact; the run lists every segment it ever closed if and only if no step dies between the renames with a file moved |
| SpoolListing.RunClosedKept | internal/store/store.go:258-319 | no later step touches a closed segment; one that lost its sidecar is never listed again |
| SpoolListing.NameIsLeast | internal/store/store.go:265-273 | a closed segment gets the least number not in use for its kind and date |
| SpoolListing.RecoveredIsMarked | internal/store/store.go:97-126 | a new sidecar says whether rotation or recovery closed its segment |
| SpoolSize.SegmentsAreCapped | internal/store/store.go:145-175 | over every run of the agent, with crashes, recoveries, exports and retention, no segment file, open or closed, holds more than the size limit before its last member |
| SpoolRange.RangeIsExact | internal/store/store.go:111-119 | the range of a sequence of records ends at its earliest and at its latest timestamp, unless all lie before the zero time |
| SpoolRange.SidecarRangesAreExact | internal/store/store.go:97-332 | over every run of the agent, whatever crashes, the range in every listed sidecar is exactly that of its file as long as no batch is dropped and no removal leaves a sidecar behind |
| SpoolRange.TooOldMeansOld | internal/store/store.go:367-372 | a segment that retention finds too old has only records older than the age limit |
| SpoolRange.TooOldExactlyWhen | internal/store/store.go:367-372 | with an exact range and timestamps after the zero time, a segment is too old if and only if an age limit is set and every record is older |
| Store.Segment.Add | internal/store/store.go:155-163 | buffering a record extends the buffer, the counters and the time range in place |
| Store.ListClosed | internal/store/store.go:295-319 | the listing holds exactly the segments that have a sidecar, each once |
| Store.Store.Open | internal/store/store.go:81-126 | opening recovers every left-over file in some order and leaves none active |
| Store.Store.Recover | internal/store/store.go:97-126 | the recovery loop is a run of recovery steps |
| Store.Store.CloseFile | internal/store/store.go:260-288 | in place: the file moves to the first unused name and gets its sidecar |
| Store.Store.FlushLocked | internal/store/store.go:190-224 | in place: the buffer becomes one member, or nothing changes |
| Store.Store.RotateLocked | internal/store/store.go:241-256 | in place: rotation is the specified step and reports whether it flushed |
| Store.Store.AutoFlushLocked | internal/store/store.go:164-173 | in place: a full buffer is flushed, or dropped and counted |
| Store.Store.Append | internal/store/store.go:132-175 | in place: append is the specified step, with its outcome, and keeps the invariant |
| Store.Store.Flush | internal/store/store.go:178-188 | the loop over the kinds is a run of flushes that visits every open kind; success means all buffers are empty |
| Store.Store.Rotate | internal/store/store.go:229-239 | the loop over the kinds is a run of rotations and keeps the invariant; it succeeds exactly when no segment stays open |
| Store.Store.Remove | internal/store/store.go:327-332 | in place: the segment goes if the system lets it, the sidecar independently of that |
| Store.Store.SpoolBytes | internal/store/store.go:342-351 | the walk adds up all files below the spool root |
| Store.Store.EnforceRetention | internal/store/store.go:362-383 | in place: retention is the specified sweep over a listing, with its reported count and bytes |
| Retention.RetentionMeetsLimits | internal/store/store.go:362-383 | with successful removals no listed segment is past the age limit, the spool fits under the cap or nothing is listed, the reported figures equal what was deleted, and active and unlisted files are untouched |
| Retention.DeletedExactlyWhen | internal/store/store.go:370-381 | a segment goes exactly when it is too old or the accounted total, the spool's size less what was deleted before, is over the cap |
| Bundle.PeriodBrackets | internal/bundle/bundle.go:123-128 | the manifest's period brackets every exported segment |
| Bundle.PeriodIsAttained | internal/bundle/bundle.go:123-128 | and its ends are those of exported segments, where any has a range |
| Bundle.Import | internal/bundle/bundle.go:261-346 | the two loops of import compute the specified result, with its fatal cases and the status of each segment |
| Bundle.LastEntryCounts | internal/bundle/bundle.go:272-293 | of several tar entries of a name the last one before a broken header counts; escaping names and unreadable entries are passed over and reading goes on |
| Bundle.Ok | internal/bundle/bundle.go:247-257 | a result is usable exactly when it is not fatal and some segment was accepted |
| Bundle.TamperingIsIsolated | internal/bundle/bundle.go:312-344 | with the sealed manifest in place each segment is missing, reported altered, or has exactly the exporter's records, by its own entry alone; a broken tar is fatal |
| Bundle.TamperedTail | internal/bundle/bundle.go:272-344 | entries behind the manifest may be replaced, swapped or deleted at will: every accepted segment has the exporter's records and its own entry alone decides its result |
| Bundle.RoundTrip | internal/bundle/bundle.go:107-152 | importing an export gives, per segment and in manifest order, exactly what reading the spool file gives |
| Bundle.WrongKeyIsFatal | internal/bundle/bundle.go:295-304 | without the recipient's identity nothing is imported |
| Export.EncryptAll | internal/bundle/bundle.go:107-129 | the loop builds one manifest entry and one ciphertext a segment and the period, or stops at the first failure |
| Export.WriteTar | internal/bundle/bundle.go:131-152 | the tar holds the sealed manifest first, then the ciphertexts in manifest order |
| Export.ManifestIsTrue | internal/bundle/bundle.go:107-129 | every manifest entry of an accurate listing gives the name, kind, record count and a bracketing range of the file whose ciphertext the bundle holds at the same place, and that ciphertext's digest |
| Export.RemoveExported | internal/bundle/bundle.go:170-174 | the removal loop removes exactly the exported segments |
| Export.Export | internal/bundle/bundle.go:57-176 | an export rotates, and then publishes a complete bundle of exactly what is listed, or publishes nothing and removes nothing; removal happens only after the publication |
| Dataset.DedupIsExact | internal/analyzer/dataset.go:169-178 | of sorted minutes deduplication keeps strictly increasing timestamps, the same set of them, and only original records |
| Dataset.DedupMinutesInPlace | internal/analyzer/dataset.go:170-178 | the filter over its own aliased slice computes that, although it overwrites what it scans |
| Dataset.SpikesAreExact | internal/analyzer/dataset.go:179-189 | of spikes in start order one is kept for each non-empty id and all without an id, still in start order |
| Dataset.DedupSpikesInPlace | internal/analyzer/dataset.go:180-189 | the in-place filter computes that |
| Dataset.ContentsAreExact | internal/analyzer/dataset.go:108-165 | every collection holds exactly the records of its kind, in reading order and multiplicity, per SQL instance where the program does; of the inventories the latest stays, the first of equally late ones |
| Dataset.Normalize | internal/analyzer/dataset.go:169-195 | minutes and spikes end up sorted and without duplicates, SQL samples and health records sorted, nothing else lost |
| Dataset.Dataset.AddBundle | internal/analyzer/dataset.go:60-100 | one bundle adds its accepted records, its manifest and its damaged segments to its host, and all counters and warnings are then those of the bundles so far |
| Dataset.LoadBundles | internal/analyzer/dataset.go:43-106 | every host holds exactly the normalized records of its accepted segments, its manifests and its damaged segments; the counters say how many bundles are ok, partial and rejected, with a warning for each that is not ok |
| Dataset.CountsAddUp | internal/analyzer/dataset.go:60-100 | every bundle counts in exactly one of the three ways |
| LoadFigures.GatheredExactly | internal/analyzer/dataset.go:69-94 | a record is gathered for a host exactly when an accepted segment of a usable bundle of that host has it |
| LoadFigures.ProblemsExactly | internal/analyzer/dataset.go:78-90 | a segment is a problem of a host exactly when a usable bundle of the host has it and it is not ok |
| LoadFigures.TallyExactly | internal/analyzer/dataset.go:60-100 | rejected, partial and ok count the fatal bundles, those with a damaged segment and the others |
| LoadFigures.WarningsExactly | internal/analyzer/dataset.go:64-97 | there is one warning for each rejected or partial bundle |
| EndToEnd.StepKeepsSafe | internal/bundle/bundle.go:165-174 | no step loses a record that was listed: it leaves the spool only when a complete bundle holds it |
| EndToEnd.RunKeepsSafe | internal/bundle/bundle.go:57-176 | the same over every run with crashes anywhere, also between the bundle's rename and the removals |
| EndToEnd.ExportIsARun | internal/bundle/bundle.go:165-175 | what Export leaves after a publication with removal is what these steps reach |
| EndToEnd.GatheredIsExported | internal/analyzer/dataset.go:43-100 | from any list of files that holds the host's bundles, in any order and among other hosts', the analyzer gathers for the host exactly what its bundles carry |
| EndToEnd.ExactlyOnce | internal/analyzer/dataset.go:43-178 | over every run, loading such files gives exactly the exported minute timestamps, once each and strictly increasing; every minute ever listed is among them or still listed |
| AgentLedger.RunFollowsLedger | internal/store/store.go:132-383 | over every agent run with exports, removals, retention and crashes, each kind's ledger is all it ever closed in closing order, then the active file, then the buffer; every segment listed at its closing is still listed with its file, or all in exports, or was taken by retention before; and nothing else is exported |
| AgentLedger.CleanExport | internal/bundle/bundle.go:57-176 | after any such run, a complete rotation and an export: all exports together hold exactly the records of the segments that were listed when they were closed, but for those that retention took before any export held them |
| AgentLedger.ShownExactly | internal/analyzer/dataset.go:43-178 | the analyzer then shows exactly the minutes of those segments, each once, whatever crashed and whatever else its directory holds |
| AgentLedger.LedgerMinutesExactly | internal/analyzer/dataset.go:43-178 | if no step died between the renames with a file moved, these are exactly the minutes taken in, less the dropped batches, the tails lost to crashes and the segments that retention took too early |
| AgentLedger.LedgerMinutesOnce | internal/analyzer/dataset.go:43-178 | and if retention took nothing too early, exactly the minutes of the ledger, each once |
| Upkeep.RemovalAndStaleness | internal/store/store.go:327-332 | a sidecar becomes stale exactly when its segment is deleted and it is not |
| Upkeep.UpkeepKeepsListing | internal/store/store.go:258-383 | over every agent run with retention, the sidecars stay exact and none is stale throughout, if and only if no removal deletes a segment and leaves its sidecar |
| Upkeep.RemovalAndOrphans | internal/store/store.go:327-332 | a removal leaves an unlisted segment exactly when it deletes a listed segment's sidecar and not the segment |
| Upkeep.UpkeepKeepsMatched | internal/store/store.go:258-383 | over every agent run with retention, closed segments and exact sidecars correspond throughout, if and only if no removal deletes one of the two only and no step dies between the renames with a file moved |
| Upkeep.SweepIsUpkeep | internal/store/store.go:362-383 | a retention sweep is such a run of removals |
| Upkeep.RetentionInRuns | internal/store/store.go:362-383 | so in every such run retention meets its limits |
| Upkeep.WindowKeepsAccurate | internal/store/store.go:279-287 | a death between the renames keeps the sidecars exact if and only if a sidecar that already bears the new name describes the moved file |
| Upkeep.StaleSidecarMisleads | internal/store/store.go:279-332 | a run from a fresh spool that removes a segment without its sidecar, closes the next of that name and dies between the renames: its listing describes the new segment by the old sidecar |
| Stats.SortSorts | internal/analyzer/stats/stats.go:26-28 | sorting a copy gives a sorted permutation |
| Stats.SortPermuted | internal/spike/spike.go:286-288 | sorting forgets the order of its input |
| Stats.QuantileMonotone | internal/analyzer/stats/stats.go:44-56 | a higher quantile is never smaller, and all lie between the least and the greatest value |
| Stats.QuantileInterpolates | internal/analyzer/stats/stats.go:44-56 | a quantile of a sorted sequence is the value at position q*(n-1) where that is whole, and between two values the one on the line through them |
| Stats.MedianIsMiddle | internal/spike/spike.go:307-319 | the 0.5 quantile is the middle value, or the mean of the two middle ones |
| Stats.MedianOfMajority | internal/spike/spike.go:282-296 | the median lies where more than half of the values lie |
| Summaries.Summarize | internal/analyzer/stats/stats.go:22-41 | the summary of the sorted copy is that of the values in any order |
| Summaries.SummaryFigures | internal/analyzer/stats/stats.go:22-41 | for any sorted permutation of the observations: the interpolated 50%, 95% and 99% quantiles, the greatest one and the arithmetic mean, each rounded, and their number |
| Summaries.SummaryPermuted | internal/analyzer/stats/stats.go:22-41 | a summary does not depend on the order of the observations |
| Summaries.SummaryIsOrdered | internal/analyzer/stats/stats.go:33-40 | after rounding P50 <= P95 <= P99 <= max, the mean is at most the max, and all lie between the rounded least and greatest observation |
| Common.Round2Nearest | internal/analyzer/stats/stats.go:120 | rounding moves a figure by half a hundredth at most and leaves whole hundredths |
| Sustained.Sustained | internal/analyzer/stats/stats.go:74-104 | the loop returns the first of the longest gap-tolerant runs, exactly described, and the number of observations at or above the threshold |
| Sustained.PeakIsGreatest | internal/analyzer/stats/stats.go:81-86 | the peak of a run is its greatest value |
| Sustained.CountIsSize | internal/analyzer/stats/stats.go:78-79 | the total is the number of observations that meet the threshold |
| Sustained.BestIsMaximalAndUnique | internal/analyzer/stats/stats.go:74-104 | that run is maximal and the only one with this property |
| Sustained.StretchesAreMaximal | internal/analyzer/stats/stats.go:74-104 | a run is maximal exactly when all its observations meet the threshold, none follows the one before it by more than the tolerance, and what lies next to it is below the threshold or farther away |
| Sustained.RunIsDescribed | internal/analyzer/stats/stats.go:74-104 | the reported run counts its observations, spans their timestamps and has the greatest value as its peak |
| Sustained.RaisingThreshold | internal/analyzer/stats/stats.go:74-104 | raising the threshold lengthens neither the longest run nor the total |
| Sustained.TotalOverMaximalRuns | internal/analyzer/stats/stats.go:74-104 | the total is the sum of the lengths of the maximal runs |
| SpikeBaseline.BaselinePermuted | internal/spike/spike.go:282-296 | median and MAD do not depend on the order of the history |
| SpikeBaseline.MedianIs | internal/spike/spike.go:282-296 | the median is the middle of the values in any sorted order |
| SpikeBaseline.MadIs | internal/spike/spike.go:282-296 | the MAD is the middle of the sorted distances of the values from their median |
| SpikeBaseline.RingAdvances | internal/spike/spike.go:147-154 | writing into the circular history keeps it the newest 5760 values |
| SpikeBaseline.BookkeepingKeepsHistory | internal/spike/spike.go:147-160 | after each idle sample the history is that suffix and the baseline that of a history at most 19 values old |
| SpikeBaseline.RobustBaseline | internal/spike/spike.go:282-296 | if more than half of a history lies in [a, b], its median does and its MAD is at most b-a, whatever the rest is |
| SpikeBaseline.RobustThreshold | internal/spike/spike.go:242-255 | an armed threshold then lies between min(static, max(floor, a+k)) and min(static, max(floor, b+k*max(1, 1.4826*(b-a)))) |
| Spike.RuleForIsFirst | internal/spike/spike.go:133-140 | of several rules for a resource the first counts; a resource is ignored exactly when no rule names it |
| Spike.PreCapacityCovers | internal/spike/spike.go:118-121 | the pre-event ring holds at least four points, more than the pre-buffer asks for and by no more than one |
| SpikeTrace.TraceIsTrace | internal/spike/spike.go:142-238 | every run of the step function is a trace, and the threshold stays while an event is open |
| SpikeEvents.ClimbTracked | internal/spike/spike.go:202-208 | the state remembers exactly where the current climb began |
| SpikeEvents.OpensExactly | internal/spike/spike.go:202-234 | an event opens exactly at a qualifying sample outside cooldown whose unbroken climb has lasted for the sustained duration, and starts where the climb did |
| SpikeEvents.EveryEvent | internal/spike/spike.go:162-237 | every emitted event has one whole history: its climb, its phase until 60 s below the threshold, its post capture, its times, peak and buffers, and what its opening put down as id, key, baseline, threshold and trigger |
| SpikeCapture.DecimationSelects | internal/spike/spike.go:270-280 | decimation keeps order, the first point and exactly the target number of points |
| SpikeCapture.CaptureIsBounded | internal/spike/spike.go:261-280 | through any number of decimations a buffer stays within its capacity, an in-order selection of all it was offered, with the first and the newest point |
| SpikeCapture.PeakIsMax | internal/spike/spike.go:166-171 | the peak is the largest value of the phase, also of points decimated away |
| SpikeCapture.RingTracked | internal/spike/spike.go:59-64 | the pre-event ring holds exactly the newest points offered outside events |
| SpikeCapture.EventCapture | internal/spike/spike.go:166-234 | every emitted event carries bounded, ordered selections of its phases with first and newest point kept, an evenly spaced one of the idle points before it, and the exact peak |
| SpikeTheorems.LastsLongerThanSustained | internal/spike/spike.go:172-184 | with increasing timestamps every event lasts longer than the sustained duration |
| SpikeTheorems.EventsAreSpaced | internal/spike/spike.go:187-204 | the next event starts later than the previous end plus 60 s, post capture and cooldown |
| SpikeTheorems.HistoryTracked | internal/spike/spike.go:145-160 | in every run the history holds the newest 5760 values offered outside events, and the baseline is at most 19 of them old |
| SpikeTheorems.ThresholdIsRobust | internal/spike/spike.go:240-255 | at every idle sample of every run an armed threshold stays in the band its history's majority sets |
| SpikeThresholds.ThresholdExactly | internal/spike/spike.go:240-255 | at every idle sample of every run the threshold is the static one while the rule asks for no baseline or fewer than 240 values were seen, and from then on the lower of static and max(floor, median + K*max(1, 1.4826*MAD)) of the history |
| SpikeThresholds.NeverAboveStatic | internal/spike/spike.go:240-255 | at no sample of any run is the threshold above the static one |
| SpikeThresholds.EventsAreExplained | internal/spike/spike.go:212-234 | every emitted event names its series and the id drawn at its opening, the rounded median of the history and the rounded threshold of that moment, and gives the baseline as its trigger exactly when that threshold was below the static one |
| SpikeThresholds.RefreshedEveryTwentieth | internal/spike/spike.go:155-159 | while the median is not zero, the baseline is recomputed at the fourth value outside events and at every twentieth after it, at no others |
| Detector.SeriesAreIndependent | internal/spike/spike.go:109-131 | after any sequence of multi-series samples each key is in the state of a series offered only its own samples |
| Detector.EventsAreIndependent | internal/spike/spike.go:109-131 | and completes the events of that series |
| Detector.AloneIsTrace | internal/spike/spike.go:142-238 | a series running alone is the run of the trace theorems, in its states and in the events it completes |
| Detector.OffersAreTraced | internal/spike/spike.go:109-238 | what an offer completes for a key is what the trace of that key's samples completes at its last one |
| Detector.SeriesState.Bookkeep | internal/spike/spike.go:145-160 | in place: history, age and baseline as specified |
| Detector.SeriesState.CaptureDuring | internal/spike/spike.go:165-186 | in place: the phase of an open event as specified |
| Detector.SeriesState.CapturePost | internal/spike/spike.go:187-198 | in place: the post phase as specified, with the completed event |
| Detector.SeriesState.Watch | internal/spike/spike.go:200-237 | in place: climb, cooldown and opening as specified |
| Detector.Detector.CaptureActive | internal/spike/spike.go:103-105 | the open count is positive exactly when some series has an open event |
| Detector.Detector.StepSeries | internal/spike/spike.go:142-238 | in place: one step of one series, with the open count adjusted |
| Detector.Detector.Offer | internal/spike/spike.go:109-131 | in place and in any map order: every ruled key steps once, exactly the completed events are returned, and the open count equals the number of open series |
| Recurrence.CircleTriangle | internal/analyzer/recurrence.go:124-133 | the circular distance obeys the triangle inequality and is symmetric |
| Recurrence.DistanceIsShortest | internal/analyzer/recurrence.go:124-133 | the distance leads from one minute to the other the shorter way around the clock |
| Recurrence.Packing | internal/analyzer/recurrence.go:124-133 | at most 68 minutes are pairwise more than 20 apart on the clock |
| Recurrence.MembersAreNear | internal/analyzer/recurrence.go:43-60 | a member is within 20 minutes of the earliest event of its cluster, two members are within 40 |
| Recurrence.SeedsAreApart | internal/analyzer/recurrence.go:43-60 | the earliest events of two clusters are more than 20 minutes apart |
| Recurrence.ClustersAreDisjoint | internal/analyzer/recurrence.go:43-60 | clusters share no event |
| Recurrence.AtMost68Clusters | internal/analyzer/recurrence.go:43-60 | however many spikes a series has, there are at most 68 clusters |
| Recurrence.GrowCluster | internal/analyzer/recurrence.go:47-60 | the inner loop collects, in order, exactly the unused events near its seed, and marks them |
| Recurrence.ClusterGroup | internal/analyzer/recurrence.go:42-60 | the loops give a first-fit clustering: every event is in exactly the first cluster whose seed is near it |
| Patterns.SummarizeCluster | internal/analyzer/recurrence.go:61-102 | the summing loop gives the specified pattern, or none below three occurrences or three days |
| PatternFigures.MinuteOfDayHolds | internal/analyzer/recurrence.go:119-122 | an event's minute of the day is the one of its UTC day in which it starts |
| PatternFigures.FiguresAreMeans | internal/analyzer/recurrence.go:57-86 | a pattern counts its events and their UTC days and gives the means of their durations, peaks and minutes of the day, the last with the fraction dropped |
| PatternFigures.OrderDoesNotMatter | internal/analyzer/recurrence.go:57-86 | none of its figures depends on the order of the events |
| PatternFigures.CadenceExactly | internal/analyzer/recurrence.go:87-96 | each of the four cadences exactly under its condition on days with an event, days observed and weekdays |
| Patterns.MeanMinute | internal/analyzer/recurrence.go:73-79 | the reported minute is the mean time of day of the cluster, modulo a day, exactly when the events on the other side of midnight do not carry into the quotient or carry whole days; for up to 1440 events, exactly when there are none; the true mean is within 20 minutes of the seed |
| Patterns.MidnightExample | internal/analyzer/recurrence.go:73-79 | three events around midnight are reported at 08:00 |
| PatternDetection.GroupSpikes | internal/analyzer/recurrence.go:32-36 | the groups are the events of each resource and device, in order of arrival |
| PatternDetection.SearchSeries | internal/analyzer/recurrence.go:38-102 | one series yields exactly the patterns of its clusters |
| PatternDetection.DetectPatterns | internal/analyzer/recurrence.go:30-105 | whatever the map order, all patterns of all series are returned, most frequent first |
| PatternDetection.ReportedExactlyWhen | internal/analyzer/recurrence.go:73-102 | a pattern is reported exactly when a qualifying cluster of some series shows it |
| PatternDetection.PatternMembers | internal/analyzer/recurrence.go:43-79 | a pattern stands for spikes of its own series, on at least three days, within 40 minutes of each other, with the reported minute among them unless they straddle midnight |
| PatternDetection.AtMost68Patterns | internal/analyzer/recurrence.go:30-105 | at most 68 patterns for one resource and device |
| PatternDetection.PatternFor | internal/analyzer/recurrence.go:108-117 | the first pattern that lists the event, if any |
| PatternDetection.PatternForIsUnique | internal/analyzer/recurrence.go:108-117 | with deduplicated ids no two patterns list one event, so the result depends on neither map order nor sorting |
| Capacity.CapacityIsLeast | internal/analyzer/recommend.go:373-403 | a range exists exactly when a smaller size carries the load; it starts at the least such size of at least 2 and goes on by a third of the way to the allocation, rounded down but by 1 at least |
| Capacity.PeakReachesExactlyWhen | internal/analyzer/recommend.go:373-392 | the P99 of the peaks reaches 100% of the suggested size exactly when it fills a whole size of at least 2 on which the P95 load fits |
| Capacity.PeakExample | internal/analyzer/recommend.go:373-392 | four vCPUs with peaks at 50% are suggested as two |
| Capacity.RamIsLeast | internal/analyzer/recommend.go:393-398 | suggested RAM starts at the least whole GB of at least 4 with 30% over the P95 use, below the allocation, or is absent; it ends at the least that adds 2 GB and a quarter, which stays within the allocation exactly when some such size does |
| Capacity.RamExample | internal/analyzer/recommend.go:393-398 | of 5 GB with 2 GB in use, 4 to 6 GB are suggested |
| Capacity.ConfidenceMonotone | internal/analyzer/recommend.go:419-423 | more days or coverage never lower the confidence, which lies between 0.25 and 0.9 |
| Capacity.ConfidenceIs | internal/analyzer/recommend.go:419-423 | it is a quarter, 0.015 for each of up to 30 days and 0.002 for each percent of coverage, rounded |
| Capacity.CategoryExactly | internal/analyzer/recommend.go:276-361 | each of the eight categories exactly under its own conditions on days, coverage, role, memory, pressure, recurring spikes, CPU, paging and steal |
| Capacity.DecisionFigures | internal/analyzer/recommend.go:276-361 | a range goes with exactly the three categories that suggest one; the confidence is that of days and coverage, less 0.15 but at least 0.2 for a host that is possible by its figures |
| Capacity.SuggestedExactlyWhen | internal/analyzer/recommend.go:276-403 | exactly when the ladder leads to a suggestion |
| Capacity.StealKeepsConfidence | internal/analyzer/recommend.go:338-360 | the steal downgrade changes the category only; confidence stays 0.15 above that of a possible candidate |
| HostAnalysis.LocalHARole | internal/analyzer/recommend.go:405-417 | the loops return the first primary or secondary role in iteration order |
| HostAnalysis.RoleIsOrderFree | internal/analyzer/recommend.go:405-417 | the order of the map does not matter exactly when no two instances disagree in their first role |
| HostFigures.RoleIsFirst | internal/analyzer/recommend.go:405-417 | the role is the first primary or secondary among the groups of the instances in iteration order |
| HostFigures.NoRoleExactlyWhen | internal/analyzer/recommend.go:405-417 | and there is none exactly when no group of any instance is either |
| HostAnalysis.FindPressure | internal/analyzer/recommend.go:196-223 | the evidence is exactly that of all minutes over a paging or PSI limit, so there is none exactly when every minute is calm; paging exactly when some minute pages |
| HostFigures.EvidenceExactly | internal/analyzer/recommend.go:211-222 | a minute is evidence of paging, memory or I/O pressure exactly over the limits of each |
| HostFigures.PressureExactly | internal/analyzer/recommend.go:211-223 | the facts of a host say pressure, and paging, exactly when some minute is evidence of it |
| HostAnalysis.EnoughMinutes | internal/analyzer/recommend.go:184-188 | seven days at 50% coverage are at least 4317 minutes |
| HostFigures.ObservedDaysIs | internal/analyzer/recommend.go:184-186 | the observed days are the whole days from first to last minute, and one |
| HostFigures.CoverageIs | internal/analyzer/recommend.go:187-188 | coverage is the rounded share of the minutes from first to last that there are, at most 100% |
| HostAnalysis.HostReport.Classify | internal/analyzer/recommend.go:276-361 | in place: category, range and confidence are those of the ladder |
| HostAnalysis.AnalyzeHost | internal/analyzer/recommend.go:164-272 | the report holds the figures of the telemetry, the longest sustained run, exactly the pressure evidence, the patterns and the ladder's decision |
| HostFigures.AllocationIs | internal/analyzer/recommend.go:166-174 | the allocation is that of the inventory, RAM in GB to the nearest tenth; without an inventory it is zero |
| HostFigures.FiguresFollowSeries | internal/analyzer/recommend.go:190-228 | CPU, CPU peaks, memory, steal and memory in GB each lie within the rounded bounds of their own series, whatever the others are |
| HostFigures.MinutesOver85Are | internal/analyzer/recommend.go:229-230 | the minutes over 85% are counted exactly |
| HostAnalysis.SuggestionIsSafe | internal/analyzer/recommend.go:164-403 | any suggestion rests on seven days, 50% coverage, 4317 minutes, memory P95 below 80, no minute over any limit and a host that is not secondary; its vCPU range is 2 <= min < max <= allocation with min the least size that carries the load |
| Fleet.AddTo | internal/analyzer/analyzer.go:105-117 | the totals of some hosts become the totals of these and one more: allocation, spikes, categories and savings |
| Fleet.Build | internal/analyzer/analyzer.go:86-117 | the loop's totals are those of the analyzed hosts |
| Fleet.TotalsAreSums | internal/analyzer/analyzer.go:101-117 | vCPUs, RAM, spikes and both reductions are the plain sums over the reports |
| Fleet.SavingExactly | internal/analyzer/analyzer.go:108-115 | a host with a range adds what lies between its upper end and the allocation, in vCPUs and in RAM where a RAM range is given that ends within the allocation; any other adds nothing |
| Fleet.FleetIsBounded | internal/analyzer/analyzer.go:101-117 | the reclaimable sums lie between zero and what is allocated, less three vCPUs for each host with a range, and every host is in one category |
| Minutes.AveragesBelowMaxima | internal/sampler/sampler.go:278-404 | every average stays at or below its maximum after rounding |
| Minutes.AvailIsMinimum | internal/sampler/sampler.go:315-317 | the reported minimum is the true one exactly when no sample read zero or the last one did |
| Minutes.UsedBytesNearMean | internal/sampler/sampler.go:314 | rounding each share down loses less than one byte a sample |
| Minutes.Emit | internal/sampler/sampler.go:278-404 | the loops, in any device order, compute the specified minute |
| MinuteFigures.EmittedAverages | internal/sampler/sampler.go:278-312 | the CPU and memory averages are the rounded arithmetic means of the samples; minute and number of samples are exact |
| MinuteFigures.AveragesAreBetween | internal/sampler/sampler.go:291-312 | they lie between the rounded least and greatest sample |
| MinuteFigures.EmittedMaxima | internal/sampler/sampler.go:293-313 | the maxima are the rounded greatest samples, at least zero |
| MinuteFigures.EmittedBytes | internal/sampler/sampler.go:314-323 | the swap in use is the greatest seen, the memory in use less than one byte a sample below the mean, the memory available the least seen under the condition of AvailIsMinimum |
| MinuteFigures.OrderDoesNotMatter | internal/sampler/sampler.go:291-313 | averages and maxima do not depend on the order of the samples |
| MinuteFigures.DeviceAverages | internal/sampler/sampler.go:328-344 | exactly the devices that some sample saw have a figure, the rounded mean over the samples that did |
| MinuteFigures.PressureFigures | internal/sampler/sampler.go:361-385 | the pressure is there when some sample has a reading, and gives their rounded mean and their greatest |
| Minutes.MinuteAgg.Add | internal/sampler/sampler.go:254-266 | in place: a sample joins its minute, and a new minute emits the one before |
| MinuteFigures.MinuteHolds | internal/sampler/sampler.go:255 | a sample belongs to the whole minute that began last before it |
| Minutes.MinuteAgg.FlushPartial | internal/sampler/sampler.go:269-276 | in place: what has accumulated is emitted once |
| Minutes.BlocksAreKept | internal/sampler/sampler.go:254-276 | over every sequence of samples and flushes, emitted blocks and the one in progress concatenate to the kept samples |
| Minutes.BlocksAreTheInput | internal/sampler/sampler.go:254-276 | these are the whole input if and only if no sample of the first minute of the calendar is followed directly by another |
| Minutes.BlocksAreMaximal | internal/sampler/sampler.go:254-276 | without a flush every block is a maximal run of one UTC minute |
| Minutes.MinutesIncrease | internal/sampler/sampler.go:254-276 | for monotone time and no flush the emitted minutes strictly increase |
| Minutes.MinutesIncreaseExactlyWhen | internal/sampler/sampler.go:254-276 | with flushes too, for monotone time, they strictly increase if and only if no sample follows a flush into the minute it emitted |
| Minutes.FlushSplitsMinute | internal/sampler/sampler.go:269-276 | a flush in the middle of a minute emits that minute twice |
| Cron.SplitJoin | internal/sched/sched.go:46 | splitting a comma list gives its parts back |
| Cron.AtoiDecimal | internal/sched/sched.go:50-70 | reading a printed number gives the number back |
| CronParts.AtoiReads | internal/sched/sched.go:50-70 | a number is digits with a sign or without, within 64 bits |
| CronParts.AtoiRefuses | internal/sched/sched.go:50-70 | anything else is none |
| Cron.MatchPart | internal/sched/sched.go:47-74 | one list element matches as specified, with skipped elements and default steps |
| CronParts.PlainExactly | internal/sched/sched.go:54-72 | an element without range and step matches everything, its number, or, if it is none, nothing |
| CronParts.RangeExactly | internal/sched/sched.go:57-64 | a range matches from bound to bound when both are numbers, split at the first dash, and nothing otherwise |
| CronParts.StepExactly | internal/sched/sched.go:48-53 | a step keeps every n-th value from the lower bound on, and is ignored when it is no positive number |
| Cron.CronFieldMatch | internal/sched/sched.go:45-77 | a field matches exactly when some element of its list does |
| Cron.FieldMeansMembership | internal/sched/sched.go:45-77 | for every list of stars, numbers and ranges, with or without steps, the matcher on its printed form is membership in the set it stands for |
| CronWindow.FieldsOfSpaced | internal/sched/sched.go:28 | splitting a line gives its words back, whatever white space leads, separates and follows them |
| CronWindow.SpacesAre | internal/sched/sched.go:28 | what separates words is the white space of Unicode |
| CronWindow.MatchesTime | internal/sched/sched.go:27-43 | the search finds a match exactly when some instant of the window, whole minutes from its beginning, satisfies all five fields |
| CronWindow.LineMatchesExactlyWhen | internal/sched/sched.go:27-77 | for every printed line, with any white space between its fields and anything behind them, a match is membership of the clock's values in all five sets at some instant of the window |
| CronWindow.WholeMinutesMonotone | internal/sched/sched.go:32-41 | widening the tolerance by whole minutes never loses a match, whatever the clock |
| CronWindow.LosslessExactlyWhen | internal/sched/sched.go:32-41 | over all clocks constant within a minute and tolerances of any size, widening never loses a match if and only if the first window is empty or its last instant does not move back |
| CronWindow.WiderLosesNothingExactlyWhen | internal/sched/sched.go:32-41 | for any one clock that shows UTC and windows within a day, the same condition decides it |
| CronWindow.PartMinutesLose | internal/sched/sched.go:32-41 | an instance: at 11:59:30 the line `0 12 * * *` matches with 30 seconds and not with 55 |

## Left out

- Cryptography, gzip bytes, tar bytes and JSON text: age is a sealed value, SHA-256 is injective, decoding is the inverse of encoding.
- Floating-point rounding error: `real` arithmetic throughout, with the program's own rounding kept.
- A write that fails half-way in a surviving process: a failed flush leaves the file unchanged.
- Failures of `closeFile` other than a crash: both renames succeed unless the process dies.
- Concurrency and two processes on one spool: one mutex, one process, as docs/LIMITATIONS.md asks for.
- Store.ListClosed: does not state the sorting of the listing by file name ("oldest first" holds within a kind only); every result holds for a listing in any order.
- Bundle files that overwrite each other: bundle names are distinct, and exports and retention follow one another, as in the agent's one loop (internal/agent/agent.go:130-180).
- The 1 GiB limit on a tar entry, the 16 MiB limit on a line, and the cleaning of entry names beyond "contains ..".
- Counters of unmodelled fields: `activeSeg.seq`, `histFull`, bundle ids, health summaries, manifest sizes.
- Dataset.Dataset.AddBundle: hosts are map values replaced as a whole, not shared pointers; a problem is the damaged segment's result, and warnings and problems carry no file names or message texts.
- Minutes.Emit: of the fields of a sample, CPU total, memory, swap, one figure a device and one pressure reading; the others are averaged by the same statements.
- PatternDetection.DetectPatterns: clusters are formed first and summarized after, where the program does both in one pass; description texts are not modelled.
- HostAnalysis.AnalyzeHost: disk and network percentiles, correlated processes, rationale texts and SQL instance reports do not enter the decision and are not modelled; pressure evidence is a set of readings, where the program keeps texts with one decimal; the minutes are in strictly increasing order, as `normalize` leaves them.
- HostAnalysis.HostReport.Classify: suggestCapacity is called once before the ladder, where the program calls it in three of its cases; it only computes.
- Fleet.Build: the order of host ids is given; SQL instance reports, availability groups and the spike list are not modelled.
- CronWindow.MatchesTime: the calendar is a parameter that reads an instant in its time zone.
- Reading counters (`rate`, `clampPct`, `cpuDeltaPct`) and the share of observations above a threshold (`TimeAbovePct`): expressions that a reading settles.
- Event attribution, report rendering, configuration, inventory, process and SQL collection, service installation: no state that a proof would add to.
