# A verified model of orc's log, flush and recovery

orc accepts rows, appends them to a write-ahead log (WAL) of numbered segments,
and periodically flushes sealed segments to Parquet files, one per series,
schema epoch and hour. This project models that path in Dafny and proves what it
is meant to guarantee: rows are delivered exactly once across crashes, sorted
and deduplicated the same way whatever the memory budget, and read back as they
were written.

`dafny verify dfyconfig.toml` checks everything.

## How the modules follow the program

| modules | what they model |
|---|---|
| `Ledger`, `Commit`, `Protocol`, `ProtocolSafety`, `ProtocolRuns`, `ProtocolLimits`, `DataDir` | the flush, commit and recovery protocol: a state machine over its steps with crashes, storage damage and an outside agent, and the engine's, the planner's and recovery's loops as methods that take those steps and record them |
| `Wal`, `WalWriter`, `WalProgress` | the WAL writer and its committer thread: interleaved critical sections, one fsync outside the lock, a crash anywhere, and what a round of the committer achieves |
| `FlushPlan`, `WalRecords`, `WalSimulation` | that the byte-level flush and writer are steps of the record-level protocol |
| `Arrivals`, `Groups`, `Batch`, `Merge`, `RunFile`, `FlushSort` | the external sort: in-memory batch, spilled run files, heap merge, bounded fan-in |
| `SegmentRows`, `Partition`, `Flush`, `Sink` | decoding a segment, the hourly split, the whole flush from bytes to staged files, and the sink that decodes again and writes them |
| `LongNames`, `LongNameFlush` | series names too long for the batch's 16-bit id offset, and what a flush does with them |
| `Bytes`, `Extra`, `Codec`, `FrameCodec`, `Segments` | the frame format, its encoder and decoders, the tail scan and the segment reader |
| `StrColumns`, `Levels`, `Columns`, `RowGroups` | the column builder, its levels and row groups, and an independent reader |
| `Decimal`, `CivilTime`, `HourOrder`, `Names` | calendar arithmetic, timestamp text, partition and file names and how they sort |
| `Manifest`, `Accept`, `Ingest`, `Client` | schema history, accepting rows, raw ingest, client batching |
| `Delivery` | from a row `append` accepted to a file of the flush |

CRC-32 and UTF-8 validity are parameters (`Codec.Env`): nothing depends on which
functions they are, except that the two modules on long names take ASCII text to be
valid. A 64-bit float is its bits. The filesystem is a map with
atomic rename; what a crash may take back is explicit. Sockets, clocks and disk
errors are arguments that answer for them.

A record of the protocol model stands for one WAL frame. What the protocol takes
for granted of the layers below it is proved of them: `FlushPlan.FlushMakesPlan`
that a flush over the segments' bytes is its `MakePlan` step,
`WalSimulation.RunSimulates` that every run of the writer is followed by a path
of its `Append`, `Sync` and `Roll` steps, with its other steps in between
(`OthersKeep`), and `WalRecords.CrashIsCrash` that a power cut at any point of any
run of the writer is its `Crash` step.

## Results that need a condition

- **Taking a file too early.** When a manifest write fails and the process goes
  on, its next sweep publishes files the manifest on disk does not cover. Taking
  one of those away duplicates its records after a restart: `TakenTooEarly` is
  the run, `TakenTooEarlyExactlyWhen` the exact condition, whether the process is
  up, down or starting. With a failed write treated as a crash the agent is
  unrestricted (`PublishedIsCommitted`).
- **A segment id quarantined twice.** Recovery's own comment says the next id is
  greater than every id ever seen; a crash between the quarantine of the tail
  and the writer's open lets it recur, and a second quarantine then replaces the
  first file: `QuarantinedTwice`, with `ReplacedExactlyWhen`.
- **Text round trip.** `parse(format(ts)) = ts` exactly up to the year 250000.
- **Re-encoding** a decoded record is byte-identical exactly when its `extra` was
  canonical, which frames from `append_raw` need not be.
- **Parquet timestamps.** Every accepted timestamp fits exactly when the accept
  window has an upper end below 2^63; it has none while the clock is unset. A
  flush fails exactly when one of its segments holds a matching record at or
  past 2^63 (`FlushToParquet`), and so does every later flush that reads the
  segment (`StillBlocks`).
- **Reconcile** is documented as all-or-nothing. It is for retypes; running out
  of epochs is noticed part way. `PartialFold` is such a config, and `Reconcile`
  states when an error leaves the histories changed: nothing retypes, and the
  config alters a series before the first exhausted one.
- **Series names of 65512 bytes or more**, which the config admits, push the id's
  offset past 16 bits, and the batch then sorts and deduplicates by other bytes.
  `IdsKeptExactlyWhen`: the batch takes every record of an n-byte series for its
  id, and no two for one, if and only if 24 + n < 2^16. Behind each longer name
  two records of one timestamp with different ids collide (`LongNamesCollide`),
  the batch drops one of them as a duplicate (`BatchLosesOne`), and a flush of one
  segment delivers every record it reads if and only if the name is short enough
  (`DeliversExactlyWhen`).
- **Partition names** are documented as fixed width so that readers can sort
  them: `NamesSortByHour` holds exactly up to the year 9999.
- **A batch body** splits back into the frames sent exactly when each is within
  the record limit (`SplitsBack`).

## Model

| member | source | states |
|---|---|---|
| ProtocolRuns.ExactlyOnce | src/flush/planner.rs:79-208 | in every state of every run in which the outside agent takes only covered files, a record that was ever durable lies in exactly one spot: a live segment above the watermark, a quarantined one, one covered or exported file, or one of the counts |
| ProtocolRuns.NeverTwice | src/flush/planner.rs:571-664 | in those runs no record, durable or not, ever lies in two spots, counting every copy of every covered or exported file |
| ProtocolRuns.CountedForAReason | src/flush/planner.rs:244-354 | a rejected record failed its schema, a skipped one had a damaged record at or before it in its own segment, and a duplicate has a different record of its key in a committed file |
| ProtocolRuns.CleanSegmentSkipsNothing | src/flush/planner.rs:300-312 | no record of a segment without damaged records is ever skipped |
| ProtocolRuns.BornTogether | src/wal/writer.rs:349-371 | two records in wal/ share a birth number if and only if they are in one segment, where serials tell them apart |
| ProtocolRuns.PublishedIsCommitted | src/flush/planner.rs:183-192 | if a failed manifest write is a crash, every published file is covered by the manifest on disk and is what was committed under its name, with the outside agent unrestricted |
| ProtocolRuns.PromotesOnlyCommitted | src/flush/planner.rs:561-589 | whatever a promotion or a sweep publishes is a committed file, never staging left by an attempt that did not commit |
| ProtocolRuns.NamesAreNew | src/flush/parquet.rs:706-710 | a commit, also one that reports an error after the manifest has moved, never reuses an output name: not one committed before, published, or already taken away |
| ProtocolRuns.DeletesOnlySettled | src/flush/planner.rs:755-765 | a segment is deleted, after a commit or by recovery, only if a flush read it and commits resolved each of its records, or it held none |
| ProtocolRuns.WatermarkPassesOnlyRead | src/flush/planner.rs:104-142 | the watermark never reaches a segment still in wal/ that no flush has read |
| ProtocolRuns.IdsAreNew | src/wal/recovery.rs:168-176 | a new segment id is above the watermark and every id in wal/ |
| ProtocolRuns.RunKeeps | src/engine.rs:134-228 | the protocol invariant holds in every state of every run |
| ProtocolRuns.AtMostOneSpot | src/flush/planner.rs:541-559 | under the invariant, the physical copies of a record are one |
| ProtocolSafety.StepKeeps | src/engine.rs:360-400 | each of the protocol steps, crashes and restarts included, keeps the invariant |
| ProtocolSafety.NothingPassedOver | src/engine.rs:363-381 | the consumed segments are all of wal/ between the watermark and the last of them, whatever was rolled between the listing and the reading of the active id |
| ProtocolSafety.PlanCovers | src/flush/planner.rs:104-142 | so a plan for the consumed segments accounts for everything the new watermark passes |
| ProtocolSafety.LeftIsBehind | src/flush/planner.rs:300-312 | what a flush leaves of a segment it read lies at or behind a damaged record of that segment |
| ProtocolSafety.MovedPlan | src/flush/planner.rs:183-186 | a commit settles its own plan together with those of earlier commits that failed while the process went on |
| ProtocolSafety.MovedFiles | src/flush/planner.rs:183-192 | after the commit each newly committed name has exactly one file, with the committed content |
| ProtocolSafety.SweepFileStep | src/flush/planner.rs:571-589 | promoting or deleting a staged file by the test last <= watermark keeps the invariant |
| ProtocolSafety.SweepOrphanStep | src/flush/planner.rs:635-647 | deleting an uncovered file in series/ keeps the invariant |
| ProtocolSafety.SelectStep | src/engine.rs:367-381 | the floor and active filter, and the sweep the failure counter asks for, keep the invariant |
| ProtocolSafety.CommitLostStep | src/flush/planner.rs:183-186 | a failed manifest write that the process survives keeps the invariant |
| ProtocolSafety.AmendStep | src/wal/recovery.rs:188-240 | cutting, dropping or quarantining the tail keeps the invariant |
| ProtocolSafety.ExportStep | src/flush/planner.rs:541-559 | an outside agent taking a covered file keeps the invariant |
| Ledger.CrashKeeps | src/wal/writer.rs:374-393 | a crash that keeps what was synced and any prefix of the rest keeps every promise made |
| Ledger.QuarantineKeeps | src/wal/mod.rs:82-88 | quarantining loses no record, except into the count of replaced ones |
| Ledger.CutKeeps | src/wal/recovery.rs:276-329 | cutting a tail at a damaged frame moves exactly the frames behind it into the skipped count |
| Ledger.RemoveKeeps | src/flush/planner.rs:755-765 | unlinking a settled or headerless segment loses nothing |
| Ledger.SyncUpToKeeps | src/wal/writer.rs:464-490 | a group commit that covers only a prefix of the appended records makes durable records that have their place already |
| Ledger.FirstBadIs | src/wal/recovery.rs:296-309 | the scan stops at the first damaged frame and nowhere else |
| Commit.CommitKeeps | src/flush/planner.rs:183-186 | committing a plan for everything after the old watermark keeps every record in exactly one place |
| Commit.JoinPlans | src/flush/planner.rs:183-186 | plans over adjacent segment ranges join into one plan over both |
| Commit.NamesNeverRepeat | src/flush/parquet.rs:706-710 | names of a plan above the watermark were never committed before |
| ProtocolLimits.TakenTooEarly | src/flush/planner.rs:183-186 | a reachable state in which one record is both in an exported file and in a live segment |
| ProtocolLimits.TakenTooEarlyExactlyWhen | src/flush/planner.rs:183-186 | taking a published file, whatever the process is doing, puts a record in two spots if and only if the manifest on disk does not cover the file and a record of it has a spot of its own; every durable record has one, and while the process is up every record of such a file |
| ProtocolLimits.QuarantinedTwice | src/wal/mod.rs:82-88 | a reachable state in which a quarantined record has been replaced by a second quarantine of the same id |
| ProtocolLimits.ReplacedExactlyWhen | src/wal/mod.rs:82-88 | a step replaces quarantined records if and only if it quarantines an id whose quarantine file exists and holds records |
| DataDir.DataDir.SweepUncommitted | src/flush/planner.rs:571-664 | leaves tmp/ empty and series/ with exactly the covered files of both, the staged one where both have the name; every iteration is a step of the protocol |
| DataDir.DataDir.Recover | src/wal/recovery.rs:162-257 | a path of protocol steps; what the watermark covers goes and every other segment but the newest is unchanged; a sound newest one keeps exactly its records before the first damaged one, synced if anything was cut, and those behind are counted as skipped; one without a header goes, one with a damaged header and no other is moved aside; it refuses to start exactly on one of another version, which it leaves; the id returned is one above the greatest seen |
| DataDir.AmendedSettles | src/wal/recovery.rs:196-239 | what settling the tail does to each field of the log, by the kind of its header |
| DataDir.DataDir.DecodeAll | src/flush/planner.rs:104-130 | a path of protocol steps; consumed are exactly the sound segments before the first unreadable one that could not be moved, each still in wal/ and read up to its first damaged record; moved aside are exactly the unreadable ones before it; nothing else changes |
| DataDir.DataDir.BeginFlush | src/engine.rs:360-381 | a path of protocol steps: lists, takes exactly what lies between the watermark and the active segment, sweeps after a failure, and reads it |
| DataDir.DataDir.CompleteFlush | src/flush/planner.rs:152-194 | a path of protocol steps that carries out a plan: its files are published with their content, its verdicts join the committed ones, the watermark is the last segment, the consumed ones are gone |
| DataDir.DataDir.EndEmpty | src/flush/planner.rs:139-142 | a flush that read no records ends idle with the log and the store as they were |
| DataDir.FlushResolves | src/flush/planner.rs:79-208 | what a flush that meets no failure achieves for every record of every sealed segment it can read: skipped exactly behind damage in its segment, rejected exactly if not skipped and not matching, otherwise it or a record of its key is in a file |
| DataDir.DataDir.FinishFlush | src/flush/planner.rs:183-194 | a path of protocol steps: the watermark is the last consumed id, the committed verdicts gain the plan's and those of lost commits, tmp/ is empty, the staged files are published, the consumed segments are gone |
| Wal.CrashRecovers | src/wal/recovery.rs:276-329 | after a crash at any point of any run the scan reads back, in append order, a prefix of the frames appended that includes every acknowledged frame synced covered |
| Wal.SyncedIsDurable | src/wal/writer.rs:374-393 | in every run synced never exceeds what is durable, and a segment with a successor is durable to its last acknowledged byte |
| Wal.RunKeeps | src/wal/writer.rs:424-530 | the writer invariant holds under every interleaving of appenders, seal and the committer |
| Wal.StepKeeps | src/wal/writer.rs:218-278 | each critical section, and the fsync outside the lock, keeps the writer invariant |
| Wal.AppendErrKeeps | src/wal/writer.rs:240-253 | a partial write leaves every acknowledged frame before the torn one |
| Wal.PublishKeeps | src/wal/writer.rs:482-490 | publishing (id, upto) after an unlocked fsync is sound though a seal may have swapped segments |
| Wal.RollKeeps | src/wal/writer.rs:385-393 | a successor is created only over a segment that is synced to its end |
| WalProgress.AckedSurvives | src/wal/writer.rs:424-500 | frames acknowledged before a round of the committer that succeeds are read back, in order, after a crash at any later point of the run, whatever ran during the round |
| WalProgress.CommitterRound | src/wal/writer.rs:464-490 | such a round raises the promise of the segment, and synced if it is still the active one, to at least everything acknowledged when it began |
| WalRecords.CrashIsCrash | src/wal/recovery.rs:276-329 | a power cut at any point of any run of the writer, whatever it leaves of each file, read back frame by frame by recovery's scan, is a crash step of the protocol |
| WalRecords.RescanIsPrefix | src/wal/recovery.rs:276-329 | the scan finds the synced records and a prefix of the rest, one for each whole frame |
| WalSimulation.RunSimulates | src/wal/writer.rs:218-530 | every run of the writer, however appenders, seal, committer and disk interleave, is followed by a path of the protocol from the state in which the process opened its segment, and the protocol's records stay the frames written whole, with at least the promised ones synced |
| WalSimulation.StepSimulates | src/wal/writer.rs:218-304 | each step of the writer is followed by appends of the frames that became whole, a sync of what was promised, a roll, or for a failed close a crash |
| WalSimulation.OthersKeep | src/engine.rs:360-400 | what the flush, the outside agent and the disk do in between does not disturb that |
| WalRecords.GrownAbstracts | src/wal/writer.rs:218-278 | appending the frames that became whole and syncing the promised ones keeps the protocol's segment standing for the writer's |
| WalRecords.RollAbstracts | src/wal/writer.rs:385-393 | the segment a roll creates stands for a protocol segment without records |
| WalRecords.CloseErrAbstracts | src/wal/writer.rs:282-304 | a close that fails loses only records that were not synced |
| Wal.TornScan | src/wal/recovery.rs:276-329 | scanning concatenated frames cut anywhere finds exactly the whole ones, under the cut file size as its cap |
| WalWriter.Shared.constructor | src/wal/writer.rs:163-206 | opens on a durable header |
| WalWriter.Shared.AppendBytes | src/wal/writer.rs:218-261 | acknowledges exactly when the write succeeded and no roll is pending, and then the frames are the last of the segment's stream; a failed write is confined by sealing the segment |
| WalWriter.Shared.Seal | src/wal/writer.rs:265-278 | leaves an empty segment alone, otherwise rolls and reports the sealed id on success only |
| WalWriter.Shared.Roll | src/wal/writer.rs:385-393 | syncs, then creates the successor; on failure the old segment stays open |
| WalWriter.Shared.SyncInLock | src/wal/writer.rs:374-380 | everything acknowledged becomes durable |
| Wal.CreateKeeps | src/wal/writer.rs:349-371 | opening the successor of a synced segment keeps the writer invariant, leaves every other file as it was and sealed, and the new file parses to its id and is durable |
| WalWriter.Shared.TakeToken | src/wal/writer.rs:464-475 | flushes and remembers how far acknowledged bytes reach |
| WalWriter.Shared.FsyncOutside | src/wal/writer.rs:477-500 | makes durable what the file holds when it runs, or gives the token up |
| WalWriter.Shared.PublishSynced | src/wal/writer.rs:482-490 | raises synced only if the segment is still the active one, and never lowers it |
| WalWriter.Shared.RollIfDue | src/wal/writer.rs:513-527 | rolls exactly when the segment is full or ends in a torn frame |
| WalWriter.Shared.Close | src/wal/writer.rs:282-304 | later appends find no open segment; a successful close leaves the segment fully durable |
| FlushSort.SortFlush | src/flush/planner.rs:152-174 | for every budget, fan-in and size order: each group with records, and no other, reaches the sink once with exactly its specified stream, through run files written and read back; rows written plus deduplicated equal rows decoded |
| FlushSort.Collect | src/flush/planner.rs:93-128 | spilled run files and the in-memory rest keep every survivor, runs plus duplicates dropped so far count every row, and records are only ever added to a batch that is empty or under the budget |
| FlushSort.MergeGroup | src/flush/planner.rs:387-465 | one group's run files, read back, and its in-memory run merge to its specified stream |
| FlushSort.SpillCarries | src/flush/merge.rs:187-207 | spilling the batch at any moment changes no survivor |
| Arrivals.DropRepeatsIsStream | src/flush/merge.rs:138-167 | dropping repeats from sorted records is exactly "sort by (ts, id), keep the earliest arrival of each" |
| Arrivals.StrictKeysMeans | src/flush/merge.rs:151-158 | the order of a stream in numbers and bytes: by timestamp, then by the first byte where the ids differ, a prefix first |
| Bytes.LessMeans | src/flush/merge.rs:231-243 | byte order: a proper prefix, or the lesser byte at the first difference |
| Bytes.FromLeWeighs | src/codec.rs:469-483 | little-endian: a later byte weighs 256 times the one before |
| Bytes.I64BitsMeans | src/codec.rs:477-479 | two's complement: the bits of a signed integer are congruent to it modulo 2^64, and read back as it |
| Arrivals.StreamUnique | src/flush/merge.rs:400-404 | that specification admits one stream |
| Arrivals.FirstOfFirst | src/flush/merge.rs:138-167 | deduplicating part of the input early never changes the survivors |
| Groups.DropRowsByGroup | src/flush/merge.rs:159-166 | deduplicating the whole sorted batch deduplicates each group on its own |
| Groups.BatchStream | src/flush/merge.rs:138-167 | a sorted, deduplicated batch holds each group's specified stream |
| Batch.Batch.Push | src/flush/merge.rs:70-95 | the batch stands for one more record: group, arrival and frame as given, and for its id the bytes at the 16-bit offset |
| Batch.Batch.Intern | src/flush/merge.rs:97-115 | returns the index of the key, adding it only if it is new |
| Batch.Batch.Sort | src/flush/merge.rs:138-167 | the entries stand for a sorted permutation of the records with repeats dropped, and the count grows by what was dropped |
| Groups.SortedRowsMeans | src/flush/merge.rs:138-167 | the batch order in numbers and bytes: series, epoch, timestamp, id, arrival |
| Batch.Batch.GroupRuns | src/flush/merge.rs:170-183 | cuts the entries into one run for each group present, in order, losing none |
| Batch.Batch.Spill | src/flush/merge.rs:187-207 | one file for each group that is its sorted run written out, duplicates counted, and an empty batch |
| Batch.Batch.IntoSources | src/flush/merge.rs:210-225 | one sorted in-memory source for each group |
| Batch.DedupEntries | src/flush/merge.rs:160-165 | comparing with the last entry kept drops exactly the adjacent repeats |
| Merge.MergeSources | src/flush/merge.rs:405-444 | the k-way merge of at most as many sources as allowed emits the specified stream of all of them, and emitted plus deduplicated is all they held |
| Merge.SiftDown | src/flush/merge.rs:446-463 | restores the heap below start, permuting it and touching nothing else |
| Merge.BuildHeap | src/flush/merge.rs:405-416 | a heap in which each live source occurs once |
| Merge.Advance | src/flush/merge.rs:436-442 | moves the root source on, drops it once exhausted, and keeps a heap over exactly the live sources |
| Merge.RootIsLeast | src/flush/merge.rs:446-463 | the root has the least head |
| Merge.MergeBounded | src/flush/merge.rs:468-497 | from run files, and through those the pre-merges write: the specified stream for every fan-in and pre-merge order, never more than max(fan_in, 2) sources open, every duplicate counted; each pre-merge takes the smallest files, and only as many as are too many |
| Merge.PreMergeKeeps | src/flush/merge.rs:476-490 | replacing some runs by their merge keeps the survivors and the count |
| Merge.OpenRunsKeeps | src/flush/merge.rs:499-507 | skipping empty runs loses nothing |
| RunFile.ReadRun | src/flush/merge.rs:318-372 | reading a run file back yields exactly the records written, keys taken from the frames themselves |
| RunFile.WriteRun | src/flush/merge.rs:284-305 | the file is the arrivals and frames, end to end |
| RunFile.EntryReadsBack | src/flush/merge.rs:333-356 | reading where an entry was written yields that entry |
| SegmentRows.DecodeSegment | src/flush/planner.rs:244-354 | every item the reader yields is one row or one reject, the rows are exactly the matching frames in order, and skipped bytes start at the undecodable length |
| SegmentRows.SkippedIsUnscanned | src/flush/planner.rs:300-312 | the bytes counted as skipped are those from where recovery's scan of the segment stops |
| SegmentRows.RowIsStorable | src/flush/merge.rs:83-92 | a decoded frame fits the narrow entry fields, its id at 24 bytes plus the series name, and survives a spill |
| SegmentRows.ShortNameKeepsId | src/flush/merge.rs:89-91 | the batch's id of a frame is the record's while 24 bytes and the series name are under 2^16 |
| LongNames.IdsKeptExactlyWhen | src/flush/merge.rs:83-92 | the batch takes every fitting record of an n-byte series for its own id, and never two with different ids for one, if and only if 24 + n is under 2^16 |
| LongNames.LongNamesCollide | src/flush/merge.rs:83-92 | for each of the 24 longer lengths the config admits, and any checksum, two records of one series, epoch and timestamp with different ids get one id |
| LongNames.BatchLosesOne | src/flush/merge.rs:138-167 | of two such records in a batch one is kept and the other counted as its duplicate |
| LongNameFlush.DeliversExactlyWhen | src/flush/planner.rs:79-181 | a flush of one segment leaves, for every record it reads of an n-byte series, a staged frame with its timestamp and id, if and only if 24 + n is under 2^16 |
| LongNameFlush.FlushOne | src/flush/planner.rs:79-181 | a flush of one segment, whatever the series names: each group's files are its rows by the ids the batch takes, sorted with first arrivals kept, and every row and item is counted |
| LongNameFlush.LosesARecord | src/flush/planner.rs:79-181 | behind each longer name a segment of two records of which no flush that keeps FlushOne's promise delivers both |
| SegmentRows.IdInFrame | src/codec.rs:332-342 | the id lies at its offset and the frame alone yields its sort key |
| Partition.SplitByHour | src/flush/planner.rs:414-462 | the files of a stream, in order, concatenate to it; each holds one hour and hours strictly increase |
| Partition.StageAll | src/flush/planner.rs:152-174 | no staged path is created twice in a flush, every row lies in its hour, each group's files concatenate to its stream, and the files hold as many rows as the streams |
| Partition.PathsApart | src/flush/planner.rs:398-433 | files of two groups, or of two hours of one, never share a path |
| Flush.FlushSegments | src/flush/planner.rs:79-181 | from segment bytes to staged files, for every budget and fan-in: each group's files in hour order are its matching records sorted with first arrivals kept, no group without records has a file, no path is created twice, the rows written are those in the files, rows are written or deduplicated, items are rows or rejects, and the bytes behind each undecodable length are counted |
| Flush.StagedDeliver | src/flush/planner.rs:152-174 | what the sort delivers and the split stages is, group by group, the specified stream read from the files, and there are files for no other group |
| Flush.DecodeAll | src/flush/planner.rs:104-128 | the rows of all segments, each item a row or a reject, and the skipped bytes of all segments added up |
| Flush.FlushInOrder | src/flush/planner.rs:85-89 | ids in order and offsets in order make arrivals grow, so they identify records |
| Sink.FlushToParquet | src/flush/planner.rs:152-174 | a whole flush, for every budget, fan-in and group size: it writes its files if and only if no segment holds a matching record at or past 2^63, and each file written reads back as exactly the rows of the records staged in it |
| Sink.WriteStaged | src/flush/planner.rs:444-458 | writing a staged file refuses nothing but a timestamp: never an arity, a type or a frame it cannot decode |
| Sink.WriteEntries | src/flush/planner.rs:444-458 | for any frames and keys: succeeds if and only if every frame decodes to a row that fits, stops at the first that does not, and otherwise the file reads back as the decoded rows |
| Sink.GenuineSinks | src/flush/planner.rs:318-347 | a row the flush batched has its group's schema, decodes without its CRC to its own record, and is taken by the writer if and only if its timestamp is below 2^63 |
| Sink.FlushRowsGenuine | src/flush/planner.rs:288-348 | every row of a flush carries the frame of a record of its group, with its ts and id, whose values match the schema |
| Sink.LateFiles | src/flush/planner.rs:444-458 | a staged file holds a row at or past 2^63 if and only if a segment of the flush does, deduplication or not |
| Sink.StillBlocks | src/flush/planner.rs:318-347 | a segment that fails a flush fails every later flush that reads it, whatever schema changes were accepted between |
| Delivery.AcceptedRowIsDelivered | src/engine.rs:420-447 | a row append accepted, anywhere behind intact frames of a segment and after any accepted schema changes, has a record of its series, epoch, timestamp and id in a file of the flush that reads the segment |
| Delivery.TypedRecordIsDelivered | src/flush/planner.rs:318-347 | so has any intact record, also of a raw frame, whose values are null or of the types its epoch declares |
| FlushPlan.FlushMakesPlan | src/flush/planner.rs:79-181 | over any bytes that hold the records a protocol state has read, the flush takes a MakePlan step of that state |
| FlushPlan.FlushIsPlan | src/flush/planner.rs:79-181 | frame by frame, what a flush stages, rejects, skips and drops gives each record read one verdict: skipped exactly behind what was taken, rejected exactly when not accepted, and a duplicate only with its twin in a file |
| FlushPlan.DroppedHasTwin | src/flush/merge.rs:400-404 | a row in no file has another record of its series, epoch, ts and id in one |
| FlushPlan.ItemsAreFrames | src/wal/reader.rs:189-243 | the reader's items over intact frames are those frames, judged as they are by themselves, and then at most one fault |
| Codec.DecodeCodes | src/codec.rs:307-316 | decoding yields a record if and only if the bytes are that record's frame, it fits the layout, the arity is its own and the payload is under the cap |
| Codec.FieldsInFrame | src/codec.rs:5-20 | where each field of a record lies in its frame, what the length counts and what the checksum covers |
| Codec.RoundTrip | src/codec.rs:152-226 | decoding an encoded row with its own arity returns it with extra in canonical form |
| Codec.ReencodeIsIdentical | src/codec.rs:345-390 | re-encoding a decoded record gives the same bytes if and only if its extra was canonical |
| Codec.EncodingIgnoresExtraOrder | src/codec.rs:186-208 | rows that differ in the order of extra encode to the same bytes |
| Codec.ReadersAgree | src/codec.rs:287-342 | on a frame that decodes, validate_prefix, decode_verified and verified_sort_key agree on ts, id and length |
| Codec.SortKeyAgrees | src/codec.rs:332-342 | verified_sort_key agrees with validate_prefix on every frame the latter accepts |
| Codec.FrameIsLocal | src/codec.rs:395-432 | a frame's verdict depends on its own bytes only, under any cap that admits it |
| Codec.CutFrameIsTruncated | src/codec.rs:407-432 | every proper prefix of a frame is truncated, never corrupt |
| Codec.TruncatedExactly | src/codec.rs:20-25 | a frame is truncated, and not corrupt, exactly when the bytes end inside its header or inside an extent whose length is plausible and under the cap |
| Codec.FrameFaults | src/codec.rs:394-436 | how much a truncated frame is short of, and when a frame fails by its length, over the cap, or by its checksum |
| Codec.FrameCodes | src/codec.rs:395-404 | length and CRC accept exactly the printed frame of the payload |
| Codec.GetRecordCodes | src/codec.rs:345-390 | the payload parser accepts exactly printed records that fit |
| Extra.CanonicaliseMeaning | src/codec.rs:186-208 | the canonical form has each name once, in order, with the least of its values |
| Extra.CanonicalMeans | src/codec.rs:230-232 | canonical in bytes: every name precedes every later one |
| Extra.CanonicalUnique | src/codec.rs:230-232 | there is one canonical form |
| Extra.CanonicalisePermutation | src/codec.rs:186-208 | reordering extra does not change it |
| Extra.CanonicaliseFixpoint | src/codec.rs:230-232 | is_canonical holds exactly for lists that are their own canonical form |
| Extra.SortAndCollapse | src/codec.rs:194-199 | sorting indices and collapsing runs selects the canonical form |
| FrameCodec.Encoder.Encode | src/codec.rs:152-162 | succeeds exactly for encodable records, appends exactly the frame, and restores the buffer otherwise |
| FrameCodec.WriteExtra | src/codec.rs:186-208 | the fast path and the sorting path write the same canonical pairs |
| FrameCodec.DecodePayload | src/codec.rs:345-390 | the cursor-based decoder computes the payload parse |
| FrameCodec.DecodeInto | src/codec.rs:307-316 | decode with reused vectors gives the specified result and leaves the row's keys and extra in them |
| FrameCodec.Cursor.ReadValue | src/codec.rs:500-516 | reads one tagged value, moving past exactly its bytes |
| Segments.SegmentHeaderCodes | src/codec.rs:91-133 | a segment header parses to an id if and only if it is that id's header |
| Segments.HeaderFaults | src/codec.rs:119-133 | each fault of a header and its cause: too short, another magic, another version |
| Segments.WalFile.ScanTail | src/wal/recovery.rs:276-329 | counts the intact frames and truncates the file to its last good offset, or reports the header's fault and changes nothing |
| Segments.AmendedTailIsClean | src/wal/recovery.rs:311-326 | a second recovery changes nothing, though the length cap has shrunk with the file |
| Segments.AmendedTailReadsThrough | src/wal/reader.rs:189-243 | the flush reader meets no terminal fault in an amended tail |
| Segments.ReaderAgreesWithScan | src/wal/reader.rs:189-243 | reader and scan delimit the same frames; records and skippable faults tile the bytes; a terminal fault ends the reader exactly when the scan stops early |
| Segments.ScanOfCut | src/codec.rs:287-301 | a cut concatenation of frames scans to exactly the whole frames before the cut, then a clean end or a truncation |
| Segments.ScanFindsIntactFrames | src/wal/recovery.rs:296-309 | intact frames are all found, in order, whatever follows them |
| Segments.ScanExtends | src/wal/recovery.rs:296-309 | what a scan found stays found in any bytes that keep it |
| Segments.SegmentReader.NextFrame | src/wal/reader.rs:189-243 | yields the items of the segment one by one, faults in their place |
| RowGroups.GroupReassembles | src/flush/parquet.rs:470-535 | a row group whose columns are read one by one, each by its own levels and maximum, is exactly its rows, extra in canonical form and no name or value null |
| RowGroups.FileReadsBack | src/flush/parquet.rs:584-619 | a file of fitting rows reads back, group after group, as exactly those rows, extra in canonical form |
| RowGroups.ReadBackOnce | src/flush/parquet.rs:584-619 | and as nothing else |
| RowGroups.WriteGroup | src/flush/parquet.rs:470-535 | with carried cursors, rows [start, end) give the batches of exactly those rows and leave the cursors where the next group starts |
| RowGroups.WriteKey | src/flush/parquet.rs:493-517 | a key column's slice has one value for each present row |
| RowGroups.WriteFile | src/flush/parquet.rs:584-619 | a whole file is the groups of its rows cut every n |
| RowGroups.PartitionWriter.constructor | src/flush/parquet.rs:640-661 | starts with no rows and a group size of at least one |
| RowGroups.PartitionWriter.Append | src/flush/parquet.rs:664-678 | takes exactly the rows that fit, says when the timestamp is why not, and writes a full group at once |
| RowGroups.PartitionWriter.WriteOut | src/flush/parquet.rs:680-694 | writes the builder's rows as one group with cursors at zero, and clears it |
| RowGroups.PartitionWriter.Finish | src/flush/parquet.rs:696-703 | the streamed file holds exactly the groups the whole-file writer cuts |
| RowGroups.StreamingEqualsWhole | src/flush/parquet.rs:621-622 | streaming and whole-file output of the same rows are the same groups |
| RowGroups.CutKeepsRows | src/flush/parquet.rs:601-612 | the groups of a file hold all rows in order, none lost, repeated or split, and all but the last are full |
| Columns.RowBuilder.constructor | src/flush/parquet.rs:267-284 | empty columns of the declared types |
| Columns.RowBuilder.Append | src/flush/parquet.rs:300-359 | succeeds exactly for rows that fit; a wrong arity or timestamp changes nothing, a type mismatch names the first such column and leaves the columns out of step |
| Columns.RowBuilder.Clear | src/flush/parquet.rs:367-385 | no rows, same columns |
| Columns.AppendHolds | src/flush/parquet.rs:206-230 | a column takes exactly values of its type or null, and then stands for one more |
| Columns.Stored | src/flush/parquet.rs:331-354 | the backstop stores the codec's canonical form |
| StrColumns.Arrays | src/flush/parquet.rs:166-176 | slices of one shared buffer are the strings pushed |
| Levels.MapLevels | src/flush/parquet.rs:407-434 | the levels of each row's map, and how many entries they cover |
| Levels.MapRoundTrip | src/flush/parquet.rs:388-434 | a leaf column of the map written at its maximum level, 1 for keys and 2 for values, reads back row by row with every value present |
| Levels.LowLevelIsNull | src/flush/parquet.rs:388-434 | a slot at a level between would read as a null entry |
| Levels.OptionalRoundTrip | src/flush/parquet.rs:490-497 | present values and levels read back as the column, nulls in place |
| Levels.GroupOpensARow | src/flush/parquet.rs:388-434 | a group's first slot has repetition level 0, so none starts inside a row |
| CivilTime.DaysRoundTrip | src/time.rs:34-46 | every day number has a valid date, and ymd_to_days takes it back |
| CivilTime.DateRoundTrip | src/time.rs:50-58 | every valid date comes back from its day number |
| CivilTime.DaysCountTheCalendar | src/time.rs:34-46 | the next day number is the next calendar day |
| CivilTime.DayZero | src/time.rs:34-46 | day 0 is 1970-01-01 |
| CivilTime.TextRoundTrip | src/time.rs:149-158 | parsing formatted text gives the timestamp back if and only if its year is at most 250000 |
| CivilTime.ParsedInstant | src/time.rs:71-132 | what the parser accepts is the instant written: no calendar or clock field rolls over, and it fits 64 bits |
| HourOrder.TextMeans | src/time.rs:71-132 | the microseconds a date and clock text denotes, field by field |
| HourOrder.FractionMeans | src/time.rs:104-113 | a fraction of one to six digits is that part of a second |
| HourOrder.PartitionIsItsHour | src/time.rs:60-67 | a partition name, read as text, is the start of its hour |
| CivilTime.PartitionNamesHours | src/time.rs:62-67 | two timestamps share a partition name if and only if they share an hour |
| HourOrder.NamesSortByHour | src/time.rs:60-67 | the partition names of all timestamps up to a time sort lexicographically as their hours do if and only if that time is not past the year 9999 |
| HourOrder.FiveDigitYear | src/time.rs:60-67 | the first hour of the year 10000 sorts before the last day of 9999 |
| Names.SegmentNameIsCanonical | src/wal/mod.rs:45-69 | a name parses to an id if and only if it is the name written for it |
| Names.ListSegments | src/wal/mod.rs:92-109 | the ids of recognised names, ascending |
| Names.OutputNameRoundTrip | src/flush/parquet.rs:708-738 | an output name parses to its range and epoch |
| Names.OutputNamesDistinct | src/flush/parquet.rs:708-710 | two output names are equal if and only if range and epoch are |
| Names.RecognisedOutputName | src/flush/parquet.rs:714-738 | a recognised name spells its range canonically |
| Manifest.Manifest.Reconcile | src/manifest.rs:103-156 | refuses exactly on a retype, then changing nothing; otherwise every series of the config, or those before the first that runs out of epochs, ends in its keys, with exactly one epoch more if it was new or its layout differs in length, a name or a type, and none otherwise, and no other series changes; an error leaves the histories changed if and only if nothing retypes and a series before the first exhausted one is new or has different keys; on success it reports a change if and only if there is one |
| Manifest.PartialFold | src/manifest.rs:114-153 | a config that is refused with a series before the exhausted one already folded in |
| Manifest.PartialFoldChanges | src/manifest.rs:114-153 | folding the first series of a config changes the histories if and only if one of them is new or has different keys |
| Manifest.SchemaKept | src/manifest.rs:159-173 | an epoch known to a manifest has the same layout in every later one |
| Manifest.CheckNoRetype | src/manifest.rs:177-195 | accepts exactly the keys that never had another type in any epoch |
| Manifest.FoldKeeps | src/manifest.rs:114-153 | folding keeps epochs 0..n-1, one type for each key name and every earlier layout, and ends in the given keys |
| Manifest.AcceptedKeeps | src/manifest.rs:103-156 | an accepted config keeps every history good and every minted layout, for series it names or not |
| Manifest.HistoryOnlyGrows | src/manifest.rs:103-156 | over every sequence of accepted configs an epoch keeps its names, order and types |
| Manifest.ReconcileTwice | src/manifest.rs:103-156 | the same config again is accepted and changes nothing |
| Manifest.KnownUpToCurrent | src/manifest.rs:159-173 | an epoch has a schema if and only if it is not past the current one |
| Accept.AcceptedIsNeverRejected | src/flush/planner.rs:318-347 | a row append accepted is, after any accepted schema changes and anywhere in a segment, read whole, matches its epoch's schema and, below 2^63, fits the columns |
| Accept.LayoutIsKept | src/engine.rs:145-150 | the epoch a handle stamps is found with its layout in every later history |
| Accept.CheckRow | src/engine.rs:325-357 | passes exactly rows with tsMin <= ts and, unless the clock reads before tsMin, ts <= now + skew, of the declared arity and types, null where nullable; each fault is named, a type fault by the first key |
| Accept.Append | src/engine.rs:420-447 | hands the WAL exactly the frame of an acceptable row, and nothing of another |
| Accept.AppendBatch | src/engine.rs:450-485 | hands the WAL the frames of all rows if every one is acceptable, else nothing |
| Accept.OversizeIsTooLarge | src/engine.rs:36-44 | the size test before encoding refuses only rows whose frame would be too large |
| Accept.MatchingRowsFit | src/flush/planner.rs:221-224 | matches_schema with a timestamp below 2^63 holds exactly for rows the column builder takes |
| Accept.WindowFitsParquet | src/engine.rs:303-310 | every accepted timestamp is below 2^63 if and only if tsMin <= now and now + skew is below it |
| Ingest.AppendRaw | src/engine.rs:490-550 | keeps exactly the accepted frames of the body, byte for byte and in order, and counts every other frame and the bytes behind the last |
| Ingest.IngestRaw | src/engine.rs:490-550 | of a raw body keeps exactly the frames in the window, of an open series and of no epoch after its own, each once, in order and byte for byte, and counts the rest |
| Ingest.SplitKeepsBytes | src/engine.rs:497-514 | splitting a body loses no byte: whole frames, then a rest that starts with none |
| Ingest.SplitsBack | src/engine.rs:497-514 | a body of whole frames splits into exactly those frames if and only if each is within the record limit, and discards bytes otherwise |
| Ingest.SplitsUpTo | src/engine.rs:497-514 | a body of whole frames splits into those before the first one over the limit, and everything from that one on is the rest |
| Ingest.SentBatchArrives | src/engine.rs:490-550 | in every state of a client, message i is the i-th batch sent, and the server splits it into that batch's frames up to the first over its record limit, into all of them if and only if none is |
| Ingest.KnownHasSchema | src/engine.rs:519-531 | a frame kept because its epoch is at most the current one has a schema, with one layout, in the manifest of the time and in every later one |
| Client.Client.constructor | src/client.rs:122-164 | an empty buffer that balances |
| Client.Client.Send | src/client.rs:319-344 | accepts exactly records that encode and fit a message alone; otherwise changes nothing; a batch leaves exactly when it is full by count or the record would not fit beside it; sent, dropped and buffered frames stay the accepted ones in order, and the counters those of the sent and of the dropped batches |
| Client.Client.Flush | src/client.rs:352-391 | the buffered frames leave as one batch, sent or dropped |
| Client.MessagesFit | src/client.rs:352-391 | in every state of a client the messages are the sent batches in order, each within the limit, its header counting its frames and its body whole frames end to end |
| Client.BatchHeaderCodes | src/codec.rs:104-133 | a batch header parses to a count if and only if it is that count's header |
| Client.BatchHeaderFaults | src/codec.rs:119-133 | each fault of a batch header and its cause: too short, another magic, another version |

## Left out

- FrameCodec.Buffer, FrameCodec.Scratch and the smaller Cursor methods have contracts of their own but no row: they are steps of the encoder and decoder above.
- Batch.Batch.Push: requires the frame to stay under 2^32, which its length field needs.
- Flush.FlushSegments: requires segments under 4 GiB and series names under 65512 bytes; longer names, which the config admits, lose records (LongNameFlush.DeliversExactlyWhen). What a flush of several segments does with them once it spills, when run files are read back in an order they were not sorted in, is not modelled.
- Batch.Batch.Sort: compares group keys where the source compares their precomputed ranks; the order is the same.
- FlushSort.SortFlush: the group table is a list of runs in spill order, and the order in which groups are merged is not stated.
- Protocol steps: rename and unlink take effect at once; a directory fsync that a crash undoes is not modelled, nor is an fsync that reports success after an earlier failure lost pages.
- ProtocolSafety.SweepOrphanStep: the sweep removes every uncovered file in series/; the source only warns when such a removal fails. With a failed manifest write treated as a crash there are no such files.
- WalWriter.Shared.Roll: a creation that fails after the new file exists is modelled only as a crash; in the source the process goes on with the old segment beside the leftover file, and later rolls are refused because the name is taken.
- Header damage in the protocol model makes a header unreadable; damage that shortens a file below its header is not modelled.
- Wal.Step.Roll: a segment id of 2^64 - 1 has no successor.
- Client.Client.Send: socket errors other than a full queue, and `refresh_schema`, which may lower the limit under a filled buffer.
- `require_manifest_for_output`: refusing a directory whose manifest is lost.
- The directory lock and heartbeat, the committer's and the flush timer's timing, ZeroMQ, the control protocol and shutdown.
- Parquet schema text, encodings, compression, statistics and file bytes: the model ends at the column batches handed to the writer.
- JSON config and manifest text, config validation beyond the facts used, view.sql, logging, the rejects/ directory and its cap.
- The claim that decoding under the wrong arity is always corrupt, which is not true of every frame.
