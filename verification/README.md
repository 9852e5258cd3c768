# A model of the wal-demo write-ahead log and key/value store

This project models the segmented write-ahead log of `internal/wal` and the
key/value store of `internal/store` that recovers from it, down to bytes and
file offsets, and proves that the pair is crash consistent.

The abstract log is a sequence of payloads `h` (record `s` carries `h[s - 1]`)
with a durable watermark. Everything the code keeps (segment files, the group
commit buffer, the index, the four watermarks, the byte counter) is tied to `h`
by one invariant, `LogState.Inv`. Every operation is proved to keep it at every
intermediate moment, for every outcome of the file system; every crash image of
every such moment is proved to recover.

## How it is built

| layer | files | what it holds |
|---|---|---|
| bytes | `Bytes`, `Checksum`, `Framing`, `KnownAnswers` | big-endian words, CRC-32C of RFC 3720 section 12.1 as a shift register on bits, fragments, frames, the decoder; its published check value and two files down to the byte |
| scanning | `Scan`, `History`, `ScanSound`, `Recovery` | the recovery scan of one file and of all files on arbitrary bytes, and what it finds on bytes the log wrote |
| the log as a value | `LogState`, `LogSteps`, `LogOnward`, `LogCrash`, `LogReads`, `LogDamage`, `LogFaults`, `LogMissing`, `LogClean`, `LogOutcomes`, `LogReports`, `LogBackground`, `LogRuns` | flush, rotate, append, crash images, reopen, read, damage, missing segments and fault injection, cleanup, when each call succeeds and what it reports, what other goroutines do, whole lives of a handle |
| the store as a value | `Snapshots`, `PlainCodec`, `StoreState`, `Folds`, `StoreProofs`, `StoreBatch`, `StoreRestart`, `StoreEffects`, `LiveReplay`, `LossyRuns`, `Events`, `Runs` | commands, snapshot file, apply, batches, restart, what each call leaves in memory, what failed writes cost, runs with failures and crashes |
| the objects | `WalParts`, `Wal`, `KVStore` | classes with the fields and loops of the Go code, each method proved equal to the function of the value layer |

The value layer is a specification and is never the claim by itself: what an
operation promises is proved about it (`FlushConfirmsAll`, `AppendKeeps`,
`RestartRebuilds`, ...), and the `ensures` of the methods connect the loops and
field updates to it.

A file is its bytes and the length an fsync has confirmed. A crash keeps the
confirmed bytes and any byte prefix of the rest of the last segment and of what
was about to be written to it (`LogCrash.Survives`), so a crash inside a
partial write, before the fsync or during the rollback of a short write is one
of the cases.

## The main results

1. **End to end.** `Runs.CrashConsistency`: in every run of Set, Delete,
   SetBatch, Snapshot, Reload, background flushes, live rescans, cleanings and
   damage to the snapshot file, with any failures, with flushes, rescans and
   cleanings also between the calls of a SetBatch, a crash at any moment of any
   operation, any number of attempts to reopen that crash or fail in turn, any
   number of restarts, and callers that do what they like after an error, the
   reopened store is the fold of the first `n` commands issued, less exactly the
   commands its snapshot had passed over and those that were removed from the log
   and are not in its snapshot (`StoreRestart.LeftOut`); `n` is at least the last
   acknowledged sequence. It is the plain fold if and only if those are harmless
   (`Folds.Harmless`). Nothing is asked of when the log is cleaned; the corollaries
   say what a careful caller gets (`Runs.Careful`: cleaning only below the
   snapshot, damage only while the log has everything, snapshots only of a memory
   that the log completes, which `Runs.SnapshotIsCareful` shows of all that are
   taken while no failed Reload stands):
   `Runs.CarefulIsRetained` (log and snapshot together always have everything),
   `Runs.PrefixConsistency` (the plain fold of a prefix after every restart, if
   every snapshot was taken of a memory that was the fold of what it had applied),
   `Runs.InStepIsFaithful` (it was, if every write was issued with the last
   sequence applied, which a caller can check) and
   `Runs.AcknowledgedIsNeverPassed` (what was acknowledged is never missing, unless
   a write succeeded while a failed Reload stood).
   The condition behind the last one is exact: `Runs.PassedIff` for one write at
   any point of any run and `Runs.NeverPassedIff` for whole runs (memory never
   lacks anything acknowledged below what it applied if and only if no write
   succeeded with memory behind the last acknowledged sequence);
   `Runs.BehindIsStale` shows that only a failed Reload leaves memory there.
   `Runs.AcknowledgedIsForever`: an acknowledged prefix of the log never changes
   again. `Runs.CrashIsPossible`: the crashes quantified over do happen, opening
   never fails after one.
2. **Torn tails.** `History.TornTail`, `LogCrash.CrashRecovers`: cutting at any
   byte is never reported as corruption, and what is kept is exactly the records
   whose whole encoding fits. `Scan.CutAnywhere` says the same of arbitrary
   bytes.
   What recovery accepts is exact too: `ScanSound.DecodesIff` (the decoder accepts
   what the encoder writes and nothing else), `ScanSound.KeptIsAccounted` (every
   byte kept is part of a record found there, or padding), and
   `LogMissing.OpenedInOrder` (each segment starts behind the last record found
   before it). `LogMissing.MissingSegment` and `ShortSegment` say what recovery
   makes of a directory that lacks a segment file or the end of a sealed one.
3. **Recovery is idempotent on arbitrary bytes.** `Recovery.RecoveryIdempotent`,
   including a crash before, after or in the middle of the truncation,
   `Recovery.FailedRepairIsHarmless` when the truncation or its fsync fails, and
   `Recovery.AttemptsAreHarmless` for any number of such attempts in turn.
4. **On-disk prefix, byte conservation, index.** `LogRuns`: over the whole life
   of a handle, files plus buffer are the encoding of the history, the metrics
   account for every byte, and the incrementally kept index is what a rescan
   would build.
5. **Flush.** `LogState.FlushKeepsUnlessRollbackFails` is an if-and-only-if: the
   one branch that breaks the log is the failed rollback of a short write.
   `LogOutcomes.LostRollback` says what is left then: a disk that recovers like
   after a crash, and a handle whose next flush can report success and confirm
   nothing. `LogOutcomes.AppendOutcomes`, `AppendSyncs`, `AppendOnlyBuffers` and
   `AppendRotatesIff` are the whole policy of an append: which failure gets which
   reply, when it is durable on return, when nothing is written, and when a new
   segment is started.
6. **Damage.** `Framing.DamageCaught` (any change of one to four consecutive
   bytes inside a header field other than the length, or inside the sequence
   number and payload), lifted to a whole log by
   `LogDamage.EveryDamageIsReported`: recovery names the segment and offset of
   the damaged fragment. The length field is the exception:
   `Framing.LengthDamage` lists all that can happen to one decoding,
   `LogDamage.LengthDamageLosesRecords` says, for each of them after which the
   fragment does not decode, what recovery does and exactly when it succeeds, and
   `LogDamage.LengthByteLosesRecord` is a log of twenty bytes on which one byte
   costs a durable record without an error. `LogFaults.FaultIsExact` is about the
   injected fault, `Snapshots.DamagedSnapshotRejected` and
   `StoreRestart.EverySpoiledSnapshotFallsBack` about the snapshot.
7. **What callers see.** `StoreEffects.MutateEffect` and `BatchEffect`: under which
   keys a Set, Delete or SetBatch changes memory and to what, for every outcome.
   `LogReports.VerifyCounts`, `VerifyAfterFault` and `SummaryCounts`: the numbers
   Verify and recovery report. `StoreEffects.DamageStopsReload`: after an injected
   fault every Reload names the place and leaves memory with what comes before it.
   `KnownAnswers.CheckValue`, `OneFrame` and `OneSnapshot` pin the bytes: the
   published check value of CRC-32C, one record and one snapshot file.
8. **What a failed operation can cost.** A write that fails once its sequence is
   assigned leaves its record in the buffer. A later successful write makes it
   durable and the store passes over it. `LossyRuns` has four concrete runs,
   down to the bytes: `FailedWriteIsSkipped` (live memory lacks a key the log
   has), `SnapshotMakesItPermanent` (a successful Snapshot and a crash later the
   store is the fold of no prefix of the issued commands),
   `FailedReloadDropsAcknowledged` (after a Reload that failed, a successful Set
   leaves memory without an acknowledged command) and
   `UnreadableSnapshotLosesAcknowledged` (a Reload that cannot read the snapshot
   file leaves memory empty; a Snapshot then replaces the good file, and over a
   cleaned log an acknowledged command is gone for good).
   The exact conditions are for-all: `LiveReplay.LiveEqualsReplayIff` and
   `Runs.MemoryInRuns` (after any stretch of successful and failed writes memory
   is the fold of exactly the commands it applied, and equals the replay of the
   log if and only if those missing are harmless),
   `LiveReplay.MutateEqualsReplayIff` and `BatchEqualsReplayIff` (the same,
   told before the call), `LiveReplay.SnapshotCrashIff`,
   `WriteSnapshotCrashIff` and `UnreadableReloadIff` (a snapshot, then any crash).
   Harmless is a condition on the log and on the sequences passed over: each key
   one of them writes has its last logged write applied, or that write leaves what
   the last applied one left.

## Where code and documentation differ

The model follows the code.

- `docs/PROJECT_DOC.md:141-153` says that damage stops the scan of its segment,
  that later records are dropped with a warning and that other segments are not
  affected. The code returns a `CorruptionError` and `Open` fails
  (`internal/wal/recovery.go:36-42`, `internal/wal/recovery.go:91-102`); only
  an early end of the last file is repaired.
- `docs/PROJECT_DOC.md:453` promises that flipping a single byte always fails.
  A change of a length byte can instead look like a file that ended early
  (`Framing.LengthDamage`); in the last segment recovery then cuts the log off
  there and reports no error (`LogDamage.LengthDamageLosesRecords`).
- `docs/PROJECT_DOC.md:168` promises that recovered data equals the replay of the
  log at any moment. Result 8 says when a snapshot breaks that.
- Damage to a record of the last segment is reported, not trimmed, unless it
  makes the file end early; `docs/PROJECT_DOC.md:69` describes trimming.

## Assumptions

- A short write can be rolled back (`RollbackWorks`), except where the theorem
  says what happens otherwise.
- Bytes that `Open` finds are stable; recovery takes them as durable without an
  fsync (`internal/wal/recovery.go:73`).
- Creating a segment file and renaming the snapshot survive a crash.
- Sequence numbers stay below 2^64 and snapshot bodies below 2^32 bytes.
- The store is the only writer of its log.
- `encoding/json` is a parameter with three laws (`Snapshots.Lawful`); keys are
  compared in the normal form JSON gives them. `PlainCodec.PlainIsLawful` exhibits
  a codec that satisfies them.

## Model

| member | source | states |
|---|---|---|
| Checksum.HashAppend | internal/wal/checksum.go:18-21 | feeding the header fields and then the payload to a running hash gives the checksum of their concatenation |
| Checksum.ShiftInjective | internal/wal/checksum.go:11-21 | one step of the Castagnoli register never merges two states |
| Checksum.BurstDetected | internal/wal/checksum.go:13-26 | two messages that differ only inside one window of at most four bytes, in messages of any length, have different CRC-32C |
| Checksum.Write | internal/wal/checksum.go:18-21 | the byte loop of the running hash computes the CRC of the bytes fed, continued from the previous value |
| Checksum.RecordChecksum | internal/wal/checksum.go:13-22 | flags, length and sequence number in big-endian order, then the payload, are what the record checksum covers |
| KnownAnswers.CheckValue | internal/wal/checksum.go:8 | the checksum of the nine bytes "123456789" is E3069283, the published check value of CRC-32C: polynomial, preset, bit order and final complement |
| KnownAnswers.CrcIsNat | internal/wal/checksum.go:8-22 | for every message the register on bits is the usual shift-and-xor register on 32-bit numbers |
| Framing.SplitPayload | internal/wal/record.go:24-46 | the loop yields the fragments of the payload |
| Framing.FragmentsShape | internal/wal/record.go:24-46 | exactly the first fragment is First and exactly the last is Last, all but the last are full, none is padding, and joined they are the payload |
| Framing.EncodedSize | internal/wal/record.go:48-54 | the size computed before writing is the number of bytes written |
| Framing.EncodeRecord | internal/wal/record.go:56-70 | appends one whole frame, or nothing exactly when the data does not fit a 32-bit length |
| Framing.HeaderFields | internal/wal/record.go:59-86 | the header reads back as the five fields it was written from |
| Framing.FrameDecodes | internal/wal/record.go:88-110 | a frame anywhere in a file decodes to its record and to the offset right behind it |
| Framing.CutFrameIsEndOfFile | internal/wal/record.go:88-110 | a frame cut at any byte is reported as an early end of the file and as nothing else |
| Framing.DecodeCut | internal/wal/record.go:88-110 | for arbitrary bytes, cutting the file changes a decoding only into an early end |
| Framing.DamageCaught | internal/wal/record.go:88-110 | changing one to four bytes of one field, other than the length, of any frame that decodes makes decoding fail, and never as an early end |
| Framing.LengthDamage | internal/wal/record.go:96-109 | all outcomes of a damaged length field, each with its exact condition |
| KnownAnswers.OneFrame | internal/wal/record.go:56-70 | record 1 with the payload [7], down to the byte: magic, flags, checksum, length, sequence, payload |
| ScanSound.DecodesIff | internal/wal/record.go:88-110 | on arbitrary bytes the decoder accepts a record if and only if its frame, within the limit, stands at that place |
| Scan.TailProgress | internal/wal/recovery.go:87-139 | a scan keeps what it had, every new record ends behind the point it started from and before the point the file is cut |
| Scan.CutAnywhere | internal/wal/recovery.go:87-139 | for arbitrary bytes that scan, cutting anywhere still scans, and keeps exactly the records that end before the cut |
| Scan.RepairIsIdempotent | internal/wal/recovery.go:99-111 | scanning the repaired file, or one cut anywhere between repair and full length, ends the same |
| ScanSound.KeptIsAccounted | internal/wal/recovery.go:87-139 | whatever the bytes of a last segment that recovery accepts, what it keeps is the records it found, whole and in their places, and padding: nothing skipped, made up or pieced together |
| ScanSound.WholeIsAccounted | internal/wal/recovery.go:87-139 | likewise all of every other segment |
| ScanSound.PaddingIsSkipped | internal/wal/recovery.go:104-107 | padding is passed over wherever it stands |
| History.ScanStretch | internal/wal/recovery.go:87-139 | on any stretch of the encoding of a history the scan returns the payloads in order with their places, with any fragment limit at least the one used for writing |
| History.TornTail | internal/wal/recovery.go:87-139 | a log cut at any byte is kept up to the end of the last record that fits whole |
| History.FittingIsLargest | internal/wal/recovery.go:87-139 | that record is the largest one that fits |
| History.ReadRecord | internal/wal/reader.go:36-61 | reading at the place of a record returns its payload |
| ScanSound.ReadIsSound | internal/wal/reader.go:36-61 | on arbitrary bytes a payload is read only if the frames at the place say so: all of this record, the first First, only the last Last |
| Recovery.RecoverConsecutive | internal/wal/recovery.go:108-132 | on arbitrary files a scan that succeeds has found consecutive sequence numbers |
| Recovery.IndexOfConsecutive | internal/wal/recovery.go:120-132 | the rebuilt index has exactly the records the scan found, at the places it found them |
| Recovery.RecoveryIdempotent | internal/wal/recovery.go:26-85 | on arbitrary segment bytes a second scan of the repaired files finds the same records, last sequence and index and truncates nothing, also when the truncation stopped half way |
| Recovery.FailedRepairIsHarmless | internal/wal/truncate.go:14-26 | when the truncation or its fsync fails, the next attempt finds the same records, last sequence and index |
| Recovery.AttemptsAreHarmless | internal/wal/truncate.go:14-26 | after any number of attempts to open that crash or fail in the middle of the repair, the next one finds the same log |
| Recovery.RecoverHeld | internal/wal/recovery.go:26-85 | files that hold a history, the last one cut anywhere, recover to exactly the records that are whole |
| Recovery.RebuiltIndex | internal/wal/recovery.go:120-132 | the index of those files has every surviving record at the segment, offset and size it was written with |
| LogMissing.OpenedInOrder | internal/wal/recovery.go:35-42 | recovery accepts arbitrary files only if each starts right behind the last record found before it; every record lies in the segment of its sequence, and all that is kept of each file is accounted for |
| LogState.FlushKeepsUnlessRollbackFails | internal/wal/fsync.go:7-37 | over all outcomes of write, truncate and fsync the log invariant survives a flush if and only if no rollback failed |
| LogState.FlushConfirmsAll | internal/wal/fsync.go:7-37 | a successful flush makes every assigned sequence durable and empties the buffer; a failed one moves the durable mark not at all |
| LogOutcomes.FlushSucceedsIff | internal/wal/fsync.go:7-37 | a flush succeeds if and only if nothing was unconfirmed, or the whole buffer is written and the fsync works |
| LogOutcomes.FlushLosesIff | internal/wal/fsync.go:9-26 | a flush breaks the log invariant if and only if its write stopped part way and what had reached the file could not be taken back |
| LogOutcomes.LostRollback | internal/wal/fsync.go:9-26 | after a rollback that failed the disk is that of a crash at that point, but the next flush of the open handle can report success and confirm nothing |
| LogSteps.CreatedKeeps | internal/wal/fsync.go:39-51 | rotation never picks an existing start sequence and keeps the invariant |
| LogSteps.RoomKeeps | internal/wal/wal.go:93-102 | the rotation decision keeps the invariant; afterwards the record fits the segment limit or has the segment to itself |
| LogSteps.PutKeeps | internal/wal/wal.go:103-109 | buffering and indexing a record extends the history by its payload |
| LogSteps.AppendKeeps | internal/wal/wal.go:81-117 | each outcome of an append with its effect on history, next sequence and durable mark; a forced append that succeeds is durable |
| LogSteps.AppendStepsKeep | internal/wal/wal.go:81-117 | the same at every intermediate state of an append |
| LogOutcomes.AppendOutcomes | internal/wal/wal.go:81-117 | each outcome of an append with its exact condition: too big, rotation failed, flush due and failed |
| LogOutcomes.AppendSyncs | internal/wal/wal.go:110-115 | an append that succeeds under SyncAlways, or forced, is durable, and in any case the buffer is below the batch size |
| LogOutcomes.AppendOnlyBuffers | internal/wal/wal.go:103-116 | with room in the segment and in the batch, an append not forced buffers the record and touches no file |
| LogOutcomes.AppendRotatesIff | internal/wal/wal.go:93-102 | an append starts a new segment if and only if something is in the current one and the record does not fit behind it |
| LogCrash.DiskIsPrefix | internal/wal/fsync.go:7-37 | segment files in order, then the buffer, are the encoding of the retained history: nothing duplicated, reordered or split over segments |
| LogCrash.CrashRecovers | internal/wal/recovery.go:26-85 | every crash image of a log in any reachable state recovers, to a prefix of the history |
| LogCrash.DurableSurvives | internal/wal/recovery.go:26-85 | that prefix has everything confirmed and nothing that was never assigned |
| LogCrash.ReopenedKeeps | internal/wal/wal.go:33-64 | the reopened handle satisfies the whole invariant again, for the surviving history, with a complete index |
| LogCrash.RescanAgrees | internal/wal/recovery.go:119-132 | a rescan of a flushed, uncleaned log rebuilds the same index, next sequence and durable mark and truncates nothing |
| LogReads.IndexReadsBack | internal/wal/reader.go:36-61 | every index entry that is on file reads back the payload it was appended with |
| LogReads.ReadReturnsAppended | internal/wal/reader.go:18-34 | Read returns the appended payload, flushing first if needed, or not found, or the flush error |
| LogReads.WalkDelivers | internal/wal/replay.go:21-52 | Replay delivers every indexed durable record once, in order, with its payload |
| LogReads.ReplayDeliversAll | internal/wal/replay.go:28-50 | with a complete index these are all records from the first retained one to the last durable one |
| LogDamage.ScanBefore | internal/wal/recovery.go:89-134 | a scan reaches any fragment of a record with the fragments before it assembled |
| LogDamage.BadRecover | internal/wal/recovery.go:35-55 | a fragment that does not decode, in any segment, stops recovery at its segment and offset, whatever follows; an early end of the last file cuts the record off |
| LogDamage.DamagedFragment | internal/wal/recovery.go:87-104 | the same for any fragment of a healthy log whose bytes, from that fragment on, are replaced by anything |
| LogDamage.EveryDamageIsReported | internal/wal/recovery.go:99-104 | any single-byte change outside a length field, in any fragment of any segment, is reported at that fragment's segment and offset |
| LogDamage.LengthDamageLosesRecords | internal/wal/recovery.go:91-100 | a damaged length after which the fragment does not decode goes unreported if and only if it is in the last file, within the limit, and points past the end: recovery then succeeds without the durable records from there on; everything else is reported at that place |
| LogDamage.LengthByteLosesRecord | internal/wal/recovery.go:91-100 | a log of one record and one changed byte on which that happens |
| LogMissing.MissingSegment | internal/wal/recovery.go:35-42 | of a flushed log a missing segment file is noticed if and only if it is neither the first nor the current one, and the error names the segment behind the gap |
| LogMissing.ShortSegment | internal/wal/recovery.go:35-55 | a segment before the current one that is cut at any byte is reported, as a gap exactly when the cut falls between two records |
| LogFaults.FaultIsExact | internal/wal/replay.go:119-149 | after Corrupt, that record fails at its own place, all others read back, Verify counts exactly those below it, recovery reports that place, and a second Corrupt restores the file |
| LogFaults.InjectOutcomes | internal/wal/replay.go:119-149 | each outcome of Corrupt with its exact condition, not found if and only if the sequence is not indexed, and the one byte that changes on file |
| LogReports.VerifyCounts | internal/wal/replay.go:55-82 | with a complete index Verify counts every retained record, adds up exactly their payloads and names the last |
| LogReports.VerifyAfterFault | internal/wal/replay.go:55-82 | after Corrupt of a record it counts and adds up exactly the records below it, and is not satisfied |
| LogReports.ValidIff | internal/wal/replay.go:55-82 | of any log Verify is satisfied if and only if its flush works and every durable record in the index reads |
| LogReports.SummaryCounts | internal/wal/recovery.go:70-84 | after a crash recovery reports the number of surviving records, the last of them, and a truncation exactly when something was left behind it |
| LogClean.RemovedIsPrefix | internal/wal/replay.go:92-112 | what the cleaning loop drops is a prefix of the segments, wholly below the mark, as long as possible, and never the current one |
| LogClean.CleanIsSafe | internal/wal/replay.go:86-116 | after cleaning every record at or above the mark still reads back, the invariant holds and the next sequence is unchanged |
| LogOutcomes.CleanNeedsFlush | internal/wal/replay.go:92-94 | a cleaning whose flush fails removes nothing |
| LogClean.CleanCrashKeepsSequence | internal/wal/replay.go:97-108 | a crash between two file removals recovers with the same last sequence as without the cleaning |
| LogClean.ReportIsExact | internal/wal/segment.go:116-140 | the reported ranges tile all retained sequences without gap or overlap, and reported bytes are the encoded size of the range |
| LogClean.ReportCoversIndex | internal/wal/reader.go:72-81 | each indexed record lies in the segment that the search by sequence finds |
| LogClean.AppendConserves | internal/wal/fsync.go:20-34 | an append, with every outcome of its rotation and flush, keeps the count of bytes written equal to the encoded size of the records confirmed |
| LogClean.FlushConserves | internal/wal/fsync.go:7-37 | so does a flush, failed or not |
| LogClean.ConservedTotal | internal/wal/fsync.go:20-34 | bytes written, bytes unsynced and bytes buffered add up to the encoded size of the records appended |
| LogBackground.RescanKeeps | internal/wal/wal.go:149-166 | a Recover on an open handle keeps the invariant, the next sequence and everything confirmed or indexed |
| LogBackground.CleaningMoments | internal/wal/replay.go:97-108 | every half-done cleaning keeps the invariant and every record at or above the mark |
| LogBackground.BackgroundKeeps | internal/wal/fsync.go:53-74 | so does each state of a flush, a rescan or a cleaning by another goroutine |
| LogBackground.AllBackgroundKeeps | internal/wal/fsync.go:53-74 | and any sequence of them |
| LogRuns.RunKeeps | internal/wal/wal.go:81-128 | any sequence of appends and flushes with any failures keeps the invariant, extends the history and never lowers the durable mark |
| LogRuns.RunAccountsForEveryByte | internal/wal/fsync.go:7-37 | at any moment of such a run the metrics add up to the bytes of this handle's records, and files plus buffer encode the whole retained history |
| LogRuns.RunAgreesWithRescan | internal/wal/recovery.go:26-85 | after any such run and a successful flush, a rescan finds the index and counters the handle kept |
| Snapshots.CommandRoundTrip | internal/store/state.go:19-38 | a command is refused exactly for the empty key and otherwise decodes to itself, its key in normal form |
| Snapshots.CommandsAccepted | internal/store/state.go:26-38 | a payload is taken for a command if and only if it parses to a known operation on a key that is not empty |
| PlainCodec.PlainIsLawful | internal/store/state.go:19-38 | the laws the store relies on can be met: a concrete codec for commands and snapshot bodies |
| Snapshots.SnapshotRoundTrip | internal/store/snapshot.go:64-187 | the snapshot file that is written is read back as the state it was taken of |
| Snapshots.FrameIff | internal/store/snapshot.go:164-187 | magic, length and checksum of a snapshot file are accepted if and only if it is the file written for its body |
| KnownAnswers.OneSnapshot | internal/store/snapshot.go:64-74 | a snapshot file down to the byte |
| Snapshots.TruncatedSnapshotRejected | internal/store/snapshot.go:164-187 | no strict prefix of a snapshot file is accepted |
| Snapshots.DamagedSnapshotRejected | internal/store/snapshot.go:164-187 | no single-byte change, in any field, and no change of up to four bytes of the body is accepted, and which check refuses it |
| StoreProofs.FlushSound | internal/wal/fsync.go:53-74 | a background flush keeps the store invariant |
| StoreProofs.BackgroundSound | internal/wal/replay.go:86-116 | so does every moment of a flush, rescan or cleaning behind the store's back; below the mark of the cleaning nothing is promised, at or above it nothing is removed |
| StoreProofs.MutateKeeps | internal/store/store.go:82-151 | Set and Delete keep the store invariant from any memory and with any outcome; one that succeeds is durable and applied, and passes over what was assigned before and never applied |
| StoreProofs.MutateStepsSound | internal/store/store.go:82-151 | at every intermediate state memory is the fold of commands 1 to applied less those passed over, and all of them are durable |
| StoreEffects.ApplyRefuses | internal/store/store.go:57-70 | a payload is refused exactly when it is no command, even when its sequence was seen, and memory moves only to a later sequence |
| StoreEffects.MutateEffect | internal/store/store.go:82-151 | Set or Delete that succeeds changes exactly its own key, and one that fails changes nothing |
| StoreEffects.MutateReplies | internal/store/store.go:82-151 | the empty key is refused without touching anything; otherwise the reply is the sequence, or the failure of the append |
| StoreBatch.AppendAllKeeps | internal/store/store.go:116-123 | the appends of a batch, up to the first failure and with any work of other goroutines before each, keep the log invariant at every step |
| StoreBatch.BatchKeeps | internal/store/store.go:102-133 | the same for a whole batch, with any such work also before its sync: one sync confirms it, then every command is applied in order, or none |
| StoreEffects.BatchCommands | internal/store/store.go:108-115 | command i of a batch sets the key of pair i to its value |
| StoreEffects.BatchEffect | internal/store/store.go:102-133 | a batch that succeeds leaves under each of its keys the value of the last pair with that key and every other key as it was; one that fails changes nothing |
| StoreEffects.BatchRefused | internal/store/store.go:108-115 | a batch with an empty key in it is refused before anything is appended |
| StoreEffects.BatchReplies | internal/store/store.go:102-133 | any other batch gets the failure of its appends, or of the sync, or one sequence for each pair in order |
| StoreEffects.FirstFailure | internal/store/store.go:116-123 | the failure of its appends is that of the first append that fails |
| StoreRestart.SnapshotKeeps | internal/store/snapshot.go:54-86 | taking a snapshot succeeds exactly when the flush and all file steps do, the file then holds the state of memory, and every moment in between is sound |
| StoreEffects.SnapshotOutcomes | internal/store/snapshot.go:54-86 | the file is replaced exactly when every step up to the rename works, and each failure gets its reply |
| StoreRestart.ReplayKeeps | internal/store/store.go:50-52 | from any sound memory, replay applies in order exactly the commands above applied that the log still has, and what it thereby passes over is exactly what was removed |
| StoreRestart.ReloadRebuilds | internal/store/store.go:209-222 | a Reload that succeeds has the snapshot and everything the log still has; where the log completes the snapshot that is the full fold less what the snapshot passed over; replaying again changes nothing |
| StoreEffects.FailedReload | internal/store/store.go:209-222 | what a Reload leaves in memory when the snapshot cannot be read, and when the flush fails |
| StoreEffects.DamageStopsReload | internal/store/store.go:209-222 | after Corrupt every Reload fails with the place of the damaged record, and leaves memory with the snapshot and what the log has below it |
| StoreRestart.RestartRebuilds | internal/store/store.go:45-54 | whatever moment a crash hits and whatever was cleaned, Open and New give the fold of a prefix that has everything durable, less exactly what the snapshot passed over and what is neither in it nor on the log |
| StoreRestart.DamagedSnapshotFallsBack | internal/store/store.go:47-49 | a lost or invalid snapshot leads to the replay of what the log still has; with no segment removed that is the full replay, and the store the good file would give if and only if the good one passed over nothing that matters |
| StoreRestart.EverySpoiledSnapshotFallsBack | internal/store/snapshot.go:164-187 | so for every strict prefix and every single-byte change of the snapshot file |
| Folds.FoldByLastWrite | internal/store/store.go:72-79 | after any stretch of commands, any of them passed over, a key has the value of its last write that was applied |
| Folds.HarmlessIff | internal/store/store.go:66-70 | leaving commands out changes nothing if and only if for each key one of them writes the last logged write leaves what the last applied one left |
| LiveReplay.LiveEqualsReplayIff | internal/store/store.go:57-151 | at any time, after any successful and failed writes, memory equals the replay of the whole log if and only if the commands it does not have are harmless |
| LiveReplay.MutateEqualsReplayIff | internal/store/store.go:82-98 | the same for one successful Set or Delete, decided by what was missing before the call |
| LiveReplay.BatchEqualsReplayIff | internal/store/store.go:102-133 | the same for one successful SetBatch |
| LiveReplay.SnapshotCrashIff | internal/store/snapshot.go:54-105 | after a successful snapshot and any crash the store has every assigned command but those memory had passed over and those neither memory nor the log had, and is the plain fold if and only if those are harmless |
| LiveReplay.WriteSnapshotCrashIff | internal/store/snapshot.go:54-105 | a successful write, a successful snapshot, any crash: the live map comes back, and is the plain fold if and only if what was missing before the write is harmless |
| LiveReplay.UnreadableReloadIff | internal/store/store.go:209-222 | after a Reload that could not read the snapshot file, a successful snapshot and any crash, the store lacks everything that was removed from the log, and is the plain fold if and only if that is harmless |
| LiveReplay.GoodAppendSucceeds | internal/wal/wal.go:81-117 | an append that fits the limits is assigned, and succeeds when its flush does |
| LossyRuns.FailedWriteIsSkipped | internal/store/store.go:89-98 | a Set whose fsync fails, followed by one that succeeds, leaves memory without a key that a replay has |
| LossyRuns.SnapshotMakesItPermanent | internal/store/snapshot.go:54-105 | with a snapshot and a crash after that run the store is the fold of no prefix of the issued commands |
| LossyRuns.FailedReloadDropsAcknowledged | internal/store/store.go:209-222 | after a Reload whose flush failed, a Set that succeeds leaves memory without an acknowledged command |
| LossyRuns.UnreadableSnapshotLosesAcknowledged | internal/store/snapshot.go:88-105 | two acknowledged Sets, a snapshot, a cleaning below it, a Reload that cannot read the file, another snapshot, any crash: the first key is gone although its command was acknowledged |
| Events.EventMoments | internal/store/store.go:57-222 | at every atomic step of every operation memory is the fold of commands 1 to applied less a known set, all of them durable, the durable mark does not go back, applied goes back only in Reload, and nothing at or above the mark of a cleaning is removed |
| Events.EventRests | internal/store/store.go:82-222 | every completed operation leaves the store at rest for the history it assigned; an acknowledged write has its sequence, applied and durable |
| Runs.CrashIsPossible | internal/wal/recovery.go:26-85 | after a crash at any moment with any surviving bytes, opening succeeds |
| Runs.MoveKeeps | internal/store/store.go:45-151 | one operation, completed or cut by a crash, keeps the acknowledged prefix |
| Runs.CrashRests | internal/store/store.go:45-54 | a crash in any operation and the restart after it give the fold of a prefix less exactly what is left out, whatever attempts to reopen came to nothing in between |
| Runs.RunIsGood | internal/store/store.go:45-151 | so does every run, whatever callers do after an error |
| Runs.AcknowledgedIsForever | internal/store/store.go:82-133 | what was acknowledged at one point of a run is the same prefix of the history at every later point |
| Runs.MemoryInRuns | internal/store/store.go:57-151 | at every point of every run memory is the fold of exactly the commands it applied, with the exact condition for being the replay of the log |
| Runs.CrashConsistency | internal/store/store.go:45-151 | crash consistency of all runs, end to end, with the exact set of commands left out and the exact condition for the plain fold of a prefix |
| Runs.CarefulIsRetained | internal/wal/replay.go:84-116 | with cleaning only below the snapshot, at rest or inside a batch, log and snapshot together have every assigned command at every point of a run |
| Runs.PrefixConsistency | internal/store/store.go:45-54 | with such cleaning and faithful snapshots every restart is the plain fold of a prefix that has everything acknowledged |
| Runs.InStepIsFaithful | internal/store/store.go:195-199 | with such cleaning, writers that wait until the last sequence is applied keep memory, and every snapshot, faithful |
| Runs.PassedIff | internal/store/store.go:82-133 | a write that succeeds, at any point of any run, leaves memory with everything acknowledged if and only if memory had reached the last acknowledged sequence |
| Runs.NeverPassedIff | internal/store/store.go:82-133 | over a whole run memory never lacks anything acknowledged below what it applied if and only if no write succeeded with memory behind |
| Runs.BehindIsStale | internal/store/store.go:209-222 | memory is behind what was acknowledged, or behind the snapshot, only while a failed Reload stands: no Reload or write that succeeded and no restart came after it |
| Runs.SnapshotIsCareful | internal/store/snapshot.go:54-86 | a snapshot taken while no failed Reload stands is of a memory that the log completes |
| Runs.AcknowledgedIsNeverPassed | internal/store/store.go:209-222 | unless a write succeeded while a failed Reload stood, no acknowledged command is ever missing below what memory applied or from a snapshot |
| WalParts.Segment.constructor | internal/wal/segment.go:63-79 | a segment opens with the size of its file |
| WalParts.Segment.Write | internal/wal/segment.go:81-94 | a write leaves a prefix of the data at the end of the file and succeeds only if it is all of it |
| WalParts.Segment.Truncate | internal/wal/segment.go:96-105 | cuts to the length or leaves the file alone |
| WalParts.PendingBuffer.Append | internal/wal/buffer.go:9-22 | appends the whole record, or leaves the data unchanged exactly when it cannot be encoded |
| WalParts.PendingBuffer.Take | internal/wal/buffer.go:28-35 | hands out the bytes and their range and empties the buffer |
| WalParts.PendingBuffer.ResetWith | internal/wal/buffer.go:37-46 | puts taken bytes back in front with their range |
| WalParts.SequenceIndex.Get | internal/wal/index.go:26-31 | the location of a sequence, if it has one |
| WalParts.SequenceIndex.RemoveBefore | internal/wal/index.go:33-41 | exactly the entries below the mark go |
| Wal.WAL.WriteBuffer | internal/wal/fsync.go:9-26 | the write and its rollback: what is on file and in the buffer in each of the three outcomes |
| Wal.WAL.FlushLocked | internal/wal/fsync.go:7-37 | the method does what the flush of the value layer does, and returns the durable mark |
| Wal.WAL.RotateLocked | internal/wal/fsync.go:39-51 | likewise for rotation |
| Wal.WAL.Append | internal/wal/wal.go:81-117 | likewise for append, with its five steps and all error returns |
| Wal.WAL.Sync | internal/wal/wal.go:120-128 | likewise for Sync |
| Wal.WAL.TrimTail | internal/wal/truncate.go:14-26 | keeps the valid prefix and syncs it if anything was cut; what is on file after each failure |
| Wal.WAL.DiscardSegmentsAfter | internal/wal/truncate.go:28-43 | keeps, in order, the segments that start at or before the given one |
| Wal.WAL.SegmentForSeq | internal/wal/reader.go:72-81 | the last segment that starts at or before a sequence, or none |
| Wal.WAL.ScanSegment | internal/wal/recovery.go:87-139 | the loop over one file computes the scan of its bytes, trims only the last file, with each failure of that, and indexes what it completes |
| Wal.WAL.ScanAll | internal/wal/recovery.go:43-55 | the loop over the files computes the scan of all of them and changes no file when it finds corruption |
| Wal.WAL.RecoverLocked | internal/wal/recovery.go:26-85 | files, index, next sequence and durable mark after recovery; on corruption only the index changes, on a failed repair only the last file may have been cut |
| Wal.WAL.RecoverNow | internal/wal/wal.go:149-166 | a Recover that fails leaves index, next sequence and durable mark as they were, and the files too unless a repair was begun |
| Wal.WAL.ReadLocation | internal/wal/reader.go:36-61 | the fragment loop returns the payload or the first error with its place |
| Wal.WAL.Read | internal/wal/reader.go:18-34 | Read as specified, flushing only for sequences not yet durable |
| Wal.WAL.Walk | internal/wal/replay.go:28-50 | the loop shared by Replay and Verify delivers the indexed records in order up to the first that cannot be read |
| Wal.WAL.Replay | internal/wal/replay.go:21-52 | flush, then that walk |
| Wal.WAL.Verify | internal/wal/replay.go:55-82 | counts, bytes and last sequence of the walk, valid exactly when it was not stopped |
| Wal.WAL.KeepLoop | internal/wal/replay.go:92-112 | the cleaning loop keeps the current segment and every one that reaches the mark |
| Wal.WAL.CleanOldSegments | internal/wal/replay.go:86-116 | cleanup as specified, index included |
| Wal.WAL.Corrupt | internal/wal/replay.go:119-149 | fault injection as specified, one byte of one file changed, with each I/O failure |
| Wal.WAL.SegmentReport | internal/wal/segment.go:119-140 | the loop builds the report |
| Wal.Open | internal/wal/wal.go:33-64 | the handle for what recovery finds, the position of the corruption, or a failed repair and the files it leaves |
| KVStore.Store.Apply | internal/store/store.go:57-79 | applies a command once; a payload that does not decode is an error even when its sequence was seen |
| KVStore.Store.Mutate | internal/store/store.go:82-98 | log first, memory only after the record is durable |
| KVStore.Store.Delete | internal/store/store.go:136-151 | likewise for a deletion |
| KVStore.Store.Others | internal/wal/fsync.go:53-74 | the flushes and cleanings that other goroutines get in between two calls of a batch |
| KVStore.Store.AppendPayloads | internal/store/store.go:116-123 | the append loop, with such work before each append, assigns consecutive sequences and stops at the first failure |
| KVStore.Store.SetBatch | internal/store/store.go:102-133 | three loops and one sync: nothing is applied unless all is durable |
| KVStore.Store.Snapshot | internal/store/snapshot.go:54-86 | flush, make the directory, write, read back, with each failure |
| KVStore.Store.WriteAtomic | internal/store/snapshot.go:220-252 | a complete, synced and closed temporary file is renamed over the old one, or the old one stays; success only with the directory synced |
| KVStore.Store.LoadSnapshot | internal/store/snapshot.go:88-105 | memory is what the file says, or untouched when it does not check, or an error when it cannot be read |
| KVStore.ReplayIsWalk | internal/wal/replay.go:28-50 | replaying with Apply as the callback is applying, in order, what the walk reads |
| KVStore.Store.Reload | internal/store/store.go:209-222 | clear, load, replay; a file that cannot be read leaves memory empty |
| KVStore.New | internal/store/store.go:45-54 | the same for a new store; no store is returned when the snapshot cannot be read or the log cannot be replayed |

## Left out

- `internal/api`, `cmd/wald` and `web`: HTTP, configuration and user interface.
- JSON text: `encoding/json` is a parameter with laws, so nothing is said about the characters of a command.
- Directory listing, segment file names, file permissions and temporary file names: the files are given in the order of their start sequences.
- I/O errors other than an early end while a segment is read, and while segment files are opened or created by Open.
- `Close`, `ErrClosed` and the closed flag.
- The mutexes and the condition variable themselves: each critical section of the log is one operation with its intermediate disk states. SetBatch is the one store operation that enters the log more than once with something at stake in between, so the work of other goroutines is interleaved there; every other one has one critical section that writes, and does the rest to memory or the snapshot file only, so such work is the event `Behind` before or after the call.
- KVStore.Store.SetBatch: on the objects the work between two calls is flushes and cleanings; a live Recover there is covered on values only (`LogBackground.RescanKeeps`, `StoreBatch.BatchKeeps`).
- KVStore.Store.AppendPayloads: likewise.
- KVStore.Store.Others: likewise.
- `SyncAsync` as opposed to `SyncBatch`: append treats them alike.
- `Reader`, `NewReader`, `ReadRange`, `Get` and `Items`: iterations over `Read` and look-ups in the map.
- The named snapshot catalogue and the validation of names.
- Metrics other than the bytes written, and `PolicyName`.
- `Options.normalized` defaults: its accepted ranges are the precondition `Options.Valid`.
- Wrap-around of 64-bit sequence numbers and file offsets: numbers are unbounded, and theorems ask for sequences below 2^64 where one is written to a file.
- Aliasing of byte slices: payloads and values are values, so the copies the code makes to protect itself are not visible.
- LiveReplay.GoodAppendSucceeds: states when a single append succeeds, not that a disk that recovers from errors lets every retry succeed.
- Wal.WAL.CleanOldSegments: errors while a segment is closed or its file removed are not modelled. The code returns in the middle of the loop then, before the segment list and the index are replaced, so closed and deleted segments stay listed and indexed, and Read, Replay and Reload fail on them. LogClean.CleanCrashKeepsSequence covers what the next Open finds.
- Wal.WAL.DiscardSegmentsAfter: removal errors are not modelled; recovery calls it for the last segment, where it removes nothing.
- Wal.WAL.Replay: the callback is the list of delivered records; with the store's callback and its errors it is KVStore.Store.Reload. Other callbacks are not modelled.
- Wal.WAL.ScanSegment: the replay callback and its errors are not modelled; the records handed to it are the scan's result.
- Wal.WAL.RecoverLocked: likewise for the callback of Recover and Open.
- Wal.WAL.RecoverNow: likewise.
- Wal.Open: likewise.
- Snapshots.CommandRoundTrip: rests on the assumed laws of `encoding/json`; only PlainCodec is proved to have them.
- Snapshots.SnapshotRoundTrip: likewise for the body; the frame around it is proved.
