# Verified core of QRX

A Dafny model of the parts of QRX that must not go wrong: the QRXDB state store,
the Kraken execution gateway, the arbitrage engine, the deterministic upscaler with
its SHA-256 stream, the chain parameters, the block producer and the ledger exporter.
`dafny verify dfyconfig.toml` checks the whole project.

## Layout

| files | component |
|---|---|
| `Wrappers` | missing and refused results |
| `QrxdbKeys`, `QrxdbMerkle` | keys, their order, the state root |
| `QrxdbLog`, `QrxdbWal`, `QrxdbStore` | data file, index, write-ahead log, commit as a sequence of durable steps |
| `QrxdbRecovery`, `QrxdbCrash`, `QrxdbRuns` | recovery, crash atomicity, durability over whole runs |
| `QrxdbReads`, `QrxdbCompact` | snapshots and scans, compaction |
| `QrxdbCompactRecovery`, `QrxdbReplay`, `QrxdbUnsynced` | replay over any data file, told on logs; WAL records whose sync failed |
| `QrxdbCompactRestart`, `QrxdbCompactLosses` | restarts after compaction, runs that lose data there |
| `Qrxdb` | the `QrxDB` and batch objects with the C code's loops, proved against the above |
| `KrakenGateway` | the polling gateway between QRX chain and venue |
| `OrderBook`, `Arbitrage` | the market sale, the evaluation of an opportunity |
| `OpportunityStore`, `BroadcastHedges` | the store of decisions and its limits over whole runs, hedges the limits forget |
| `Upscaler`, `Sha256Stream` | resampling tables and passes, streaming hash |
| `ChainParams`, `Producer` | fork overrides, rewards and supply; proposer rotation, catch-up gate, recent blocks |
| `LedgerExport` | retry loops over a moving database |

## Idealisations

- SHA3-512 leaf and node hashes are distinct injective constructors. A CRC is a check that holds exactly for intact records.
- A data file is a map from offsets to intact records. Records written since the last sync survive power loss in any subset. A WAL record that was synced survives.
- A client order id and an opportunity id name what they hash.
- Decimals and kernel values are exact reals. C integers are unbounded except where the code relies on a width: the 32-bit intermediate of the upscaler and the 64-bit length of the hash are explicit.
- A generation names one database state for the exporter, so comparing generations decides and its comparison of roots adds nothing.
- Clock readings, venue replies, process deaths and commits of other processes are inputs.

## Where the code falls short

- A torn WAL record stays in its segment, and reopening appends behind it. A commit into such a segment is not atomic (`QrxdbCrash.AtomicIffSegmentClean`, reached in `QrxdbRuns.TornAttemptLosesBatch`).
- Compaction keeps the generation and the WAL but renumbers the records. Verification, a second compaction and new snapshots are then right only under the stated conditions (`QrxdbCompact.VerifyAfterCompactIff`, `QrxdbCompact.CompactTwiceIff`, `QrxdbCompact.SeenAfterCompact`, reached in `QrxdbCompact.CompactionFailsTwoKeys`).
- A restart after compaction splices what the WAL shows into the compacted file (`QrxdbCompactRestart.RestartAfterCompact`) and is right exactly when that has the effect of what it replaces (`QrxdbCompactRestart.RestartKeepsMapIff`). With a WAL without torn records a restart directly after compaction is right, and one after further commits cuts the old history at the compacted length, possibly inside a record (`QrxdbCompactRestart.RestartCleanMapIff`, `QrxdbCompactLosses.CompactionRevertsUpdate`).
- With a torn record in the WAL even a restart directly after compaction can lose committed batches or be refused (`QrxdbCompactRestart.RestartDirectlyIff`, `QrxdbCompactLosses.TornAttemptRevertsUpdate`, `QrxdbCompactLosses.TornAttemptRefusesRestart`).
- A commit that fails because its COMMIT record could not be synced is committed by the next start, and can expose its puts in place of a later commit (`QrxdbUnsynced.InDoubtRestarts`, `QrxdbUnsynced.InDoubtThenCommit`).
- A commit that meets an error behind COMMIT recovers in place and reports success, behind a torn record with only part of the batch (`QrxdbCrash.RecoveredInPlace`).
- Evaluating an opportunity id again overwrites its state even after its hedge was broadcast. Rejected, the hedge stops counting; accepted, the id can be approved and broadcast a second time while its row counts once (`BroadcastHedges.RunCountedIff`, `BroadcastHedges.ForgottenHedgeExceedsLimit`, `BroadcastHedges.RepeatedHedgeExceedsLimit`). Between approval and report it also loses the plan that was handed out (`BroadcastHedges.UnreportedPlanExceedsLimit`).
- The upscaler's comment promises sign-symmetric rounding; the shift rounds half up. `Upscaler.RoundingIsSymmetric` shows that clamping hides the difference.

## Model

| member | source | states |
|---|---|---|
| `QrxdbKeys.SortedListingUnique` | qrx-core/src/qrxdb.c:395 | a map has exactly one listing in strict key order, so the order of the two comparison callbacks fixes the leaf sequence |
| `QrxdbKeys.SortSorts` | qrx-core/src/qrxdb.c:395 | sorting a listing with distinct keys puts the keys in strict order |
| `QrxdbKeys.SortIsCanonical` | qrx-core/src/qrxdb.c:416-421 | two listings of one map sort to the same sequence, whatever order records arrived in |
| `QrxdbKeys.UpsertLists` | qrx-core/src/qrxdb.c:388-393 | upserting one key into a listing of a map yields a listing of the updated map, each key once |
| `QrxdbMerkle.PairUpInjective` | qrx-core/src/qrxdb.c:423 | a duplicate-free level can be read back from the level above it, although an odd last node is paired with itself |
| `QrxdbMerkle.RootInjective` | qrx-core/src/qrxdb.c:106-132 | with tagged ideal hashes, equal roots of two duplicate-free leaf levels mean equal levels, also across different numbers of leaves |
| `QrxdbMerkle.RootNamesTheMap` | qrx-core/src/qrxdb.c:416-425 | two databases have the same state root if and only if their live maps are equal |
| `QrxdbMerkle.DuplicatedTailCollides` | qrx-core/src/qrxdb.c:423 | without distinct keys the odd-level duplication does collide: three leaves and four leaves with one root |
| `QrxdbMerkle.FoldInPlace` | qrx-core/src/qrxdb.c:422-424 | the in-place level-halving loop over one array computes the recursive tree root |
| `QrxdbLog.HoldsIffPlaced` | qrx-core/src/qrxdb.c:348-365 | the data file holds a log exactly when the records laid out at contiguous 8-aligned offsets are part of it |
| `QrxdbLog.ScanHeld` | qrx-core/src/qrxdb.c:367-386 | a scan reads a held log back record by record and goes on behind it |
| `QrxdbLog.ScanIsHeld` | qrx-core/src/qrxdb.c:378-386 | whatever a scan returns is held by the file |
| `QrxdbLog.ScanExactly` | qrx-core/src/qrxdb.c:378-386 | reading a log back within its own extent yields exactly that log |
| `QrxdbLog.WriteAllIs` | qrx-core/src/qrxdb.c:348-365 | writing a run of records clears its extent and lays the run out there, leaving the rest of the file alone |
| `QrxdbLog.LiveItemsList` | qrx-core/src/qrxdb.c:398-414 | the collecting scan with tombstone squeeze lists exactly the last-writer-wins map without deleted keys |
| `QrxdbLog.SameRootIffSameLiveMap` | qrx-core/src/qrxdb.c:398-425 | history independence and faithfulness: two logs have one state root if and only if they have one live map |
| `QrxdbLog.IndexRefinesLog` | qrx-core/src/qrxdb.c:327-336 | the index holds each written key once, at the offset and generation of its last record, and no other key |
| `QrxdbLog.EntryReads` | qrx-core/src/qrxdb.c:367-376 | the record an index entry points at is readable and holds the latest value of its key |
| `QrxdbLog.IndexedGetIsLive` | qrx-core/src/qrxdb.c:705-707 | a get through the index equals the full last-writer-wins scan, deleted and never-written keys included |
| `QrxdbWal.ReplayIsApplyVisible` | qrx-core/src/qrxdb.c:507-531 | replaying a WAL file is applying, in order, exactly its complete BEGIN-PUT-COMMIT transactions up to the first torn record |
| `QrxdbWal.ReplayAllIsApplyVisible` | qrx-core/src/qrxdb.c:533-546 | replaying all segments is applying their visible transactions in segment order |
| `QrxdbWal.VisibleAppend` | qrx-core/src/qrxdb.c:507-531 | what follows a clean stretch of a segment is read with its open transaction; what follows a torn record is never read |
| `QrxdbWal.WholeBatchVisible` | qrx-core/src/qrxdb.c:641-646 | a whole batch is one visible transaction, whatever abandoned puts precede it in the segment, same generation included |
| `QrxdbWal.PartialBatchInvisible` | qrx-core/src/qrxdb.c:641-646 | a batch cut off before its COMMIT record is no transaction at all |
| `QrxdbStore.SurvivingIsBetween` | qrx-core/src/qrxdb.c:245-255 | power loss during materialisation leaves the old log and an arbitrary subset of the batch records |
| `QrxdbRecovery.ReplaySkips` | qrx-core/src/qrxdb.c:462-481 | transactions already in the log are recognised and skipped by replay |
| `QrxdbRecovery.ScanBetween` | qrx-core/src/qrxdb.c:378-386 | the tail scan of a crashed file returns the old log and the leading run of the batch that arrived, no more |
| `QrxdbRecovery.RedoPartial` | qrx-core/src/qrxdb.c:478-498 | a partly arrived batch is rewound to its begin offset and written again as a whole |
| `QrxdbRecovery.RecoverKeeps` | qrx-core/src/qrxdb.c:548-561 | without a visible unfinished batch, recovery keeps exactly the log the scan finds |
| `QrxdbRecovery.RecoverRedoes` | qrx-core/src/qrxdb.c:548-561 | with the batch as last visible transaction, recovery yields the old log and the whole batch from any partial file |
| `QrxdbCrash.AbandonedWal` | qrx-core/src/qrxdb.c:303-325 | an attempt without its COMMIT record adds nothing replay can see |
| `QrxdbCrash.CommittedWal` | qrx-core/src/qrxdb.c:641-646 | a finished attempt adds exactly its own transaction, unless a torn record hides it |
| `QrxdbCrash.ReopenIdle` | qrx-core/src/qrxdb.c:563-586 | reopening an idle store gives the same store back |
| `QrxdbCrash.AbandonedAttempt` | qrx-core/src/qrxdb.c:629-646 | an attempt that fails before its COMMIT record leaves log, generation, offset and index as they were |
| `QrxdbCrash.CompletedCommit` | qrx-core/src/qrxdb.c:629-680 | an uninterrupted commit appends the whole batch under the next generation |
| `QrxdbCrash.CrashAtomicity` | qrx-core/src/qrxdb.c:629-680 | stop a commit before any of its steps, let any subset of its data records reach the disk, reopen: the log is the old one, or the old one and the whole batch, decided by the COMMIT record alone (segment without torn records) |
| `QrxdbCrash.CrashDuringRecovery` | qrx-core/src/qrxdb.c:478-498 | power failing again while recovery rewrites the batch changes nothing: the next recovery still yields the whole batch |
| `QrxdbCrash.TornSegmentExposesPart` | qrx-core/src/qrxdb.c:289-294 | when a torn record precedes the batch in its segment, a crash after COMMIT can expose any leading part of the batch |
| `QrxdbCrash.CrashOutcome` | qrx-core/src/qrxdb.c:289-301 | in any segment: behind a torn record a crash after COMMIT leaves exactly the leading data records of the batch that reached the disk |
| `QrxdbCrash.RecoveredInPlace` | qrx-core/src/qrxdb.c:667-677 | an error behind COMMIT that the process survives: recovery in place completes the batch, or behind a torn record keeps what was written of it |
| `QrxdbCrash.AtomicIffSegmentClean` | qrx-core/src/qrxdb.c:289-301 | a commit is crash atomic if and only if its segment, after the reservation, holds no torn record; reopening appends behind a torn tail without cutting it |
| `QrxdbUnsynced.UnsyncedEarly` | qrx-core/src/qrxdb.c:303-325 | a whole but unsynced BEGIN or PUT record leaves the log alone |
| `QrxdbUnsynced.InDoubtRestarts` | qrx-core/src/qrxdb.c:646 | a commit that failed because its whole COMMIT record could not be synced is there after the next start, exactly when its segment holds no torn record |
| `QrxdbUnsynced.InDoubtThenCommit` | qrx-core/src/qrxdb.c:462-481 | such a failed commit, a successful one of the same generation, restart: the log is right if and only if the second batch is not a proper leading part of a visible first one; otherwise the puts of the failed attempt are exposed |
| `QrxdbRuns.StepCarries` | qrx-core/src/qrxdb.c:629-680 | every commit, failed attempt, crash and restart takes a store carrying a history to one carrying the history it should |
| `QrxdbRuns.RunCarriesHistory` | qrx-core/src/qrxdb.c:478-561 | over every run every reopening succeeds and the store carries exactly the batches whose COMMIT record was written, in order |
| `QrxdbRuns.RunLog` | qrx-core/src/qrxdb.c:478-561 | after every run: the log is the committed batches in order, offsets contiguous and 8-aligned, generations consecutive, and verify accepts it |
| `QrxdbRuns.RunWalIsHistory` | qrx-core/src/qrxdb.c:507-546 | without torn records the WAL, read in order, is exactly the committed history |
| `QrxdbRuns.RunShows` | qrx-core/src/qrxdb.c:507-546 | after every run replay sees exactly the batches committed into a segment without a torn record |
| `QrxdbRuns.SecondRecoveryChangesNothing` | qrx-core/src/qrxdb.c:548-561 | after every run, recovering once more changes nothing |
| `QrxdbRuns.RunLiveMap` | qrx-core/src/qrxdb.c:398-414 | after every run the live map is the committed batches applied in order to the empty dictionary, deletes included |
| `QrxdbRuns.TornAttemptLosesBatch` | qrx-core/src/qrxdb.c:289-325 | for all batches: a first attempt torn in its BEGIN record, then a commit cut off after COMMIT, and the committed batch is gone |
| `QrxdbReads.OrderedScanIsLive` | qrx-core/src/qrxdb.c:755-781 | an ordered scan visits exactly the live keys under the prefix, in strictly increasing order, no deleted key |
| `QrxdbReads.SnapshotIsolation` | qrx-core/src/qrxdb.c:705-711 | a read transaction sees, after any further run of commits, crashes and restarts, exactly the log as it was when it began, with the root it recorded |
| `QrxdbReads.SnapshotReads` | qrx-core/src/qrxdb.c:742-782 | hence its point reads and its prefix scans return the live map of that moment |
| `QrxdbReads.IndexScanIsLive` | qrx-core/src/qrxdb.c:715-733 | the live prefix scan calls back exactly the live keys under the prefix, each once, with their values |
| `QrxdbCompact.CompactLogLive` | qrx-core/src/qrxdb.c:881-901 | the compacted log has one record per live key and the live map of what was visible |
| `QrxdbCompact.CompactKeepsMapAndRoot` | qrx-core/src/qrxdb.c:881-901 | compaction keeps live map and state root of every store reached without compaction |
| `QrxdbCompact.VerifyAfterCompactIff` | qrx-core/src/qrxdb.c:788-792 | after compaction verify accepts if and only if there are as many live keys as generations, because records are renumbered from 1 while the generation stays |
| `QrxdbCompact.SeenAfterCompact` | qrx-core/src/qrxdb.c:782 | a transaction begun right after compaction sees only as many keys as there are generations |
| `QrxdbCompact.CompactTwiceIff` | qrx-core/src/qrxdb.c:881-901 | compacting twice keeps the live map if and only if there are no more live keys than generations |
| `QrxdbCompactRecovery.ReplayHistory` | qrx-core/src/qrxdb.c:507-546 | replaying the transactions of a history reproduces its log over whatever the data file held |
| `QrxdbCompact.CompactionFailsTwoKeys` | qrx-core/src/qrxdb.c:881-901 | one commit of two keys reaches all three failures: after compaction verify refuses, a new transaction sees one key, a second compaction loses the other |
| `QrxdbReplay.SkippedIff` | qrx-core/src/qrxdb.c:462-476 | replay skips a transaction if and only if its records are in the log at its offsets |
| `QrxdbReplay.ReplayTx` | qrx-core/src/qrxdb.c:478-498 | one transaction on a file is that transaction on its log: skipped, refused, or the log cut where it begins, with a hole when it begins inside a record |
| `QrxdbReplay.ReplayAllTxs` | qrx-core/src/qrxdb.c:507-546 | replaying transactions of rising generations over any file: the same refusals and the same log as on logs alone |
| `QrxdbReplay.SplicedIs` | qrx-core/src/qrxdb.c:507-546 | for transactions one behind the other in closed form: leading ones in the log change nothing, the first other one cuts the log, the rest must follow without a gap |
| `QrxdbCompactRestart.ReplayedHistory` | qrx-core/src/qrxdb.c:507-546 | replaying a history keeps a file that begins with its log and puts its log in place of any other |
| `QrxdbCompactRestart.RestartAfterCompact` | qrx-core/src/qrxdb.c:548-561 | after any run, torn records in the WAL or not, compaction, any number of commits and a restart: refused, or the data file with the visible transactions spliced in |
| `QrxdbCompactRestart.RestartShowsFirst` | qrx-core/src/qrxdb.c:548-561 | restart directly after compaction with a WAL that shows the first m batches: the compacted log if it begins with theirs, else only those m batches; right if and only if the former, or those m batches alone have the whole map |
| `QrxdbCompactRestart.RestartCleanWal` | qrx-core/src/qrxdb.c:548-561 | with a WAL without torn records: the whole old history when nothing was committed since; otherwise the old records that end within the compacted length, and the new batches exactly when one ends at it |
| `QrxdbCompactRestart.LostRecordsIff` | qrx-core/src/qrxdb.c:398-414 | leaving records out of a log keeps its live map if and only if every key they leave changed is written again behind them |
| `QrxdbCompactRestart.SameEffectIff` | qrx-core/src/qrxdb.c:398-414 | two continuations of a log give one live map if and only if every key they write ends up the same |
| `QrxdbCompactRestart.RestartKeepsMapIff` | qrx-core/src/qrxdb.c:881-901 | after any run and any number of later commits the restart presents the right live map if and only if it is not refused and what is spliced in has the effect of what it replaces |
| `QrxdbCompactRestart.RestartDirectlyIff` | qrx-core/src/qrxdb.c:881-901 | with nothing committed since: if and only if the visible transactions are all in the compacted log, or those that are not fit in without a gap and leave the same behind them |
| `QrxdbCompactRestart.RestartCleanMapIff` | qrx-core/src/qrxdb.c:881-901 | with a WAL without torn records: if and only if nothing was committed since, or the records behind the compacted length, and the batches when they fall into the hole, change no key |
| `QrxdbCompactRestart.RestartKeepsLogIff` | qrx-core/src/qrxdb.c:881-901 | with a WAL without torn records: the log itself is right if and only if nothing was committed since or compaction removed nothing |
| `QrxdbCompactLosses.CompactionRevertsUpdate` | qrx-core/src/qrxdb.c:881-901 | for every key and every two values of equal length: put, put, compact, put another key, restart; the key is back at its first value |
| `QrxdbCompactLosses.TornAttemptRevertsUpdate` | qrx-core/src/qrxdb.c:881-901 | for every key and every two values: put, an attempt torn in its BEGIN record, put into the same segment, compact, restart with nothing committed since; the key is back at its first value |
| `QrxdbCompactLosses.TornAttemptRefusesRestart` | qrx-core/src/qrxdb.c:478-483 | a torn attempt, a commit behind it, a commit that opens the next segment, compaction to less than the first of them took: the database does not open |
| `QrxdbStore.ReservationExact` | qrx-core/src/qrxdb.c:632-634 | the WAL bytes reserved for a batch are exactly the bytes its records take |
| `Qrxdb.KvUpsert` | qrx-core/src/qrxdb.c:388-393 | linear search, replace or append, is the upsert of a listing |
| `Qrxdb.Batch.constructor` | qrx-core/src/qrxdb.c:599-604 | a new batch is empty, for the next generation, at the write offset |
| `Qrxdb.Batch.Put` | qrx-core/src/qrxdb.c:606-623 | accepts exactly non-empty keys within the size limits on an active batch, appends the entry and plans its offset; otherwise changes nothing |
| `Qrxdb.Batch.Delete` | qrx-core/src/qrxdb.c:625-627 | a delete is a put of the tombstone value, refused in the same cases |
| `Qrxdb.Batch.Abort` | qrx-core/src/qrxdb.c:592-597 | drops all entries and deactivates the batch |
| `Qrxdb.QrxDB.constructor` | qrx-core/src/qrxdb.c:563-586 | a new database is the empty store with an empty first segment |
| `Qrxdb.QrxDB.IndexPut` | qrx-core/src/qrxdb.c:327-333 | the array loop is the index upsert |
| `Qrxdb.QrxDB.IndexFind` | qrx-core/src/qrxdb.c:336 | finds the entry of a key or reports none |
| `Qrxdb.QrxDB.EnsureSpace` | qrx-core/src/qrxdb.c:280-286 | doubles the map size until the end fits |
| `Qrxdb.QrxDB.WriteDataRecord` | qrx-core/src/qrxdb.c:348-365 | writes one record at the write offset, advances offset and generation, updates the index, all else unchanged |
| `Qrxdb.QrxDB.ScanValidTail` | qrx-core/src/qrxdb.c:378-386 | the loop returns end offset and last generation of the scanned log |
| `Qrxdb.QrxDB.CollectLive` | qrx-core/src/qrxdb.c:398-414 | the two loops collect exactly the live items visible up to a generation |
| `Qrxdb.QrxDB.RecomputeMerkle` | qrx-core/src/qrxdb.c:416-425 | sets the root to the root of the scanned log |
| `Qrxdb.QrxDB.RebuildIndex` | qrx-core/src/qrxdb.c:427-440 | rebuilds index and root of the scanned log, all else unchanged |
| `Qrxdb.QrxDB.RotateIfNeeded` | qrx-core/src/qrxdb.c:295-301 | opens a new empty segment exactly when the bytes do not fit |
| `Qrxdb.QrxDB.WalWriteRecord` | qrx-core/src/qrxdb.c:303-325 | appends one record; on a fault reports failure and leaves a torn part of it, or all of it unsynced, uncounted |
| `Qrxdb.QrxDB.ApplyTransaction` | qrx-core/src/qrxdb.c:462-498 | skip, rewind and rewrite, or refuse, as the transaction applier specifies, for all transactions |
| `Qrxdb.QrxDB.ReplayFile` | qrx-core/src/qrxdb.c:507-531 | the record loop of one segment refines the specification of replay |
| `Qrxdb.QrxDB.ReplayWal` | qrx-core/src/qrxdb.c:533-546 | replays all segments in order, stopping at the first refusal |
| `Qrxdb.QrxDB.RecoverData` | qrx-core/src/qrxdb.c:548-561 | recovery of any file: log, generation, offset, index and root of the recovered image |
| `Qrxdb.QrxDB.CrashAndReopen` | qrx-core/src/qrxdb.c:563-586 | power loss with any unsynced records on disk, then reopening, is the value-level reopening |
| `Qrxdb.QrxDB.WriteBatchToWal` | qrx-core/src/qrxdb.c:641-646 | writes the batch records into one segment, stopping at the given step with what the fault leaves of its record |
| `Qrxdb.QrxDB.WriteBatchToData` | qrx-core/src/qrxdb.c:667-673 | materialises the first n records, with index and generation |
| `Qrxdb.QrxDB.LogBatch` | qrx-core/src/qrxdb.c:629-646 | reserves WAL and data space and writes the WAL half, or what the fault leaves of it |
| `Qrxdb.QrxDB.FinishCommit` | qrx-core/src/qrxdb.c:674-680 | recomputes the root and syncs: a valid database with the whole batch |
| `Qrxdb.QrxDB.RecoverCommit` | qrx-core/src/qrxdb.c:667-677 | an error behind COMMIT: recovery in place yields a valid database with the batch, or behind a torn record with the part written |
| `Qrxdb.QrxDB.BatchCommit` | qrx-core/src/qrxdb.c:629-680 | success exactly when the batch is active, non-empty, fits a segment, and no WAL step fails and the process lives; then the log grows by the whole batch, or after an error behind COMMIT by what recovery in place makes of it; a failure before COMMIT leaves the log alone |
| `Qrxdb.QrxDB.CommitCrashReopen` | qrx-core/src/qrxdb.c:629-680 | a commit that dies at any step with any records on disk, followed by reopening: all of the batch or none in a segment without torn records, else the leading records on disk |
| `Qrxdb.QrxDB.BeginRead` | qrx-core/src/qrxdb.c:782 | a transaction records generation, offset and root |
| `Qrxdb.QrxDB.GetView` | qrx-core/src/qrxdb.c:705-711 | without a transaction the live value by index, within one the value visible to it |
| `Qrxdb.QrxDB.ScanPrefix` | qrx-core/src/qrxdb.c:715-733 | calls back the live keys under the prefix, each once, up to the first callback that asks to stop, whose code it returns; an unreadable entry is an error |
| `Qrxdb.QrxDB.ScanPrefixAt` | qrx-core/src/qrxdb.c:755-781 | calls back the visible live keys under the prefix in strict key order, up to the first callback that asks to stop |
| `Qrxdb.QrxDB.Verify` | qrx-core/src/qrxdb.c:788-792 | true exactly when offset, generation and root are those of the scanned log |
| `Qrxdb.QrxDB.CompactData` | qrx-core/src/qrxdb.c:881-901 | the data file becomes the compacted log; WAL and generation stay |
| `Qrxdb.QrxDB.Salvage` | qrx-core/src/qrxdb.c:907-922 | keeps the valid head of the log |
| `KrakenGateway.LandSafe` | qrx-core/gateways/qrx-gateway-kraken.py:419-420 | inclusion of a sent report by the chain keeps every invariant |
| `KrakenGateway.AcceptUniqueIff` | qrx-core/gateways/qrx-gateway-kraken.py:541-554 | accepting an order keeps at most one venue order per QRX order if and only if the venue had none, the guard of the lookup |
| `KrakenGateway.SignSafe` | qrx-core/gateways/qrx-gateway-kraken.py:436-440 | a freshly signed report carries the chain sequence plus one, with every earlier report landed |
| `KrakenGateway.PendingSafe` | qrx-core/gateways/qrx-gateway-kraken.py:293-299 | recording the next report as pending forgets none that is still outstanding |
| `KrakenGateway.SendSafe` | qrx-core/gateways/qrx-gateway-kraken.py:430-434 | sending the pending report, for the first time or again, keeps one report per order and sequence |
| `KrakenGateway.PendingIsNext` | qrx-core/gateways/qrx-gateway-kraken.py:422-434 | a pending report that is not on chain is the only one of its sequence, sent or not |
| `KrakenGateway.NothingOutstanding` | qrx-core/gateways/qrx-gateway-kraken.py:422-429 | with no pending report ahead of the chain, everything sent has landed |
| `KrakenGateway.Gateway.constructor` | qrx-core/gateways/qrx-gateway-kraken.py:376-388 | a gateway starts with nothing on chain, journal or venue, which is safe |
| `KrakenGateway.Gateway.FindByClientId` | qrx-core/gateways/qrx-gateway-kraken.py:225-232 | finds the venue order of a client id exactly when there is one |
| `KrakenGateway.Gateway.Upsert` | qrx-core/gateways/qrx-gateway-kraken.py:275-291 | one durable journal row, an existing venue id never erased |
| `KrakenGateway.Gateway.EmitReport` | qrx-core/gateways/qrx-gateway-kraken.py:436-446 | sign, journal, remember, send, with death possible before each: all invariants kept; when it gets through, the report for the next sequence is pending and sent |
| `KrakenGateway.Gateway.FlushPending` | qrx-core/gateways/qrx-gateway-kraken.py:422-434 | busy exactly while an earlier report has not landed, which is then sent again unchanged |
| `KrakenGateway.Gateway.Reconcile` | qrx-core/gateways/qrx-gateway-kraken.py:465-501 | reports what the venue said of the journaled or found order, status, fill and fee, invariants kept |
| `KrakenGateway.Gateway.HandleCancel` | qrx-core/gateways/qrx-gateway-kraken.py:521-539 | the cancel branch keeps every invariant and places no order |
| `KrakenGateway.Gateway.HandleNew` | qrx-core/gateways/qrx-gateway-kraken.py:541-576 | the submitting branch looks up before it adds; whatever reply is lost, at most one venue order |
| `KrakenGateway.Gateway.HandleOrder` | qrx-core/gateways/qrx-gateway-kraken.py:503-576 | one pass over an order keeps every invariant |
| `KrakenGateway.Gateway.Run` | qrx-core/gateways/qrx-gateway-kraken.py:578-595 | over any number of polling cycles, deaths, lost replies and restarts: at most one venue order per QRX order, at most one sent report per order and sequence, each signed for the chain sequence plus one with none outstanding |
| `Upscaler.SeparableSum` | qrx-core/src/apps/qrx_upscaler.c:497-537 | summing rows first and then the row sums equals one sum of product weights over the flattened neighbourhood |
| `Upscaler.SumOrder` | qrx-core/src/apps/qrx_upscaler.c:497-537 | summing rows then columns, or columns then rows, gives one result |
| `Upscaler.Largest` | qrx-core/src/apps/qrx_upscaler.c:443-451 | the running maximum is the first index of the greatest quantised weight |
| `Upscaler.RowSumsToOne` | qrx-core/src/apps/qrx_upscaler.c:413-456 | every row of every table sums to exactly 65536, for any kernel, size, scale and sine |
| `Upscaler.QuantiseError` | qrx-core/src/apps/qrx_upscaler.c:446-447 | quantisation is within half a unit of the exact weight |
| `Upscaler.TameRowFits` | qrx-core/src/apps/qrx_upscaler.c:441-452 | a row whose weights are at most seven times their total cannot overflow the 32-bit intermediate |
| `Upscaler.CubicBounds` | qrx-core/src/apps/qrx_upscaler.c:369-378 | the Mitchell-Netravali kernel stays within -2/49 and 1 and is at least 7/18 near its centre |
| `Upscaler.AlgebraicFiltersFit` | qrx-core/src/apps/qrx_upscaler.c:362-395 | nearest, bilinear and bicubic rows never overflow the 32-bit intermediate, at any size and scale |
| `Upscaler.LanczosTame` | qrx-core/src/apps/qrx_upscaler.c:379-381 | for every sine quotient within the stated lobe bounds, no Lanczos3 weight exceeds seven times its row total |
| `Upscaler.StepSincMeetsLobes` | qrx-core/src/apps/qrx_upscaler.c:379-381 | the lobe bounds can be met |
| `Upscaler.FiltersFit` | qrx-core/src/apps/qrx_upscaler.c:362-395 | so no filter ever overflows the 32-bit intermediate, at any size and scale |
| `Upscaler.TwoPassesAreDirectSum` | qrx-core/src/apps/qrx_upscaler.c:497-537 | two passes with a 32-bit intermediate equal the direct 2D weighted sum, rounded once, whenever 255 times the absolute row sum fits |
| `Upscaler.SampleTransposes` | qrx-core/src/apps/qrx_upscaler.c:497-537 | swapping the axes of the plane swaps the axes of the result |
| `Upscaler.RoundingIsSymmetric` | qrx-core/src/apps/qrx_upscaler.c:531-534 | rounding half up by an arithmetic shift gives, after clamping, the byte that sign-symmetric rounding gives |
| `Upscaler.UniformSample` | qrx-core/src/apps/qrx_upscaler.c:441-452 | a uniform plane keeps its value exactly, without wrap-around, for rows that sum to one |
| `Upscaler.NearestRow` | qrx-core/src/apps/qrx_upscaler.c:425-454 | the nearest row of an output sample has its whole weight on source cell o/s, truncation at the left edge included |
| `Upscaler.UniformImage` | qrx-core/src/apps/qrx_upscaler.c:470-543 | an image of one colour stays exactly that colour for every filter, size and scale |
| `Upscaler.NearestImage` | qrx-core/src/apps/qrx_upscaler.c:470-543 | nearest upscaling puts source pixel (x/s, y/s) at (x, y) |
| `Upscaler.UpscaleTransposes` | qrx-core/src/apps/qrx_upscaler.c:470-543 | transposing then upscaling is upscaling then transposing, for every filter, wherever the two rows of weights fit |
| `Upscaler.UpscaleIsDirectSum` | qrx-core/src/apps/qrx_upscaler.c:470-543 | every pixel is the direct 2D weighted sum of its clamped neighbourhood rounded once, for every filter, wherever its row of weights fits |
| `Upscaler.EveryFilter` | qrx-core/src/apps/qrx_upscaler.c:470-543 | both hold of every pixel, size, scale and filter, Lanczos3 with its lobe bounds |
| `Upscaler.SampleKernel` | qrx-core/src/apps/qrx_upscaler.c:433-439 | samples the taps and repairs an all-zero row |
| `Upscaler.QuantiseRow` | qrx-core/src/apps/qrx_upscaler.c:441-452 | the quantising loop yields the specified row, which sums to exactly 65536 |
| `Upscaler.BuildTable` | qrx-core/src/apps/qrx_upscaler.c:413-456 | the table holds the specified row for every output sample |
| `Upscaler.HorizontalPass` | qrx-core/src/apps/qrx_upscaler.c:497-516 | fills the intermediate with the wrapped weighted sum of every row, sample and channel |
| `Upscaler.VerticalPass` | qrx-core/src/apps/qrx_upscaler.c:518-537 | fills the destination with the rounded and clamped column sums |
| `Upscaler.Upscale` | qrx-core/src/apps/qrx_upscaler.c:470-543 | argument error exactly for scales outside 1 to 8, success exactly when input and output dimensions are within limits, and then every pixel is the specified one |
| `OrderBook.SortedIsBook` | qrx-core/gateways/qrx-arbitrage-engine.py:173 | the stable descending sort keeps exactly the given bids and puts best prices first |
| `OrderBook.ReadBids` | qrx-core/gateways/qrx-arbitrage-engine.py:163-174 | keeps exactly the bids of positive price and quantity, best first |
| `OrderBook.GreedyFills` | qrx-core/gateways/qrx-arbitrage-engine.py:176-191 | the greedy sale sells all of the quantity, or all there is |
| `OrderBook.NoBetterSale` | qrx-core/gateways/qrx-arbitrage-engine.py:176-191 | no allocation of at most the same quantity earns more than the greedy one |
| `OrderBook.WorstIsNeeded` | qrx-core/gateways/qrx-arbitrage-engine.py:176-191 | bids strictly above the returned worst price alone would not fill the sale |
| `OrderBook.SaleIsOptimal` | qrx-core/gateways/qrx-arbitrage-engine.py:176-191 | succeeds exactly when 0 < quantity <= depth; then sells exactly it at the maximum proceeds over all allocations, a limit at the worst price fills it and no higher limit does |
| `OrderBook.ExecuteSale` | qrx-core/gateways/qrx-arbitrage-engine.py:176-191 | the loop over running totals computes the specified sale and refuses in the same cases |
| `Arbitrage.MoneyBelow` | qrx-core/gateways/qrx-arbitrage-engine.py:225-226 | recorded amounts are rounded down by less than one unit of the eighth decimal |
| `Arbitrage.PlannedHedgeFills` | qrx-core/gateways/qrx-arbitrage-engine.py:377-384 | the hedge planned from a decision is a limit order the evaluated book fills completely, giving up less than one atom of price |
| `Arbitrage.AcceptedIff` | qrx-core/gateways/qrx-arbitrage-engine.py:244-267 | an opportunity is accepted if and only if quantity, daily total and exposure are within limits, the best sale net of fee and slippage covers cost, risk buffer, network fees and both minima, and confirm mode is funded |
| `Arbitrage.CountsIff` | qrx-core/gateways/qrx-arbitrage-engine.py:233-282 | an evaluation is recorded, and counts from then on, exactly under conditions known before it |
| `Arbitrage.LiveDecisionFits` | qrx-core/gateways/qrx-arbitrage-engine.py:233-282 | a decision that will count fits under both limits with the totals it was given; only confirm mode yields counted states |
| `OpportunityStore.RecordedExposure` | qrx-core/gateways/qrx-arbitrage-engine.py:303-313 | recording replaces the share of its id by at most the new amount, for any earlier creation time |
| `OpportunityStore.ExceptionLowers` | qrx-core/gateways/qrx-arbitrage-engine.py:315-324 | leaving the row at hand out of the totals can only lower them |
| `OpportunityStore.RunWithinLimits` | qrx-core/gateways/qrx-arbitrage-engine.py:393-407 | over every run of evaluate, approve and mark-broadcast with a monotone clock, the live opportunities of the last 86400 seconds stay within the daily BTC and the EUR exposure limit |
| `OpportunityStore.RunAudited` | qrx-core/gateways/qrx-arbitrage-engine.py:303-375 | over every run the event table chains from state to state and ends in every row's current state |
| `BroadcastHedges.StepCountedIff` | qrx-core/gateways/qrx-arbitrage-engine.py:303-375 | every hedge, taken as a plan handed out or as a report accepted, stays counted over a step if and only if the step neither evaluates a hedged id that will not be accepted again for at least what was hedged, nor makes a second hedge under one id |
| `BroadcastHedges.RunCountedIff` | qrx-core/gateways/qrx-arbitrage-engine.py:393-407 | every hedge, in either sense, stays counted throughout a run if and only if no action of it is one of those two |
| `BroadcastHedges.RunHedgesWithinLimits` | qrx-core/gateways/qrx-arbitrage-engine.py:315-324 | in such runs the hedges of opportunities created in the last day, each as often as it was sent and at the amounts approved, stay within both limits |
| `BroadcastHedges.RunBroadcastsWithinLimits` | qrx-core/gateways/qrx-arbitrage-engine.py:315-324 | counted by the time of plan or report, hedges made within a delay of creation stay within both limits over a day less that delay |
| `BroadcastHedges.ForgottenHedgeExceedsLimit` | qrx-core/gateways/qrx-arbitrage-engine.py:393-407 | a run that hedges two bitcoins in a day under a limit of one: a broadcast id is evaluated again at a worse price and rejected |
| `BroadcastHedges.RepeatedHedgeExceedsLimit` | qrx-core/gateways/qrx-arbitrage-engine.py:326-375 | another such run: a broadcast id is evaluated again, accepted, approved and broadcast a second time, while its row counts once |
| `BroadcastHedges.UnreportedPlanExceedsLimit` | qrx-core/gateways/qrx-arbitrage-engine.py:326-368 | plans for two bitcoins under a limit of one, no reported hedge lost: an id is evaluated again between its approval and its report |
| `Arbitrage.Assess` | qrx-core/gateways/qrx-arbitrage-engine.py:233-282 | the sequence of checks decides as specified, first objection first, errors of the book after the limit checks |
| `OpportunityStore.ArbitrageStore.constructor` | qrx-core/gateways/qrx-arbitrage-engine.py:286-301 | a new store is empty |
| `OpportunityStore.ArbitrageStore.Record` | qrx-core/gateways/qrx-arbitrage-engine.py:303-313 | insert, or replace state and decision keeping creation time, approval and hedge; an event exactly on a change of state |
| `OpportunityStore.ArbitrageStore.RiskTotals` | qrx-core/gateways/qrx-arbitrage-engine.py:315-324 | the loop sums exactly the counted rows of the window except the given id |
| `OpportunityStore.ArbitrageStore.Approve` | qrx-core/gateways/qrx-arbitrage-engine.py:326-340 | approves exactly a live-ready, fresh decision awaiting confirmation and returns its plan; otherwise changes nothing |
| `OpportunityStore.ArbitrageStore.MarkBroadcast` | qrx-core/gateways/qrx-arbitrage-engine.py:360-375 | links a hedge exactly from APPROVED or HEDGE_BROADCAST with a valid id; otherwise changes nothing |
| `OpportunityStore.ArbitrageStore.EvaluatePayload` | qrx-core/gateways/qrx-arbitrage-engine.py:393-407 | totals without the row at hand, evaluate, record; an error records nothing |
| `Sha256Stream.ZeroCountIsLeast` | qrx-core/src/apps/qrx_upscaler_ai.c:22 | the number of zero bytes is the least that leaves eight bytes in the last block, as section 5.1.1 of FIPS 180-4 demands |
| `Sha256Stream.PaddingInjective` | qrx-core/src/apps/qrx_upscaler_ai.c:22 | no two messages shorter than 2^61 bytes have one padding |
| `Sha256Stream.S256.constructor` | qrx-core/src/apps/qrx_upscaler_ai.c:20 | the initial state has absorbed nothing |
| `Sha256Stream.S256.Update` | qrx-core/src/apps/qrx_upscaler_ai.c:21 | for every chunk, whatever is buffered: the absorbed message grows by the chunk, whole blocks folded, rest buffered, bit count modulo 2^64 |
| `Sha256Stream.S256.PadToLength` | qrx-core/src/apps/qrx_upscaler_ai.c:22 | marker and zero bytes end eight bytes before the end of a block, through an extra block when needed |
| `Sha256Stream.S256.Final` | qrx-core/src/apps/qrx_upscaler_ai.c:22 | the digest is the block function folded over the padded message, for every residue of its length |
| `Sha256Stream.HashChunks` | qrx-core/src/apps/qrx_upscaler_ai.c:23 | however a message is split into chunks, the digest is that of its concatenation |
| `ChainParams.SelectFork` | qrx-core/src/chain_params.c:212-220 | the loop returns the override of greatest height not above the given one, the last among equals, or none exactly when none applies |
| `ChainParams.GoverningIs` | qrx-core/src/chain_params.c:212-220 | the recursive choice is that override |
| `ChainParams.LaterForkIsInert` | qrx-core/src/chain_params.c:179-224 | an override that starts later changes no value yet, wherever it is written |
| `ChainParams.StableBetweenForks` | qrx-core/src/chain_params.c:179-224 | a parameter changes only at the height of one of its overrides |
| `ChainParams.BlockReward` | qrx-core/src/chain_params.c:238-246 | the halving loop with its early exit equals floor(initial / 2^(height/interval)), zero and negative parameters included |
| `ChainParams.HalvesNext` | qrx-core/src/chain_params.c:248-252 | the reward is constant up to the next halving height, where it is half, rounded down |
| `ChainParams.RewardNonIncreasing` | qrx-core/src/chain_params.c:234-246 | the reward never grows with height and never exceeds the initial one |
| `ChainParams.EmissionByEpochs` | qrx-core/src/chain_params.c:234-246 | emission is interval times the reward of each past epoch plus the heights of the current one |
| `ChainParams.EmissionBound` | qrx-core/src/chain_params.c:234-246 | all rewards of any number of heights together stay below 2 * initial * interval |
| `ChainParams.PaidIsEmission` | qrx-core/src/chain_params.c:234-246 | a chain without later overrides of the reward parameters pays exactly this schedule |
| `ChainParams.SupplyCeiling` | README.md:31-35 | 0.25 QUB, 12,614,400 blocks and 60 bootstrap grants of 1000 QUB stay below 6,367,200 QUB, hence below 21,000,000 QUB |
| `Producer.NoFurther` | qrx-core/src/qrxd.c:753-761 | the proposer is never further from the cursor than any signer able to propose |
| `Producer.TurnComes` | qrx-core/src/qrxd.c:749-761 | a signer that can always propose gets its turn before its distance from the cursor runs out |
| `Producer.BoundedWaiting` | qrx-core/src/qrxd.c:749-803 | such a signer proposes at least one of any n consecutive finalised blocks, whatever others do and however many rounds fail to finalise |
| `Producer.Rotation.constructor` | qrx-core/src/qrxd.c:728 | the rotation starts at the first signer |
| `Producer.Rotation.Propose` | qrx-core/src/qrxd.c:749-761 | tries every signer once; a proposer is found exactly when some signer is able |
| `Producer.Rotation.Pass` | qrx-core/src/qrxd.c:749-803 | only a finalised block moves the cursor, behind its proposer |
| `Producer.CatchUpGate.CatchUpSafe` | qrx-core/src/qrxd.c:622-654 | signing is allowed exactly when peers and lag have been good at every call of the latest stretch, by the limits read at each call, and that stretch has lasted the stabilisation time |
| `Producer.RankedIs` | qrx-core/src/qrxd.c:1127-1135 | ranking keeps every block once, highest first |
| `Producer.CutThenInsert` | qrx-core/src/qrxd.c:1127-1135 | cutting a ranking before an insertion loses nothing the cut after it would keep |
| `Producer.InsertRecent` | qrx-core/src/qrxd.c:1127-1135 | in-place insertion into the bounded array is insertion into the ranking cut to its capacity |
| `Producer.CollectRecent` | qrx-core/src/qrxd.c:1137-1166 | inserting all blocks one by one leaves exactly the highest ones among those that state a height, as many as fit, highest first |
| `LedgerExport.HeightRange` | qrx-core/tools/qrx-complete-ledger-export.py:240-244 | lowest and highest height of a block stamped within the period, none exactly when there is none |
| `LedgerExport.LedgerComplete` | qrx-core/tools/qrx-complete-ledger-export.py:208-222 | every journal entry of every address is in the ledger, each identity exactly once |
| `LedgerExport.CollectTransactions` | qrx-core/tools/qrx-complete-ledger-export.py:208-222 | if the database stood still, the rows are those of one state |
| `LedgerExport.CollectDetailed` | qrx-core/tools/qrx-complete-ledger-export.py:224-230 | if the database stood still, listing and details are those of one state; missing and duplicate ids are refused |
| `LedgerExport.CollectSnapshot` | qrx-core/tools/qrx-complete-ledger-export.py:232-256 | whatever commits come in between, a returned ledger is read entirely from one database state, the one whose generation and root are recorded |
| `LedgerExport.Export` | qrx-core/tools/qrx-complete-ledger-export.py:340-357 | a bundle that is let out is the ledger of the recorded state, which is still current after all other sources were read |

## Left out

- QRXDB: allocation failures, 64-bit overflow of offsets, the on-disk index file (rebuilt at every start) and the file header (overwritten by recovery).
- QRXDB: a sync that fails inside recovery, runs that go on after a commit in doubt other than by one commit and a restart.
- QRXDB: two batches open at once; a batch is committed on the store it was begun on.
- QRXDB: events other than commits between a compaction and the next restart, signed snapshot files, the key schemes of the chain index, a stale temporary file of an interrupted compaction.
- QrxdbCompactRestart.RestartKeepsLogIff: asks for a WAL without torn records; with one, `QrxdbCompactRestart.RestartAfterCompact` gives the log and `QrxdbCompactRestart.RestartKeepsMapIff` the condition for the map.
- KrakenGateway.Gateway.FindByClientId: assumes the venue lists every order it accepted; paging of closed orders and an AddOrder accepted only after a later lookup are not modelled.
- Kraken gateway: HTTP signing, permissions, pair catalogue, rounding of volume and price, the execution event table.
- Arbitrage: a configuration that changes during a run, linking a second hedge id to a row already broadcast as a hedge of its own, JSON parsing, the 28-digit Decimal context, trimming of the hedge id, the listing command, re-reading an approved plan.
- Upscaler: that the C library's sine stays within the lobe bounds of `Upscaler.Lobes`, floating-point rounding of kernel values, PNM and PNG files, the batch shards, allocation failures.
- SHA-256: the block function itself, file reading, hexadecimal output.
- Chain parameters: text parsing, truncation of long values, the genesis hash check, overflow of long long; `ChainParams.HalvesNext` is about heights from 0 on.
- Producer: the path without a signing fleet, votes and finalisation themselves, a fleet that changes, parsing of peer heights.
- Ledger exporter: text and CSV formats, the period filter on rows, the off-chain journals, a wallet whose addresses change during an export.
- The long command dispatch of qrx.c, qrxd.c and qrx_cli.c, RPC, the wallet and browser user interfaces: plumbing around the modelled operations.
