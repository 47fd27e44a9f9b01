# Kervan in Dafny

Kervan is a multi-protocol file server. This project models the parts of it that
carry properties over whole runs and proves those properties:

- the tamper-evident audit log: sealing, rotation, retention, restart and the
  one-pass verifier, down to the bytes of the files;
- the quota tracker that all sessions of a user share, with its re-measurement;
- the JSON store shared by several processes, its crash copy, the SQLite store
  that has to answer the same, and the user index kept in them;
- SCP: a sender and a receiver that compose to the identity on file trees, and the
  shell words of the command line;
- the token bucket, the audit delivery engine, the LDAP filter compiler with its
  BER codec, and the streaming audit readers.

`dafny verify dfyconfig.toml` checks everything.

## How to read it

| topic | files | main results |
|---|---|---|
| audit log | `ChainCodec`, `AuditVerify`, `AuditSoundness`, `LogBytes`, `AuditLog`, `AuditHistory`, `FileSink` | `AuditVerify.VerifyChain`, `AuditLog.VerifyLog`, `AuditSoundness.CleanExactly`, `AuditHistory.AlteredLog` |
| quota | `Sums`, `Quota`, `QuotaRun`, `QuotaSystem`, `QuotaFailures`, `Usage` | `QuotaSystem.CalmRunConserves`, `QuotaSystem.AdoptionIsSafe`, `QuotaSystem.NoOverrun` |
| store | `Store`, `JsonBackend`, `Backends`, `Users` | `Store.Serializable`, `Store.LostPrimaryKeepsAcknowledged`, `Backends.BackendsAgree`, `Users.IndexAlwaysAgrees` |
| SCP | `ShellWords`, `ScpRecords`, `ScpTransfer` | `ScpTransfer.TreeRoundTrip`, `ShellWords.SplitUndoesQuoting` |
| the rest | `Throttle`, `Engine`, `Ber`, `LdapFilter`, `LdapTemplate`, `Readers` | `Throttle.WindowBound`, `Engine.RemoteDelivery`, `LdapTemplate.RenderedCompiles`, `Readers.PagesCoverAll` |

Objects whose methods update fields are classes (`FileSink`, `Tracker`,
`QuotaFile`, `JsonBackend`, `Limiter`). What happens between objects, processes or
goroutines is a state machine whose steps are the critical sections, locks being
guards on steps; the classes use the same functions as the steps.

### What is assumed

- A byte is one `char`. Trimming, control characters and case folding are ASCII.
- HMAC-SHA256, the JSON decoding of a chain field and the reading of an
  `audit.pruned` event are the fields of `ChainCodec.Env`. `Faithful` says what the
  results ask of them: decoding reads back what was marshalled, and a MAC is a
  non-empty hex string of at most 64 characters. `FileSinks.EnvironmentExists`
  shows that this can be had. HMAC (RFC 2104) is not taken to be injective: the
  soundness results ask that no two of the finitely many sealed records share a
  MAC, and that every message with a good MAC was once given to HMAC by the sealer.
- Audit runs: chaining always on, `MaxBackups` fixed, strictly increasing rotation
  times, a line is written whole or not at all. Sequence numbers wrap at 2^64 as in
  the code.
- Quota runs: changes in flight at the same time are on disjoint paths. Backend calls
  and the look-ups before them may fail. In the runs time enters only as a free choice
  (is the last measurement stale, is a change stuck).
- Store runs: each replacement of the store file gets a distinct stamp, and a reader's
  refresh is one step. A SQLite transaction is one step.
- The bucket's arithmetic is over the reals.

### Where the code and its promises part

- `openJSONBackend` loads the file and takes its stamp afterwards. A process that
  opens while another writes keeps the old data under the new stamp and its next
  write erases the successful one (`Store.RacedOpenLosesAnUpdate`).
  `Store.OpenInStep`, `Store.WriterInStep` and `JsonBackend.Open` say exactly when a
  process is in step with the file; serializability is proved for runs in which a
  process whose open raced a writer changes nothing before it has reloaded the file.
- The backup is written last, so after two writes that both stop before it the backup
  is two updates old (`Store.TwoStopsLoseTheBackup`). `Store.DamageRecovers` says
  exactly when a lost primary is recovered to one side of the last update.
- `Create` with an ID that exists, and an update or `Mutate` that blanks the
  username, leave index and records out of step. `Users.CreateKeeps` and
  `Users.UpdateTxKeeps` are if-and-only-if.
- The verifier's scanner takes lines of less than 16 MiB, and nothing keeps a writer
  below that: `AuditLog.VerifyLog` reports an honest log clean if and only if every
  line of it fits, and `LogBytes.ShortEventsFit` says which events always do.
- A quota walk forced through while changes are stuck may lose reservations:
  `QuotaSystem.StuckAdoption` says exactly when it does not if, behind the back of the
  walk, only files change that it has yet to look at. If one changes that it has
  looked at, the figures can be wrong although nothing is pending, because a write
  that was reserved in full does not touch the generation when it is done:
  `QuotaFailures.StaleForcedWalk`.
- Opening, renaming and removing go on when the look-up that should tell what they
  replace fails, and a handle whose `Stat` failed takes the file for empty. A zero-byte
  write past the end of a file moves the tracked size and not the stored one.
  `QuotaRun.Missed` names these steps, `QuotaSystem.MoveConserves` says that exactly
  they break the books, and `QuotaFailures.FailedLookupOverruns` is a run in which one
  takes the number of files over the limit.
- The quarter of a second that a chunk should sleep at most is kept if and only if the
  rate is at least 128 KiB a second: `Throttle.QuarterSecond`.
- A page number whose start overflows 64 bits can show another page:
  `Readers.AuditPage` returns the page asked for if and only if `Readers.PageFits`, and
  `Readers.HugePageIsPageOne` is a number that shows page 1.
- `decodeBERLength` refuses lengths of more than four bytes that `encodeBERLength`
  can write: `Ber.ChildrenRoundTrip` is if-and-only-if.
- An SCP time before 1970 is sent and dropped on reading: `ScpRecords.TimesRoundTrip`.

## Model

| member | source | states |
|---|---|---|
| ChainCodec.LastMarkerIsStructural | internal/audit/chain.go:127-130 | the last marker of a sealed line is the structural one, whatever bytes come before it |
| ChainCodec.SplitRecovers | internal/audit/chain.go:127-142 | splitting any text followed by a chain field gives back that text and that state |
| ChainCodec.SealRoundTrip | internal/audit/chain.go:100-142 | every event ending in a brace seals, from every chain state, to a line that is already trimmed and splits back into exactly that event and state, with the MAC over it |
| ChainCodec.FramingInjective | internal/audit/chain.go:91-96 | two records given to HMAC as the same message are the same record |
| AuditVerify.SegmentSnoc | internal/audit/chain.go:211-254 | the unbroken-segment property of a log is exactly what the verifier checks record by record against the one before |
| AuditVerify.ScannedVerdict | internal/audit/chain.go:256-272 | what one pass remembers (problems, open starts, pruned keys) decides cleanliness of the whole log, also for prune records that come after the start they explain |
| AuditVerify.VerifyChain | internal/audit/chain.go:190-272 | no problem is reported if and only if the log is clean: unchained lines first, then one consecutive segment with good MACs and links that starts at 1 or is named by a sealed prune record; at most 100 problems are kept, the counts add up, last sequence number and MAC are those of the last record; an over-long line is a read error |
| AuditSoundness.AuthenticByFraming | internal/audit/chain.go:91-96 | unforgeability of messages makes every record with a good MAC one that was sealed |
| AuditSoundness.FindSlice | internal/audit/chain.go:19-32 | an unbroken segment is a contiguous slice of one sealed history |
| AuditSoundness.CleanIsSlice | internal/audit/chain.go:190-272 | the chained part of a clean log is a contiguous slice of what was sealed, starting at record 1 or where a sealed prune record says, so only the tail can be missing unseen |
| AuditSoundness.SliceIsClean | internal/audit/chain.go:190-272 | every such slice verifies |
| AuditSoundness.CleanExactly | internal/audit/chain.go:19-32 | a log is clean if and only if it has no chained part or is such a slice |
| LogBytes.ViewOpenLog | internal/audit/rotation.go:94-119 | reading the concatenated files line by line gives exactly the records of all files in order |
| LogBytes.LastLineInWindow | internal/audit/rotation.go:121-144 | the tail window yields the last line of the file, or its end when the line is longer than the window |
| LogBytes.LastStateOfBytes | internal/audit/rotation.go:121-144 | the newest chain state is found in the bytes of every non-empty file, whatever the length of its last line |
| AuditLog.InsertNewest | internal/audit/rotation.go:29-46 | a file rotated under a newer time goes after all the others |
| AuditLog.ResumeFinds | internal/audit/chain.go:147-164 | resuming from the files finds the position after the newest record of the whole log, past empty files |
| AuditLog.DropPrefix | internal/audit/file_sink.go:160-188 | dropping records up to one that a later sealed record names keeps the log a chain and its end |
| AuditLog.StepKeeps | internal/audit/file_sink.go:98-188 | every step of opening, writing, renaming, reopening, recording a prune, deleting and crashing keeps the invariant: a log that starts past record 1 holds the prune record that names its missing predecessor |
| AuditLog.ChainfulIsClean | internal/audit/chain.go:190-272 | a log with that invariant is clean |
| AuditLog.EveryRunVerifies | internal/audit/file_sink.go:98-188 | after every run of any length, stopped anywhere, the lines of the bytes on disk have the clean shape |
| LogBytes.LongOpenLog | internal/audit/chain.go:191-193 | reading the files meets a line that does not fit the scanner if and only if some record's line has 16 MiB or more |
| LogBytes.ShortEventsFit | internal/audit/chain.go:191-193 | no line is too long while events stay 256 bytes below 16 MiB |
| AuditLog.VerifyLog | internal/audit/chain.go:190-272 | run on the bytes that any run leaves, the verifier fails to read them if and only if a line is too long, and otherwise reports no problem, every record, and the newest sequence number and MAC |
| AuditLog.RunSeals | internal/audit/file_sink.go:98-188 | the log of a run is always the end of one chain that begins at record 1 and holds everything ever written |
| AuditHistory.RunIsHonest | internal/audit/chain.go:98-125 | what a run ever wrote is one honest history |
| AuditHistory.AlteredLog | internal/audit/chain.go:19-32 | any bytes put in place of the log of a run verify if and only if they hold no chained record or their chained records are a slice of what the run wrote, from record 1 or a sealed pruned boundary |
| FileSinks.ResumeChain | internal/audit/chain.go:147-164 | the loop over files from the newest back computes the resume position |
| FileSinks.FileSink.constructor | internal/audit/file_sink.go:49-86 | on any directory the chain is resumed from the newest file that is not empty; on what an earlier run left it continues that run |
| FileSinks.FileSink.AppendLocked | internal/audit/file_sink.go:114-135 | one sealed line is added and the chain moves on, or, when the event is no JSON object or the write fails, nothing changes |
| FileSinks.FileSink.PruneOldest | internal/audit/file_sink.go:160-188 | a sealed record naming its newest state comes before the oldest backup goes or fails to go, and the log stays that of a run |
| FileSinks.FileSink.PruneAll | internal/audit/file_sink.go:156-188 | only oldest backups go, at most MaxBackups stay unless a prune fails |
| FileSinks.FileSink.RotateLocked | internal/audit/file_sink.go:141-188 | the live file becomes the newest backup, only oldest backups go, at most MaxBackups stay; with any of close, rename, open, listing, recording or deleting failing, no file loses a byte and the log stays that of a run |
| FileSinks.FileSink.Write | internal/audit/file_sink.go:98-111 | on success the event is the newest record ever written; below the size limit it succeeds exactly if it is a JSON object, the handle works and the write does, and otherwise changes nothing |
| FileSinks.FileSink.Verify | internal/audit/file_sink.go:98-188 | whatever was called and whatever failed, the verifier reports the bytes in the directory clean unless a line is too long |
| FileSinks.EnvironmentExists | internal/audit/chain.go:91-164 | the assumptions on HMAC and JSON can be met together |
| Quota.Tracker.BeginChange | internal/quota/quota.go:71-82 | one more change in flight, a new generation, and the busy clock starts if none was in flight |
| Quota.Tracker.EndChange | internal/quota/quota.go:85-97 | one change fewer in flight, a new generation, and the busy clock stops with the last one |
| Quota.Tracker.Stuck | internal/quota/quota.go:116-128 | a tracker is stuck only if it has been busy without a break for ten minutes and ten intervals |
| Quota.Tracker.Snapshot | internal/quota/quota.go:141-153 | a measured tracker is walked only if idle or stuck, and left alone only if busy or fresh |
| Quota.Tracker.Commit | internal/quota/quota.go:163-173 | a walk is adopted or leaves everything as it was, and the tracker is measured afterwards |
| Quota.Tracker.OnGrow | internal/quota/quota.go:175-187 | growth is admitted exactly under the limit, and refused without effect |
| Quota.Tracker.OnShrink | internal/quota/quota.go:189-198 | usage goes down, clamped at zero |
| Quota.Tracker.OnFileCreated | internal/quota/quota.go:200-213 | a file is admitted exactly under the limit, and refused without effect |
| Quota.Tracker.OnFilesRemoved | internal/quota/quota.go:215-223 | the file count goes down, clamped at zero |
| Quota.QuotaFile.Write | internal/vfs/user_vfs.go:522-545 | with short and failed writes, the handle's net charge stays its tracked size minus its size at open; the two refusals happen exactly when they should and change nothing |
| Quota.QuotaFile.Truncate | internal/vfs/user_vfs.go:573-598 | the same for truncation, failing or not, unless the tracker's clamp swallowed part of a refund, which happens exactly when usage was below it |
| Quota.QuotaFile.Seek | internal/vfs/user_vfs.go:565-571 | moves the offset unless it fails, and charges nothing |
| Quota.QuotaFile.Read | internal/vfs/user_vfs.go:547-551 | moves the offset and charges nothing |
| Quota.TrackedSizeIsStoredSize | internal/vfs/user_vfs.go:522-545 | the tracked size is the stored size if and only if the write is not a zero-byte one past the end |
| QuotaRun.OpStepBalanced | internal/vfs/user_vfs.go:84-331 | a step of an open, write, truncate, remove or rename changes usage by exactly what it changes in storage plus what it makes or leaves pending, for bytes and files, if and only if it is not one that misses something: its look-up failed with something to count, its handle does not know the size, or it writes nothing past the end |
| QuotaRun.OpStepFramed | internal/vfs/user_vfs.go:84-331 | a step touches no path but those of its own change, and neither the limits nor the count of changes in flight |
| QuotaSystem.NoClamp | internal/quota/quota.go:189-223 | in a conserved state no refund reaches the clamp at zero |
| QuotaSystem.MoveConserves | internal/vfs/user_vfs.go:84-331 | a step keeps a conserved system conserved if and only if it misses nothing |
| QuotaSystem.AdoptionIsSafe | internal/quota/quota.go:141-173 | in every run, between snapshot and commit of a walk that is adopted outside the stuck case no change began, moved or ended and none is open, and unless files changed outside the adopted figures are those of storage |
| QuotaSystem.StuckAdoption | internal/quota/quota.go:99-173 | in every run, if between listing and commit of a forced walk no file came or went and only files changed that it had yet to look at, adopting it keeps the books if and only if no change in flight has anything pending |
| QuotaFailures.StaleForcedWalk | internal/quota/quota.go:141-173 | a run in which a write lands during a forced walk: nothing is pending, and the adopted figures lose its bytes |
| QuotaFailures.FailedLookupOverruns | internal/vfs/user_vfs.go:125-145 | a run in which a failed look-up lets a file be created beyond the limit |
| QuotaSystem.TrackerAgreesWithStorage | internal/quota/quota.go:293-313 | in every run, with files changed outside as well, figures measured since the last disturbance are exact, and no session ever holds an unmeasured tracker |
| QuotaSystem.CalmRunConserves | internal/vfs/user_vfs.go:84-331 | from the first measurement on, in every interleaving without a missing step, usage equals stored bytes plus reserved growth plus unreleased removals, and equals storage when nothing is in flight; likewise for files |
| QuotaSystem.GrowthIsChecked | internal/quota/quota.go:175-213 | no step of a change raises a figure except under its limit |
| QuotaSystem.NoOverrun | internal/quota/quota.go:175-213 | with limits not lowered, no such interleaving takes either figure, or the stored bytes and files, above the limit, or above what was there at the start |
| Usage.MeasureDir | internal/quota/quota.go:368-399 | the recursive walk totals the tree, passing over what has vanished, and fails exactly if a look-up below fails, with the totals of the entries before |
| Usage.FlatAllTotals | internal/quota/quota.go:356-399 | the total of the tree is the sum over its files by path, the figure conservation speaks of |
| Store.Serializable | internal/store/json_backend.go:79-182 | in every interleaving of processes, with failures, unsynced replacements and crashes, the file is the fold, in lock order, of a subsequence of the operations that contains every successful one |
| Store.OpenInStep | internal/store/json_backend.go:32-47 | an opened process is in step with the file if and only if nobody replaced it between load and Stat |
| Store.WriterInStep | internal/store/json_backend.go:79-130 | a writer works on everything that is in the file if and only if its open did not race another or it has reloaded since |
| Store.LostPrimaryKeepsAcknowledged | internal/store/json_backend.go:221-302 | in every run, with the primary lost or damaged, loading yields a fold of operations that contains every one that returned success |
| Store.RacedOpenLosesAnUpdate | internal/store/json_backend.go:32-47 | a run in which a raced open makes a successful update disappear |
| Store.CrashRecovers | internal/store/json_backend.go:221-270 | stopping a flush anywhere and loading yields the state before or after it |
| Store.DamageRecovers | internal/store/json_backend.go:221-302 | with the primary lost or damaged as well, loading yields one of the two if and only if the backup was written or was not already behind |
| Store.BackupIsLastCompleted | internal/store/json_backend.go:249-270 | after any sequence of stopped flushes, the backup is the last completed one and the primary the last one written |
| Store.TwoStopsLoseTheBackup | internal/store/json_backend.go:249-270 | two stops in a row leave a backup that is neither side of the last update |
| JsonBackends.JsonBackend.Open | internal/store/json_backend.go:32-47 | opening loads what the files hold, and is in step with the file if and only if no other contents came between and an unreadable primary could be restored |
| JsonBackends.JsonBackend.LoadFiles | internal/store/json_backend.go:221-247 | loading yields the recovered state and puts it back in the primary |
| JsonBackends.JsonBackend.Refresh | internal/store/json_backend.go:100-130 | memory becomes the newest readable contents, an unreadable regular file is remembered, a good one clears that, and one that is missing or not regular changes nothing |
| JsonBackends.JsonBackend.FlushData | internal/store/json_backend.go:249-270 | each failing file operation leaves the files at the corresponding stage |
| JsonBackends.JsonBackend.MutateLocked | internal/store/json_backend.go:79-95 | the change is made to the newest contents, whoever wrote them; on success both files hold it, and an unsaved change is marked |
| JsonBackends.JsonBackend.Update | internal/store/json_backend.go:155-182 | the same for a callback, and one that fails changes neither file nor memory |
| JsonBackends.JsonBackend.Get | internal/store/json_backend.go:184-193 | a process with nothing unsaved answers from the file itself, and reports an unreadable one |
| JsonBackends.JsonBackend.List | internal/store/json_backend.go:195-215 | the same for the rows of a collection in key order |
| JsonBackends.JsonBackend.Close | internal/store/json_backend.go:52-59 | nothing is written without an unsaved change, and another process's records are never undone |
| JsonBackends.OthersMayWrite | internal/store/json_backend.go:97-130 | a replacement by another process leaves this one valid, and its next call works on the new contents |
| JsonBackends.CallIsUpdate | internal/store/json_backend.go:79-182 | the steps of a call in the shared-file runs compute what the methods promise |
| Users.LookupFinds | internal/auth/repo.go:77-93 | lookup by name returns the record whose lower-cased trimmed name is that of the request, and none if there is none |
| Users.NamesUnique | internal/auth/repo.go:284-298 | no two users share a name up to case and surrounding blanks |
| Users.CreateKeeps | internal/auth/repo.go:26-62 | a successful create keeps index and records in bijection if and only if its ID is new |
| Users.UpdateTxKeeps | internal/auth/repo.go:154-186 | a successful update keeps it if and only if the new name is not blank |
| Users.DeleteKeeps | internal/auth/repo.go:207-221 | a delete keeps it, removes the record and no other |
| Users.IndexAlwaysAgrees | internal/auth/repo.go:26-221 | index and records agree after every sequence of such requests, refused ones included |
| Backends.ListingUnique | internal/store/json_backend.go:203-209 | a set of keys has only one sorted listing |
| Backends.SortKeys | internal/store/json_backend.go:203-209 | the keys come out sorted, all of them, once |
| Backends.FlatList | internal/store/json_backend.go:195-215 | the rows of exactly the keys with the collection's prefix, in key order |
| Backends.TableList | internal/store/sqlite_backend.go:411-429 | the rows of exactly the collection, in key order |
| Backends.PrefixIsCollection | internal/store/json_backend.go:195-219 | for colon-free names a prefix match selects exactly one collection |
| Backends.SameGet | internal/store/sqlite_backend.go:399-401 | both backends give the same answer to a get |
| Backends.SameList | internal/store/sqlite_backend.go:411-429 | both backends list the same rows in the same order |
| Backends.BackendsAgree | internal/store/json_backend.go:195-219 | this stays so after any sequence of operations |
| Backends.CutKey | internal/store/sqlite_backend.go:146-228 | cutting a composite key at its first colon undoes the composition, and fails exactly without a colon |
| Backends.ImportRows | internal/store/sqlite_backend.go:146-228 | the import loop makes the table of the rows under their cut keys, or fails exactly on a malformed key |
| Backends.RowsOfSame | internal/store/sqlite_backend.go:146-228 | that table answers as the JSON store does |
| Backends.ImportsOnce | internal/store/sqlite_backend.go:146-256 | under concurrent first opens at most one import happens, only into an empty database, and it preserves every record |
| ShellWords.SplitShellWords | internal/protocol/sftp/scp.go:100-154 | the loop computes the lexer of the results below |
| ShellWords.SplitUndoesQuoting | internal/protocol/sftp/scp.go:100-154 | quoting any list of words, empty ones included, and splitting gives the list back |
| ShellWords.ExecRecoversTarget | internal/protocol/sftp/scp.go:46-154 | an scp command with a quoted target after `--` is parsed to that target and those options |
| ScpRecords.ParseOctal4 | internal/protocol/sftp/scp.go:534-566 | four octal digits read back as the mode |
| ScpRecords.RecordRoundTrip | internal/protocol/sftp/scp.go:534-588 | a record with a valid trimmed name parses back to mode, size and name, blanks in the name included |
| ScpRecords.RecordIsLine | internal/protocol/sftp/scp.go:639-660 | a record is one line that trimming leaves alone |
| ScpRecords.TimesRoundTrip | internal/protocol/sftp/scp.go:590-601 | a time record reads back as its time, or as none before 1970 |
| ScpTransfer.RunSink | internal/protocol/sftp/scp.go:360-530 | the receiver's loop computes the run of the results below |
| ScpTransfer.PlaceAt | internal/protocol/sftp/scp.go:360-530 | below the destination of a received tree there is, path by path, exactly what the tree has |
| ScpTransfer.PlaceFrame | internal/protocol/sftp/scp.go:360-530 | nothing outside the destination changes |
| ScpTransfer.RunNode | internal/protocol/sftp/scp.go:255-358 | the records of a file or directory, sent at any point, place it and leave the directory stack as they found it |
| ScpTransfer.RunTooDeep | internal/protocol/sftp/scp.go:360-530 | a tree that would nest deeper than 128 directories is refused |
| ScpTransfer.TreeRoundTrip | internal/protocol/sftp/scp.go:242-530 | sending any well-formed tree into the receiver rebuilds names, contents, modes and times below the target, changes nothing else and writes exactly the acks the sender waits for, if its depth is at most 128, and is refused otherwise |
| Throttle.Limiter.SetRate | internal/throttle/throttle.go:38-72 | the new rate and burst, with tokens cut to the burst |
| Throttle.Limiter.ChunkSize | internal/throttle/throttle.go:74-85 | no chunk limit without a rate, else the chunk of the next two results |
| Throttle.ChunkSleeps | internal/throttle/throttle.go:72-108 | without earlier debt, one chunk sleeps at most its size over the rate |
| Throttle.QuarterSecond | internal/throttle/throttle.go:72-108 | no such chunk sleeps more than a quarter of a second if and only if the rate is at least 131072 |
| Throttle.Limiter.Wait | internal/throttle/throttle.go:87-108 | the bucket is refilled and charged and the delay is the time in which the debt is repaid |
| Throttle.LevelGrows | internal/throttle/throttle.go:87-108 | over any stretch of calls the bytes charged raise the bucket's level by at least as much |
| Throttle.WindowBound | internal/throttle/throttle.go:87-108 | releases are in order, and the bytes of any stretch of calls are at most the burst plus the rate times the time between its releases |
| Throttle.Chunk | internal/vfs/throttled_file.go:23-30 | a chunk within every limit, positive, and as large as the smallest limit or all that is left |
| Throttle.Write | internal/vfs/throttled_file.go:61-73 | the file receives a prefix of the data, all of it unless a write fails, also if it fails after a whole chunk, and every chunk is paid for first and within the limits |
| Engine.NoSendOnClosed | internal/audit/engine.go:122-207 | in no interleaving is a send on a closed channel possible |
| Engine.SynchronousDelivery | internal/audit/engine.go:147-207 | each synchronous sink gets the accepted events in order, without loss or repeat, all of them when the loop has ended |
| Engine.RemoteDelivery | internal/audit/engine.go:181-229 | for each remote sink, events offered are delivered, failed, dropped, queued or in hand, in order, and all accepted events are offered when the loop has ended |
| Engine.BlockedSenderProgress | internal/audit/engine.go:122-207 | a waiting sender can always go on, or the loop can |
| Ber.ParseChildren | internal/auth/ldap.go:427-450 | the loop computes the parse of the results below |
| Ber.LengthRoundTrip | internal/auth/ldap.go:500-555 | a length reads back exactly below 2^32, and is refused above |
| Ber.OneRoundTrip | internal/auth/ldap.go:427-535 | an encoded element followed by anything parses to the element and the rest |
| Ber.ChildrenRoundTrip | internal/auth/ldap.go:427-535 | concatenated elements parse back to the list if and only if every body is below 2^32 bytes |
| LdapFilter.UnescapeValue | internal/auth/ldap.go:677-692 | the loop computes the unescaping of the results below |
| LdapFilter.UnescapeEscape | internal/auth/ldap.go:666-692 | unescaping an escaped value gives it back, for every value |
| LdapFilter.EscapedIsInert | internal/auth/ldap.go:666-675 | an escaped value holds no parenthesis and no star |
| LdapFilter.ParseShow | internal/auth/ldap.go:609-664 | any spelling of a filter, followed by anything, parses to the encoding of the filter and leaves the rest |
| LdapFilter.CompileShown | internal/auth/ldap.go:598-664 | whichever characters are escaped, and in whichever case, a spelling compiles to the encoding of the filter it spells |
| LdapFilter.CompilePrinted | internal/auth/ldap.go:598-664 | every And/Or/equality/presence tree with plain attribute names compiles from its escaped text (section 3 of RFC 4515) to its BER encoding (section 4.5.1.7 of RFC 4511) |
| LdapTemplate.ReplaceConcat | internal/auth/ldap.go:266-277 | replacing the placeholder works piece by piece where no placeholder straddles the seam |
| LdapTemplate.RenderTemplate | internal/auth/ldap.go:266-277 | rendering changes the text at the placeholders and nothing else, whatever is put in |
| LdapFilter.BlurShows | internal/auth/ldap.go:530-555 | a filter in which equalities have become tests of presence never has the same encoding, whatever follows it |
| LdapTemplate.SeenSense | internal/auth/ldap.go:266-277 | the rendered text spells the template's filter with the bytes of the username at the placeholders, or that filter with some equalities turned into tests of presence, and the latter exactly if the username is empty and some value is then a lone star |
| LdapTemplate.RenderedCompiles | internal/auth/ldap.go:266-277 | the rendered template compiles to the encoding of that filter if and only if the username is not empty or no value is a lone star without one: no username adds, removes or alters a condition |
| LdapTemplate.AuthenticatedCompiles | internal/auth/ldap.go:96-120 | every username that Authenticate lets through, trimmed and not empty, compiles as meant |
| LdapTemplate.EmptyUsernameMayMeanPresence | internal/auth/ldap.go:266-277 | the shortest template whose value is a lone star without a username, which Authenticate never looks up |
| LdapTemplate.DefaultCompiles | internal/auth/ldap.go:266-277 | without a placeholder the filter is one equality on the username attribute |
| Readers.ReadRecent | internal/mcp/resources.go:146-201 | the ring buffer returns the newest matches, newest first, or an error exactly if a line does not fit the scanner |
| Readers.CountMatches | internal/api/server.go:1974-1983 | the first pass counts the matches, or fails exactly if a line does not fit the scanner |
| Readers.CollectWindow | internal/api/server.go:1985-2016 | the second pass collects exactly the matches in the window, whatever its bounds |
| Readers.ReverseWindow | internal/api/server.go:2017-2019 | the swap loop reverses |
| Readers.WindowIsPage | internal/api/server.go:1985-2019 | the window counted from the oldest in 64-bit arithmetic, reversed, is the page counted from the newest if and only if the start of the page does not overflow or overflows to an empty window |
| Readers.AuditPage | internal/api/server.go:1952-2019 | a page is the slice of the reversed list of matches, with the total, under that same condition, or an error exactly if a line does not fit |
| Readers.HugePageIsPageOne | internal/api/server.go:1985-1993 | a page number whose start overflows to zero shows page 1 again |
| Readers.PagesArePrefix | internal/api/server.go:1952-2019 | the first pages together are a prefix of that list |
| Readers.PagesCoverAll | internal/api/server.go:1952-2019 | enough pages are the whole list, with nothing lost or repeated |
| Readers.RecentIsFirstPage | internal/mcp/resources.go:146-201 | both readers agree on the newest matches |

## Left out

- Audit: torn writes (a partial line without a newline), chaining switched on or off between runs, key files, a bound on the size of rotated files (the 128 bytes allowed for the chain field are fewer than it takes).
- Audit file names: rotated files are ordered by their time, and glob matching of names is not modelled.
- FileSinks.FileSink.constructor: on a directory with lines that no chained run wrote it promises the resumed position and no more, because the log need not verify then; directory creation and opening do not fail.
- Quota: `WriteAt`, append mode's re-seek, writing after a shrinking `Truncate` without a `Seek`, two write handles on one file, a handle used after `Release`, a `RemoveAll` that fails half-way, renaming of directories, symlinks, `int64` overflow, and `Prune` of the registry.
- Quota re-measurement: `Tracker` has its two critical sections as methods, and what runs between them is in the steps of `QuotaSystem`.
- QuotaSystem.StuckAdoption: for walks behind whose back only unseen files change; otherwise the adopted total mixes sizes of different times, and `QuotaFailures.StaleForcedWalk` is such a run.
- Store: reads racing a writer inside one process between reading and publishing the file, JSON text itself, and processes that stay up while their store file is lost.
- Store.Serializable: for runs in which a process whose open raced a writer changes nothing before it has reloaded, because it is false otherwise.
- Users.IndexAlwaysAgrees: for creates with a new ID and updates to a non-blank name, because it is false otherwise; non-ASCII case folding and legacy index keys are not modelled.
- Users works on the pair of maps inside a transaction as values; rollback is that the old value stays.
- SQLite: busy retry, schema, snapshots and `VACUUM INTO`.
- SCP: error acks and backend failures, symlinks, names longer than 65536 bytes, auditing and idle timers. Reading and writing alternate as in the protocol; acks are counted, not interleaved.
- ScpTransfer.TreeRoundTrip: a directory arrives with its mode plus owner access, as the receiver creates it.
- Throttle: rounding and nanoseconds, a rate changed between calls, the registry; reads and positional writes of the throttled file.
- Engine: statistics, logging and the write callback.
- LDAP: messages, binds and searches, substring and negated filters, which the compiler does not know, and the identity cache. A literal before a placeholder does not end inside an escape.
- Readers: the log is the same in both passes, and lines that match also decode.
- Session caps, per-address limiters, API keys, password hashing, TLS, SSH, FTP, HTTP, S3 and the web interface.
