# Sarca: a verified model

Sarca stores files on a server and keeps folders in step with a client sync engine. This project models the parts
of it that carry state from one step to the next, each in its own module, and proves what they promise over whole
runs.

| modules | what they model |
|---|---|
| `TransferQueues`, `TransferRuns`, `TransferMeters`, `TransferEffects`, `TransferProgress`, `TransferSetbacks` | the transfer queue with its two position indexes, its runs, the meters left over, what each operation changes, the totals and percentages shown from it, and when the percentage falls |
| `ChangeLog`, `ChangeLogEvents`, `ChangeLogReplay`, `ChangeLogBreaks` | the `files` table, the SQL triggers that append sync events, what each statement announces, what a client gets by replaying them, and runs after which that is not what is visible |
| `UploadStream`, `UploadLines`, `UploadVerdicts`, `StallWatchdog`, `DownloadRanges`, `PercentEncoding` | reading an upload's NDJSON progress and what it comes to, noticing a wedged upload, fanning a download out into ranges, encoding paths into URLs |
| `Scheduler`, `UploadGate` | the per-binding guard under a semaphore, and the weighted upload gate, as interleaved steps |
| `PreviewCache`, `PreviewKey` | the preview cache: measuring, listing and evicting it, and its keys |
| `ConfText`, `ConfEditor`, `Conf`, `ConfReading`, `ConfLimits` | editing `sarca.conf` in place, loading it, what its lines say, and what it can hold |
| `Version`, `VersionTags`, `UrlHistory`, `UrlVisits` | reading and comparing release tags, and the capped list of recent servers |
| `Options`, `Trimming`, `Arithmetic`, `ByteStrings` | shared helpers |

An object that the program updates in place is a class, and each of its methods is proved equal to a step function on
the class's abstract value. The step functions are what the run theorems are about. A loop in the program is a method
with a loop, proved against a simpler definition that does not mention the loop.

Five statements deserve a remark, because the code does not do what one might expect of it:

- The event log does not always replay to what is visible. A live row whose `is_uploaded` goes to 0 at an unchanged
  path is hidden without an event (the fourth insert of the update trigger passes it over: `sarca/src/startup.rs`, lines
  397-414), and deleting or renaming a trashed row announces the removal of a path that a visible file may hold by now
  (lines 348-361 and 367-376). The model keeps both. The run theorems hold for every run, with the exact set of ids or
  paths that are out of step; `WhatBreaksAgreementById` and `WhatBreaksAgreementByPath` say that these two kinds of
  statement are the only ones that break agreement, and `HidingBreaksAgreement` and `PurgingBreaksAgreement` give runs
  from the empty database that do.
- A meter may outlive its item, because replacing an item does not drop its meter: `LeftOverMeters` says which do.
- After `spooled`, 45 seconds of silence with grace left is an error and not a hand-off (`SilenceAfterSpooled`, for
  timers that fire on time).
- Upserting the same keys twice keeps the loaded values, but not always the text. `SecondUpsertKeepsText` says for
  which files and keys it does: no line that is kept ends in `\r` and, when nothing is to be appended, a file of more
  than two lines does not end in two blank ones. Trailing blank lines are eaten one at a time.
- The shown percentage never drops while transfers are promoted, fed and completed. Beginning, enqueuing, abandoning
  and clearing can lower it; `WhenThePercentageFalls` says exactly when, in terms of the queue before the operation,
  and `EnqueuingLowers` and `AbandoningLowers` give queues on which it falls.

## Model

| member | source | states |
|---|---|---|
| TransferQueues.SplitPathKeepsThePath | crates/sarca-sync/src/transfer.rs:110-116 | a relative path splits into directory and name without loss, so two paths share a slot exactly when they agree up to outer slashes |
| TransferQueues.PatchedIsRebuilt | crates/sarca-sync/src/transfer.rs:131-140 | after a `swap_remove` at any position, the patched indexes equal the ones a full rebuild would give |
| TransferQueues.LookupIsFind | crates/sarca-sync/src/transfer.rs:142-150 | looking an id or a slot up in its index gives what a scan of the waiting list gives, also when it is absent |
| TransferQueues.IndexesAreExact | crates/sarca-sync/src/transfer.rs:86-98 | both indexes describe the waiting list exactly and have its size |
| TransferQueues.BeginKeepsWf | crates/sarca-sync/src/transfer.rs:159-192 | after a begin with a new id, no id and no binding/direction/path/name slot occurs twice among active and waiting items, and statuses match the lists |
| TransferQueues.EnqueueKeepsWf | crates/sarca-sync/src/transfer.rs:194-223 | the same after enqueuing |
| TransferQueues.PromoteKeepsWf | crates/sarca-sync/src/transfer.rs:225-233 | the same after promoting |
| TransferQueues.CompleteKeepsWf | crates/sarca-sync/src/transfer.rs:235-246 | the same after completing, with at most 100 finished items |
| TransferQueues.AbandonKeepsWf | crates/sarca-sync/src/transfer.rs:248-255 | the same after abandoning |
| TransferQueues.ClearKeepsWf | crates/sarca-sync/src/transfer.rs:257-269 | the same after clearing a binding |
| TransferQueues.TransferQueue.WaitingRemoveAt | crates/sarca-sync/src/transfer.rs:131-140 | removes the item at a position by swapping the last one into it, and leaves both indexes exact |
| TransferQueues.TransferQueue.WaitingPush | crates/sarca-sync/src/transfer.rs:152-157 | appends an item and leaves both indexes exact |
| TransferQueues.TransferQueue.BeginTransfer | crates/sarca-sync/src/transfer.rs:159-192 | through the indexes, does what the index-free queue does: the slot is vacated in both lists and the new item is the last active one, with the given id, binding, direction, size and time, its directory and name joining to the trimmed path; the meter of a replaced item stays |
| TransferQueues.TransferQueue.EnqueueWaiting | crates/sarca-sync/src/transfer.rs:194-223 | the same with the new item last among the waiting ones |
| TransferQueues.TransferQueue.PromoteWaiting | crates/sarca-sync/src/transfer.rs:225-233 | moves a waiting item to active and says whether there was one |
| TransferQueues.TransferQueue.CompleteTransfer | crates/sarca-sync/src/transfer.rs:235-246 | takes the item out of active, or else waiting, drops its meter, counts it if it is an upload and lists it as done |
| TransferQueues.TransferQueue.AbandonTransfer | crates/sarca-sync/src/transfer.rs:248-255 | takes the item and its meter out without counting it |
| TransferQueues.TransferQueue.ClearBinding | crates/sarca-sync/src/transfer.rs:257-269 | drops every item of the binding, keeps only meters of active items, and rebuilds exact indexes |
| TransferQueues.TransferQueue.MeterOf | crates/sarca-sync/src/transfer.rs:306-310 | gives the meter of an id, created at zero on first use |
| TransferQueues.TransferQueue.AddDone | crates/sarca-sync/src/transfer.rs:348-353 | puts an item first among the finished ones and keeps at most 100 |
| TransferRuns.StepSimulatesPlainMap | crates/sarca-sync/src/transfer.rs:159-269 | every operation does to a plain map from slot to item what it does to the queue |
| TransferRuns.RunSimulatesPlainMap | crates/sarca-sync/src/transfer.rs:86-157 | over every run with fresh ids the queue is well formed and is represented by the plain map |
| TransferRuns.EveryUploadHasOneFate | crates/sarca-sync/src/transfer.rs:159-269 | over every run, the number of uploads begun or enqueued by its operations is the number completed, remaining, abandoned, replaced or cleared, each counted once |
| TransferMeters.LeftOverMeters | crates/sarca-sync/src/transfer.rs:159-269 | over every run, a meter has no unfinished item if and only if some operation replaced the item while it had the meter, or asked for the meter after the item was over, and since then the id was neither completed nor abandoned and no binding was cleared |
| TransferMeters.ClearLeavesNone | crates/sarca-sync/src/transfer.rs:257-269 | after clearing any binding every meter belongs to an active item |
| TransferMeters.ReplacingLeavesAMeter | crates/sarca-sync/src/transfer.rs:159-192 | beginning a file twice with its meter asked for in between leaves the first meter over |
| TransferEffects.WhatASlotIs | crates/sarca-sync/src/transfer.rs:119-126 | two items share a slot if and only if binding, direction, directory and name agree |
| TransferEffects.AddingChangesListsOnly | crates/sarca-sync/src/transfer.rs:159-223 | beginning and enqueuing put the item last and leave finished items, meters and counters alone |
| TransferEffects.PromotingMoves | crates/sarca-sync/src/transfer.rs:225-233 | the waiting item of the id goes to the end of the active ones, marked and dated, and nothing else changes; without one nothing does |
| TransferEffects.CompletingBooks | crates/sarca-sync/src/transfer.rs:235-246 | an active or waiting item of the id is first among the finished ones, marked and dated, over at most 99 older ones; its meter goes; an upload, and no download, is counted with its size, an unknown or negative one as 0 |
| TransferEffects.CompletingClosesTheGap | crates/sarca-sync/src/transfer.rs:235-246 | the active items behind a finished one move up in their order, and the waiting ones stay |
| TransferEffects.CompletingNothing | crates/sarca-sync/src/transfer.rs:235-246 | completing an id that is not in the queue drops its meter and does nothing else |
| TransferEffects.AbandoningCountsNothing | crates/sarca-sync/src/transfer.rs:248-255 | abandoning drops the meter and leaves finished items and counters alone |
| TransferEffects.ClearingCountsNothing | crates/sarca-sync/src/transfer.rs:257-269 | clearing leaves finished items and counters alone and changes the value of no meter |
| TransferEffects.MetersCount | crates/sarca-sync/src/transfer.rs:306-310 | a meter starts at 0 and grows by what is added, and nothing else changes |
| TransferEffects.WithoutKeepsOrder | crates/sarca-sync/src/transfer.rs:171-174 | removing items keeps the others in their order |
| TransferProgress.SnapshotCoversTheQueue | crates/sarca-sync/src/transfer.rs:271-304 | the counts cover all unfinished items; the list is the first 200 of them, active first, and the finished ones, at most 300 |
| TransferProgress.SentNeverExceedsRemaining | crates/sarca-sync/src/transfer.rs:312-339 | the bytes shown as sent never exceed the bytes remaining, so the clamp never acts on the run total |
| TransferProgress.ShownPercentageNeverDrops | client/src-tauri/src/bg_service.rs:264-277 | across any promotions, meter additions and completions the percentage stays within 0..100 and never falls, and its wholes stay the same |
| TransferProgress.HundredMeansAllArrived | client/src-tauri/src/bg_service.rs:264-277 | with bytes to send, 100 percent is shown exactly when every remaining byte is on its way |
| TransferProgress.CompletedOnlyGrows | crates/sarca-sync/src/transfer.rs:235-246 | no run lowers the counters of finished uploads, so an earlier reading is always a valid base |
| TransferSetbacks.StepShifts | crates/sarca-sync/src/transfer.rs:159-269 | beginning, enqueuing, abandoning and clearing take the bytes, and the bytes sent, of the items they drop out of the totals and add those of the new item |
| TransferSetbacks.WhenThePercentageFalls | client/src-tauri/src/bg_service.rs:264-277 | each of these operations lowers the shown percentage if and only if a condition on the queue before it holds: the part that stays, times 100, is below the new whole times the percentage now |
| TransferSetbacks.WhenEnqueuingLowers | client/src-tauri/src/bg_service.rs:264-277 | a new upload in a free slot lowers it if and only if its bytes, times the percentage, exceed what the percentage was rounded down by |
| TransferSetbacks.EnqueuingLowers | client/src-tauri/src/bg_service.rs:264-277 | a well-formed queue with 5 of 10 bytes sent shows 50, and 25 after another 10 bytes are enqueued |
| TransferSetbacks.AbandoningLowers | crates/sarca-sync/src/transfer.rs:248-255 | a well-formed queue with 5 of 20 bytes sent shows 25, and 0 after the upload that sent them is abandoned |
| TransferProgress.PercentMonotone | client/src-tauri/src/bg_service.rs:254-261 | a larger part of the same whole is never a smaller percentage |
| TransferEffects.PercentRoundsDown | client/src-tauri/src/bg_service.rs:254-261 | the percentage is the whole percent rounded down, 100 from the whole on, and 0 of nothing |
| TransferEffects.NoteCounts | client/src-tauri/src/bg_service.rs:264-277 | done, remaining and total are the uploads finished since the base, those unfinished, and both together |
| TransferEffects.NoteFile | client/src-tauri/src/bg_service.rs:264-277 | the file shown, with its own percentage, is the first active upload that has a meter; without one there is no file |
| TransferEffects.NotePercent | client/src-tauri/src/bg_service.rs:264-277 | the percentage is that of the bytes finished since the base and those sent, each at most its size, in the bytes finished and all unfinished ones |
| ChangeLog.Database.SyncEventUpdate | sarca/src/startup.rs:363-415 | the four guarded inserts append exactly the events of the update: a removal and perhaps an announcement for a rename, otherwise at most one |
| ChangeLog.Database.TouchUpdatedAt | sarca/src/startup.rs:319-326 | the inner UPDATE refreshes `updated_at` and adds no event |
| ChangeLog.Database.InsertRow | sarca/src/startup.rs:332-346 | an admissible row is added and announced if it is visible; a taken path or id changes nothing |
| ChangeLog.Database.UpdateRow | sarca/src/startup.rs:318-415 | both update triggers together: the touched row and the events of the change |
| ChangeLog.Database.DeleteRow | sarca/src/startup.rs:348-361 | the row goes and its path is announced as deleted, whether or not it was visible |
| ChangeLog.Database.DeleteStorage | sarca/src/startup.rs:219-232 | files and events of the storage go with it, and the delete trigger stays silent |
| ChangeLogEvents.WhatAnInsertSays | sarca/src/startup.rs:332-346 | an admissible row adds one event with its columns, typed by the last character of its path, if it is live and stored or a folder, and none otherwise |
| ChangeLogEvents.WhatADeleteSays | sarca/src/startup.rs:348-361 | a removed row adds one removal with the path, size, hash and time of the row that goes |
| ChangeLogEvents.WhatARenameSays | sarca/src/startup.rs:363-386 | a change of path adds a removal with the old columns, then an announcement with the new ones if the row is then shown |
| ChangeLogEvents.WhatAChangeSays | sarca/src/startup.rs:387-414 | at the same path: a removal with the new columns when the row is trashed, an announcement when it is shown and was trashed or has other content, and nothing otherwise |
| ChangeLogEvents.WhatAnUpdateSets | sarca/src/startup.rs:319-326 | the columns are set as given, the storage stays, and `updated_at` becomes the time exactly when the statement left it as it was |
| ChangeLogEvents.EveryEventIsTyped | sarca/src/startup.rs:332-415 | after every run each event says "file" if and only if its path does not end in a slash |
| ChangeLogEvents.WhenAnInsertIsRefused | sarca/src/startup.rs:85-110 | a new row is refused if and only if its id is taken or the table would no longer be sound with it; then nothing changes |
| ChangeLogEvents.WhenAnUpdateIsRefused | sarca/src/startup.rs:106-110 | a change is refused if and only if there is no such row or the table would no longer be sound with it; then nothing changes |
| ChangeLogReplay.StepKeepsTable | sarca/src/startup.rs:106-110 | rows stay in existing storages and no two live rows share a place |
| ChangeLogReplay.UpdateHasTheLastWord | sarca/src/startup.rs:363-415 | replayed by id, the events of an update leave the id as the new row has it |
| ChangeLogReplay.ReplayByIdIsVisibleAndLimbo | sarca/src/startup.rs:318-416 | after every run, the replay by file id is the visible files with their current content plus exactly the ids in limbo; it agrees with the table if and only if none is in limbo |
| ChangeLogReplay.ReplayByPathIsVisibleUpToDrift | sarca/src/startup.rs:332-415 | after every run, the replay by path is right at every path outside the stale and lost ones, and agrees with the table if and only if there are none |
| ChangeLogReplay.CleanStep | sarca/src/startup.rs:332-415 | a statement leaves a clean log clean exactly when it neither hides a row silently nor takes a trashed row off a held path |
| ChangeLogReplay.HeardRunsReplayExactly | sarca/src/startup.rs:318-416 | a run without silent hides replays by id to exactly the visible files; without the second kind of statement too, also by path |
| ChangeLogReplay.WhatBreaksAgreementById | sarca/src/startup.rs:363-415 | from agreement by id, one statement breaks it if and only if it hides a row silently |
| ChangeLogReplay.WhatBreaksAgreementByPath | sarca/src/startup.rs:348-415 | from agreement by path, one statement breaks it if and only if it hides a row silently or takes a trashed row off a held path |
| ChangeLogBreaks.HidingBreaksAgreement | sarca/src/startup.rs:397-414 | adding any visible file and then marking it not uploaded leaves the log listing it |
| ChangeLogBreaks.PurgingBreaksAgreement | sarca/src/startup.rs:348-361 | adding a file, trashing it, adding another at its path and deleting the trashed one loses the new one by path, though not by id |
| ChangeLogReplay.ReplacementEntersLimbo | sarca/src/repositories/files.rs:840-862 | an upload that replaces a visible file in place is admitted and puts its id in limbo |
| ChangeLogReplay.CompletionHealsLimbo | sarca/src/repositories/files.rs:753-762 | marking an id in limbo as uploaded takes it out of limbo, and the replay gives its current content |
| UploadStream.LinesOfAppend | crates/sarca-sync/src/api.rs:1066-1090 | splitting into lines can stop at any byte and resume with only the unfinished tail |
| UploadLines.PhaseTestReadsTheLine | crates/sarca-sync/src/api.rs:995-1001 | the phase test, which trims the bytes it is given, answers for a line with or without its newline as the model answers for the bare line |
| UploadLines.ErrorTestReadsTheLine | crates/sarca-sync/src/api.rs:1573-1595 | the error test, which trims each piece and passes over blank ones, finds the message the model finds |
| UploadStream.ReadLines | crates/sarca-sync/src/api.rs:1066-1090 | reading the complete lines off the buffer leaves its tail and remembers the first error, the time of `spooled` and `done`, stopping at `in_progress` |
| UploadStream.DrainUploadProgress | crates/sarca-sync/src/api.rs:1030-1119 | the incremental loop gives what the loop that splits the whole body anew each time gives, for every stream and timing; `UploadVerdicts` says what that is |
| UploadStream.ChunkingDoesNotMatter | crates/sarca-sync/src/api.rs:1030-1119 | whenever the loop gets to a clean end or an `in_progress` line without a timeout or a break, and with no turn past the grace that runs from `spooled`, its outcome is a function of the concatenated bytes alone |
| UploadStream.UnspooledIsUninterrupted | crates/sarca-sync/src/api.rs:1037-1051 | before `spooled` no grace runs: a stream that never says it and ends cleanly is such a stream, however long it takes |
| UploadStream.OutcomesNeedEvidence | crates/sarca-sync/src/api.rs:1037-1118 | under any interleaving, `Stored` needs a clean end, some line or the tail with `done`, and none with an error; `HandedOff` needs some complete line with `spooled` or `in_progress` |
| UploadVerdicts.LinesAndTail | crates/sarca-sync/src/api.rs:1066-1070 | the complete lines with their newlines, and the tail, are the body, and neither holds a newline |
| UploadVerdicts.EachStreamGetsItsDue | crates/sarca-sync/src/api.rs:1066-1114 | every uninterrupted stream ends by the first of these that holds: a line `in_progress` hands off; the message of the first error line, or else of the tail; `done` in a line or the tail is stored; a line `spooled` hands off; else truncated |
| UploadVerdicts.InProgressSettles | crates/sarca-sync/src/api.rs:1066-1090 | the chunk that completes an `in_progress` line hands off, whatever timing and what follows |
| UploadVerdicts.InterruptedBeforeSpooled | crates/sarca-sync/src/api.rs:1043-1064 | before a complete `spooled` line, a timeout is a stall and a broken connection an error |
| UploadVerdicts.InterruptedAfterTheFirst | crates/sarca-sync/src/api.rs:1037-1064 | after the chunk with the first `spooled` line, a broken connection is an error; a timeout hands off if and only if the grace counted from that chunk has run out |
| UploadVerdicts.GraceRunsFromTheFirst | crates/sarca-sync/src/api.rs:1037-1051 | the loop hands off at the first turn that begins a full grace after the chunk with the first `spooled` line |
| UploadVerdicts.HandedOffAfterGrace | crates/sarca-sync/src/api.rs:1037-1051 | later lines, `spooled` ones too, do not put that off |
| UploadStream.SilenceAfterSpooled | crates/sarca-sync/src/api.rs:1043-1064 | with timers on time, silence after `spooled` is a hand-off if and only if no more than the idle limit was left of the grace |
| UploadStream.SpooledThenSilentIsAStall | crates/sarca-sync/src/api.rs:1043-1064 | with 90 seconds of grace, 45 seconds of silence right after `spooled` is reported as a stall |
| StallWatchdog.CatchUp | crates/sarca-sync/src/api.rs:914-933 | after the handovers up to a time the atomics are those of the schedule so far, note by note |
| StallWatchdog.NotedTells | crates/sarca-sync/src/api.rs:875-905 | what has been noted tells how long the body has been silent and whether it is complete |
| StallWatchdog.UploadStalled | crates/sarca-sync/src/api.rs:952-965 | the watchdog fires at the first poll that finds an unfinished body silent for the budget, and at no other; the silence, counted from the request's start if nothing was sent, is then less than one poll longer than the budget |
| StallWatchdog.CompleteForGood | crates/sarca-sync/src/api.rs:955-960 | once a poll finds the body complete, no later one finds a stall |
| StallWatchdog.StallIsReportedInTime | crates/sarca-sync/src/api.rs:892-905 | at the first stalled poll the silence is at least the budget and less than one poll more |
| StallWatchdog.WedgedBodyIsReported | crates/sarca-sync/src/api.rs:950-965 | a body that is never finished is reported, at the first poll after the budget has run out |
| DownloadRanges.PlanTilesTheFile | crates/sarca-sync/src/api.rs:442-453 | for every size and number of parts, the ranges are non-empty, in order, adjacent, and cover the file exactly |
| DownloadRanges.PlanFitsU64 | crates/sarca-sync/src/api.rs:442-453 | no step of the plan leaves 64 bits for a download that is not refused |
| DownloadRanges.HowManyParts | crates/sarca-sync/src/api.rs:442-443 | one to four parts, the least number of eight-mebibyte pieces that cover the file if that is below four |
| DownloadRanges.PlanIsEven | crates/sarca-sync/src/api.rs:444-452 | all ranges but the last have one size, the least that covers the file, and the last has no more |
| DownloadRanges.Assemble | crates/sarca-sync/src/api.rs:490-514 | the slices concatenated in order are the file |
| DownloadRanges.FetchParts | crates/sarca-sync/src/api.rs:455-480 | whatever order the parts complete in, each scratch file holds the slice of its own range |
| DownloadRanges.InOrderCompletes | crates/sarca-sync/src/api.rs:478-481 | completing one after the other is one of the orders |
| DownloadRanges.DownloadParallel | crates/sarca-sync/src/api.rs:442-514 | fanned out, fetched in any order and assembled, a file comes back as it is |
| PercentEncoding.UrlencodingEncode | crates/sarca-sync/src/api.rs:1553-1567 | the loop encodes byte by byte |
| PercentEncoding.WhatAByteBecomes | crates/sarca-sync/src/api.rs:1553-1567 | letters, digits, `-`, `.`, `_`, `~` and slashes stand for themselves; any other byte is `%` and two upper-case hexadecimal digits |
| PercentEncoding.PathsEncodeInPieces | crates/sarca-sync/src/api.rs:367-371 | a path is encoded byte by byte, segments and all |
| PercentEncoding.EncodePathByteByByte | crates/sarca-sync/src/api.rs:367-371 | splitting at slashes, encoding and joining is the same as encoding every byte but the slashes |
| PercentEncoding.EncodePathRoundTrips | crates/sarca-sync/src/api.rs:367-371 | percent-decoding gives every path back, so no two paths share a URL |
| PercentEncoding.EncodePathIsSafe | crates/sarca-sync/src/api.rs:1553-1567 | the result has only unreserved characters, upper-case percent triplets and slashes |
| Scheduler.EveryReachableState | crates/sarca-sync/src/scheduler.rs:18-85 | in every interleaving, including panics and cancellations: in flight are exactly the ids of live guards, none twice; permits add up; a waiter faces a free permit or a running holder; with no task left nothing is held |
| Scheduler.StepsUseUpWork | crates/sarca-sync/src/scheduler.rs:60-85 | every step other than a new call brings the live tasks nearer to their end |
| Scheduler.SomeoneCanMove | crates/sarca-sync/src/scheduler.rs:60-85 | while a task is live, some task can take a step without being cancelled |
| Scheduler.AlwaysDrains | crates/sarca-sync/src/scheduler.rs:60-85 | from every reachable state the live tasks can run to the end, leaving every id accepted and every permit free |
| Scheduler.BindingScheduler.TryEnter | crates/sarca-sync/src/scheduler.rs:65-78 | a call is skipped, changing nothing, exactly when a call in progress has the same id; the invariant is kept |
| Scheduler.BindingScheduler.AcquirePermit | crates/sarca-sync/src/scheduler.rs:79 | fewer calls than the limit were running and one more is now; the invariant is kept |
| Scheduler.BindingScheduler.ReleasePermit | crates/sarca-sync/src/scheduler.rs:80-81 | one call fewer is running and no more permits are free than the limit; the invariant is kept, the id still in flight |
| Scheduler.BindingScheduler.ReleaseGuard | crates/sarca-sync/src/scheduler.rs:23-36 | afterwards no call in progress has the id; with no call left nothing is in flight and every permit is free |
| UploadGate.EveryReachableState | sarca/src/storage_manager.rs:37-72 | in every run: permits held and free are the limit, at most so many uploads run, one received in a flood runs alone as long as it runs, and messages are admitted in order of arrival |
| UploadGate.WhatEachMessageWeighs | sarca/src/storage_manager.rs:46-58 | over every run, the k-th message taken is the k-th that arrived, and needs the whole gate if the flag read at that point was set, and one permit otherwise |
| UploadGate.WithoutFloodNoneWaits | sarca/src/storage_manager.rs:46-62 | in a run without a flood the free permits are the limit less the running uploads, and a message at the gate can be admitted whenever fewer run than the limit |
| UploadGate.PendingIsAdmitted | sarca/src/storage_manager.rs:59-62 | the message at the gate can always be admitted once running uploads finish |
| UploadGate.StepKeeps | sarca/src/storage_manager.rs:37-72 | each step keeps the sum of permits, the order, and that nothing is lost between channel, gate and uploads |
| UploadGate.StorageManager.Recv | sarca/src/storage_manager.rs:46-57 | takes the next message, which needs the whole gate if a flood is on and one permit otherwise; what arrived is what was admitted, then it, then the channel; the invariant is kept |
| UploadGate.StorageManager.Spawn | sarca/src/storage_manager.rs:59-70 | at most the limit run, and an upload received in a flood starts with no other running; the invariant is kept |
| UploadGate.StorageManager.Done | sarca/src/storage_manager.rs:66-69 | a task's permits come back when it ends, all of them when it was the last; the invariant is kept |
| PreviewCache.DirSize | client/src-tauri/src/commands.rs:246-260 | the recursion gives the true total, held at the largest 64-bit number |
| PreviewCache.ReadDir | client/src-tauri/src/commands.rs:117-132 | reading one directory moves its files to the list and its subdirectories to the stack, losing none |
| PreviewCache.ListCacheFiles | client/src-tauri/src/commands.rs:110-135 | the worklist ends on every tree and lists each readable file once |
| PreviewCache.WayDown | client/src-tauri/src/commands.rs:110-135 | every file listed lies at the end of a path down the tree, however deep |
| PreviewCache.WayEnds | client/src-tauri/src/commands.rs:110-135 | every path down the tree that ends at a readable file leads to one that is listed |
| PreviewCache.WalksAgree | client/src-tauri/src/commands.rs:110-135 | the sizes listed add up to the size computed by the recursion |
| PreviewCache.SortSorts | client/src-tauri/src/commands.rs:147 | the files are put oldest first and none is lost |
| PreviewCache.SortIsStable | client/src-tauri/src/commands.rs:147 | files of the same time stay in the order they were listed in |
| PreviewCache.EvictCacheIfNeeded | client/src-tauri/src/commands.rs:137-159 | on any tree or none, with any removals failing: the tracked total is the measured one less what went, and eviction ends within the limit or with every removable file gone |
| PreviewCache.EvictionIsTheShortestPrefix | client/src-tauri/src/commands.rs:149-157 | when removals work, what goes is the shortest oldest-first prefix that reaches the limit |
| PreviewCache.TrackedTotalIsOnDisk | client/src-tauri/src/commands.rs:149-157 | a new walk of the tree finds what was there less what went, which is the total that eviction tracked |
| PreviewKey.PreviewDigest | client/src-tauri/src/commands.rs:55-77 | the hash is of version, scope and path, in this order, each after its length in eight bytes |
| PreviewKey.LowByteFirst | client/src-tauri/src/commands.rs:55-68 | byte i of a length is its i-th base-256 digit, the low one first |
| PreviewKey.KeysShareNoPreimage | client/src-tauri/src/commands.rs:56-68 | two previews feed the hash the same bytes exactly when scope and path are the same |
| ConfText.LinesOfRender | sarca/src/conf.rs:84-89 | written lines are read back, less a final `\r` each and one trailing blank line |
| ConfText.RewritingKeepsText | sarca/src/conf.rs:84-89 | writing what was read gives the same text if and only if no line ends in `\r` and several lines do not end in a blank one |
| ConfEditor.LoadOfUpserted | sarca/src/conf.rs:57-90 | for any compatible pair of line readers, loading after an edit gives the old first-wins map overridden by the new pairs |
| ConfEditor.OtherLinesSurvive | sarca/src/conf.rs:63-78 | lines without a key being written stay in place unchanged |
| ConfEditor.SecondUpsertIsIdle | sarca/src/conf.rs:57-90 | editing the written result again changes no line |
| Conf.LineParses | sarca/src/conf.rs:144-162 | a line written for a clean pair is parsed as that pair by editor and loader |
| ConfLimits.WhatAFileHolds | sarca/src/conf.rs:144-162 | a file with the line written for a pair loads as that pair alone if and only if the key and the value are clean, so clean pairs are all the format can hold |
| Conf.ParsersAreCompatible | sarca/src/conf.rs:144-162 | editor and loader see the same assignments of clean keys in every line |
| Conf.UpsertConfKeysAt | sarca/src/conf.rs:57-90 | the in-place loops write the text of the line-by-line specification |
| ConfReading.WhatIsRewritten | sarca/src/conf.rs:63-78 | a line that assigns a given key becomes `key=value` in its place |
| ConfReading.WhatIsAppended | sarca/src/conf.rs:80-84 | keys that no line assigns are appended as `key=value` in the order given |
| Conf.ApplyConfFile | sarca/src/conf.rs:127-141 | the environment keeps what it had and gains the file's first-wins values; the count is what was added |
| ConfReading.WhatAnAssignmentSays | sarca/src/conf.rs:144-162 | white space around key and value does not count, and a pair of matching quotes around the value comes off |
| ConfReading.QuotesComeOff | sarca/src/conf.rs:155-160 | for every clean key, a value between two quotes of a kind is the text between them, whatever it is |
| ConfReading.WhatAssignsNothing | sarca/src/conf.rs:144-150 | blank lines, comments however indented, and lines without `=` assign nothing, to loader or editor |
| ConfReading.WhatIsLoaded | sarca/src/conf.rs:127-141 | a key of the environment keeps its value; any other has the value that the first line assigning it gives, or is not there if no line does |
| ConfReading.WhereLinesEnd | sarca/src/conf.rs:127-131 | a line ends at a newline, with or without a carriage return before it, and the last may go without |
| Conf.UpsertThenLoad | sarca/src/conf.rs:57-141 | loading after an upsert gives the old map overridden by the new pairs, and environment keys still win |
| Conf.UpsertTwiceLoadsTheSame | sarca/src/conf.rs:57-90 | a second upsert changes nothing that is loaded |
| Conf.OtherLinesComeBack | sarca/src/conf.rs:57-90 | comments, blank lines and other keys come back in place, up to a `\r` and one trailing blank line |
| Conf.RewritingUpserted | sarca/src/conf.rs:57-90 | the text of a second upsert is the same if and only if the lines the first one wrote are stable |
| Conf.SecondUpsertKeepsText | sarca/src/conf.rs:57-90 | for a given file and pairs, the text of a second upsert is the same if and only if no line that is kept ends in `\r` and, when every key is assigned already, the file does not have more than two lines with the last two blank |
| Conf.BlankLinesAreEaten | sarca/src/conf.rs:84-89 | a file of three blank lines is one where it is not |
| Version.IsNewer | client/src-tauri/src/updater.rs:121-144 | a tag is newer exactly when its numbers are greater, lexicographically with zeros appended |
| Version.Compare | client/src-tauri/src/updater.rs:133-144 | the indexed loop decides that order for lists of any length |
| Version.ExactlyOneHolds | client/src-tauri/src/updater.rs:133-144 | of two tags exactly one is greater or they are tied; none is greater than itself |
| Version.GreaterIsTransitive | client/src-tauri/src/updater.rs:133-144 | the order is transitive |
| Version.TiedMeansSameUpToZeros | client/src-tauri/src/updater.rs:133-144 | ties are exactly the lists that agree without trailing zeros |
| Version.NothingIsNotNewer | client/src-tauri/src/updater.rs:131-133 | the early return on a tag without numbers is implied by the order |
| Version.PrintReadsBack | client/src-tauri/src/updater.rs:122-130 | numbers below 2^64 printed with `v` and dots are parsed back |
| VersionTags.WhatATagSays | client/src-tauri/src/updater.rs:122-130 | white space around a tag and any `v`s before it come off; numbers are read across any of `.`, `-` and `+`, up to the first piece that is no number |
| VersionTags.TooBigIsPassedOver | client/src-tauri/src/updater.rs:127-129 | a number beyond 64 bits is passed over and the next one takes its place |
| VersionTags.SplitAtSeparator | client/src-tauri/src/updater.rs:126 | the pieces are the tag cut at `.`, `-` and `+`, and at nothing else |
| VersionTags.DecimalPlaces | client/src-tauri/src/updater.rs:128 | the last digit of a piece counts once, and the others ten times what they did |
| UrlHistory.History.Record | client/src-tauri/src/state.rs:1775-1788 | the visited URL moves to the front of the stored list, which is cut at three, and is kept only if it could be written |
| UrlHistory.TopOfWithout | client/src-tauri/src/state.rs:1781-1783 | cutting the tail before removing a URL loses nothing the front of the result needs |
| UrlHistory.StoredIsTopOfEverything | client/src-tauri/src/state.rs:1757-1788 | after any visits the stored list has no repeats and is the first three of the full most-recent-first list |
| UrlVisits.WhatIsVisited | client/src-tauri/src/state.rs:1775-1777 | white space at both ends and then slashes at the end come off a URL, and nothing else |
| UrlVisits.WhatAVisitShows | client/src-tauri/src/state.rs:1775-1788 | the list shown has the URL first and then the others in order, three at most, whether or not it could be written; an empty URL shows what was stored |
| UrlVisits.StoredIsTheLatestThree | client/src-tauri/src/state.rs:1757-1788 | what is stored is the three different URLs kept latest, latest first, or all if there are fewer |

## Left out

- Transfer queue: ids and the clock are parameters, ids are fresh as UUIDs are, and a meter is a map entry. A handle kept after its entry is dropped changes nothing that is shown. Byte totals are unbounded, so a wrap of the 64-bit sums is not modelled.
- The background service's busy counter (a bare increment and decrement) and its Android bridge, the notification loop, IPC, the user interface, HTTP, TLS and the SQLite engine.
- ChangeLog.Database.UpdateRow: one statement changes one row; an UPDATE of several rows is a run of steps, without the rollback of all of them when one fails. No statement of the server changes a row's id or storage, so a change has no such column. Columns of `files` that no trigger reads are left out, and storages are inserted and deleted but not renumbered.
- What a client does with the events, such as resolving conflicts with local edits.
- UploadStream.DrainUploadProgress: the UTF-8 check, trimming and JSON parsing of a line are one unknown function of the line without its newline (in `UploadLines`, ASCII white space is trimmed and anything further is left to that function); the wording of transport errors is not modelled.
- StallWatchdog.StallIsReportedInTime: polls happen exactly at multiples of the interval and the budget is positive, as the constants are; the race with the arriving response is not modelled.
- DownloadRanges.DownloadParallel: the scratch files are a sequence indexed by part. The server answers each range with that slice of an unchanging file. Failing requests, the one-byte probe, small downloads and the final rename are left out.
- Scheduler and UploadGate: the order in which the semaphore serves waiters, poisoned mutexes (recovered by the code) and closed semaphores (never closed). A weighted acquire takes its permits in one step.
- PreviewCache.EvictionIsTheShortestPrefix: a cache of more than 2^64 bytes is measured too small by the saturating sum, so reaching the limit is stated below that; that no longer prefix goes than needed is stated for every cache.
- Preview cache: symlinks and changes to the tree during a walk; the stable library sort is a stable insertion sort; making a file name of the scope and the digest.
- Configuration: file errors, the search for the file, the migration of a legacy `.env` and characters an environment variable cannot hold. Keys and values are clean, which `ConfLimits.WhatAFileHolds` shows to be all the file format can hold.
- Version tags: what an update does once it is found.
- URL history: an unreadable history file, which the code takes for an empty list.
