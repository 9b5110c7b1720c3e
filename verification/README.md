# Proofs about the control plane of a Minecraft world manager

The manager runs Minecraft worlds and keeps a durable record of everything it does to them.
This project models the parts of it that have to stay right over unbounded runs, and proves
that they do, or says exactly when they do not.

| file | models |
|---|---|
| `OperationModel.dfy`, `OperationService.dfy`, `OperationRuns.dfy`, `OperationLaws.dfy` | the operation table: the atomic steps, the service that takes them branch by branch, what every run keeps, and the conflict table type by type |
| `TreeWalk.dfy` | the archive walk and the size walk over a directory graph with symbolic links |
| `Realtime.dfy`, `RealtimeHub.dfy` | event streams: unbounded histories, and the hub of bounded buffers that abbreviates them |
| `Utf8.dfy`, `LogTail.dfy` | process log lines: truncation, the ring of numbered lines, a subscriber's queue |
| `Cleanup.dfy`, `CleanupService.dfy` | backup retention: the set of deletable artifacts, and the grouping loop, preview and deletion that realise it |
| `Scheduler.dfy` | scheduler ticks and missed runs |
| `Sync.dfy` | the upload retry loop and the daily transfer cap |
| `Lockout.dfy` | login failures and the account lock |
| `VersionedRows.dfy` | compare-and-set edits and mutations replayed after a crash |
| `Restore.dfy` | restore, directory switch and revert |
| `Lifecycle.dfy` | the world state machine |
| `Rcon.dfy` | packet framing of the Source RCON Protocol, section "Basic Packet Structure" |
| `Wrappers.dfy` | `Option` and `Result` |

A service that updates tables, buffers or directories is a class whose methods are proved to
take the step a function on values describes; the lemmas are about every sequence of such
steps, and about what one step means in the system's own terms and figures (the lemmas named
`...InWords` and `...Decision`). Each transaction is one step, and steps of different actors interleave freely.

`dafny verify dfyconfig.toml` checks the whole project.

## Where the code does not keep what one would expect

* A checked cleanup of a world is let in as soon as another cleanup of the same scope is in
  flight, without looking at anything else (`app/services/operations.py:411-423`).
  `OperationRuns.CreateCoherentExactly` gives the exact condition under which a create breaks
  coexistence, `OperationRuns.BypassedCleanupBreaks` a run of three creates that does, and
  `OperationRuns.RunCoherent` shows that no run does if a world's cleanups are never created
  with the policy bypassed. No caller in the application creates a cleanup that way.
* An operation that committed before a crash is recognised on replay only at the very next
  version. If somebody else committed meanwhile it is recorded as failed, although it did
  commit; its effect may still be there or be overwritten by then
  (`VersionedRows.ReplayExactly`, with the run `VersionedRows.FailedAfterCommitting`).
* The other way round, an operation that never committed is recorded as completed whenever the
  row already shows its effect at the version its own commit would have produced, whoever got
  it there: another operation, an editor, or the state the row was in from the start
  (`VersionedRows.CompletedByOthersExactly`; `VersionedRows.TwoDeletionsOneCommit` is a run with
  two deletions by one actor, which may both be queued because deletions bypass the conflict
  policy, `app/services/worlds.py:717`).
* The daily transfer cap is checked before an upload and counted after it. However dispatches
  overlap, a run is safe at every moment if and only if each dispatch it admits would still fit
  with the bytes in flight added, which the code does not add (`Sync.OverlapExactly`);
  `Sync.OverlapExceedsCap` gives pairs that exceed the cap. Dispatches one after another always
  fit, also across midnight (`Sync.AloneHasRoom`, `Sync.EveryDayWithinCap`). Nothing in the
  application calls `dispatch_sync` so far.
* A login attempt reads the failure count, verifies a slow password hash, and then writes one
  more than it read, without looking at the row again (`app/services/auth.py:230-258,277-292`).
  The bounds on wrong passwords hold for a run if no failure is written on a stale check, that
  is, after the count moved or a lock came into force (`Lockout.WrongPasswordsAreSpaced`,
  `Lockout.GuessesAreBounded`), and the exact count behind them is kept throughout if and only
  if that never happens (`Lockout.GuardedExactly`). Attempts that overlap write on stale checks:
  a run is safe at every moment, however the attempts in hand end, if and only if attempts on
  the account are let in one at a time (`Lockout.OverlapExactly`), which nothing enforces.
  `Lockout.OverlapLosesCount` is a run with any number of failures that count as one.
* After `clear`, asking a log ring whether it was trimmed answers wrongly for line zero and for
  the next line (`LogTail.ClearedMisleads`), and up to there nowhere else (`LogTail.TrimmedTellsExactly`);
  without `clear` it is right (`LogTail.ReconnectExactly`). Nothing in the application calls
  `clear` on this ring.

## Model

| member | source | states |
|---|---|---|
| OperationService.OperationService.CreateWithReplay | app/services/operations.py:136-251 | one create transaction leaves rows, audits and answer as the step model says: replay, refusal that leaves every table as it was (undoing preemptive cancels), or one insertion with exactly its preemptions cancelled and audited |
| OperationService.OperationService.CreateUnderPolicy | app/services/operations.py:192-251 | the part of a create that passes the conflict policy, rollback included |
| OperationService.OperationService.ApplyConflictPolicy | app/services/operations.py:339-452 | the cascade of branches admits, queues and preempts exactly as a pairwise compatibility matrix with waiting rules and victims says |
| OperationService.OperationService.DecideByTypes | app/services/operations.py:395-452 | the branches that see only the set of types in flight agree with the matrix |
| OperationService.OperationService.StatusOnArrival | app/services/operations.py:172-190 | a sync of an artifact already being synced, or a cleanup of a scope already being cleaned, arrives queued |
| OperationService.OperationService.ClaimQueued | app/services/operations.py:279-337 | a claim succeeds exactly for a queued row whose world has no other active row, and changes nothing otherwise |
| OperationService.OperationService.TransitionTo | app/services/operations.py:534-619 | a transition changes one row, and a terminal one adds its audit and notification in the same step; terminal rows are refused unchanged |
| OperationService.OperationService.PublishTerminalOperation | app/services/notifications.py:143-196 | a notification is added exactly when the pair of type and status has a rule and the operation has none yet |
| OperationRuns.CoexistenceExact | app/services/operations.py:339-452 | two types can ever be in flight together in a world, over all runs of checked creates, claims and transitions, if and only if the matrix allows the pair |
| OperationRuns.WorldsExact | app/services/operations.py:339-452 | any number of policed operations, with repetitions, can be in flight together in a world if and only if the matrix allows every pair of them |
| OperationRuns.WorldMembers | app/services/operations.py:339-452 | the conflict table by name: over all such runs, two operations of one world are ever in flight together if and only if both are backups, both restores, both cleanups, or one is a start, stop or kill and the other a backup or cleanup |
| OperationLaws.StartDecision | app/services/operations.py:192-251 | a start goes in with the status asked for if and only if the world has only backups and cleanups in flight; one already in flight is the answer; else conflict; nothing else changes |
| OperationLaws.StopDecision | app/services/operations.py:431-442 | a stop likewise, and it is queued exactly when a backup is there |
| OperationLaws.KillDecision | app/services/operations.py:358-369 | a kill goes in beside backups and cleanups only, or over stops alone, each of which is then cancelled and audited and nothing else touched; else conflict |
| OperationLaws.BackupDecision | app/services/operations.py:396-405 | a backup goes in beside starts, stops, kills and backups only, queued exactly behind a backup |
| OperationLaws.RestoreDecision | app/services/operations.py:371-394 | a restore goes in if and only if all in flight are restores or queued deletions; the deletions are cancelled and audited, and it queues exactly behind a restore |
| OperationLaws.CleanupDecision | app/services/operations.py:411-429 | a cleanup goes in beside starts, stops, kills and cleanups only, or with one of its scope in its world whatever else is there; it queues exactly behind one of its scope anywhere |
| OperationLaws.AloneDecision | app/services/operations.py:448-452 | world creation and deletion, configuration edits and detected crashes go in if and only if nothing is in flight in the world |
| OperationLaws.BypassDecision | app/services/operations.py:172-196 | a sync, a request for no world, or a bypassing caller always gets in, queued exactly behind a sync of its artifact or a cleanup of its scope |
| OperationLaws.KeyDecision | app/services/operations.py:149-157 | a repeated idempotency key is answered with the oldest row of its type that carries it, and changes nothing |
| OperationLaws.ScopesInWords | app/services/operations.py:459-471 | when two cleanups share a scope: the one they name, else their world |
| OperationLaws.StatusesInWords | app/services/operations.py:19-30 | which statuses are in flight, terminal, or hold a world against a claim |
| OperationLaws.ClaimDecision | app/services/operations.py:279-337 | exactly when a claim starts a row, the row it leaves, and that nothing else changes |
| OperationLaws.TransitionDecision | app/services/operations.py:534-599 | which transitions are refused, which are not persisted, and every field of the row the others leave |
| OperationLaws.RuleInWords | app/services/notifications.py:39-90 | which ends are announced and how loudly |
| OperationLaws.RuleTexts | app/services/notifications.py:39-90 | the announcements' texts |
| OperationLaws.AuditsInWords | app/services/operations.py:662-703 | in every reachable state a finished operation stands exactly once in the audits, with its type, status, world, error, message and finish time; any other never |
| OperationLaws.NotesInWords | app/services/notifications.py:143-196 | in every reachable state a finished operation whose end is announced stands exactly once in the notifications; any other never |
| OperationRuns.RunCoherent | app/services/operations.py:136-251 | coexistence is kept by every run with arbitrary bypassing creates in between, as long as those are no world's cleanups |
| OperationRuns.CreateCoherentExactly | app/services/operations.py:411-423 | one create keeps coexistence if and only if it is not a cleanup admitted on account of a same-scope cleanup over an operation it is incompatible with |
| OperationRuns.NothingOverlooked | app/services/operations.py:411-423 | while each world's cleanups are policed that exception cannot arise |
| OperationRuns.BypassedCleanupBreaks | app/services/operations.py:411-423 | a concrete run in which a bypassed cleanup lets a checked cleanup in beside a checked backup |
| OperationRuns.IdempotentReplay | app/services/operations.py:149-157 | a keyed request once inserted is answered with the same operation for ever, after any run and even with other options, and the repeat changes nothing |
| OperationRuns.RunExtends | app/services/operations.py:534-599 | over any run no row is lost, no status moves backwards and a terminal row never changes |
| OperationRuns.EveryReachableStateIsRecorded | app/services/operations.py:662-703 | in every reachable state each terminal operation has exactly one terminal audit, carrying its final content, and a notification exactly when its pair has a rule; others have neither |
| OperationRuns.RunRecords | app/services/operations.py:534-619 | that exactness is kept from any exact state by any run |
| OperationRuns.NoOperationIsClaimedTwice | app/services/operations.py:279-337 | over any run no operation is handed out twice |
| OperationRuns.ClaimExcludes | app/services/operations.py:284-337 | a claim succeeds if and only if the row is queued in an idle world, and afterwards it is the only active row there |
| OperationRuns.RunSingleFlight | app/services/operations.py:172-209 | when single-flight rows leave the queue only by a claim or a terminal status, each world has at most one backup, one restore, and one cleanup per scope past the queue |
| OperationRuns.QueuesExactly | app/services/operations.py:172-209 | a checked backup, restore or cleanup that is let in is queued exactly when one of its kind or scope is in flight, and otherwise gets the status asked for |
| OperationRuns.CreateSingleFlight | app/services/operations.py:472-504 | a create keeps the invariant that each world has at most one backup, one restore, and one cleanup per scope past the queue |
| TreeWalk.CreateArchive | app/infrastructure/backup_engine.py:17-60 | on every finite, possibly cyclic directory graph the walk ends, writes each member exactly once under its own path, and counts exactly the paths that escape the root or loop back |
| TreeWalk.ArchiveDirectory | app/infrastructure/backup_engine.py:28-51 | one directory's pass accounts for every entry: member, pending directory, skipped or excluded |
| TreeWalk.MemberNamesDiffer | app/infrastructure/backup_engine.py:42-51 | when names contain no slash, no two members of a tree are written under the same archive name |
| TreeWalk.MembersInWords | app/infrastructure/backup_engine.py:26-51 | a file is a member if and only if names lead to it from the root through different directories, all inside the root, and no name on the way ends in ".part" or is "mcmanager.lock" or "mcmanager.pid" |
| TreeWalk.EnumerationsInWords | app/infrastructure/filesystem.py:21-48 | what is written, and what the size is the total of, is each such file once with its entry |
| TreeWalk.SkipsInWords | app/infrastructure/backup_engine.py:29-46 | what is counted as skipped: entries that resolve outside the root, and kept directories already entered on the way |
| TreeWalk.TotalInWords | app/infrastructure/filesystem.py:45-45 | the total adds up file sizes |
| TreeWalk.PosixInjective | app/infrastructure/backup_engine.py:51-51 | joining names with slashes loses nothing: different paths of slash-free names have different texts |
| TreeWalk.TreeSize | app/infrastructure/filesystem.py:21-48 | for any listing order the result is the total size of any enumeration of the members |
| TreeWalk.MeasureThenArchive | app/services/backup.py:231-243 | what the storage guard measures is the total size of what the archive then writes, and every written file's target lies inside the root |
| TreeWalk.EnterablePathsAreFinite | app/infrastructure/backup_engine.py:43-50 | with ancestor sets, every path that can be entered is shorter than the number of directories and lies in one finite set, however the links loop |
| TreeWalk.FollowShape | app/infrastructure/backup_engine.py:26-50 | a path that can be entered passes pairwise different real directories, so it is no longer than the number of directories |
| TreeWalk.EnumerationsAgree | app/infrastructure/filesystem.py:21-48 | any two enumerations of the members have the same total size |
| RealtimeHub.RealtimeHub.Publish | app/services/realtime.py:144-156 | counters, bounded buffers and lists do what the unbounded histories say, every open subscriber of the stream is offered the event, and exactly those on the list that took it stay on it |
| RealtimeHub.RealtimeHub.Subscribe | app/services/realtime.py:105-111 | a new subscriber object starts with the buffered events after the given id, cut where its queue overflows |
| RealtimeHub.RealtimeHub.Fanout | app/services/realtime.py:151-155 | each listed subscriber object is offered the event in place, the others are untouched, and exactly those that took it are kept |
| RealtimeHub.RealtimeHub.Replay | app/services/realtime.py:158-163 | the replay is a suffix of the whole history, of a length computed from the history, limit and last id |
| RealtimeHub.RealtimeHub.Unsubscribe | app/services/realtime.py:113-120 | the subscriber is closed and is not on the list of the stream the caller names, nobody else is touched |
| RealtimeHub.RealtimeHub.Shutdown | app/services/realtime.py:126-142 | once, and only once, every known stream gets one last event and no subscriber stays open |
| RealtimeHub.RealtimeHub.Consume | app/services/realtime.py:54-81 | a consumer's turn yields the oldest undelivered frame, or ends |
| RealtimeHub.StreamSubscriber.Put | app/services/realtime.py:38-46 | a frame is queued while there is room, and the first that does not fit closes the subscriber |
| Realtime.DeliveredIsOneBlock | app/services/realtime.py:38-81 | however publishing, subscribing, consuming, overflow, unsubscribing and shutdown interleave, what a subscriber was delivered is one contiguous block of its stream with consecutive numbers |
| Realtime.ReconnectExactly | app/services/realtime.py:158-163 | a replay after an id gives all that was missed, without gap or duplicate, if and only if no more was missed than the buffer holds |
| Realtime.ResumesExactly | app/services/realtime.py:105-111 | in every good hub a reader that reconnects with its last delivered id goes on exactly where it stopped if and only if at most the replay limit was published since |
| Realtime.BlocksJoin | app/services/realtime.py:105-111 | two adjoining subscriptions together read one unbroken block |
| Realtime.ReconnectedReadsOneBlock | app/services/realtime.py:105-163 | after any later run, once a reconnected reader was given anything, what it was given before and after is one unbroken block if and only if at most the replay limit was missed |
| Realtime.RunGrows | app/services/realtime.py:89-163 | along any run a subscription keeps its stream and its start, and histories only grow |
| Realtime.SubscribedQueue | app/services/realtime.py:34-52 | of a replay as many events as the queue holds are kept, and the subscription is closed exactly when the replay does not fit |
| Realtime.TakenInOrder | app/services/realtime.py:54-81 | consuming yields the next accepted frame, never skips or repeats one |
| Realtime.WaitingFrameIsYielded | app/services/realtime.py:60-81 | a frame at the head of the queue is yielded, whether or not the feed was closed meanwhile, to a reader who may see it, and the shutdown frame to any reader |
| Realtime.HiddenFrameExpires | app/services/realtime.py:74-80 | to a reader who may see no more, a frame without the shutdown mark in its text ends the feed unseen |
| Realtime.EndsLast | app/services/realtime.py:60-81 | a turn ends a feed only when everything accepted was delivered and the feed is closed |
| Realtime.ReaderGetsEverything | app/services/realtime.py:54-81 | in every good hub as many passing turns as frames are waiting deliver all a reader accepted |
| Realtime.RunEndsComplete | app/services/realtime.py:54-81 | over every run of passing turns an ended reader was delivered all it accepted |
| Realtime.OfferInWords | app/services/realtime.py:38-52 | a frame is accepted while the feed is open and fewer than 200 wait, and the first that does not fit closes it |
| Realtime.PublishInWords | app/services/realtime.py:144-156 | an event gets its stream's next number and is offered to that stream's readers and no others |
| Realtime.SubscribeInWords | app/services/realtime.py:105-111 | where a subscription starts and what it accepts at once, for any limit and any last id |
| Realtime.UnsubscribeInWords | app/services/realtime.py:113-120 | one feed is closed, keeping what it has, and nothing else changes |
| Realtime.ShutdownInWords | app/services/realtime.py:126-142 | every reader that is open and has room accepts one last event, none stays open, and a second shutdown changes nothing |
| Realtime.RunHubOk | app/services/realtime.py:89-163 | the block and numbering invariant holds along every run |
| Utf8.RoundTrip | app/platform/process/tailing.py:64-76 | decoding undoes encoding for every text of Unicode scalar values |
| Utf8.DecodePrefix | app/platform/process/tailing.py:73-75 | any byte prefix of an encoding decodes, ignoring errors, to the characters that are whole in it |
| Utf8.WholeIsLongest | app/platform/process/tailing.py:73-75 | those are the longest character prefix that fits |
| Utf8.EncodingBits | app/platform/process/tailing.py:65-65 | the bits each byte of an encoding carries, as in the table of section 3 of RFC 3629 |
| Utf8.EncodingRanges | app/platform/process/tailing.py:65-65 | its lengths and byte ranges |
| LogTail.TruncationExactly | app/platform/process/tailing.py:64-76 | the result always fits the cap; a line is unchanged exactly when it fits; otherwise the longest prefix of whole characters that leaves room for the sentinel, or as much sentinel as fits |
| LogTail.TruncationIdempotent | app/platform/process/tailing.py:64-76 | truncating twice is truncating once |
| LogTail.SentinelInWords | app/platform/process/tailing.py:69-69 | the marker's text |
| LogTail.RingBuffer.Append | app/platform/process/tailing.py:210-217 | the bounded buffer keeps the newest of all lines ever appended, under their numbers, and every subscriber is offered the line |
| LogTail.RingBuffer.Tail | app/platform/process/tailing.py:219-222 | exactly the kept lines from a number on |
| LogTail.RingBuffer.HasTrimmed | app/platform/process/tailing.py:224-229 | the answer the history model gives, read off the buffer |
| LogTail.CompleteExactly | app/platform/process/tailing.py:219-222 | a tail gives every line ever appended from a number on exactly between the oldest kept and the next line number |
| LogTail.TrimmedTellsExactly | app/platform/process/tailing.py:224-229 | exactly when the trimming answer agrees with completeness, also after `clear` |
| LogTail.ClearedMisleads | app/platform/process/tailing.py:224-250 | after `clear` a ring that ever had a line answers wrongly about line zero and about the next line |
| LogTail.ReconnectExactly | app/platform/process/tailing.py:219-229 | with appends alone a tail is complete if and only if it is not reported trimmed and the number is not past the next line |
| LogTail.EveryLineAccounted | app/platform/process/tailing.py:155-250 | however appends, subscriptions, workers, closing and clearing interleave, of the ring's lines from the number at which a subscription began until it was closed, each is handled, in hand, queued or counted as dropped, with its own text, in ascending order, none twice; with none dropped it is all of them |
| LogTail.Dense | app/platform/process/tailing.py:170-190 | as many different lines of a range as the range has numbers are all of its lines, in order |
| LogTail.RingBuffer.Unsubscribe | app/platform/process/tailing.py:241-245 | the subscription is closed and off the list, the others stay |
| LogTail.Subscription.SubmitLine | app/platform/process/tailing.py:170-177 | a line is queued while there is room, counted as dropped when there is none, ignored once closed |
| LogTail.Subscription.FinishCallback | app/platform/process/tailing.py:179-190 | the line in hand becomes handled, or dropped when the callback raised |
| LogTail.SubmitInWords | app/platform/process/tailing.py:170-177 | queued while fewer than 256 wait, else dropped and counted, ignored once closed |
| LogTail.WorkInWords | app/platform/process/tailing.py:179-190 | the oldest waiting line is taken, and finished as handled or dropped |
| LogTail.RingInWords | app/platform/process/tailing.py:210-250 | what a ring holds after an append and after `clear`, and what it answers about trimming |
| CleanupService.CleanupService.BackupCandidates | app/services/cleanup.py:47-95 | fewer than 3 days or 3 kept are refused; otherwise the grouping loop returns exactly the live, sound artifacts in scope created more than so many days of 86400 seconds ago, behind that many and behind a sound one of their group, oldest first |
| CleanupService.GroupRows | app/services/cleanup.py:69-71 | the grouping loop splits the selected rows by world and category, in order |
| CleanupService.GroupCandidates | app/services/cleanup.py:74-94 | within one group the loop finds exactly the candidates, the newest sound artifact and the first `keep` excluded |
| CleanupService.CandidateByPosition | app/services/cleanup.py:74-94 | an artifact's position in its group decides the set definition |
| CleanupService.CleanupService.ExecuteBackupCleanup | app/services/cleanup.py:97-134 | succeeds if and only if the floors and the limit of 500 allow it and the given candidates, with their metadata, are what the policy finds now; then exactly those are marked deleted, all of them old enough by this reading of the clock, and a refusal changes nothing |
| CleanupService.CleanupService.EvaluateAndExecute | app/services/cleanup.py:136-258 | a dry run deletes nothing and stores what it found; a wet run succeeds if and only if a preview of the same policy, scope and exact targets is on record and still current, and then deletes exactly the previewed targets, old enough by both readings of the clock |
| Cleanup.ScopedIsFiltered | app/services/cleanup.py:47-95 | a world's candidates are all candidates filtered to that world, in the same order |
| Cleanup.SortedUnique | app/services/cleanup.py:95-95 | there is only one list of a candidate set in listing order |
| Cleanup.StricterIsSmaller | app/services/cleanup.py:74-94 | an earlier cutoff, a larger keep count or a narrower scope only removes candidates |
| Cleanup.CleanedIsClean | app/services/cleanup.py:109-134 | right after a wet run the same policy at the same time finds nothing |
| Cleanup.NewestSoundStays | app/services/cleanup.py:77-93 | a cleanup keeps each group's newest sound artifact |
| Cleanup.RunKeepsNewestThree | app/services/cleanup.py:47-134 | over any run of backups, suspicions and permitted cleanups the three newest artifacts ever recorded in each group stay live |
| Cleanup.RunKeepsThreeDays | app/services/cleanup.py:51-58 | over any such run no artifact is marked deleted within 259200 seconds of its creation |
| Cleanup.CandidateInWords | app/services/cleanup.py:58-94 | the candidate set, with the age test against the reading of the clock |
| Cleanup.NewerInWords | app/services/cleanup.py:60-71 | what comes before an artifact in its group, with the order of equal times |
| Cleanup.ListsInWords | app/services/cleanup.py:95-95 | candidates are listed once each, oldest first |
| Scheduler.ExpectedIsLatest | app/services/scheduler.py:108-130 | a tick looks at a time if and only if it is an occurrence of the schedule and the latest one, for every kind of schedule |
| Scheduler.RunAtMostOnce | app/services/scheduler.py:54-95 | over every run of ticks an occurrence gets at most one of an operation and a missed-run record |
| Scheduler.RecordedExactly | app/services/scheduler.py:54-145 | a time is on record for a schedule if and only if it is an occurrence and some tick fell between it and the next one |
| Scheduler.NoGaps | app/services/scheduler.py:54-130 | when consecutive ticks are at most a period apart every occurrence between them is on record |
| Scheduler.CreatedOrMissedExactly | app/services/scheduler.py:54-95 | over every run an occurrence has an operation if and only if the first tick in its period finds a task, an idle world and no refusal, and a missed-run record if and only if that tick finds no task, a busy world or a refusal |
| Scheduler.OccurrencesInWords | app/services/scheduler.py:108-130 | the times and period of each kind of schedule, in seconds |
| Scheduler.SchedulerService.RunTick | app/services/scheduler.py:54-95 | the loop over the schedules does what the run theorems assume, and its counters are the schedules due, the operations created and the misses recorded |
| Scheduler.SchedulerService.RecordMissed | app/services/scheduler.py:132-177 | a miss is recorded at most once, and the answer is the number of rows added |
| Sync.SyncService.DispatchSync | app/services/sync.py:73-175 | refused exactly when the cap is reached or would be passed; otherwise the loop leaves the specified attempts and reports whether the last one succeeded |
| Sync.RetryShape | app/services/sync.py:130-156 | at most three attempts, numbered from one, each but the last a transient failure, and the last not transient unless retries ran out |
| Sync.AttemptsInWords | app/services/sync.py:130-156 | one to three attempts with their numbers, clock readings and outcomes |
| Sync.UploadInWords | app/services/sync.py:130-156 | what one attempt of a dispatch in flight records and whether another may follow |
| Sync.RefusalInWords | app/services/sync.py:79-95 | refused exactly when the bytes of the day have reached 53687091200, or would pass it |
| Sync.BytesInWords | app/services/sync.py:55-71 | only successful uploads count, on the UTC day they finished |
| Sync.DispatchWithinCap | app/services/sync.py:79-95 | one dispatch keeps every UTC day within the cap, also one that ends on a later day than it began |
| Sync.EveryDayWithinCap | app/services/sync.py:55-71 | over every sequence of dispatches bytes of uploads finishing on any one day never exceed the cap |
| Sync.SafeExactly | app/services/sync.py:130-156 | whatever is in flight keeps every day within the cap, however and whenever it ends, if and only if recorded bytes and bytes in flight fit the current day |
| Sync.AdmissionExactly | app/services/sync.py:79-95 | a dispatch the code admits beside others leaves that so if and only if recorded bytes, bytes in flight and its own bytes fit the day of its check |
| Sync.OverlapExactly | app/services/sync.py:73-156 | over every interleaving of checks and attempts, a run is safe at every moment if and only if each dispatch it admits has room in that sense |
| Sync.AloneHasRoom | app/services/sync.py:79-95 | with nothing in flight the code's own check suffices |
| Sync.DispatchIsRun | app/services/sync.py:73-156 | a dispatch nobody interrupts is its checks followed by its attempts, with the same result |
| Sync.OverlapExceedsCap | app/services/sync.py:79-95 | any two dispatches of equal size that each fit an empty day but not together are both admitted side by side and can exceed the cap |
| Lockout.AuthService.CheckAccount | app/services/auth.py:228-254 | the first half of an attempt: lock and status tests in the code's order, else the failure count read |
| Lockout.AuthService.FinishAttempt | app/services/auth.py:256-292 | the second half: failures cleared, or one more than was read written whatever the row says by now, and no other account touched |
| Lockout.AuthService.Authenticate | app/services/auth.py:218-275 | an attempt nobody interrupts: which verdict when, and the account it leaves |
| Lockout.LockInWords | app/services/auth.py:246-254 | when a lock is in force |
| Lockout.StepsInWords | app/services/auth.py:228-292 | what a check remembers and what a finish writes and leaves alone |
| Lockout.OutcomesInWords | app/services/auth.py:264-292 | a failure counts one more than was read and locks for 900 seconds from the fifth on; a login clears count and lock and keeps a disabled account disabled |
| Lockout.WrongPasswordsAreSpaced | app/services/auth.py:246-299 | in every run in which no failure is written on a stale check, the k-th wrong password since the last login comes at least 900 seconds per extra try after the fifth |
| Lockout.GuessesAreBounded | app/services/auth.py:246-299 | in every such run, any stretch of T seconds since the last login checks at most 5 plus T/900 wrong passwords |
| Lockout.StepExactly | app/services/auth.py:277-292 | one step keeps the count exact and the lock behind the latest failure if and only if it writes no failure on a count that has moved or under a lock that has come into force |
| Lockout.GuardedExactly | app/services/auth.py:230-292 | over every interleaving of checks and finishes that guard holds throughout if and only if no failure is written on a stale check |
| Lockout.SafeExactly | app/services/auth.py:230-292 | the attempts in hand are harmless, however and whenever they end, if and only if there is at most one and its check still holds |
| Lockout.AdmissionExactly | app/services/auth.py:246-254 | letting another attempt in keeps that if and only if none is in hand |
| Lockout.OverlapExactly | app/services/auth.py:218-299 | a run is safe at every moment if and only if attempts on the account are let in one at a time |
| Lockout.OneAtATimeIsFresh | app/services/auth.py:218-299 | attempts let in one at a time never write on a stale check, so the bounds hold for them |
| Lockout.InTurnIsOneAtATime | app/services/auth.py:218-299 | attempts each finished before the next is checked are let in one at a time |
| Lockout.OverlapLosesCount | app/services/auth.py:278-292 | any number of failures whose checks came before all of them leaves a count of one and no lock |
| VersionedRows.VersionedStore.UpdateVersioned | app/services/configuration.py:191-266 | the transaction commits or leaves the row as it was, as the run model says |
| VersionedRows.EditInWords | app/services/configuration.py:191-246 | exactly when an edit commits, and that it changes the fields it names and the version and nothing else |
| VersionedRows.DeleteInWords | app/services/worlds.py:844-866 | which deletions take effect, do nothing, or are refused, and the row they leave |
| VersionedRows.ConfigInWords | app/services/worlds.py:886-921 | the same for a runtime configuration, which keeps the fields it does not name |
| VersionedRows.VersionedStore.ApplyQueuedWorldDelete | app/services/worlds.py:830-873 | deletes once, recognises its own replay, refuses anything else unchanged |
| VersionedRows.VersionedStore.ApplyQueuedRuntimeConfig | app/services/worlds.py:875-927 | applies once, recognises its own replay, refuses anything else unchanged |
| VersionedRows.VersionedStore.DispatchQueuedMutations | app/services/worlds.py:721-799 | a dispatcher round with refused claims, cut short by a crash between an effect and its outcome, is a run of single dispatch steps, so the run theorems cover it |
| VersionedRows.VersionCountsCommits | app/services/configuration.py:191-246 | in every interleaving of editors, dispatchers and crashes the version counts the commits |
| VersionedRows.CommitsAreExclusive | app/services/configuration.py:191-246 | in every such interleaving no two commits expected the same version, and no operation committed twice |
| VersionedRows.RunLog | app/services/configuration.py:191-246 | along any run the row changes only with its version, apart from the world's running state |
| VersionedRows.ReplayExactly | app/services/worlds.py:721-799 | a replay after a crash that followed the commit changes nothing, and reports success if and only if nobody else committed in between |
| VersionedRows.FailedAfterCommitting | app/services/worlds.py:891-903 | a run in which a committed operation is recorded as failed after an editor's write |
| VersionedRows.CompletedByOthersExactly | app/services/worlds.py:844-850 | an operation ends completed without a commit of its own if and only if the row shows its effect at the next version and the last commit is not its own |
| VersionedRows.TwoDeletionsOneCommit | app/services/worlds.py:844-850 | two deletions by one actor at one version both complete on one commit |
| Restore.RestoreService.RunRestore | app/services/restore.py:61-149 | exactly which failures give which outcome; success leaves the artifact's content, revert what archiving kept of the original, staging failure and repaired switch failure the original itself; past the pre-restore backup the whole original is in a directory other than staging after every step; artifacts with their suspect flags, history and state rows for each outcome |
| Restore.OutcomesInWords | app/services/restore.py:86-149 | outcome by outcome, exactly which failures lead to it |
| Restore.MovesInWords | app/services/restore.py:161-172 | what a finished or failed move does to its source, its destination and every other directory |
| Restore.RestoreService.SwitchWorld | app/services/restore.py:159-173 | the staged directory takes the world's place with the old one archived under a fresh name, or the old one is back; no archived directory is lost |
| Restore.RestoreService.PutBack | app/services/restore.py:164-172 | whatever a failed move left is cleared and the archived directory returns |
| Restore.RestoreService.ExtractToStaging | app/services/backup.py:134-146 | staging holds exactly the artifact's content, or the extraction failed and the artifact is flagged exactly when its file or archive is to blame; nothing but staging and that flag changes |
| Restore.RestoreService.CreateWorldBackup | app/services/backup.py:148-197 | one new sound artifact with what archiving keeps of the world's content, or none at all |
| Restore.RestoreService.Revert | app/services/restore.py:107-149 | what was archived of the original is back and the history names the reversal, or the world is in error; either way the whole original is still kept in a directory |
| Restore.RestoreService.MoveKeeps | app/services/restore.py:159-173 | a move to a fresh place, finished or failed halfway, loses no kept content |
| Lifecycle.AcceptedExactly | app/domain/lifecycle.py:68-134 | exactly which transitions a well-formed world accepts |
| Lifecycle.ReachedFrom | app/domain/lifecycle.py:32-134 | the table by target: from which states and with which intent each state is reached |
| Lifecycle.AcceptedWorld | app/domain/lifecycle.py:109-153 | the whole world an accepted transition or tombstone leaves |
| Lifecycle.EveryReachableWorld | app/domain/lifecycle.py:32-134 | in every run from a fresh world the remembered state is set exactly while backing up and is the state at entry, and a running world was starting since it was last off |
| Lifecycle.BackupExits | app/domain/lifecycle.py:109-117 | a backup is left only for the state it began in, or error |
| Lifecycle.GuardedExits | app/domain/lifecycle.py:62-107 | crashed, error and EULA-required worlds leave only to off and only by their own acknowledgement |
| Lifecycle.TombstoneStays | app/domain/lifecycle.py:137-153 | a tombstone never changes again and is off |
| Lifecycle.TraceWellFormed | app/domain/invariants.py:12-36 | every world in a run satisfies the world invariant and keeps its identity |
| Lifecycle.WellFormedInWords | app/domain/invariants.py:12-36 | the world invariant clause by clause |
| Rcon.RconClient.RecvExact | app/infrastructure/minecraft/rcon.py:130-141 | for every way the stream is cut into pieces, exactly the first n bytes, or an error when it ends before |
| Rcon.RconClient.Receive | app/infrastructure/minecraft/rcon.py:117-128 | one packet parsed off the front, stopping at its boundary |
| Rcon.RconClient.ReceiveAll | app/infrastructure/minecraft/rcon.py:117-141 | receiving n times yields the first n packets of the stream, for every cutting; when n sent packets and anything else have arrived, exactly those n and the rest is left unread |
| Rcon.RconClient.Send | app/infrastructure/minecraft/rcon.py:107-115 | one packet's bytes are added to the output, or nothing when a number does not fit 32 bits |
| Rcon.ParseOne | app/infrastructure/minecraft/rcon.py:107-128 | a sent packet is read back whole and reading stops at its end |
| Rcon.ParseAll | app/infrastructure/minecraft/rcon.py:107-141 | any sequence of sent packets is read back in order, each exactly, up to the last boundary |
| Rcon.TextsReturn | app/infrastructure/minecraft/rcon.py:107-128 | the text of each payload is the text that was sent |
| Rcon.UnpackPack | app/infrastructure/minecraft/rcon.py:107-119 | every 32-bit two's-complement integer survives the wire |
| Rcon.PackUnpack | app/infrastructure/minecraft/rcon.py:117-128 | every four bytes are the encoding of exactly the integer they decode to |
| Rcon.PackedInWords | app/infrastructure/minecraft/rcon.py:110-111 | four bytes, least significant first, of the number or its two's complement |
| Rcon.PacketInWords | app/infrastructure/minecraft/rcon.py:107-115 | the layout of a packet byte by byte, its size field and its two zero bytes |
| Rcon.ParseInWords | app/infrastructure/minecraft/rcon.py:117-128 | what is read off any stream, well formed or not |
| Rcon.BodyInWords | app/infrastructure/minecraft/rcon.py:126-128 | what is made of any packet body |

## Left out

* Operation rows are named by position in the table, and fresh identifiers are the next position; active rows are taken in insertion order, which is creation order while the clock does not go back.
* Progress and checkpoint caches, realtime publishing after commit, audits and notifications of services other than the operation engine.
* The world id that a finished CreateWorld operation is given later (`app/services/worlds.py:820-823`): the run theorems take an operation's world as fixed.
* Non-terminal initial statuses are assumed on create. Sync operations are outside the policy in the code and so outside the coexistence theorems.
- OperationRuns.RunCoherent: assumes no create bypasses the policy for a world's cleanup, because the property is false otherwise (`OperationRuns.BypassedCleanupBreaks`); every other type may bypass it.
- OperationRuns.RunSingleFlight: assumes that bypassing single-flight creates are queued and that single-flight rows leave the queue by a claim or a terminal status and keep their payload, because `transition` itself does not check the world.
- TreeWalk.CreateArchive: does not model I/O errors, broken links, the staged zip file, its verification or member-path validation; entries are visited in any order, which covers the sorted one, and the loop over one directory is a method of its own.
- TreeWalk.TreeSize: does not model I/O errors; a pending item also carries its path from the root, which the code does not compute, because the proof names directories by it.
- RealtimeHub.RealtimeHub.Publish: names subscriber objects by their position in the order they were made; the lists hold positions, not references.
- RealtimeHub.RealtimeHub.Consume: does not model keep-alive frames; whether the reader may still see frames is an input, and the authentication-error frame is the answer `Expired`.
* `LogFanout`, and the JSON text of frames.
- CleanupService.CleanupService.EvaluateAndExecute: does not model the operation row around it or unlinking files; the fingerprint is the structured preview itself, and the three clock readings are inputs.
- CleanupService.CleanupService.BackupCandidates: fixes the order of equal creation times by id, which the query leaves open; worlds and categories are numbers in their sort order.
- Scheduler.SchedulerService.RunTick: takes a fixed list of schedules, without the re-reading between check and dispatch; whether a due slot conflicts or can be created is an input, and the operation it creates is its slot.
- Sync.SyncService.DispatchSync: does not model target resolution, a missing artifact, back-off delays, sync records or the operation row; transport outcomes and clock readings are inputs.
- Sync.EveryDayWithinCap: assumes dispatches that do not overlap, because it is false otherwise; `Sync.OverlapExactly` says exactly when overlapping ones keep the cap, taking each dispatch's two checks as one step, as well as the end of an attempt and its record.
- Lockout.AuthService.Authenticate: an attempt is two steps, the check and the write of its outcome with the clock reading for it; does not model password hashing, audits, sessions, devices, step-up, deletion or changes by an administrator.
- Lockout.GuessesAreBounded: assumes that no failure is written on a stale check, because the bound fails otherwise (`Lockout.OverlapLosesCount`); `Lockout.OverlapExactly` says which overlaps are harmless.
- VersionedRows.VersionedStore.UpdateVersioned: does not model the checks before the transaction beyond the decision to create, the operation row, or the `updated_at` and `updated_by` columns.
- VersionedRows.ReplayExactly: covers world deletion and runtime configuration; queued world creation and file edits are not part of the model.
- Restore.RestoreService.RunRestore: a failed move leaves its source whole and possibly something at its destination; what archiving keeps of a content is an unspecified function, so a revert is only as complete as the archive; a world without a row, database failures after a commit and the compensating operation row are not modelled.
- Restore.RestoreService.CreateWorldBackup: does not say what archiving leaves out; `TreeWalk.CreateArchive` does.
* `resolve_effective`, session issue and revocation: table lookups without an invariant over runs.
- LogTail.RingBuffer.Append: assumes appends that do not overlap, while the code reads the line number again after releasing its lock; does not model threads, log filtering or the durable file.
- Rcon.RconClient.Receive: leaves the payload as bytes, so replacement of malformed bytes is not modelled; connecting, authentication and the command allowlist are not modelled.
- Utf8.RoundTrip: covers Unicode scalar values, not lone surrogates, which the encoder refuses.
- Lifecycle.EveryReachableWorld: covers the two lifecycle functions; restore writes world states by its own statement (`app/services/restore.py:219-225`).
* Boot reconciliation, the process supervisor, routes, templates, shell scripts and leader election in the browser.
