# comenq, verified

comenq queues GitHub comments and posts them one at a time with a cooldown
between posts. A daemon, `comenqd`, keeps the queue in a directory: one file
per entry, deletion markers, the times of the last post and the last failed
attempt, a journal for a post that GitHub accepted but the queue does not show
yet, and an append-only history log. A client, `comenq`, changes the queue,
pages through the history, and can wait in the foreground until an entry is
posted.

This project models that store, the history log as bytes, the scheduler, the
worker loop and both ends of the await protocol, and proves what they promise:

* **Posted once.** Whatever file operation a crash interrupts, torn appends
  included, and however often recovery is itself interrupted, the first
  recovery to finish leaves exactly one record of the attempt (`Recovery`, and
  `Store` for the same over an object that changes files step by step).
* **Safe runs.** Over every run with crashes, reopenings, dying and restarted
  workers, failing operations and client changes there is at most one claim,
  none while a journal exists, none for a lifetime that was posted, and none
  before the cooldown is over; and no limit ever refuses a rewrite the store has
  reserved room for (`Machine`, `Bounds`). `SampleRuns` gives runs that these
  statements, and those about waits, speak of.
* **The log's fast readers are the simple one.** The chunked reverse scan, the
  capped forward reader, snapshot paging and `hist -n` are all proved against
  "split into lines, keep what decodes" (`HistoryLog`, `ReverseScan`,
  `ForwardRead`, `HistoryPaging`, `RecentHistory`).
* **The schedule is what happens.** What `list` projects is a run of the daemon
  left alone, and no earlier one is allowed; over whole runs an entry is claimable
  exactly from the moment on that its own put, the last post and the last attempt
  call for; `bump`, `bust`, `put` and `del` move exactly what they say
  (`QueueOrder`, `Scheduling`, `WorkerTurn`, `Effects`).
* **Waits are answered right.** Resolution without the mutex is linearizable
  against every concurrent operation, failing ones included; a wait is told about
  its own lifetime only; a parked handler is not stale; the cached estimate is the
  fresh one; every frame follows from the answer behind it; and the client reports
  success exactly if the URL arrived
  (`AwaitWorld`, `AwaitResolve`, `AwaitFailures`, `Lifetimes`, `BoundWaits`,
  `AwaitHandler`, `AwaitCache`, `Projection`, `CacheRuns`, `AwaitClient`).
* **The worker wakes and rotates.** No wake-up is lost and none is invented, a
  failed post is retried after exactly the cooldown, every attempt is recorded as it was made, and in
  every run consecutive recorded attempts use every token once
  (`WorkerWakeups`, `TokenRotation`, `Attempts`).

Five promises turn out to need a condition, most of them because an operation
that fails after changing files publishes nothing. Each is stated with its
condition and with a case in which it fails:

* `hist -n k` lists the newest `k` records for every `k` if and only if no line
  that only the reverse reader accepts is newer than one that both accept
  (`RecentHistory.HistRecentExact`, `RecentHistory.HistRecentMisses`). The two
  readers differ on a terminated line whose content is exactly 2 MiB.
* A wait that begins on a queued entry is answered exactly in every later state
  of its connection if and only if the log does not hold that entry's success
  already (`BoundWaits.BoundWaitIff`). It holds it after a completion that
  failed once the record's text was written and before the entry was removed;
  `BoundWaits.BoundAtCut` says so for every cut of every completion.
* A handler parked on an entry while nothing is published is stale if and only
  if, since its answer, a completion or recovery that was journaled for its
  lifetime failed at or after dropping the entry
  (`AwaitFailures.StaleIffRemoved`, `AwaitFailures.StaleAfterFailedRecovery`);
  its next heartbeat answers right.
* For every operation cut after any number of its file operations, a cached
  estimate stays exact if and only if the cut is harmless: before a put has
  queued, before a deletion has removed, for a reordering that displaces no entry
  from its projected time, and for a release, completion or recovery as long as
  neither the entry is dropped nor the head of the queue moved by the new anchor
  (`CacheRuns.CutExactIff`, `AwaitCache.StaleAfterFailedRelease`).
* A parked worker misses a change if and only if a mutation that failed after
  changing the queue found it parked with nothing announced, and nothing has
  come to its rescue since (`WorkerWakeups.NoLostWakeup`,
  `WorkerWakeups.FailedPutStrands`).

## How it is modelled

* `Disk` is the queue directory as a value, and each store operation is the list
  of file operations it performs; a crash or an I/O failure leaves a prefix of
  that list done. An append is one operation per byte, so a prefix may be torn.
  Replacing a file is one operation, because the source writes a sibling, syncs
  it and renames it. The durable effects of a power failure that reorders synced
  writes are outside the model.
* `Store.QueueStore` is the same as a class: fields for the files, methods that
  change them one operation at a time, and a budget that stops the work at any
  point. Every method is proved to do exactly the listed operations that the
  budget allows.
* `Machine` is the daemon as a state machine over those operations. An event says
  how many of its file operations took effect and, apart from that, whether it
  reported success: the source can fail after the last one, when only a
  directory sync fails. A deletion cannot, because nothing follows its removal
  of the entry file. The worker may die at any time. UUIDs are fresh, the
  clock does not run back, there is one worker, and the directory holds only
  what the store wrote.
* `Lifetimes` and `BoundWaits` run the same machine and keep a chronicle beside
  it: what became of each identifier's latest lifetime, and the success record
  of every posted lifetime.
* `AwaitWorld` is the shared queue over time as waiters see it: a mutex,
  operations that change files while they hold it, and a 64-bit version that
  wraps. A waiter's reads happen at moments the environment picks.
  `AwaitFailures` proves that every file operation of a failing operation of
  `Machine` is a step this world allows.
* JSON is an abstract encoder and decoder with the laws in `HistoryLog.Lawful`
  and `AwaitHandler.LawfulFrames`; `SampleCodecs` has encodings that obey them.
  Entry sizes are the printed widths of the
  fields that change, plus an arbitrary function of those that do not. Content
  hashes, SHA-256 and GitHub are parameters. Times are Unix seconds below 2^64
  with the source's saturating arithmetic.

## Model

| member | source | states |
|---|---|---|
| `HistoryLog.RecordsSplit` | crates/comenqd/src/store/history.rs:177-194 | What is read before a line boundary and after it is independent, for every reader |
| `HistoryLog.RecordsLast` | crates/comenqd/src/store/history.rs:177-194 | A line at the end of the log adds its own record behind all others and changes none of them |
| `ReverseScan.ScanChunks` | crates/comenqd/src/store/history/recent.rs:33-84 | For every chunk size of at least one, reading backwards chunk by chunk is reading backwards byte by byte |
| `ReverseScan.ScanReverse` | crates/comenqd/src/store/history/recent.rs:33-108 | For every log, chunk size and minimum offset the scan offers the records of the simple reading newest first, with their true start offsets, and stops at the first one accepted |
| `ReverseScan.ScanBackIsFold` | crates/comenqd/src/store/history/recent.rs:66-108 | The byte-wise state of line start, reversed line and oversize flag computes the newest-first fold over the decoded lines |
| `ReverseScan.RecentStart` | crates/comenqd/src/store/history/recent.rs:12-31 | The start of the newest `limit` records that the reverse reader accepts, or of the oldest if there are fewer |
| `ReverseScan.LatestCompletion` | crates/comenqd/src/store/history.rs:315-329 | The newest success of the identifier, within the cursor's lifetime and behind its offset when there is one |
| `ForwardRead.ReadSnapshotLine` | crates/comenqd/src/store/history.rs:227-262 | However the buffer refills, one whole line is consumed; it is reported oversized exactly if it exceeds the cap, and otherwise returned whole |
| `ForwardRead.ReadRecord` | crates/comenqd/src/store/history.rs:196-225 | Consumes exactly one line and returns its record with the position behind it, or nothing if the line does not decode within the cap |
| `ForwardRead.ReadRecords` | crates/comenqd/src/store/history.rs:177-194 | The first records of the snapshot's simple reading, up to the page size |
| `ForwardRead.ReadPage` | crates/comenqd/src/store/history.rs:104-175 | Pages are the snapshot's records from the cursor or the recent start on; a cursor follows exactly if something is left; zero page size, missing log and bad cursor are errors |
| `ForwardRead.HonouredIff` | crates/comenqd/src/store/history.rs:264-282 | A cursor with something behind it is honoured if and only if it lies inside the log and every reader that resumes there reads the snapshot as if it had not stopped |
| `ForwardRead.ContainsAttempt` | crates/comenqd/src/store/history.rs:284-308 | Finds an attempt exactly if the simple reading from the offset holds it |
| `HistoryPaging.ResponseForHistory` | crates/comenqd/src/listener/protocol.rs:113-165 | Shows the longest run of leading records that fits 2 MiB one by one, with the cursor behind the last of them; it is an error only if not even the first fits |
| `HistoryPaging.EntryRoundTrip` | crates/comenqd/src/listener/protocol.rs:167-179 | From what a listing shows of a record all of it can be rebuilt but its attempt, URL and lifetime |
| `HistoryPaging.ServeHistory` | crates/comenqd/src/listener/protocol.rs:113-165 | Answers one request with the next records of its snapshot and where the rest begin, within 2 MiB, or with an error for a missing log or a cursor that does not validate |
| `HistoryPaging.CursorAdvances` | crates/comenqd/src/store/history.rs:264-282 | The cursor of a reply lies strictly beyond where that reply began and points at exactly the records not yet listed |
| `HistoryPaging.RunHistoryPages` | crates/comenq/src/client.rs:233-275 | Following cursors prints every record of the first snapshot exactly once and in order, despite appends in between, or the one line that there are none, and terminates; what was printed is a prefix of that in every case, all of it on success unless the reader closed the pipe, and what got through before an output error |
| `RecentHistory.ReadersAgree` | crates/comenqd/src/store/history/recent.rs:66-108 | The forward and reverse readers agree on every line but those that only exceed the cap with their newline |
| `RecentHistory.ForwardIsKeep` | crates/comenqd/src/store/history.rs:227-262 | The forward reading of a log is the reverse reading without those lines |
| `RecentHistory.RecentSelection` | crates/comenqd/src/store/history.rs:134-150 | What `hist -n k` lists for every log: the readable ones among the newest `k` the reverse reader counts |
| `RecentHistory.HistRecentExact` | crates/comenqd/src/store/history.rs:134-150 | For every `k` the listing is the newest `k` records, if and only if no reverse-only line is newer than a readable one |
| `RecentHistory.HistRecentMisses` | crates/comenqd/src/store/history/recent.rs:12-31 | A log for which `hist -n 1` lists nothing although it holds a readable record |
| `QueueOrder.QueueUnique` | crates/comenqd/src/store/bounds.rs:97-99 | Sorting by order, enqueue time and identifier determines the posting order |
| `QueueOrder.PostingOrder` | crates/comenqd/src/store/bounds.rs:97-99 | Of two queued entries the one with the smaller order key is posted first; then the one queued earlier; then the one with the smaller identifier |
| `QueueOrder.BumpIsMoveToFront` | crates/comenqd/src/store.rs:230-240 | `bump` moves the entry to the front and keeps all others in order, if and only if the head's order key is not saturated or the tie falls right |
| `QueueOrder.BustIsMoveToBack` | crates/comenqd/src/store.rs:243-253 | `bust` moves the entry to the back, under the mirrored condition |
| `QueueOrder.PutIsAppend` | crates/comenqd/src/store/scheduling.rs:33-38 | `put` appends, if and only if the tail's order key is not saturated or the tie falls right |
| `QueueOrder.DeleteIsRemove` | crates/comenqd/src/store.rs:256-261 | Removing an entry keeps all others in order |
| `Scheduling.ProjectedIsEarliest` | crates/comenqd/src/store/scheduling.rs:160-179 | The i-th projected time is the least moment that is not before now, the floor of the entry, or any of last post, last attempt and the projected time before it plus cooldown plus flutter |
| `Scheduling.ListedIsProjected` | crates/comenqd/src/store/scheduling.rs:160-179 | An entry is listed with the projected time of its place |
| `Scheduling.ProjectionIsExecuted` | crates/comenqd/src/store/scheduling.rs:160-179 | The worker left alone posts the i-th entry at exactly the time projected for it at the start, under saturation too |
| `WorkerTurn.TurnIsPostNext` | crates/comenqd/src/worker.rs:314-345 | In every reachable state an idle worker claims nothing before the head's projected time; claiming and completing it then leaves exactly the queue the schedule goes on with |
| `WorkerTurn.ScheduleIsRun` | crates/comenqd/src/worker.rs:314-345 | From every reachable state with an idle worker there is a run of the daemon that claims and completes at exactly the projected times and leaves nothing queued |
| `WorkerTurn.CompleteEffect` | crates/comenqd/src/store/completion.rs:34-98 | A whole completion removes the posted entry and its marker, records the second of the post, leaves no journal, and changes nothing else but the log |
| `Effects.PutEffect` | crates/comenqd/src/store/scheduling.rs:13-57 | A put leaves exactly one more entry: this request with its flutter and second, floored unless immediate, unclaimed, behind all others unless the tail's key is saturated |
| `Effects.StepFixed` | crates/comenqd/src/store/scheduling.rs:93-153 | No event, wherever it stops, changes the request, flutter, second or floor of a lifetime |
| `Effects.PutStays` | crates/comenqd/src/store/scheduling.rs:13-57 | After every run, an entry still queued in the lifetime a put began is the comment of that put, with its flutter, second and floor |
| `Effects.ClaimIff` | crates/comenqd/src/store/scheduling.rs:81-131 | In every reachable state an idle worker claims the head if and only if its floor is reached and cooldown and flutter have passed since the last post and the last attempt |
| `Effects.PutGovernsClaim` | crates/comenqd/src/store/scheduling.rs:13-103 | After every run, the lifetime of a put at the head is claimable if and only if the put was immediate or cooldown and flutter have passed since it, and they have passed since the last post and attempt |
| `Effects.ImmediateIsDue` | crates/comenqd/src/store/scheduling.rs:13-57 | With nothing queued, posted or attempted before, an immediate put can be claimed in the same second |
| `Effects.ReleaseEffect` | crates/comenqd/src/store/scheduling.rs:106-122 | A whole release clears the claim and records the later of the two attempts, and changes nothing for an entry that is gone or claimed by another |
| `Effects.BumpEffect` | crates/comenqd/src/store.rs:230-240 | A whole bump changes one order key and nothing else: the entry moves to the front unless the head's key is saturated, the head stays as it is, and an unknown identifier changes nothing |
| `Effects.BustEffect` | crates/comenqd/src/store.rs:243-253 | A whole bust changes one order key and nothing else: the entry moves to the back unless the tail's key is saturated, the tail stays as it is, and an unknown identifier changes nothing |
| `Effects.DelEffect` | crates/comenqd/src/store.rs:256-261 | A whole deletion removes the entry and marks its lifetime as deleted, and does nothing for an unknown identifier |
| `Scheduling.DeleteDelaysNothing` | crates/comenqd/src/store/scheduling.rs:160-179 | `del` keeps every other entry listed and projects none of them later |
| `Scheduling.PutKeepsSchedule` | crates/comenqd/src/store/scheduling.rs:33-57 | `put` changes no other projected time, and the estimate it reports is the one the next `list` gives |
| `Scheduling.DueRespectsCooldown` | crates/comenqd/src/store/scheduling.rs:125-131 | An entry found due is past every recorded post and attempt plus cooldown plus flutter, and past its own floor |
| `Bounds.AccountingIsConserved` | crates/comenqd/src/store/bounds.rs:249-298 | Bytes plus headroom of an entry are unchanged by any order, claim or first-incarnation rewrite, and so is its worst case |
| `Bounds.OrderWidthBound` | crates/comenqd/src/store/bounds.rs:266-280 | No order key prints wider than the 20 bytes reserved for it |
| `Bounds.OrderWidthExact` | crates/comenqd/src/store/bounds.rs:249-251 | The width of an order key is that of its decimal numeral, sign included |
| `Bounds.WorstCaseIsReached` | crates/comenqd/src/store/bounds.rs:266-280 | The worst-case growth is the most that any rewrite adds, and some rewrite adds exactly that |
| `Bounds.ScanEntryFiles` | crates/comenqd/src/store/bounds.rs:155-188 | Refuses exactly a directory over the count or byte limit, and else returns its count and bytes |
| `Bounds.AddHeadroom` | crates/comenqd/src/store/bounds.rs:53-83 | Refuses exactly if some entry could outgrow its limit, and else totals the reservations |
| `Bounds.EntriesWithUsage` | crates/comenqd/src/store/bounds.rs:50-100 | In whatever order the directory is listed, the usage is that of the stored entries and is refused exactly over a limit |
| `Bounds.MutationNeverRefused` | crates/comenqd/src/store/bounds.rs:109-152 | In an admitted store no limit refuses a rewrite of an entry's order, claim or first incarnation, and the store stays admitted |
| `Bounds.PutRefusal` | crates/comenqd/src/store/bounds.rs:109-152 | A new entry is accepted if and only if count, entry size and bytes with all reservations stay within their limits |
| `Bounds.PutStaysAdmitted` | crates/comenqd/src/store/bounds.rs:109-152 | An accepted new entry leaves the store admitted |
| `Bounds.RemovalStaysAdmitted` | crates/comenqd/src/store.rs:256-261 | Removing an entry leaves the store admitted |
| `Bounds.AdmittedIsReadable` | crates/comenqd/src/store/bounds.rs:33-37 | A store that was admitted passes every check when it is opened, that of bytes plus headroom included |
| `LogAppend.TornAppend` | crates/comenqd/src/store/history.rs:55-85 | Whatever prefix of an append is written behind a log with nothing to read, there is nothing to read or exactly that record |
| `NewestRecord.AppendNewest` | crates/comenqd/src/store/history.rs:55-85 | Whatever prefix of an append is written, the newest completion is the new record exactly if its text is whole, within the cap and completes the wait, and is unchanged otherwise |
| `Recovery.ExtendedCount` | crates/comenqd/src/store/history.rs:71-85 | Repairing a torn tail and appending add no attempt besides those read from the old end on |
| `Recovery.RecordStep` | crates/comenqd/src/store/history.rs:96-101 | Any prefix of recording a completion keeps it recoverable, and all of it leaves the record in the log |
| `Recovery.RecoveryAttempt` | crates/comenqd/src/store/completion.rs:61-98 | A recovery cut off anywhere leaves the completion recoverable; a whole one finishes it |
| `Recovery.CompletionRecordedOnce` | crates/comenqd/src/store/completion.rs:34-98 | For every crash point, any number of interrupted recoveries and any client changes in between, the first whole recovery leaves exactly one record of the attempt, the journaled time, no journal, and nothing for another recovery to do |
| `Recovery.CompletionUninterrupted` | crates/comenqd/src/store/completion.rs:34-98 | Completing without a crash leaves the same state |
| `StoreSteps.ReconcileEffect` | crates/comenqd/src/store/completion.rs:61-98 | Any prefix of a reconciliation touches only the journaled entry and marker; the marker goes before the entry, and both before the journal |
| `StoreSteps.ReclaimEffect` | crates/comenqd/src/store/scheduling.rs:134-146 | Any prefix of reclaiming changes only claims and empty incarnations, its next rewrite is not refused, and all of it leaves no claim and no entry without a lifetime |
| `StoreSteps.UnmarkQueuedEffect` | crates/comenqd/src/store/await_deletions.rs:63-82 | Only markers of queued entries go, and all of those are gone at the end |
| `Machine.StepKeeps` | crates/comenqd/src/store/scheduling.rs:93-153 | Every event, stopped after any of its file operations and reported as a success or a failure, keeps the invariant on claims, lifetimes, journal, budgets and times |
| `Machine.EveryClaimIsSafe` | crates/comenqd/src/store/scheduling.rs:81-131 | In every run a claim is issued only with no journal and nothing claimed, for a lifetime never posted, after every posted or released attempt plus cooldown plus flutter, and after the entry's floor |
| `Machine.EveryStateIsSound` | crates/comenqd/src/store.rs:209-227 | In every reachable state at most one entry is claimed, all budgets hold with their reservations, and without a journal no posted lifetime is queued |
| `Machine.OnlyPostedIsRemoved` | crates/comenqd/src/store/completion.rs:73-87 | In every run recovery and completion remove no entry but one whose own lifetime was journaled as posted |
| `Machine.MutationsAreNeverRefused` | crates/comenqd/src/store/bounds.rs:103-152 | In every reachable state no limit refuses a claim, release, bump or bust |
| `Machine.RecoveryIsNeverRefused` | crates/comenqd/src/store/scheduling.rs:134-153 | Nor any rewrite of a recovery, wherever that recovery has got to |
| `Store.SortEntries` | crates/comenqd/src/store/bounds.rs:97-99 | Whatever the directory order, the listing is sorted into the posting order |
| `Store.QueueStore.Append` | crates/comenqd/src/store/history.rs:55-85 | Writes the repaired newline and the record byte by byte, as far as the budget goes |
| `Store.QueueStore.AppendOnce` | crates/comenqd/src/store/history.rs:96-101 | Appends exactly if the log does not hold the attempt yet |
| `Store.QueueStore.ClearAwaitDeletion` | crates/comenqd/src/store/await_deletions.rs:37-60 | Clears the marker exactly if the post belongs to the marked or to the queued lifetime |
| `Store.QueueStore.ReconcileCompletion` | crates/comenqd/src/store/completion.rs:61-98 | Does exactly the reconciliation's file operations, in order, as far as the budget goes |
| `Store.QueueStore.CompleteClaim` | crates/comenqd/src/store/completion.rs:34-58 | Journals the completion of a claimed or still queued entry before anything else, then reconciles, as far as the budget goes; done whole, it has appended one record with the entry, second, token and URL it was given, and recorded that second; an unclaimed entry that is gone changes nothing |
| `Store.QueueStore.Del` | crates/comenqd/src/store.rs:256-261 | Marks the deletion before it removes the entry; an unknown identifier changes nothing |
| `Store.QueueStore.WriteEntry` | crates/comenqd/src/store/bounds.rs:103-152 | In any directory refuses exactly as the limits say, without a change, and else replaces the entry's file |
| `Store.QueueStore.Reorder` | crates/comenqd/src/store.rs:230-253 | Rewrites one order key, is not refused, and changes nothing for an unknown identifier |
| `Store.QueueStore.NextDue` | crates/comenqd/src/store/scheduling.rs:81-90 | The head with its projected wait, and nothing exactly if something is claimed or nothing queued |
| `Store.QueueStore.ClaimNextDue` | crates/comenqd/src/store/scheduling.rs:93-103 | Claims the head exactly if it is due and nothing is claimed; only a crash stops the claim |
| `Store.QueueStore.ReleaseClaim` | crates/comenqd/src/store/scheduling.rs:106-122 | Records the latest attempt before it clears the claim, and does nothing for another claim |
| `Store.QueueStore.ReclaimClaims` | crates/comenqd/src/store/scheduling.rs:134-146 | Rewrites claimed and nameless entries in posting order, is never refused, and stays admitted |
| `Store.QueueStore.ReconcileAwaitDeletions` | crates/comenqd/src/store/await_deletions.rs:63-82 | Clears exactly the markers of queued entries |
| `Store.QueueStore.RecoverWorkerState` | crates/comenqd/src/store/scheduling.rs:150-153 | Reconciles before it reclaims |
| `Store.QueueStore.Open` | crates/comenqd/src/store.rs:209-227 | Recovers, then clears leftover markers; an admitted store opens unless a crash stops it |
| `Store.QueueStore.ResolveEntryId` | crates/comenqd/src/store.rs:356-374 | Of so many names, unsalted and then by rising salt, the first that is free or already names the same request, and none exactly if none of them is |
| `Store.MoreTries` | crates/comenqd/src/store.rs:356-374 | Once one of the names is usable, trying more of them changes nothing |
| `Store.SearchEnds` | crates/comenqd/src/store.rs:356-374 | Among more different names than there are entries one is usable, so the search ends |
| `Store.ResolvedExact` | crates/comenqd/src/store.rs:356-374 | The first name, unsalted and then by rising salt, that is free or names the same request while all before it name other requests, is what the search returns |
| `Store.SameRequestFound` | crates/comenqd/src/store.rs:356-374 | A request put again in the same second is answered with the entry it already has |
| `Store.QueueStore.PutWithEta` | crates/comenqd/src/store/scheduling.rs:13-57 | Under the resolved name queues this request, with its flutter, second and floor, behind the queue and with the estimate of its place; returns an equal request unqueued, and changes nothing when refused or failing |
| `Store.CompleteAndRecover` | crates/comenqd/src/store/completion.rs:34-98 | However budgets cut a completion and its recoveries short, the post is recorded exactly once as soon as one suffices, and nothing changes before the journal |
| `Lifetimes.StepChronicled` | crates/comenqd/src/store/await_deletions.rs:20-82 | Every event keeps queue, markers, journal and log in step with what became of each identifier's latest lifetime |
| `Lifetimes.FreshWaitIsExact` | crates/comenqd/src/store/await_lookup.rs:71-129 | In every run that reuses identifiers, with crashes and failing operations, a fresh lookup is pending, unknown or posted with its own URL exactly as the latest lifetime is queued, deleted or posted; while a failed completion of it awaits recovery it is pending if still queued, unknown if marked as deleted, and posted otherwise |
| `BoundWaits.ReconcileTells` | crates/comenqd/src/store/completion.rs:61-98 | Any prefix of a reconciliation, torn appends included, makes the log tell of the journaled lifetime and of no other |
| `BoundWaits.BoundWaitIsExact` | crates/comenqd/src/store/await_lookup.rs:71-129 | At every later moment of its connection a bound wait is pending exactly while its lifetime is queued, then posted with its own URL if the post is recorded, and else unknown, whatever reuses the identifier and whatever fails |
| `BoundWaits.BoundWaitIff` | crates/comenqd/src/store/await_lookup.rs:112-129 | In every reachable state, all later answers to a wait that begins on a queued entry are exact if and only if the log does not hold the entry's journaled success already |
| `BoundWaits.BoundAtCut` | crates/comenqd/src/store/completion.rs:61-98 | For every cut of a completion that leaves its entry queued, a wait begun then is told of the post after recovery if and only if the record's text was not whole yet; a fresh one is given the URL in either case |
| `AwaitWorld.ScanIsLookup` | crates/comenqd/src/queue/await_lookup.rs:155-198 | An unlocked scan between two observations with nothing pending and the same version answers as a locked lookup at one moment in between, whatever operations fail, append records or clear markers meanwhile |
| `AwaitResolve.ScanAwaitHistory` | crates/comenqd/src/queue/await_lookup.rs:221-250 | The scan sees the log as it was when it was measured, however much it grew before it was read |
| `AwaitResolve.ResolveAwaitStore` | crates/comenqd/src/queue/await_lookup.rs:155-218 | Every answer is the one a locked lookup would give at a moment between call and return; without an answer every pass was overtaken by a mutation |
| `AwaitFailures.FailureIsTolerated` | crates/comenqd/src/queue/store_access.rs:66-80 | However a store operation fails in an open store, after its last file operation too, what it leaves is what resolution tolerates; short of that only a completion or recovery can have removed an entry |
| `AwaitFailures.NewIsKept` | crates/comenqd/src/queue/store_access.rs:66-80 | From every reachable open state and over every run that publishes nothing, no file operation of a further unpublished operation removes a lifetime queued since |
| `AwaitFailures.FailingStepIsLegal` | crates/comenqd/src/queue/store_access.rs:66-80 | So each file operation of a failing operation is a step the world of waiters allows |
| `AwaitFailures.StaleIffRemoved` | crates/comenqd/src/listener/await_handler.rs:43-73 | Over every run in which nothing is published, a parked handler is stale if and only if a failing completion or recovery of its lifetime got past dropping its entry |
| `AwaitFailures.StaleAfterFailedRecovery` | crates/comenqd/src/queue/store_access.rs:72-78 | With the completion of a queued entry journaled, a recovery that fails right after dropping the entry changes no version and leaves such a handler stale |
| `AwaitHandler.ParkedIsCurrent` | crates/comenqd/src/listener/await_handler.rs:50-72 | An answer given after the version was seen holds for as long as that version is published and no failing operation removes its lifetime |
| `AwaitHandler.SendPosted` | crates/comenqd/src/listener/await_handler.rs:123-139 | A frame that fits in every case: the URL, or an error in place of a URL too long for one |
| `AwaitHandler.Respond` | crates/comenqd/src/listener/await_handler.rs:76-149 | The frame is the failure, or exactly what an answer of the turn calls for: the URL, the error for a missing or too long one, the error for an unknown or removed entry, or the estimate; the wait goes on exactly with a pending answer that was written |
| `AwaitHandler.AwaitEntry` | crates/comenqd/src/listener/await_handler.rs:43-73 | An estimate per turn, then at most one terminal frame and nothing after; every frame fits; the token keeps the first answer's lifetime; the last frame is that of shutdown, of a failure, or of an answer of its turn about that lifetime; a parked handler is not stale unless a failing operation removed its lifetime |
| `AwaitHandler.UrlIsGiven` | crates/comenqd/src/listener/await_handler.rs:76-139 | If every answer of a turn is a URL that fits, the frame is that URL |
| `AwaitHandler.ShutdownOnlyIf` | crates/comenqd/src/listener/await_handler.rs:43-73 | A wait ends with the shutdown error only if the daemon was shutting down before its turn or while it was parked, or a failed lookup said so |
| `AwaitCache.QueueState.BuildSchedule` | crates/comenqd/src/queue/await_lookup.rs:308-317 | The projection holds every queued identifier with its listed estimate and no other |
| `AwaitCache.QueueState.CachedEta` | crates/comenqd/src/queue/await_lookup.rs:298-326 | The cached estimate is the freshly listed one, so the default of zero is never used |
| `AwaitCache.QueueState.ResolvePending` | crates/comenqd/src/queue/await_lookup.rs:253-280 | The pending answer with the estimate a fresh listing of that second gives |
| `CacheRuns.CutExactIff` | crates/comenqd/src/queue/store_access.rs:66-80 | For every operation in every reachable state, cut after any number of file operations, and for every cached second: the cached projection stays exact if and only if the cut is harmless |
| `CacheRuns.UnpublishedChangesNothing` | crates/comenqd/src/queue/await_lookup.rs:283-295 | Every operation of the running daemon but the failure-record append is on the list of published ones, and whatever that append writes leaves the projected queue as it was |
| `CacheRuns.ServeRun` | crates/comenqd/src/queue/await_lookup.rs:253-326 | Over every run of the daemon's own operations, lookups and clock readings, with failing operations cut harmlessly, each lookup's estimate is the freshly listed one |
| `Projection.SameLineExactIff` | crates/comenqd/src/queue/await_lookup.rs:298-326 | With the queue in the same line, a cached projection stays exact if and only if the new anchor does not move the head's time |
| `Projection.ReorderExactIff` | crates/comenqd/src/store/scheduling.rs:160-179 | A reordering keeps a cached projection exact if and only if every entry in a new place was projected for that place's time already and would be projected for it there |
| `AwaitCache.StaleAfterFailedRelease` | crates/comenqd/src/store/scheduling.rs:112-120 | A release that records the attempt and then fails leaves the cached estimate wrong |
| `AwaitClient.ReadFrame` | crates/comenq/src/client/await_stream.rs:196-212 | Exactly the next line, or one byte more than a frame may have |
| `AwaitClient.Receive` | crates/comenq/src/client/await_stream.rs:103-133 | The verdict of reading the stream frame by frame, for every byte stream |
| `AwaitClient.CutStream` | crates/comenq/src/client/await_stream.rs:103-148 | For a daemon's stream cut at any byte the verdict depends only on which frames arrived whole |
| `AwaitClient.SuccessIffUrlArrived` | crates/comenq/src/client/await_stream.rs:103-148 | Success if and only if a whole URL frame arrived, the daemon's error if and only if a whole error frame did, else a lost connection after progress, and else the initial-reply error that the bytes call for |
| `WorkerWakeups.StepKeeps` | crates/comenqd/src/worker.rs:304-390 | Every step of worker, mutators and notifications keeps what a parked worker saw not yet due, and leaves no permit behind a registered waiter |
| `WorkerWakeups.StrandedIff` | crates/comenqd/src/queue.rs:255-276 | A step leaves the worker parked on an outdated queue with nothing announced exactly if a failed mutation changed the queue under it, or it was so before and nothing rescued it |
| `WorkerWakeups.NoLostWakeup` | crates/comenqd/src/worker.rs:160-189 | In every interleaving a worker parked on an outdated queue has a permit, a notification in hand or a mutator that has yet to notify, if and only if no failed mutation stranded it without rescue since |
| `WorkerWakeups.FailedPutStrands` | crates/comenqd/src/queue.rs:206-231 | A put that fails after queueing a due entry leaves a worker parked on the empty queue asleep, however late it gets, until another mutation |
| `WorkerWakeups.ParkedTimerIsRight` | crates/comenqd/src/worker.rs:315-331 | A parked worker that nobody owes a notification and no failed mutation stranded sleeps exactly until the head of the current queue is due |
| `WorkerWakeups.StepConserves` | crates/comenqd/src/worker.rs:160-189 | Notifications come from published changes alone and go only by being taken, or by being merged into a permit that is set already |
| `WorkerWakeups.WakeupsArePaid` | crates/comenqd/src/worker.rs:304-390 | In every run the worker takes no more notifications than were out at its start and the published changes brought |
| `WorkerWakeups.RetryNeverEarly` | crates/comenqd/src/worker.rs:362-384 | A worker with a retry deadline does not claim before it, whatever changes it consumes meanwhile |
| `WorkerWakeups.FailedPostWaits` | crates/comenqd/src/worker.rs:362-384 | In every run a post that failed is not followed by a claim before its second plus the cooldown |
| `WorkerWakeups.FailedPostResumes` | crates/comenqd/src/worker.rs:362-384 | Until the next post, the wait for a retry can end exactly from that second plus the cooldown on |
| `WorkerWakeups.DecisionIsExact` | crates/comenqd/src/store/scheduling.rs:81-103 | A claim attempt finds nothing exactly if something is claimed or nothing queued, claims exactly if the head may be posted now, and else gives the wait until the first second at which it may |
| `WorkerWakeups.WaitForRetryDeadline` | crates/comenqd/src/worker.rs:140-157 | The wait ends at or after its deadline, or on shutdown, and queue changes do not end it |
| `TokenRotation.LastTokenHash` | crates/comenqd/src/queue/history.rs:41-51 | The token of the newest record, unless only the reverse reader accepts that record |
| `TokenRotation.WholeRecorded` | crates/comenqd/src/store/history.rs:55-78 | An append whose text is whole makes its record's token the last one, with or without its newline, whatever the log held, and stays so when the line is terminated |
| `TokenRotation.TornKeepsLast` | crates/comenqd/src/store/history.rs:71-78 | Appends torn anywhere before the end of their text, repaired or not, leave the last token as it was |
| `TokenRotation.NextAttemptFollows` | crates/comenqd/src/worker/tokens.rs:113-124 | The attempt after one with a token uses the token after it, across restarts |
| `TokenRotation.NextTokenExact` | crates/comenqd/src/worker/tokens.rs:113-124 | The first token of the pool for an unknown or missing hash, the one behind its first occurrence otherwise, and the first behind the last |
| `TokenRotation.EachTokenOnce` | crates/comenqd/src/worker.rs:333-371 | With distinct tokens, any n consecutive recorded attempts of a pool of n use each token exactly once, wherever crashes cut appends off |
| `Attempts.AppendLog` | crates/comenqd/src/store/history.rs:55-85 | An append adds its record behind all others once its text is whole, and no record before that |
| `Attempts.AttemptIsWritten` | crates/comenqd/src/store/history/record.rs:43-82 | A whole completion or failure adds exactly one record, which tells of the claimed entry and lifetime, its request, the second, the token, and the URL or the error; and its token is the last one |
| `Attempts.RunsUseEachTokenOnce` | crates/comenqd/src/worker.rs:333-371 | In every run of the daemon whose attempts take the token after the last, the log only gains records, and any n consecutive ones it gains use each of n distinct tokens exactly once, despite crashes, cut appends and recoveries |
| `SampleRuns.SomeClaim` | crates/comenqd/src/store/scheduling.rs:93-103 | A run reaches a state in which the worker claims an entry |
| `SampleRuns.SomeRemoval` | crates/comenqd/src/store/completion.rs:61-98 | A run reaches a state in which a completion removes the entry it posted |
| `SampleRuns.SomeReuse` | crates/comenqd/src/store.rs:209-227 | A run opens an empty directory, posts, crashes, reopens and queues the identifier again; a fresh wait is given the first lifetime's URL before that and waits for the second after |
| `SampleRuns.SomeBoundWait` | crates/comenqd/src/store/await_lookup.rs:71-129 | A wait bound while the comment is queued is given its URL once it is posted |
| `SampleRuns.SomeFailure` | crates/comenqd/src/store/completion.rs:61-98 | A run whose completion fails once its record is written leaves a journal and a wait bound behind its own success |
| `SampleRuns.RunsExist` | crates/comenqd/src/worker.rs:304-390 | For every cooldown there are runs that claim, and runs that reuse an identifier after its post |
| `SampleCodecs.RecordCodecIsLawful` | crates/comenqd/src/store/history.rs:55-78 | Some encoding of records obeys the laws taken from JSON |
| `SampleCodecs.FramesAreLawful` | crates/comenqd/src/listener/await_handler.rs:123-139 | Some encoding of await frames obeys the laws taken from JSON |

## Left out

- Posting itself: a GitHub call is a success with a URL or a failure; a post accepted just before the daemon dies and before the journal is written may be repeated, and nothing is claimed about that window.
- Power failures that lose or reorder synced writes, and files the store did not write itself (unreadable, misnamed or foreign entry files are skipped by the source).
- `Machine.Step`: the daemon's operations on well-formed directories; I/O errors on reads are not modelled, only failures to write.
- `Recovery.CompletionRecordedOnce`: for completion records shorter than the 2 MiB line cap, which the forward reader needs to find them again.
- `Store.QueueStore`: a budget stops an operation before one of its file operations; failing after the last one is an event of `Machine` only.
- `Lifetimes.FreshWaitIsExact`: for runs whose completion records fit the line cap; identifiers that were last used before the run are not tracked.
- `BoundWaits.BoundWaitIsExact`: follows one connection, which ends when the process does.
- `AwaitResolve.ResolveAwaitStore`: read errors of the observations and of the scan are left to `AwaitHandler.Respond`, where they are an arbitrary failure; the loop is given finitely many passes, because mutations can overtake it for ever.
- `Store.QueueStore.ResolveEntryId`: tries a given number of salts, where the source goes on until a name is usable; `Store.MoreTries` and `Store.SearchEnds` say that enough of them give the same name.
- `Store.QueueStore.PutWithEta`: ends unresolved where the search of `Store.QueueStore.ResolveEntryId` does.
- `Attempts.AttemptIsWritten`: the error text of a failure is taken as already shortened to the source's limit; records fit the 2 MiB line cap.
- `Attempts.RunsUseEachTokenOnce`: for runs that begin without a journal; a failure to read the log before an attempt, after which the source takes the first token, is not modelled.
- `WorkerWakeups.NoLostWakeup`: a mutator that changed the queue and will notify counts as an announcement; that it gets to run is not claimed.
- `WorkerWakeups.FailedPostWaits`: the deadline saturates at 2^64 - 1; the source's one fallback duration for an unrepresentable instant is not modelled.
- `AwaitClient.Receive`: reply timeouts, failures to print, and the countdown's text and cadence.
- The `list` reply's byte limit, request parsing and validation, text rendering and argument parsing.
- Socket set-up, permissions, the accept loop, the limit on concurrent waits, and connection deadlines.
- Configuration and credential files; that token hashes are distinct is an assumption of `TokenRotation.EachTokenOnce` and `Attempts.RunsUseEachTokenOnce`.
- The supervisor's backoff between worker restarts; a restart may happen at any time here.
- Metrics, tracing, SHA-256, the FNV hash and UUID generation, kept abstract where they matter.
