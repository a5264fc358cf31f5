# Verified model of the usage collector

The collector reads usage rows from source databases in order of `(time_updated, id)`, sends them in batches to a
gateway, and keeps one cursor per database in memory and in a state file. This project models that delivery protocol
in Dafny and proves what it promises over every input and every run: polls and replay passes, failing reads, sends and
saves, crashes and restarts, and source databases that change while they are read.

`dafny verify dfyconfig.toml` checks the whole project.

## How the model is laid out

- `Clock`, `Rows`, `Reader`: instants in nanoseconds, rows stamped in milliseconds, the order of rows, and the four
  prepared queries with the reads built on them.
- `State`: the cursor tracker as a class over a file that outlives it. A save can be written, written but reported as
  failed, not happen, empty the file, or tear it.
- `Protocol`: one visit to a database (a poll or a replay pass), one process, and runs of processes, as functions.
  Tables, send results, save results and clocks are inputs of each event.
- `Collector`: the orchestration as a class that updates its fields in place. Its methods are proved to do exactly what
  the `Protocol` functions say.
- `Starts`: which starts succeed, what a process starts with, and the seeding of its first cycle.
- `Runs`: what one event of a run does to one database, and what visits to other databases leave alone.
- `Paging`, `Cursors`, `Handover`, `NoGap`, `Heartbeats`, `Isolation`: theorems about passes and runs.
- `Gateway`, `Exclusion`, `Dedup`: the retry loop, the exclusion gate, and the helpers that drop repeated snapshots.

## Where the code and its documentation disagree

The model follows the code. Each point is a lemma with a concrete input, and the exact condition under which the
documentation is right is proved for all inputs next to it.

- A poll can skip rows: `docs/collector-workflow.md:111` says no records are skipped, but a page that ends inside a
  group of rows with one timestamp loses the rest of the group (`NoGap.PollingLosesTiedRow`, `NoGap.NoGapExactly`,
  `Handover.PollingDrainsExactly`).
- A replay that fails and is then retried can leave the cursor below the one stored before it, although
  `docs/adr/0008-replay-through-pipeline.md:11` says it never does (`Cursors.RetryRegresses`, `Cursors.NeverRegressesExactly`).
- `ReadRecordsAfter` with an empty id is not `ReadRecords`, as `internal/sqlite/reader.go:31-32` says
  (`Reader.EmptyAfterIdIncludesSince`, `Reader.EmptyAfterIdEquivalence`).
- An `until` in the first millisecond of 1970 bounds nothing, although `docs/adr/0008-replay-through-pipeline.md:7`
  includes rows up to it only (`Reader.VanishingBoundReturnsLaterRow`, `Reader.WindowSelectsExactly`).
- The first retry waits about twice the base backoff; `docs/collector-workflow.md:109` says it starts at one second
  (`Gateway.DefaultSchedule`, `Gateway.ScheduleIsDocumentedExactly`).

## Model

| member | source | states |
|---|---|---|
| Clock.MilliBoundsAreExact | internal/sqlite/reader.go:233-238 | flooring a nanosecond bound to milliseconds keeps a strict lower and an inclusive upper bound exact for every row, also before the epoch |
| Rows.SortedFacts | internal/sqlite/reader.go:103-105 | the listing of a query holds exactly the selected rows, each before all later ones in (time_updated, id) |
| Rows.OrderedIsUnique | internal/sqlite/reader.go:103-105 | ids being unique, a set of rows has only one such listing |
| Rows.IdOrderIsBytewise | internal/sqlite/reader.go:103-105 | ids compare at the first byte in which they differ, whatever their lengths, and a prefix comes first |
| Reader.ScanRecords | internal/sqlite/reader.go:263-296 | the scan loop returns every row, or an error and no rows as soon as one does not decode |
| Reader.WindowPage | internal/sqlite/reader.go:233-258 | a windowed page is the first `limit` rows still pending after its position, whichever of the two prepared statements serves it |
| Reader.UnboundedWindowIsPlainRead | internal/sqlite/reader.go:39-42 | without an upper bound a windowed read is ReadRecords on the first page and ReadRecordsAfter on later ones |
| Reader.WindowSelectsExactly | internal/sqlite/reader.go:219-238 | a window selects exactly the rows after `since` and up to `until` in nanoseconds, if and only if the bound does not floor to the "no bound" value while a later row exists |
| Reader.PagingResumesExactly | internal/sqlite/reader.go:227-249 | continuing from any returned row yields exactly the rest of the listing, if and only if that row has an id or no later row shares its timestamp |
| Reader.BoundedIsPrefix | internal/sqlite/reader.go:128-163 | the bounded listing is a prefix of the unbounded one |
| Reader.VanishingBoundReturnsLaterRow | internal/sqlite/reader.go:235-238 | a replay until 1970-01-01T00:00:00Z that returns a row stamped 5 ms later |
| Reader.EmptyAfterIdEquivalence | internal/sqlite/reader.go:31-32 | the composite read with an empty id equals the plain read if and only if no usage row with an id is stamped at `since`, or both pages hold a row that does not decode, so that both reads fail |
| Reader.EmptyAfterIdWhenRowsDecode | internal/sqlite/reader.go:31-32 | where usage rows decode, only the first of these is left |
| Reader.EmptyAfterIdIncludesSince | internal/sqlite/reader.go:118 | a table on which the two differ |
| State.LoadUndoesSave | internal/state/tracker.go:80-129 | loading returns what was saved if and only if every cursor prints with a four-digit year; any other cursor comes back as zero |
| State.EpochCursorsSurvive | internal/state/tracker.go:80-129 | cursors from 1970 to the end of 9999, and zero ones, survive a save and a load |
| State.SaveNeverInvents | internal/state/tracker.go:109-129 | after any save, successful or not, a cursor in the file is its old value, the value in memory, or zero |
| State.Tracker.NewTracker | internal/state/tracker.go:29-45 | a missing or empty file starts fresh, a torn or unreadable one is an error, any other yields its parseable entries |
| State.Tracker.Load | internal/state/tracker.go:80-106 | the loading loop keeps exactly the entries that parse |
| State.Tracker.GetCursor | internal/state/tracker.go:49-62 | the stored cursor, or the zero time |
| State.Tracker.SetCursor | internal/state/tracker.go:66-77 | memory takes the cursor even when the save fails; the file becomes what the save made of it |
| State.Tracker.Save | internal/state/tracker.go:109-129 | the save loop writes every cursor of every database |
| Collector.NewCollector | internal/collector/collector.go:99-174 | a process starts if and only if the hostname resolves, its replay window is not empty, the state file can be read and loads, and the transport opens, with exactly the loaded cursors, no latch and no recorded success |
| Starts.StartsExactly | internal/collector/collector.go:80-157 | a start succeeds exactly when hostname, state file and transport work, the file is not torn, and `until` is not at or before now minus the replay duration where both are set; so it does on a fresh machine |
| Starts.StartSettings | internal/collector/collector.go:103-105 | the replay start plus the replay duration is now, or it is the zero time; the other settings are the configured ones, and nothing is latched, recorded or seeded |
| Starts.StartCursors | internal/state/tracker.go:80-106 | each database starts from its entry in the state file if that parses, and otherwise, as without a file, from the zero time |
| Starts.SeedsExactly | internal/collector/collector.go:238-262 | the first cycle records now for exactly the databases it found that have a non-zero cursor and no success yet; later cycles record none |
| Collector.Collector.SendRecords | internal/collector/collector.go:596-672 | an unacknowledged batch changes nothing; an acknowledged one persists the last row's time only when asked to, and counts as success only if that save worked |
| Collector.Collector.MaybeSendHeartbeat | internal/collector/collector.go:678-704 | a heartbeat goes out exactly when a success is on record and an interval old, and renews it only if acknowledged |
| Collector.Collector.CompleteReplay | internal/collector/collector.go:555-569 | both completion paths write the clamped cursor and set the latch |
| Collector.Collector.SendPage | internal/collector/collector.go:443-503 | one turn of the read-and-send loop |
| Collector.Collector.SendPages | internal/collector/collector.go:442-582 | the loop delivers exactly the batches of the pass and leaves the cursor alone, except for a poll's own page |
| Collector.Collector.EndVisit | internal/collector/collector.go:503-530 | the cursor write, rewind, latch and heartbeat after a pass |
| Collector.Collector.ProcessDatabase | internal/collector/collector.go:400-582 | cursors, latch, lastSuccess, file and deliveries after a visit are those of the protocol |
| Collector.Collector.SeedOnce | internal/collector/collector.go:238-262 | once per process, lastSuccess is set for databases with a non-zero cursor and not overwritten |
| Collector.Collector.Iterate | internal/collector/collector.go:222-271 | a cycle visits its databases in turn whatever fails in them |
| Collector.CycleIsRun | internal/collector/collector.go:264-270 | a cycle is a run of visits, so the theorems about runs apply to it |
| Paging.SentInOrder | internal/collector/collector.go:442-581 | whatever happens to the table between pages, the rows sent in a pass strictly increase in (time_updated, id) and lie in the window |
| Paging.NoKeySentTwice | internal/collector/collector.go:573-580 | under any interference no (time_updated, id) is sent twice in a pass |
| Paging.StableRowIsSentOnce | internal/collector/collector.go:442-581 | a row of the window that stays put through a completed pass is sent exactly once |
| Paging.FrontierIsLastSent | internal/collector/collector.go:455-470 | the frontier of a completed pass is the last row it sent, or the replay start |
| Paging.CompletedPass | internal/collector/collector.go:442-581 | a completed pass every page of which saw the same table delivered exactly the ordered window and ends at its last row |
| Paging.QuietReplay | internal/collector/collector.go:442-581 | on a quiet table whose window decodes, a pass with pages enough to read ends and its batches concatenate to the ordered window |
| Paging.QuietPassCounts | internal/collector/collector.go:539-541 | it makes floor(n / limit) + 1 reads and ceil(n / limit) sends |
| Paging.BatchingIsUnobservable | internal/collector/collector.go:539-571 | two completed passes over the same table, with any two page sizes, deliver the same rows in the same order and write the same cursor, on either completion path |
| Paging.PassBreaksOff | internal/collector/collector.go:442-530 | a pass over a quiet table whose first k pages are full and work has delivered exactly those when the next page is not read or does not decode, when its send fails, or when the process dies, and ends accordingly |
| Cursors.FailedSendRewinds | internal/collector/collector.go:503-530 | whichever send of a replay pass is the first to fail, memory and file get the smaller of the replay start and the stored cursor |
| Cursors.FailedReadKeeps | internal/collector/collector.go:450-453 | a page that cannot be read, or holds a row that does not decode, ends the pass without touching a cursor |
| Cursors.DeathKeepsFile | internal/collector/collector.go:442-582 | a process that dies between pages leaves the file as it was |
| Cursors.ReplayWritesOnce | internal/collector/collector.go:470-530 | a replay visit writes its cursor at most once, at its end: never on a read or open error, the minimum of `since` and the stored cursor on a failed send, and on completion a cursor between the stored one and the larger of it and `until` |
| Cursors.UntilClampIsNoOp | internal/collector/collector.go:556-562 | under any interference the clamp to `until` changes nothing, unless the bound vanishes |
| Cursors.FailuresRewindOnce | internal/collector/collector.go:517-529 | in a run of one process, any number of incomplete passes of a database, with visits to others between them, leaves the original cursor, or the once rewound one if any of them failed to send |
| Cursors.CursorAcrossRetries | internal/collector/collector.go:470-530 | the exact cursor the process holds after a run of failed passes and then a completed one, for every `until` |
| Cursors.CursorWithinBound | internal/collector/collector.go:556-562 | unless the bound vanishes, that cursor needs no cut at `until`: it is where the window ends |
| Cursors.NeverRegressesExactly | internal/collector/collector.go:563-567 | that cursor is not below the original one if and only if the window starts at or after it, no send failed, or a usage row of the window is stamped at or after it (for a bound that vanishes, any later row, as long as `until` is not before the cursor) |
| Cursors.RetryRegresses | internal/collector/collector.go:517-529 | a run from a state file with a cursor of 10 ms whose replay, failed once and then completed, ends at 5 ms |
| Handover.PollingDrainsExactly | internal/collector/collector.go:443-449 | in a run in which any opens, reads, sends and saves fail, polling a quiet table until idle delivers every row above the cursor once and in order, if and only if no page boundary splits a tie |
| Handover.PollingGetsIdle | internal/collector/collector.go:443-449 | where the unread rows decode, as many working polls as there are unread rows are enough to get idle |
| Handover.PollsArePaged | internal/collector/collector.go:443-449 | over a quiet table, working polls deliver page after page of the unread rows up to a page that does not decode, whatever fails in other polls and in saves and whatever other databases do |
| Handover.PolledInOrder | internal/collector/collector.go:443-449 | whatever happens to the tables and the saves, the rows the polls of one process deliver from a database strictly increase in (time_updated, id) and lie above the cursor, which ends at the last of them |
| Handover.NoRowPolledTwice | internal/collector/collector.go:443-449 | so its polls send no row twice |
| Handover.ReplayThenPolls | internal/collector/collector.go:412-425 | after a completed pass the latch turns later visits of the run into polls from the cursor the pass stored; the run delivers the window and then what is above that cursor |
| Handover.SeamlessHandover | internal/collector/collector.go:545-569 | in a run of one process with the stored cursor inside the window's span, a completed replay and then polling until idle deliver every row after `since` exactly once and nothing else; only where the bound vanishes, rows after `until` go out a second time |
| Handover.LateWindowRepeatsOnlyItself | internal/collector/collector.go:461-479 | in such a run with the window after the stored cursor, no row above the cursor is missed and exactly the window's rows are sent twice |
| Handover.ReplayHeals | internal/collector/collector.go:414-484 | a full replay acknowledges every row whatever was skipped before, and leaves the cursor at the newest row or the stored one, in memory and, if its year has four digits, in the file |
| Handover.HealedForGood | internal/collector/collector.go:414-484 | after it no poll of the same process sends a record, nor does any poll of a process started without replay after a crash, which loads that cursor if its year has four digits |
| Handover.FreshRunDelivers | internal/collector/collector.go:443-449 | from nothing, a process started without replay delivers every usage row of a quiet table once and in order, if and only if no page boundary splits a tie, once enough polls work |
| Handover.FailedReplayIsReadAgain | internal/collector/collector.go:503-530 | after a failed replay whose rewind was saved, a crash and a start without replay, polling until idle delivers every row after the rewound cursor |
| NoGap.ExactLoss | internal/collector/collector.go:646-654 | the unacknowledged rows at or below a poll's new cursor are those at the old one and the tied rows its page splits off, and no others |
| NoGap.PollIsGapFreeExactly | internal/sqlite/reader.go:95-105 | a poll leaves no gap if and only if there was none and it splits off no unacknowledged tied row |
| NoGap.PollingLosesTiedRow | internal/sqlite/reader.go:102 | two tied rows and a limit of one: no run of a polling process delivers the second |
| NoGap.DrainedCovers | internal/collector/collector.go:442-581 | a completed pass has delivered every window row its last page could see, when rows arrive above what was delivered |
| NoGap.VisitKeepsGapFree | internal/collector/collector.go:400-582 | whatever fails in it, a visit leaves no new gap below the memory or file cursor of any database, except the tied rows a poll's page splits off |
| NoGap.EveryGapIsASplit | internal/collector/collector.go:400-582 | in every run of polls, replays, failures, crashes and restarts in which rows have ids and arrive above the cursors and above what a visit under way has delivered, every unacknowledged usage row at or below a cursor, in memory or on disk, was split off by some poll of the run |
| NoGap.EveryLossIsAGap | internal/collector/collector.go:646-654 | and every row split off is a gap right after that poll |
| NoGap.NoGapExactly | internal/collector/collector.go:400-582 | so no state of such a run has a gap if and only if none of its polls splits a group of unacknowledged tied rows |
| NoGap.DistinctTimesLoseNothing | internal/sqlite/reader.go:102-104 | which holds of every run in which no page a poll delivers comes from a table with two usage rows of one timestamp |
| NoGap.IdleMeansDelivered | internal/collector/collector.go:455-468 | in a state without gaps, a poll that finds no rows means that every usage row of the table it saw has been acknowledged |
| NoGap.IdleRunHasDelivered | internal/collector/collector.go:455-468 | in every such run, when a poll finds no rows, every usage row of its table has been acknowledged or was split off by some poll of the run |
| Heartbeats.HeartbeatsImplyDelivery | internal/collector/collector.go:238-262 | over all runs of all processes, every attempted heartbeat and every non-zero cursor is preceded by an acknowledged non-empty batch of that database |
| Heartbeats.HeartbeatRate | internal/collector/collector.go:678-704 | under a monotone clock, and across restarts, the i-th to j-th successful heartbeats of a database span at least (j - i) intervals |
| Heartbeats.VisitBeatsExactly | internal/collector/collector.go:455-490 | after its batches a visit sends a heartbeat exactly when it ended on an empty page with a success on record that is an interval old; the record is the time of the last acknowledged page, or of the heartbeat if that is acknowledged |
| Heartbeats.IdlePollBeats | internal/collector/collector.go:678-704 | a poll of a table without unread rows writes nothing and sends a heartbeat exactly when a success an interval old is on record |
| Heartbeats.FailedPollChangesNothing | internal/collector/collector.go:427-530 | a poll whose database does not open, whose page cannot be read or whose send fails changes no cursor, file, record or log |
| Heartbeats.WorkingPoll | internal/collector/collector.go:636-660 | a poll that works delivers its page as one batch, moves and saves the cursor, records the success if the save worked, and sends no heartbeat |
| Heartbeats.RestartedDatabaseBeats | internal/collector/collector.go:238-262 | after a restart the first idle poll of a database with a stored cursor sends a heartbeat exactly when the first cycle is an interval old |
| Heartbeats.OnePassPerProcess | internal/collector/collector.go:412-414 | within one process at most one replay pass of a database completes, and the latch is set exactly when one has |
| Isolation.CycleActsAlone | internal/collector/collector.go:264-270 | a cycle changes what the process knows about a database, and delivers for it, exactly as a visit to it alone would |
| Isolation.OrderDoesNotMatter | internal/collector/collector.go:264-270 | any order of the same visits leaves the process in the same state and delivers the same to each database |
| Isolation.SeedingActsAlone | internal/collector/collector.go:238-262 | seeding acts on each database alone |
| Isolation.FileAfterCycle | internal/state/tracker.go:109-129 | databases do share the state file: after a cycle it holds, for every database, what the last save that changed it left, whosever save that was; a torn or emptied one loses every cursor |
| Isolation.LastWriteRepairs | internal/state/tracker.go:66-77 | when the last save of a cycle writes the file, it repairs every failed save before it: the file holds the cursors in memory |
| Gateway.SendBatch | internal/gateway/client.go:125-204 | the loop makes the least number of requests after which it must stop, waits the jittered backoff before each retry, and succeeds exactly on a parseable 2xx |
| Gateway.RequestsWithoutCancellation | internal/gateway/client.go:136-203 | without cancellation it makes min(first final outcome + 1, maxRetries + 1) requests |
| Gateway.OneRequestIsEnough | internal/gateway/client.go:171-200 | a first response below 500 is the only one, a 4xx included, and delivers exactly when it is a 2xx that parses |
| Gateway.RetriedExactly | internal/gateway/client.go:136-196 | a network or server error is followed by another request exactly while retries are left and the wait is not cancelled |
| Gateway.OtherErrorStops | internal/gateway/client.go:146-168 | any other error is final and does not deliver |
| Gateway.JitterIsLinear | internal/gateway/client.go:138-139 | the wait grows evenly with the random number from three to five quarters of the backoff, truncated |
| Gateway.BackoffsAddUp | internal/gateway/client.go:113-119 | the unjittered waits sum to at most 2 * base * (2^n - 1), exactly while uncapped |
| Gateway.TotalWait | internal/gateway/client.go:137-145 | the total wait is at most 1.25 times that |
| Gateway.ScheduleIsDocumentedExactly | internal/gateway/client.go:134-152 | for every client and retry, the unjittered wait is the documented one (base at first, then doubling to the maximum) if and only if the base is zero or the documented wait has reached the maximum |
| Gateway.DefaultSchedule | internal/gateway/client.go:134-152 | with the default client they differ: the waits are 2, 4 and 8 seconds before jitter |
| Exclusion.Gate.IsExcluded | internal/exclusion/gate.go:60-86 | a path is excluded if and only if a readable entry exists |
| Exclusion.Gate.RecheckDue | internal/exclusion/gate.go:132-154 | due from the recorded time on, and always for a corrupt entry |
| Exclusion.Gate.Exclude | internal/exclusion/gate.go:91-128 | the entry's recheck lies an interval after the exclusion |
| Exclusion.Gate.Remove | internal/exclusion/gate.go:158-175 | removes this path's entry and no other |
| Exclusion.Gate.Resolve | internal/collector/collector.go:294-345 | one path: skip, exclude, re-admit or admit, and whether its file was opened |
| Exclusion.Gate.ResolveDatabases | internal/collector/collector.go:280-371 | the loop admits, in order, exactly the paths that pass, and opens exactly the files whose look calls for it |
| Exclusion.InspectedExactly | internal/collector/collector.go:294-345 | with a readable gate, a path is opened exactly when it has no entry, a corrupt one, or one whose recheck time has come, and admitted exactly when it then passes and has an identity |
| Exclusion.UnreadableGateHoldsNothing | internal/collector/collector.go:297-318 | a gate file that cannot be read holds no path back |
| Exclusion.GateAfterLook | internal/collector/collector.go:319-345 | a path that fails has an entry holding it back for an interval, one that passes has no readable entry, one held back keeps its own, and no other path is touched |
| Exclusion.ReadmittedExactly | internal/exclusion/gate.go:44-154 | an excluded path that would pass is re-admitted exactly from one interval after its exclusion on, three hours if none is configured |
| Exclusion.CyclesJoin | internal/collector/collector.go:294-345 | the inspections of successive cycles are those of one sequence of looks |
| Exclusion.InspectionRate | internal/exclusion/gate.go:91-154 | the i-th to j-th inspections of a persistently failing path span at least (j - i) recheck intervals, across restarts and whatever other paths do |
| Dedup.Deduplicate | internal/collector/collector.go:767-776 | the seen-set loop returns the first occurrences |
| Dedup.FirstsArePositions | internal/collector/collector.go:795-805 | in input order, exactly the elements at first positions of their key |
| Dedup.FirstsAreDistinctAndComplete | internal/collector/collector.go:795-819 | no key twice, and every key of an eligible element |
| Dedup.JoinIsInjective | internal/collector/collector.go:835 | NUL-joined keys identify pairs when ids contain no NUL |
| Dedup.JoinCanCollide | internal/collector/collector.go:850 | two pairs, one with a NUL in its id, that share a key |
| Dedup.IdsCollideExactly | internal/collector/collector.go:835 | two ids can share a joined key for some texts if and only if they are equal or one is the other followed by a NUL and more |
| Dedup.JoinedDedupIsPairDedup | internal/collector/collector.go:828-857 | de-duplicating by the joined key is de-duplicating by the pair if and only if no two eligible elements collide |
| Dedup.PlainIdsDoNotCollide | internal/collector/collector.go:828-857 | which holds whenever no eligible id extends another by a NUL |

## Left out

- SQLite, SQL text, JSON decoding and schema detection: the queries are their WHERE, ORDER BY and LIMIT meaning over a
  set of rows with unique ids; whether a row decodes is a flag of the row.
- Projection reads (session contexts, projects, directories, todos): optional snapshots that do not touch the cursor.
- HTTP, Kafka and error classification: each send or request has an outcome as input. An unacknowledged send may still
  have been accepted; an acknowledged one counts whatever the gateway rejects inside it. A replay or poll send is one
  outcome, not a run of the retry loop.
- Gateway-side de-duplication is not in this repository; duplicates are harmless because of it.
- SHA-256 path hashing and path cleaning: a path is its own key, so collisions and failures to resolve a path are not
  modelled.
- Calendar printing and parsing of the state file (section 5.6 of RFC 3339): four-digit years parse back, others do not;
  time zones with odd offsets are not modelled.
- The mutexes: the collector runs one iteration at a time.
- Identity files, directory scanning, environment parsing, logging, signals and the shutdown timer.
- The record and projection mapping functions, which copy fields.
- Floating point in the jitter: it is computed over the reals and truncated. Overflow of 64-bit durations in the retry
  loop is not modelled.
- Paging.QuietReplay: assumes that usage rows have non-empty ids; Reader.PagingResumesExactly gives the exact condition
  on ids. A row that does not decode makes its page fail.
- NoGap.EveryGapIsASplit: does not count rows stamped at or before the zero time, which no read can see; assumes that
  usage rows a replay reads have non-empty ids, as Paging.QuietReplay does.
