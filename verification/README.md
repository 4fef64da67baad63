# Verified model of the shadow market-data pipeline

A loss-explicit market-data pipeline collects events at an edge, moves them in chunks to a central
side and there rebuilds order books and scores how much of each day is covered. This project models
its state machines in Dafny and proves what they promise. `dafny verify dfyconfig.toml` checks it.

The model is in the source's own terms:

- **Order books** (`L2*`): the per-connection book automaton, its restarts, checkpoint and restored copy,
  and the day run that merges depth rows with gap facts; `L2DayReports` tells who is in authority from
  what the books report. Prices and quantities are reals, times are nanoseconds.
- **Coverage** (`Coverage`, `GapReplay`, `Agreement`): the duration sweeps, the replay of the gap
  ledger, the acceptance decision, and how reconstructor and finalizer fit together.
- **Gap journal** (`GapRollover`): gaps rolled over midnights, with crashes and sealed days in between.
- **Transfer** (`Spool`, `Ack*`, `SpoolRun`, `Transfer*`): directories are maps, every file operation
  is one step, both machines may crash between any two, and SHA-256 is taken as injective.
- **Deduplication** (`Dedup`), **subscription control** (`Subscription*`), **writers and queues**
  (`Writer*`), **universe selection and history** (`Bucket*`, `Selector*`, `Universe*`).

Functions over values give the meaning of each operation. Where the source updates objects or working
lists in place, classes and methods with loops do the same and are proved to reach those values; the
lemmas are about the functions and hold for all inputs and all runs.

## Where the code and its promise part

Each of these is modelled as the code has it, with the exact condition proved.

- A snapshot that reaches a VALID book leaves it VALID and anchored. Such a book shows a chain that
  continues the snapshot instead of covering it (`L2Replay.ValidIsReplay`), and building a checkpoint
  raises exactly then (`L2Checkpoint.BuildFailsExactly`, `Witnesses.CheckpointRaises`); a day whose
  snapshots reach only books that are not VALID never raises (`L2DayRun.RunNeverRaises`).
- A checkpoint does not keep the identities a book has seen. A diff delivered again is ignored by the
  original but not by the restored book, and they stay alike exactly as long as such diffs change
  nothing (`L2Restore.RestoredAlikeExactly`, `Witnesses.RepeatMovesRestoredBook`,
  `Witnesses.RepeatBridgesRestoredBook`).
- A CLOSED fact of a gap that is not open can drop validity already accumulated
  (`L2DayChain.AuthorityIsWrittenExactly`, `Witnesses.StrayCloseLosesTime`).
- A rollover closes a gap one nanosecond before midnight. The finalizer counts that nanosecond as
  invalid, the reconstructor may count it as valid (`Agreement.RolloverConflictExactly`,
  `Witnesses.RolloverConflicts`).
- A gap closed exactly at a later midnight replays to the whole day that then begins
  (`GapRollover.MidnightCloseOverruns`, `GapRollover.MidnightDayIsLost`).
- A close that dies before it removes the state file leaves a gap that is closed again later. The
  replay ends it for the rest of the first closing day only (`GapRollover.RolloverTilesTime`).
- A day is sealed empty when its journal file does not exist, even if manifests of the day are in
  `ready` (`TransferSeal.SealListsExactly`, `TransferSeal.UnjournaledChunkIsMissed`).

## Model

| member | source | states |
|---|---|---|
| L2Book.ApplyLevelsInPlace | src/ft_shadow_data_plane/central/l2.py:670-677 | The loop over a level list leaves the side that the specification gives: a zero quantity removes the price, any other sets it, later levels win. |
| L2Book.ConnectionBook.constructor | src/ft_shadow_data_plane/central/l2.py:120-130 | A new book is UNANCHORED, empty, without anchor, identity or buffer. |
| L2Book.ConnectionBook.Restore | src/ft_shadow_data_plane/central/l2.py:131-154 | A book restored from either kind of checkpoint has exactly the given fields. |
| L2Book.ConnectionBook.Apply | src/ft_shadow_data_plane/central/l2.py:245-248 | One diff updates both sides and the previous update id, nothing else. |
| L2Book.ConnectionBook.InvalidateInPlace | src/ft_shadow_data_plane/central/l2.py:182-189 | Everything but the connection and the identities seen is dropped and the state becomes GAPPED. |
| L2Book.ConnectionBook.HandleDiff | src/ft_shadow_data_plane/central/l2.py:156-180 | `on_diff`: the new book and the reported change are those of the automaton, for repeated, buffered, continuing and breaking diffs alike. |
| L2Book.ConnectionBook.HandleSnapshot | src/ft_shadow_data_plane/central/l2.py:191-197 | `on_snapshot`: the new ladder and anchor, and the outcome of looking for a bridge; a VALID book stays VALID. |
| L2Book.ConnectionBook.TryBridgeInPlace | src/ft_shadow_data_plane/central/l2.py:199-243 | `_try_bridge`: sorted candidates, first covering diff, linked chain applied, or the book broken at the first unlinked diff. |
| L2Replay.CandidateElements | src/ft_shadow_data_plane/central/l2.py:202-214 | The candidates for a bridge are exactly the buffered diffs whose final id is not below the anchor. |
| L2Replay.ApplyChainIsReplay | src/ft_shadow_data_plane/central/l2.py:224-236 | Applying candidates succeeds exactly when each continues the one before, and then shows their replay. |
| L2Replay.BridgeIsReplay | src/ft_shadow_data_plane/central/l2.py:199-243 | A linked chain whose head covers the anchor leaves the replay of the snapshot and that chain. |
| L2Replay.RunExplained | src/ft_shadow_data_plane/central/l2.py:156-248 | After every sequence of diffs, snapshots and gaps the book is explained by what it received. |
| L2Replay.ValidIsReplay | src/ft_shadow_data_plane/central/l2.py:156-248 | Whenever a book is VALID it shows one received snapshot followed by a contiguous chain of received diffs, with no zero quantity and nothing pending; the anchor tells whether the first diff covers the snapshot id or names it as predecessor (a snapshot on a VALID book). |
| L2Replay.NoAnchorWhenValid | src/ft_shadow_data_plane/central/l2.py:191-197 | If snapshots reach only books that are not VALID, a VALID book has no anchor. |
| L2Replay.ValidIsBridged | src/ft_shadow_data_plane/central/l2.py:156-248 | Under that condition every VALID book is a bridged chain as steps 3 to 6 of the Binance procedure ask. |
| L2Race.AfterPrefix | src/ft_shadow_data_plane/central/l2.py:156-243 | After any prefix of a contiguous stream with the snapshot inserted anywhere, the book is still waiting, anchored, or live, as the prefix determines. |
| L2Race.SnapshotRaceIndependence | src/ft_shadow_data_plane/central/l2.py:156-243 | Inserting the snapshot at any position of a contiguous stream that covers it gives the same final VALID book, with exactly one change, reported when the later of snapshot and covering diff arrives. |
| L2Restart.DiffBreaksExactly | src/ft_shadow_data_plane/central/l2.py:165-173 | A VALID book breaks exactly at an unseen diff that does not continue it; it reports GAPPED at that diff's time and id and keeps that diff, and nothing else, for the next bridge. |
| L2Restart.Restarts | src/ft_shadow_data_plane/central/l2.py:156-243 | A book that holds just the diff it broke at ends, wherever in the rest of the contiguous stream the next snapshot arrives, VALID on that snapshot and the whole stream, with one change. |
| L2Restart.BreakRestarts | src/ft_shadow_data_plane/central/l2.py:165-173 | A VALID book that meets a diff that does not continue it, then the rest of a stream with a snapshot anywhere in it, reports one GAPPED and one VALID change and ends on the race's book: the breaking diff is what a snapshot it covers bridges on. |
| L2Restart.BufferedBreakRestarts | src/ft_shadow_data_plane/central/l2.py:224-236 | The same for a break among buffered diffs, found when a diff or a snapshot starts the search for a bridge. |
| L2Restart.GapRestarts | src/ft_shadow_data_plane/central/l2.py:182-189 | After a transport gap the next contiguous stream and a snapshot anywhere in it make the book VALID as from the beginning. |
| L2Restart.SnapshotReplaces | src/ft_shadow_data_plane/central/l2.py:191-197 | Nothing of the ladder or anchor before a snapshot matters after it, only the buffer and the identities seen. |
| L2Restart.SnapshotOnValid | src/ft_shadow_data_plane/central/l2.py:191-197 | A snapshot on a VALID book replaces its ladder and leaves it VALID, anchored and without report. |
| L2Checkpoint.CheckpointLevelsSorted | src/ft_shadow_data_plane/central/l2.py:618-619 | Saved levels are strictly ordered by price and list every price of the side once. |
| L2Checkpoint.LevelsRoundTrip | src/ft_shadow_data_plane/central/l2.py:612-619 | Reading saved levels back gives the side again. |
| L2Checkpoint.StepSound | src/ft_shadow_data_plane/central/l2.py:156-243 | One input received at or after `now` keeps a book sound, and a change that makes it VALID or ends a VALID book carries the time of that input. |
| L2Checkpoint.ValidRoundTrip | src/ft_shadow_data_plane/central/l2.py:131-141 | Restoring a saved VALID book gives the book but for the identities it has seen. |
| L2Checkpoint.AnchoredRoundTrip | src/ft_shadow_data_plane/central/l2.py:143-154 | Restoring a saved anchored book gives the book but for the identities it has seen, buffer included. |
| L2Checkpoint.BuildFailsExactly | src/ft_shadow_data_plane/central/l2.py:49-84 | Building a checkpoint raises exactly when some book is VALID, anchored and has both sides: what a snapshot leaves on a book that was already VALID. |
| L2Checkpoint.RestoredBookBisimilar | src/ft_shadow_data_plane/central/l2.py:455-491 | On every later sequence of snapshots, gaps and unseen diffs a restored book reports the same changes and keeps the same state, ladder and buffer as the original. |
| L2Restore.SortThenFilter | src/ft_shadow_data_plane/central/l2.py:200-206 | Sorting the buffer and dropping what the snapshot holds may be done in either order. |
| L2Restore.RunOrderly | src/ft_shadow_data_plane/central/l2.py:156-243 | Whatever a book receives, anchor and anchor time come together and a book that waits for its bridge has a sorted buffer without one. |
| L2Restore.RepeatIsIgnored | src/ft_shadow_data_plane/central/l2.py:157-161 | After any run, gaps included, a diff delivered again changes nothing and reports nothing. |
| L2Restore.ShownAlready | src/ft_shadow_data_plane/central/l2.py:670-677 | Applying a level list changes nothing exactly when the side already shows what the list ends up saying about every price. |
| L2Restore.RepeatShowsExactly | src/ft_shadow_data_plane/central/l2.py:156-180 | A diff that the original has seen and its restored copy has not: change and book, seen identities aside, agree exactly when the diff moves nothing, a condition on its ids and levels for a VALID book and on its final id for a waiting one. |
| L2Restore.RestoredAlikeExactly | src/ft_shadow_data_plane/central/l2.py:455-491 | Over every later sequence of inputs, repeated diffs included, original and restored copy report the same changes and show the same book after each prefix exactly when every diff seen before the checkpoint is harmless where it is first delivered again. |
| Witnesses.RepeatMovesRestoredBook | src/ft_shadow_data_plane/central/l2.py:156-180 | A run whose restored VALID book takes a repeated diff that the original ignores: same reports, different ladders. |
| Witnesses.RepeatBridgesRestoredBook | src/ft_shadow_data_plane/central/l2.py:156-180 | A run whose restored waiting book becomes VALID by a repeated diff that the original ignores. |
| Witnesses.CheckpointRaises | src/ft_shadow_data_plane/central/l2.py:191-197 | A run that ends VALID and anchored, so that its checkpoint raises. |
| L2DayProofs.EventSound | src/ft_shadow_data_plane/central/l2.py:320-390 | Every gap fact and every row keeps the day sound: ordered intervals ending by now, sound books, no authority while a gap is open. |
| L2DayProofs.IntervalsValid | src/ft_shadow_data_plane/central/l2.py:288-405 | The written intervals are non-empty, ordered, disjoint and inside the day, and throughout each one the named book is VALID and no transport gap is open. |
| L2DayProofs.IntervalsAvoidGaps | src/ft_shadow_data_plane/central/l2.py:320-358 | No written interval meets the span from a gap's effective OPEN to its observed CLOSED, or to the end of the day if it never closes. |
| L2DayChain.MergeIsExact | src/ft_shadow_data_plane/central/l2.py:360-394 | The merged input is sorted by time and holds all rows and all gap facts, each in its own order, a gap fact before a row of the same time. |
| L2DayChain.WrittenExactly | src/ft_shadow_data_plane/central/l2.py:320-401 | A moment is in a written interval of a connection exactly when the connection is authoritative then and no later CLOSED fact drops the interval that is open then. |
| L2DayChain.AuthorityIsWrittenExactly | src/ft_shadow_data_plane/central/l2.py:320-401 | Every authoritative moment of the day is written exactly when no CLOSED fact arrives while a connection is authoritative, its last VALID book still is and time has passed since the interval began. |
| L2DayReports.OwnBookIsRun | src/ft_shadow_data_plane/central/l2.py:365-373 | At every moment a connection's book is that of a run on its own rows and the gaps since its first row, whatever the other connections do. |
| L2DayReports.ChangesAreReports | src/ft_shadow_data_plane/central/l2.py:365-375 | The changes of the day that name a connection are, in order, what its own book reported. |
| L2DayReports.GapsAreOpen | src/ft_shadow_data_plane/central/l2.py:320-358 | The active gaps are those with an OPEN fact that no CLOSED fact has followed. |
| L2DayReports.AuthorityExactly | src/ft_shadow_data_plane/central/l2.py:320-390 | A connection is in authority exactly when some event put it there and none since has put it out. It is put there by a row that makes its book VALID while no gap is open, or by the CLOSED fact after which none is open if it was the last to report VALID and still is; it is put out by its own GAPPED report, an OPEN fact, or another connection put there. |
| L2DayReports.IntervalBegins | src/ft_shadow_data_plane/central/l2.py:376-388 | The open interval begins at the time of the last event that put its connection in authority. |
| L2DayReports.WrittenByReports | src/ft_shadow_data_plane/central/l2.py:320-401 | A moment of the day is written for a connection exactly when the reports and gap facts so far have it in authority and no later CLOSED fact drops it: the written intervals in terms of the changes alone. |
| L2DayReports.IntervalsEndForAReason | src/ft_shadow_data_plane/central/l2.py:320-401 | Every written interval ends with the reason of the event that ended it: the connection's own GAPPED report, a transport gap, a switch to another connection, or the end of the day. |
| Witnesses.StrayCloseLosesTime | src/ft_shadow_data_plane/central/l2.py:351-358 | A day in which a CLOSED fact of a gap that was never opened loses validity from 3 to 50, though the book is VALID throughout. |
| L2DayChain.NextDayResumes | src/ft_shadow_data_plane/central/l2.py:303-315 | A checkpoint the day writes always resumes the next day in a sound state, with the day's own books up to the identities seen. |
| L2DayChain.ResumesExactly | src/ft_shadow_data_plane/central/l2.py:303-315 | The next day has exactly the anchored books and, when it is authoritative at midnight and has both sides, the authoritative one, which is then in authority from midnight on. |
| L2DayChain.EndRaisesExactly | src/ft_shadow_data_plane/central/l2.py:395-405 | The end of a day raises exactly when some book is VALID, anchored and has both sides. |
| L2DayChain.ResumedUnanchored | src/ft_shadow_data_plane/central/l2.py:303-315 | No day that resumes from a written checkpoint has a VALID book with an anchor. |
| L2DayRun.ReportGap | src/ft_shadow_data_plane/central/l2.py:337-348 | One turn of the gap loop reports a VALID book as GAPPED and invalidates it. |
| L2DayRun.BookTable.constructor | src/ft_shadow_data_plane/central/l2.py:288-290 | The table of books starts empty. |
| L2DayRun.InvalidateEach | src/ft_shadow_data_plane/central/l2.py:337-348 | The loop over distinct book objects reports the VALID ones in order and invalidates each. |
| L2DayRun.BookTable.InvalidateBooks | src/ft_shadow_data_plane/central/l2.py:337-348 | All books in dict order are reported and invalidated, no two being the same object. |
| L2DayRun.BookTable.FeedRow | src/ft_shadow_data_plane/central/l2.py:366-373 | A row goes to the book of its connection, created if need be; all other books stay as they are. |
| L2DayRun.DayRun.constructor | src/ft_shadow_data_plane/central/l2.py:289-296 | The run starts with no book, change, interval, authority or gap. |
| L2DayRun.DayRun.HandleGap | src/ft_shadow_data_plane/central/l2.py:320-358 | `handle_gap`: the run's variables and books after a gap fact. |
| L2DayRun.DayRun.HandleChange | src/ft_shadow_data_plane/central/l2.py:374-390 | What a reported change does to changes, authority and intervals. |
| L2DayRun.DayRun.HandleRow | src/ft_shadow_data_plane/central/l2.py:365-390 | The run after one depth row. |
| L2DayRun.DayRun.Load | src/ft_shadow_data_plane/central/l2.py:303-315 | What the previous day's checkpoint hands over, or the error it raises. |
| L2DayRun.DayRun.ConsumeGapsBefore | src/ft_shadow_data_plane/central/l2.py:362-364 | The gap facts due before a row are handled in order. |
| L2DayRun.DayRun.Consume | src/ft_shadow_data_plane/central/l2.py:360-394 | Rows and gap facts are handled in merged order. |
| L2DayRun.DayRun.EndDay | src/ft_shadow_data_plane/central/l2.py:395-405 | The open interval ends at midnight, empty intervals are dropped and the checkpoint is built or raises. |
| L2DayRun.Run | src/ft_shadow_data_plane/central/l2.py:288-405 | The whole run: missing checkpoint, unusable checkpoint, failed checkpoint, or the day's changes, intervals and checkpoint. |
| L2DayRun.RunIsSound | src/ft_shadow_data_plane/central/l2.py:288-405 | A run on sorted rows and gap facts and a sound checkpoint writes ordered, disjoint, non-empty intervals inside the day, VALID throughout and meeting no transport gap, and a checkpoint that resumes the next day. |
| L2DayRun.RunNeverRaises | src/ft_shadow_data_plane/central/l2.py:288-405 | A run whose snapshots reach only books that are not VALID always writes its checkpoint. |
| Coverage.UnionDuration | src/ft_shadow_data_plane/central/process_cli.py:292-313 | The sweep over unsorted, overlapping ranges returns the number of nanoseconds of the window that some range covers. |
| Coverage.IntersectionDuration | src/ft_shadow_data_plane/central/process_cli.py:334-351 | The number of nanoseconds of the window that both lists cover. |
| Coverage.AccountIsExact | src/ft_shadow_data_plane/central/process_cli.py:148-185 | valid + invalid - conflicting + unclassified is the window, and both error counts are zero exactly when valid and invalid time partition it. |
| Coverage.Decide | src/ft_shadow_data_plane/central/process_cli.py:148-185 | A symbol is accepted exactly when valid and invalid time partition the window and at least 999/1000 of it is valid. |
| GapReplay.ExplicitInvalidIntervals | src/ft_shadow_data_plane/central/process_cli.py:248-289 | The loop over the ledger lists the ranges the specification gives. |
| GapReplay.ReplayExact | src/ft_shadow_data_plane/central/process_cli.py:248-289 | The listed ranges cover exactly the time from each OPEN fact to the CLOSED fact that ends it, or to the end of the window. |
| GapReplay.ExtendInvalidUntilValid | src/ft_shadow_data_plane/central/process_cli.py:316-331 | Each range is extended to the next start of valid time or the end of the window. |
| GapReplay.NextStartSkipsNothing | src/ft_shadow_data_plane/central/process_cli.py:316-331 | No valid nanosecond lies between a range's end and its extended end. |
| GapReplay.ExtensionAddsNoOverlap | src/ft_shadow_data_plane/central/process_cli.py:316-331 | Extending adds no nanosecond that is valid. |
| GapReplay.ExtensionKeeps | src/ft_shadow_data_plane/central/process_cli.py:316-331 | Extending keeps what was invalid. |
| GapReplay.ExtensionReaches | src/ft_shadow_data_plane/central/process_cli.py:315-331 | A moment is covered after extending exactly when some range began by then and no valid moment lies between that range's end and it. |
| GapReplay.UnclassifiedExactly | src/ft_shadow_data_plane/central/process_cli.py:142-185 | A moment of the window is unclassified exactly when it is not valid and no ledger gap was open since the last valid moment: the time from a gap's end to the next valid start never is. |
| GapReplay.ValidateValidity | src/ft_shadow_data_plane/central/process_cli.py:220-245 | Returns the ranges when they are non-empty, ordered, disjoint and inside the window, or the first row that is not. |
| GapReplay.NotWellOrdered | src/ft_shadow_data_plane/central/process_cli.py:220-245 | A row that raises breaks the order for good. |
| Agreement.ClosedGapNotValid | src/ft_shadow_data_plane/central/l2.py:320-358 | A nanosecond the finalizer counts in a closed gap is not valid, except the last one of a gap closed by a rollover. |
| Agreement.ConflictsExactly | src/ft_shadow_data_plane/central/process_cli.py:148-185 | A moment is in conflict exactly when a rollover closes a gap at that nanosecond, a connection is authoritative once all facts of that nanosecond are in, and no later CLOSED fact drops its interval. |
| Agreement.FinalizerAgrees | src/ft_shadow_data_plane/central/process_cli.py:148-185 | Without a rolled-over gap the conflicting duration is zero, extended gap ranges included. |
| Agreement.ValidityAccepted | src/ft_shadow_data_plane/central/process_cli.py:220-245 | The reconstructor's intervals pass the finalizer's validity check. |
| Agreement.RolloverConflictExactly | src/ft_shadow_data_plane/central/l2.py:351-358 | The nanosecond at which a rollover closes the ledger gap is in conflict exactly when that gap is the only open one and the last VALID book is VALID again: the guard of the closing branch. |
| Witnesses.RolloverConflicts | src/ft_shadow_data_plane/central/process_cli.py:279-284 | A day from nothing (snapshot, bridge, OPEN, snapshot, bridge, rollover CLOSED) with such a conflict. |
| GapRollover.GapJournal.constructor | src/ft_shadow_data_plane/edge/gaps.py:27-47 | A journal starts without open gaps, facts or sealed days. |
| GapRollover.GapJournal.PublishFact | src/ft_shadow_data_plane/edge/gaps.py:143-148 | A fact is published under its day and identity; a sealed day raises. |
| GapRollover.GapJournal.OpenGap | src/ft_shadow_data_plane/edge/gaps.py:67-96 | Opening publishes the OPEN fact and then records the open state. |
| GapRollover.GapJournal.RollState | src/ft_shadow_data_plane/edge/gaps.py:150-180 | The loop over days closes and reopens the gap per day, skipping the CLOSED fact of a sealed day. |
| GapRollover.GapJournal.Rollover | src/ft_shadow_data_plane/edge/gaps.py:134-141 | The open gaps are rolled one after the other, and the first publication that raises ends the rollover. |
| GapRollover.RolloverArrives | src/ft_shadow_data_plane/edge/gaps.py:134-180 | After a rollover that does not raise every gap it names is at the boundary day, or the later day it had; all others are untouched. |
| GapRollover.OpenCloseRaiseExactly | src/ft_shadow_data_plane/edge/gaps.py:67-126 | Opening raises exactly when the day of its time is sealed, closing exactly when its own day or one the gap must be reopened in on the way is; a fact that does not raise is on disk. |
| GapRollover.RolloverRaisesExactly | src/ft_shadow_data_plane/edge/gaps.py:134-180 | A rollover raises exactly when a gap it names has a sealed day between its own day and the boundary day, that one included. |
| GapRollover.GapJournal.CloseGap | src/ft_shadow_data_plane/edge/gaps.py:98-126 | Closing rolls to the closing day, publishes CLOSED and removes the state. |
| GapRollover.TurnKeeps | src/ft_shadow_data_plane/edge/gaps.py:150-180 | A turn of the roll loop, complete or cut after any file operation, keeps the gap's files in order. |
| GapRollover.HistoryKeeps | src/ft_shadow_data_plane/edge/gaps.py:98-180 | So does every history of rolls, interrupted rolls, interrupted closes, seals and facts of other gaps. |
| GapRollover.OpenedRolled | src/ft_shadow_data_plane/edge/gaps.py:67-96 | Opening leaves the files in the order the roll keeps. |
| GapRollover.InterruptedTurnRepeats | src/ft_shadow_data_plane/edge/gaps.py:150-180 | Repeating an interrupted turn ends with the same files, so it adds no chunk identity. |
| GapRollover.CloseForgets | src/ft_shadow_data_plane/edge/gaps.py:98-126 | A close that succeeds removes the state of its gap and of no other. |
| GapRollover.ClosedStaysClosed | src/ft_shadow_data_plane/edge/gaps.py:67-180 | Whatever gaps open, roll over, close or die half-way after it and whatever days are sealed, no fact of a closed gap is added, changed or lost. |
| GapRollover.RolloverTilesTime | src/ft_shadow_data_plane/edge/gaps.py:98-180 | A gap open from a to b, over any number of days, sealed ones included, replays centrally to exactly [a, b) in every day, up to the first interrupted close that day has, provided b is not a later midnight; and so it does in the ledger of any later moment of the journal. |
| GapRollover.MidnightCloseOverruns | src/ft_shadow_data_plane/edge/gaps.py:98-180 | That proviso is exact: closed at a later midnight, the replay covers the whole last day. |
| GapRollover.MidnightDayIsLost | src/ft_shadow_data_plane/edge/gaps.py:98-180 | A gap opened in the evening of day 0 and closed at the midnight after it: all of day 1 replays as gap. |
| Spool.ReadyManifests | src/ft_shadow_data_plane/edge/spool.py:341-404 | The scan finds, per chunk id, the well-placed readable manifest that no other contradicts, and reports an error exactly when some file is unreadable, misplaced or contradicted. |
| AckApply.StepKeeps | src/ft_shadow_data_plane/edge/spool.py:94-339 | No single file operation of `apply_acks` changes what a complete run would reach. |
| AckApply.RunKeeps | src/ft_shadow_data_plane/edge/spool.py:94-339 | A run cut off anywhere leaves the same outcome to be reached; a run that ended has reached it. |
| AckApply.CrashedRunsConverge | src/ft_shadow_data_plane/edge/spool.py:94-339 | However often `apply_acks` is interrupted and restarted, in whatever order it visits files, a run that ends leaves `ready`, `acks`, `applying-acks`, the rejected files and the REMOTE_GC evidence of one uninterrupted run. |
| AckApply.AcceptedAckCollects | src/ft_shadow_data_plane/edge/spool.py:160-192 | An accepted ACK, its transaction begun before or not, ends with its data and manifest gone from `ready`, itself consumed and REMOTE_GC recorded with the durable time of the transaction. |
| AckApply.OnlyAcknowledgedLeave | src/ft_shadow_data_plane/edge/spool.py:133-158 | A data file leaves only by a transaction with equal hashes or by an ACK, under its own name, with the hash of the sole ready manifest of its id. |
| AckVerdicts.VerdictExactly | src/ft_shadow_data_plane/edge/spool.py:107-158 | An ACK is accepted exactly when it decodes, is named after its chunk, exactly one well-placed manifest has that chunk, with the ACK's digest, and no transaction on disk names anything else; each refusal names the first condition that fails. |
| AckVerdicts.RefusedIsPutAside | src/ft_shadow_data_plane/edge/spool.py:107-158 | A refused ACK is among the rejected files under its reason. |
| AckVerdicts.LoggedExactly | src/ft_shadow_data_plane/edge/spool.py:264-333 | REMOTE_GC records come exactly from transactions on disk with equal hashes and from ACKs accepted now, each with its durable time. |
| AckVerdicts.LeavesExactly | src/ft_shadow_data_plane/edge/spool.py:201-262 | A data file or manifest leaves exactly when such a transaction or accepted ACK names it. |
| AckVerdicts.RunCanEnd | src/ft_shadow_data_plane/edge/spool.py:94-339 | From every state of the files a run of `apply_acks` can be carried to its end. |
| SpoolRun.SpoolManager.constructor | src/ft_shadow_data_plane/edge/spool.py:63-83 | The manager over given directories. |
| SpoolRun.SpoolManager.Quarantine | src/ft_shadow_data_plane/edge/spool.py:423-427 | An ACK file moves to the rejected files with its reason. |
| SpoolRun.SpoolManager.ApplyAck | src/ft_shadow_data_plane/edge/spool.py:107-192 | The loop body on an ACK: quarantine with the right reason, or transaction then removal of the ACK. |
| SpoolRun.SpoolManager.CarryOut | src/ft_shadow_data_plane/edge/spool.py:201-262 | The loop body on a transaction: manifest deleted if the day is sealed else kept as acked, data deleted; or the transaction put aside. |
| SpoolRun.SpoolManager.AcceptAll | src/ft_shadow_data_plane/edge/spool.py:107-195 | The whole ACK loop. |
| SpoolRun.SpoolManager.CollectAll | src/ft_shadow_data_plane/edge/spool.py:197-295 | The whole transaction loop; every manifest it removes is among the acked ones unless its day is sealed. |
| SpoolRun.SpoolManager.ClearAll | src/ft_shadow_data_plane/edge/spool.py:335-339 | Completed transactions are removed last. |
| SpoolRun.SpoolManager.ApplyAcks | src/ft_shadow_data_plane/edge/spool.py:94-339 | The method reaches the outcome every interrupted run converges to, touches no seal or day journal, loses no manifest of an unsealed day, and adds to the acked ones only such manifests out of `ready`. |
| TransferHonest.HonestStep | src/ft_shadow_data_plane/edge/spool.py:94-339 | Every file operation keeps the edge honest: manifests, acked manifests, transactions and journals name published chunks with their true digests. |
| TransferSafety.CentralStep | src/ft_shadow_data_plane/central/pull.py:289-347 | Every step of ingest and day publication keeps staged ACKs and published days backed by verified raw files, which are never overwritten. |
| TransferSafety.DropLosesNothing | src/ft_shadow_data_plane/edge/spool.py:260-262 | Deleting a data file under a transaction deletes only content the central side holds. |
| TransferSafety.DurableStep | src/ft_shadow_data_plane/edge/spool.py:94-339 | Every file operation of either machine keeps every published chunk held. |
| TransferSafety.NoChunkIsLost | src/ft_shadow_data_plane/central/pull.py:289-324 | In every reachable state of both machines, with crashes between any two file operations and a mirror that may deliver anything, each finished chunk is in `ready` with its content or the raw store holds that content. |
| TransferSafety.AcksAndDaysVouch | src/ft_shadow_data_plane/central/pull.py:311-347 | An ACK anywhere vouches for a raw file with its digest; a published day lists only held chunks. |
| TransferWay.ChunkGetsThrough | src/ft_shadow_data_plane/central/pull.py:289-324 | Undisturbed, every chunk gets all the way: published, fetched, stored, described, acknowledged, pushed and collected, it ends in the raw store with its content and leaves the edge but for its REMOTE_GC record. |
| TransferSeal.TraceStep | src/ft_shadow_data_plane/edge/spool.py:235-339 | Every file operation keeps a trace of each deleted chunk. |
| TransferSeal.DeletedChunkLeavesTrace | src/ft_shadow_data_plane/edge/spool.py:235-339 | A chunk whose data file is gone still has its transaction, or a REMOTE_GC record, unless its transaction file was damaged and put aside. |
| TransferSeal.NotedLists | src/ft_shadow_data_plane/edge/day_index.py:115-123 | The journal's references are all in the inventory built from it. |
| TransferSeal.CompleteStep | src/ft_shadow_data_plane/edge/day_index.py:80-133 | Every operation keeps each described chunk of an unsealed day in one of the three inventories and a seal in progress on its way to list it. |
| TransferSeal.SealListsExactly | src/ft_shadow_data_plane/edge/day_index.py:80-133 | A sealed day lists every chunk whose manifest was in `ready` before the seal began, however ACKs moved manifests meanwhile, if and only if the day's journal file existed or there was no such chunk. |
| TransferSeal.NothingToSeal | src/ft_shadow_data_plane/edge/day_index.py:115-118 | Without a journal there is no such chunk exactly when neither `ready` nor the acked manifests have a file of the day. |
| TransferSeal.UnjournaledChunkIsMissed | src/ft_shadow_data_plane/edge/day_index.py:115-118 | The failing case: a crash between a day's first manifest and its journal line, then a seal, leaves the day sealed empty. |
| TransferJournal.RecordAppends | src/ft_shadow_data_plane/edge/day_index.py:29-33 | Recording on an unsealed day puts the chunk's reference behind the lines the journal had. |
| TransferJournal.RecordedIsSealed | src/ft_shadow_data_plane/edge/day_index.py:80-133 | A chunk recorded before its day's seal begins is listed by the sealed day, whatever else either machine does in between, crashes included. |
| TransferJournal.RecordedIsPublished | src/ft_shadow_data_plane/central/pull.py:326-347 | Once the central side publishes that seal, it holds the recorded chunk at its path with its content. |
| TransferJournal.PlainDayIsSealed | src/ft_shadow_data_plane/edge/day_index.py:29-94 | Undisturbed, publishing, recording and sealing end in a seal that lists the chunk. |
| TransferJournal.SealEnds | src/ft_shadow_data_plane/edge/day_index.py:80-98 | A seal that is written and cleaned up leaves neither journal nor acked manifests of its day. |
| TransferJournal.ResealCleans | src/ft_shadow_data_plane/edge/day_index.py:80-98 | Sealing a sealed day again finishes an interrupted cleanup and leaves the seal as it is. |
| TransferSeal.PublishedDayIsHeld | src/ft_shadow_data_plane/central/pull.py:326-347 | Once the central side has published the edge's seal it holds every chunk the seal had to list, at its path and with its content. |
| TransferRun.AcceptableIsAcknowledged | src/ft_shadow_data_plane/central/pull.py:289-324 | A chunk whose copy verifies and whose manifest is not contradicted ends stored, described and acknowledged. |
| TransferRun.UnacceptableIsDeclined | src/ft_shadow_data_plane/central/pull.py:289-324 | Any other chunk leaves no ACK and no manifest. |
| TransferRun.CentralPuller.constructor | src/ft_shadow_data_plane/central/pull.py:247-258 | A puller over an empty raw store. |
| TransferRun.CentralPuller.IngestChunk | src/ft_shadow_data_plane/central/pull.py:289-324 | The method is the sequence of its single steps and succeeds exactly on acceptable chunks. |
| TransferRun.CentralPuller.PublishCompleteDay | src/ft_shadow_data_plane/central/pull.py:326-347 | A day is published exactly when new and all its chunks are held; a present one conflicts exactly when its content differs. |
| TransferRun.CentralPuller.PushAcks | src/ft_shadow_data_plane/central/pull.py:143-206 | Staged files that are no ACK under their own name are put aside; all others are delivered, counted and removed, or stay staged when the copy fails. |
| TransferRun.InventoryLists | src/ft_shadow_data_plane/edge/day_index.py:115-133 | With true references an inventory lists a chunk exactly when one of its sources does. |
| TransferRun.ReadManifests | src/ft_shadow_data_plane/edge/day_index.py:128-132 | Reading a directory of manifests adds exactly their references, or fails exactly when one is unreadable. |
| TransferRun.DayIndex.constructor | src/ft_shadow_data_plane/edge/day_index.py:24-27 | The index over given directories. |
| TransferRun.DayIndex.RecordChunk | src/ft_shadow_data_plane/edge/day_index.py:29-33 | A chunk is appended to its day's journal; a sealed day raises. |
| TransferRun.DayIndex.ReadJournal | src/ft_shadow_data_plane/edge/day_index.py:119-123 | The journal loop keeps one reference per identity. |
| TransferRun.DayIndex.ReadRefs | src/ft_shadow_data_plane/edge/day_index.py:115-133 | The inventory of journal, ready and acked manifests; empty when there is no journal. |
| TransferRun.DayIndex.SealDay | src/ft_shadow_data_plane/edge/day_index.py:80-94 | The seal is written once from the inventory, then journal and acked manifests of the day are removed; a failed read changes nothing. |
| Dedup.Deduplicator.constructor | src/ft_shadow_data_plane/central/normalize.py:301-304 | A deduplicator starts with nothing seen. |
| Dedup.Deduplicator.Load | src/ft_shadow_data_plane/central/normalize.py:307-321 | Loading a checkpoint gives its entries and their latest time. |
| Dedup.Deduplicator.Prune | src/ft_shadow_data_plane/central/normalize.py:348-353 | Popping the heap leaves exactly the sightings not older than the cutoff, stale heap entries notwithstanding. |
| Dedup.Deduplicator.ObserveEvent | src/ft_shadow_data_plane/central/normalize.py:323-333 | `observe` refines the map that simply forgets what is older than the window: same map, same watermark, same answer. |
| Dedup.Deduplicator.Checkpoint | src/ft_shadow_data_plane/central/normalize.py:335-346 | The checkpoint holds exactly the sightings within the window before the day's end. |
| Dedup.AnswersAreExact | src/ft_shadow_data_plane/central/normalize.py:323-333 | With nondecreasing times an event is a conflict exactly when the same identity was seen within 600 s with another payload, and fresh exactly when it was not seen within 600 s. |
| Dedup.AnswersAreAll | src/ft_shadow_data_plane/central/normalize.py:323-333 | Every event is answered up to the first conflict. |
| Dedup.RestoredAnswersAlike | src/ft_shadow_data_plane/central/normalize.py:307-346 | Restored from the checkpoint, a deduplicator answers every next-day sequence as the original would. |
| Dedup.DaysAnswerAsOne | src/ft_shadow_data_plane/central/normalize.py:307-346 | Two days cut by a checkpoint are answered as one uninterrupted stream. |
| Subscription.UpdateInStep | src/ft_shadow_data_plane/edge/binance.py:289-327 | Sending an update behind any requests in flight keeps the active set in step with the server's order of processing. |
| Subscription.AuditInStep | src/ft_shadow_data_plane/edge/binance.py:337-345 | Sending an audit behind any requests in flight keeps it in step. |
| Subscription.ReceiveConsistent | src/ft_shadow_data_plane/edge/binance.py:393-433 | Handling the next answer keeps everything in step, and a list raises exactly when the server had lost a stream. |
| Subscription.StepConsistent | src/ft_shadow_data_plane/edge/binance.py:248-433 | Every update, audit, answer and silent drop keeps client, server and channels consistent. |
| Subscription.AuditIsExact | src/ft_shadow_data_plane/edge/binance.py:394-414 | In any interleaving of any number of updates, an audit raises a mismatch exactly when the server had dropped a subscribed stream by the time it wrote the list, and the missing streams are those. |
| Subscription.ListingTellsLoss | src/ft_shadow_data_plane/edge/binance.py:337-345 | The list the server writes leaves out exactly what it has lost by then. |
| Subscription.NoFalseAlarm | src/ft_shadow_data_plane/edge/binance.py:394-414 | A server that drops nothing never sets off the audit. |
| Subscription.DroppedIsCaught | src/ft_shadow_data_plane/edge/binance.py:328-414 | With nothing in flight, a dropped stream is caught by the audit that follows. |
| Subscription.UpdatesComeIntoForce | src/ft_shadow_data_plane/edge/binance.py:289-327 | Every update comes into force, in order: once all requests are answered the active set is what the updates asked for, nothing is pending, and the server has all of it but what it has dropped. |
| Subscription.UpdateCountsWhenAcknowledged | src/ft_shadow_data_plane/edge/binance.py:415-420 | An update of two requests is active only once both are acknowledged, and no audit is sent before. |
| Subscription.TimerExactly | src/ft_shadow_data_plane/edge/binance.py:328-345 | In any run the audit timer raises exactly when the last audit is unanswered; otherwise it sends one exactly when no update is pending, so always when nothing is in flight. |
| SubscriptionRun.PendingUpdate.constructor | src/ft_shadow_data_plane/edge/binance.py:45-52 | The record the ids of one update share. |
| SubscriptionRun.SubscriptionClient.constructor | src/ft_shadow_data_plane/edge/binance.py:216-226 | The client starts with all its subscriptions counted as active. |
| SubscriptionRun.SubscriptionClient.OnUpdate | src/ft_shadow_data_plane/edge/binance.py:289-322 | An update sends UNSUBSCRIBE before SUBSCRIBE under new ids that share one record. |
| SubscriptionRun.SubscriptionClient.OnAuditDue | src/ft_shadow_data_plane/edge/binance.py:328-345 | The timer raises on an unanswered audit, and sends one only when no update is pending. |
| SubscriptionRun.SubscriptionClient.OnAcknowledged | src/ft_shadow_data_plane/edge/binance.py:415-420 | The last id of an update makes its changes active; the shared record is updated for all its ids. |
| SubscriptionRun.SubscriptionClient.CheckAudit | src/ft_shadow_data_plane/edge/binance.py:393-420 | The answer to an audit must list what the client takes as active. |
| SubscriptionRun.SubscriptionClient.OnMessage | src/ft_shadow_data_plane/edge/binance.py:393-420 | A control message is an audit's answer, an acknowledgement, or neither. |
| Writer.NextAdded | src/ft_shadow_data_plane/edge/writer.py:101-127 | An event that needs no rotation keeps the session within its limits, of one date and hash, with exact counters. |
| Writer.TakeOk | src/ft_shadow_data_plane/edge/writer.py:308-360 | Taking an item moves one event from the queue into the worker's hand and nothing else. |
| Writer.PlaceOk | src/ft_shadow_data_plane/edge/writer.py:322-334 | Placing an event opens a session if need be and keeps the lane's contents and limits. |
| Writer.CloseOk | src/ft_shadow_data_plane/edge/writer.py:142-179 | Closing never raises and lists a chunk whose manifest is exact. |
| Writer.StepOk | src/ft_shadow_data_plane/edge/writer.py:278-360 | Every step of a group's worker keeps its lane in order. |
| WriterPool.StepOwed | src/ft_shadow_data_plane/edge/writer.py:282-306 | A step gives back to the budget exactly the bytes the lane stops accounting for. |
| WriterPool.StepPoolOk | src/ft_shadow_data_plane/edge/ingest.py:18-24 | Puts, steps of any worker, rotation and stop keep all lanes, the barrier and the budget in order. |
| WriterPool.NothingIsLostOrReordered | src/ft_shadow_data_plane/edge/writer.py:278-360 | For every interleaving, each group's finished chunks, open session, event in hand and queue concatenate to the accepted events in put order. |
| WriterPool.ChunksAreUniform | src/ft_shadow_data_plane/edge/writer.py:101-179 | Each finished chunk is of one UTC date, under the universe hash in force when its events were put, within its limits but for one oversized event, its count exact and its two times those of its earliest and latest event. |
| WriterPool.BudgetIsExact | src/ft_shadow_data_plane/edge/queue.py:69-89 | The bytes in use are exactly those queued, in hand, batched or about to be released, never negative and never over the budget. |
| WriterPool.PutExactly | src/ft_shadow_data_plane/edge/queue.py:69-79 | Outside a rotation an event is accepted, under the hash in force, exactly when the outstanding bytes leave room for it; otherwise nothing changes. |
| WriterPool.RotationIsBarrier | src/ft_shadow_data_plane/edge/ingest.py:18-24 | A rotation ends only when every worker is under the new hash and all that was put under an older one is in finished files; lanes at rest with empty queues never hold it up. |
| WriterChunks.NothingFullIsKept | src/ft_shadow_data_plane/edge/writer.py:322-341 | A worker that waits for its queue holds no batch that is due to be written and no file that is due to be closed. |
| WriterChunks.ChunksAreMaximal | src/ft_shadow_data_plane/edge/writer.py:101-127 | Without rotations, stops and old files every finished file is as long as it can be: full, or the event put next in its lane has another date or would have made it too large. |
| WriterChunks.OldCloses | src/ft_shadow_data_plane/edge/writer.py:308-315 | A file older than its time limit is closed with all its events, even when nothing arrives. |
| WriterChunks.ControlCloses | src/ft_shadow_data_plane/edge/writer.py:343-360 | A rotation or a stop closes the open file under its own hash; then the new hash is in force, or the worker has stopped. |
| WriterRun.ChunkSession.constructor | src/ft_shadow_data_plane/edge/writer.py:54-99 | A new session is empty. |
| WriterRun.ChunkSession.AddEvent | src/ft_shadow_data_plane/edge/writer.py:111-127 | `add`: the new session, and whether a batch limit is reached. |
| WriterRun.ChunkSession.FlushBatch | src/ft_shadow_data_plane/edge/writer.py:129-137 | `flush`: the batch is written and its bytes are returned. |
| WriterRun.ChunkSession.FinishFile | src/ft_shadow_data_plane/edge/writer.py:142-179 | `finish`: the chunk, or the error of an unflushed or empty session. |
| WriterRun.HandledIsSettled | src/ft_shadow_data_plane/edge/writer.py:316-341 | The small steps of the worker add up to the loop body on an event. |
| WriterRun.GroupWriter.Finish | src/ft_shadow_data_plane/edge/writer.py:289-306 | The session's file is listed and its bytes released. |
| WriterRun.GroupWriter.HandleEvent | src/ft_shadow_data_plane/edge/writer.py:316-341 | The loop body reaches what the worker's steps reach, and releases exactly the bytes no longer batched. |
| WriterRun.GroupWriter.HandleRotate | src/ft_shadow_data_plane/edge/writer.py:343-351 | What was put before a rotation is closed under the old hash. |
| WriterRun.ByteBoundedQueues.constructor | src/ft_shadow_data_plane/edge/queue.py:37-53 | The queues start empty with nothing used. |
| WriterRun.ByteBoundedQueues.Put | src/ft_shadow_data_plane/edge/queue.py:69-79 | An event is appended to its group's queue and its bytes reserved exactly when it fits. |
| WriterRun.ByteBoundedQueues.Get | src/ft_shadow_data_plane/edge/queue.py:81-82 | The oldest item of one queue is taken. |
| WriterRun.ByteBoundedQueues.ReleaseBytes | src/ft_shadow_data_plane/edge/queue.py:84-89 | Bytes are given back; going below zero raises. |
| Bucket.FilledUp | src/ft_shadow_data_plane/central/selector.py:716-722 | Filling takes preferred symbols, drops nothing, and stops short of five only when all preferred ones are in. |
| Bucket.LateTurn | src/ft_shadow_data_plane/central/selector.py:723-739 | No symbol beyond the first five preferred ones ever replaces an incumbent. |
| Bucket.ReplacedImproves | src/ft_shadow_data_plane/central/selector.py:723-739 | Every replacement brings in a top-five symbol for a non-top-five incumbent with complete dwell, within the limit. |
| Bucket.RefusedExactly | src/ft_shadow_data_plane/central/selector.py:740-744 | A bucket is refused exactly when fewer than five symbols are kept or eligible; the final limit guard never fires. |
| Bucket.ReconciledIsBetter | src/ft_shadow_data_plane/central/selector.py:704-744 | A reconciled bucket is five distinct allowed symbols, each replacement raises the overlap with the top five by one, and an incumbent leaves only if forbidden, inactive, or removable. |
| BucketExact.BucketExactly | src/ft_shadow_data_plane/central/selector.py:704-744 | A bucket is made exactly when five symbols are kept or eligible, and then by filling up with the best others and exchanging as many as limit, removable incumbents and missing top-five symbols allow, the best coming in and the last removable ones going. |
| BucketExact.BucketIsDetermined | src/ft_shadow_data_plane/central/selector.py:704-744 | That description leaves no choice: two buckets that meet it have the same symbols. |
| Selector.CoreReplacedOk | src/ft_shadow_data_plane/central/selector.py:291-297 | Inactive core symbols are replaced by stable ones, all other core symbols stay. |
| Selector.PromotedOk | src/ft_shadow_data_plane/central/selector.py:299-325 | Monday's promotions keep the core distinct, stay within the weekly limit and remove only low-ranked symbols with complete core dwell. |
| Selector.NextCoreOk | src/ft_shadow_data_plane/central/selector.py:291-325 | The next core has 50 distinct eligible symbols and changes by at most the weekly limit or the number of inactive ones. |
| Selector.SelectionIsSafe | src/ft_shadow_data_plane/central/selector.py:266-400 | From a valid 50/5/5 decision every selection is 50/5/5 with 60 distinct symbols; unless it fails closed to the active roles none is inactive, and an eligible symbol that leaves the 60 had its dwell complete. |
| Selector.RemovableExactly | src/ft_shadow_data_plane/central/selector.py:312-318 | A core symbol may go exactly when it ranks below the retain rank and its core dwell, counted from the active decision by default, is complete; a candidate exactly when it is outside the top five with its dwell complete. |
| SelectorExact.CoreExactly | src/ft_shadow_data_plane/central/selector.py:291-325 | There is a next core exactly when the reserve has a symbol for every inactive one; then the best of the reserve take their places, and on a Monday the best entrants replace the worst removable symbols as long as limit, rank and supply allow. |
| SelectorExact.PromotionIsDetermined | src/ft_shadow_data_plane/central/selector.py:299-325 | That leaves no choice either: with ties going to the first in the list, entrants and list determine the promoted core. |
| SelectorOutcome.ProbeExactly | src/ft_shadow_data_plane/central/selector.py:326-357 | The probe bucket is made from its active symbols and the probe pool outside the core, at most one exchanged. |
| SelectorOutcome.BoundaryExactly | src/ft_shadow_data_plane/central/selector.py:369-391 | The boundary bucket is made from its active symbols and the boundary pool, the daily limit less one exchanged, at least one. |
| SelectorOutcome.BoundaryPoolExactly | src/ft_shadow_data_plane/central/selector.py:363-386 | That pool begins with the active boundary symbols within the retain rank and goes on with the other stable symbols, each part by rank. |
| SelectorOutcome.SelectionEndsExactly | src/ft_shadow_data_plane/central/selector.py:266-400 | A selection raises exactly when there are five probe symbols but too few stable ones for the inactive core, never for want of candidates; it selects exactly when every pool suffices and keeps the active roles otherwise. |
| Selector.ProtectedBoundaryStays | src/ft_shadow_data_plane/central/selector.py:363-391 | A boundary symbol that is still eligible, in neither core nor probe, and within the boundary retain rank among the stable symbols outside both, stays in the boundary. |
| SelectorRun.FillBucket | src/ft_shadow_data_plane/central/selector.py:718-722 | The filling loop. |
| SelectorRun.ReplaceInBucket | src/ft_shadow_data_plane/central/selector.py:723-739 | The replacement loop. |
| SelectorRun.ReconcileBucket | src/ft_shadow_data_plane/central/selector.py:704-744 | The method returns the reconciled bucket or its error. |
| SelectorRun.ReplaceInactiveCore | src/ft_shadow_data_plane/central/selector.py:293-297 | The loop over inactive core symbols. |
| SelectorRun.PromoteCore | src/ft_shadow_data_plane/central/selector.py:299-325 | The loop over promotable symbols. |
| SelectorRun.SelectRolling | src/ft_shadow_data_plane/central/selector.py:266-400 | The method returns the selection, the fail-closed active roles, or the error. |
| Universe.StepSound | src/ft_shadow_data_plane/edge/universe.py:86-286 | Planning, overriding, scanning and applying keep the store sound. |
| Universe.HistoryIsOrdered | src/ft_shadow_data_plane/edge/universe.py:190-217 | Over every crash-free run each applied decision is one later in sequence, with a new core generation exactly when the core changes and else a new revision, and `member_since` and `core_since` map exactly members and core to the effective time at which the current unbroken stay began. |
| Universe.StayIsUnbroken | src/ft_shadow_data_plane/edge/universe.py:198-212 | The recorded time is the effective time of the decision from which on the symbol was always in. |
| Universe.SequenceCounts | src/ft_shadow_data_plane/edge/universe.py:140-140 | Sequence numbers count the applied decisions. |
| Universe.VersionsIncrease | src/ft_shadow_data_plane/edge/universe.py:365-368 | No version is used twice. |
| Universe.OverrideIsLimited | src/ft_shadow_data_plane/edge/universe.py:255-286 | An accepted override keeps the core, exchanges at most the daily number of candidates and lets go only those with complete dwell. |
| Universe.OverrideAcceptedExactly | src/ft_shadow_data_plane/edge/universe.py:255-286 | An override is accepted exactly when it names five and five distinct symbols outside the core, exchanges no more than the daily number, lets go only complete dwells, and takes effect no earlier than it was made. |
| Universe.DueExactly | src/ft_shadow_data_plane/edge/universe.py:219-253 | What may be applied is exactly what is planned or accepted and has reached its time: the sequence check never decides. |
| Universe.PlanTakesEffect | src/ft_shadow_data_plane/edge/universe.py:116-217 | A planned change is a candidate exactly from its time on, whatever overrides and scans come between; the first application then takes it or one it does not come after. |
| Universe.LatestIsApplied | src/ft_shadow_data_plane/edge/universe.py:240-253 | Of all due decisions the one that takes effect last is applied, of those the one created last, of those the one whose file name is last. |
| Universe.ApplyConsumes | src/ft_shadow_data_plane/edge/universe.py:190-217 | An application uses up its file and any pending decision, puts invalid overrides aside and keeps the others. |
| Universe.SelectionCanBePlanned | src/ft_shadow_data_plane/edge/universe.py:116-152 | Every selection makes valid roles, so planning it never raises: it becomes pending unless nothing changes. |
| UniverseRun.NextEffectiveAt | src/ft_shadow_data_plane/edge/universe.py:348-352 | The effective time is a midnight after now, the second one exactly in hour 23 past the cutoff minute. |
| UniverseRun.UniverseStore.constructor | src/ft_shadow_data_plane/edge/universe.py:66-84 | The bootstrap decision is active, every member since then. |
| UniverseRun.UniverseStore.Plan | src/ft_shadow_data_plane/edge/universe.py:129-152 | An unchanged selection removes the pending decision, a valid change becomes pending under the next version. |
| UniverseRun.UniverseStore.SelectDue | src/ft_shadow_data_plane/edge/universe.py:219-253 | The scan puts invalid overrides aside and returns a due candidate that no other comes after in the selection key. |
| UniverseRun.UniverseStore.ApplyChosen | src/ft_shadow_data_plane/edge/universe.py:196-217 | The chosen decision becomes active, membership times are updated, its file and the pending one are gone. |
| UniverseRun.UniverseStore.ApplyDue | src/ft_shadow_data_plane/edge/universe.py:190-217 | The greatest due candidate is applied, or there is none. |

## Left out

- Decimal arithmetic: prices and quantities are reals; rounding, formatting and parsing of decimals are not modelled.
- Parquet, Arrow, JSON and model-field validation: rows, manifests and decisions arrive as values; of field checks only those that the properties need are kept (identities, sizes, digests, 50/5/5 roles).
- Row selection before the day run: filtering by symbol and stream, reading typed files and sorting the gap ledger; the day run takes rows and sorted gap facts as input, as its loops do.
- File-system details: fsync, partial files, directory creation and temporary names; an atomic write or rename is one step, and a directory that is removed at once is one step.
- SHA-256: an injective digest; hash collisions are outside the model.
- Logs, status files, metrics and result counters: the counters of `apply_acks`, the pull result, writer metrics and the evaluation files of the universe store.
- The transport journal of the transfer protocol except REMOTE_GC identities; ACK_VALIDATED and rejection events carry no state.
- The scan of ready manifests while other threads write: one step in the interleaved transfer model.
- Collector identity: one collector and one raw store; the check of the collector id pattern is an input filter.
- Sorting of ACK and transaction files: any order is covered, the sorted one among them.
- Journal damage: the day journal and data files on the edge are not damaged in the model; ACKs, manifests and transactions may be.
- Transport failures of ACKs: an ACK arrives unchanged, late, repeatedly, damaged or never, but is not forged.
- Subscription timers, reconnects, error replies and snapshot fetches around updates; an unanswered audit only shows as the raised state.
- Writer failures: exceptions from the parquet library and a failing day index end the worker and are not modelled; the session age is an input of each step.
- Market data behind the ranked pools: depth and kline metrics, quality gates and the percentile and deviation arithmetic of the selector.
- Sorting of the selected role tuples: roles are compared as sets in the universe store and left unsorted in the selector.
- Crashes of the universe store between its file writes, the bootstrap evidence check and stored observations.
- Retention, release, the bootstrap audit, clock quality, leases, the service loop and command-line front ends.
- GapRollover.RolloverTilesTime: interrupted closes at the last nanosecond of a day, or two of them at the same nanosecond, are not covered; there two facts share one path.
- TransferSeal.DeletedChunkLeavesTrace: allows a third case, a damaged transaction file that was put aside.
- AckApply.CrashedRunsConverge: the outcome it compares does not include the acked manifests; that none is lost there is part of `SpoolRun.SpoolManager.ApplyAcks` and of the seal.
