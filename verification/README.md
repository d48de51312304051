# Verification of the event, tracking and alerting core

A Dafny model of the state machines that turn camera detections into entities, zone sessions,
timeline events, alerts and deliveries, with proofs of what they promise on every run. Verify it with
`dafny verify dfyconfig.toml`.

Every component has the same three layers. Pure functions say what one call does to the state. A class
with the source's own fields, or a method with its loop, is proved to do exactly that. Lemmas then
prove what the source promises about the functions, over all runs where a run is what matters. Main
results are stated against something independent of the code: a history, a sorted listing, a set of
newest keys, a sum.

| files | component |
|---|---|
| `Ordering`, `EventListing`, `TimelineMerge`, `Composer`, `CursorCodec` | one ordered timeline from many bounded providers, walked by opaque cursors |
| `CatchUp` | replay of the timeline from a durable checkpoint, cut anywhere |
| `ZoneSessions`, `Spatial`, `SpatialRuns`, `Occupancy`, `SpatialLog` | the four-phase zone membership machine, its session table, occupancy and published log |
| `EntitySessions` | entity memory and the spatial machine in one transaction |
| `Matching`, `MatchingMeaning`, `Tracker`, `TrackerRuns`, `TrackerSightings`, `IdentityHistory`, `HistoryRuns` | greedy assignment of detections to tracks, and the history that counts frames |
| `EntityTables`, `EntityMemory`, `EntityRuns`, `EntityRows`, `EntitySnapshots` | the persistent entity life cycle under replay, and its snapshots |
| `AlertRules`, `AlertTables`, `AlertEvaluation`, `AlertRuns`, `AlertReasons`, `AlertDue`, `SecondDwell`, `AlertReplay` | rules, evaluator rows, reasons for alerts, due alerts, cooldown, repeated evaluation |
| `Outbox`, `OutboxRuns`, `OutboxHistory` | deliveries as a lease protocol between workers |
| `ActivityStream`, `StreamRuns`, `StreamFilters` | subscriptions, and bounded client queues that keep lifecycle events |
| `NewestKeys`, `ConsoleStore`, `ConsoleRecovery` | the console's capped store and its reconnect recovery |
| `Options`, `Sql` | an option type; what ORDER BY with LIMIT may answer |

A database table is a sequence of rows or a map, a row's id its position in the sequence, and a
transaction one step. A query whose order is not determined may give any answer that fits its WHERE,
ORDER BY and LIMIT clauses, and the run theorems hold for all of them; the one query fixed to a single
answer is the latest entity row of a key, whose ties do not matter (`EntityRuns.TiesAreClosed`). Clocks, geometry, filters and
network answers are parameters. IoU and means are over the reals; times are whole microseconds, in the
console milliseconds.

## Where the code and its description differ

The model follows the code.

- The activity stream announces a `stream.warning` after a drop, best effort. It can never be queued
  (`StreamRuns.WarningsNeverArrive`).
- Closing a slow client loses two messages, the new one and the oldest queued one, and counts one
  (`StreamRuns.ClosedExactlyWhenStuck`).
- The due key of an evaluator row never changes, so a second sustained condition of the same subject
  never fires (`AlertRuns.FiredRowStaysSilent`, and `SecondDwell` for a concrete run). Such rows stay
  due as long as their condition stands, and a batch of them keeps later rows waiting
  (`AlertDue.StarvedRowWaits`).
- `decode_cursor` strips the id it reads, so an id with surrounding whitespace does not survive the
  round trip (`CursorCodec.CursorRoundTrip` gives the exact condition).
- A non-empty event id of nothing but whitespace defeats the replay check
  (`EntityRuns.EntryReplaysUnlessBlank`), and then an event can be counted without being recorded
  (`EntityRuns.TableAgreesExactly`). A second event with the empty id breaks the UNIQUE column instead
  and is rolled back.
- The minimum interval between update snapshots is kept in memory, so it does not hold across a restart
  (`EntitySnapshots.RestartForgets`).
- `record_attempt_and_update` does not compare the lock holder. A record is safe exactly when no recovery
  has taken its claim (`OutboxRuns.SafeExactlyWhenClean`); recording within the lock timeout is one way
  to keep to that, and `OutboxRuns.LateRecordOverwrites` is a run that does not.
- The console merge speaks of preferring non-empty fields; the later value wins even when empty
  (`ConsoleStore.MergeIsLatest`), an explicit null time included (`ConsoleStore.MergedTimeIsLatest`).

## Model

| member | source | states |
|---|---|---|
| Ordering.CompareEvents | src/timeline/contracts.py:296-313 | negative exactly when the left event is listed first under the sort, zero exactly when the two (occurred_at, id) keys are equal |
| Ordering.PrecedesTotal | src/timeline/contracts.py:290-313 | the listing order is total and asymmetric, so keys are never ambiguous |
| Ordering.PrecedesTransitive | src/timeline/contracts.py:290-313 | the listing order is transitive, in both directions |
| TimelineMerge.ScanHeads | src/timeline/composer.py:145-157 | one pass over the heads picks the first element of the unbounded merge, or finds every stream exhausted |
| TimelineMerge.MergeOrderedStreams | src/timeline/composer.py:122-158 | the bounded merge returns the first `limit` events of the unbounded merge, for any limit and any number of streams |
| TimelineMerge.MergeIsPermutation | src/timeline/composer.py:122-158 | the merge loses and invents nothing: it is a permutation of the multiset union of the streams |
| TimelineMerge.MergeIsOrdered | src/timeline/composer.py:122-158 | merging ordered streams gives an ordered listing, in both sort directions |
| TimelineMerge.FirstKDependOnFirstK | src/timeline/composer.py:35-57 | the first k of the merge depend only on the first k of each stream |
| TimelineMerge.BoundedMergeRefinesQuery | src/storage/timeline_repository.py:142-200 | merging the first k of each stream gives the first k of the one sorted listing of the union (UNION ALL, ORDER BY, LIMIT k) |
| EventListing.ListingLists | src/storage/timeline_repository.py:142-200 | the reference listing is strictly ordered and holds each event of the set once |
| EventListing.ListingUnique | src/storage/timeline_repository.py:142-200 | a set of events with distinct keys has only one strictly ordered listing |
| Composer.ListEvents | src/timeline/composer.py:35-76 | one page, or the invalid-limit error, or the error of the first provider that returns more than limit + 1 events |
| Composer.ComposedPageIsExact | src/timeline/composer.py:35-76 | with providers that honour their contract a page is the first N remaining events of all providers together, with a cursor exactly when there are more |
| Composer.CursorDrops | src/timeline/provider.py:112-119 | listing strictly after the n-th remaining event is the listing without its first n events, and fewer events remain |
| Composer.NextPageStart | src/timeline/composer.py:63-70 | the next cursor decodes to the page's last key and continues exactly after the page; it is absent exactly at the end |
| Composer.WalkIsComplete | src/timeline/composer.py:35-76 | following next_cursor to the end, with any page sizes, yields every matching event exactly once in global order |
| CursorCodec.Decode64Inverts | src/storage/timeline_cursor.py:24-55 | base64url decoding inverts encoding on every byte string (section 5 of RFC 4648) |
| CursorCodec.PaddingIsRestored | src/storage/timeline_cursor.py:35-51 | the padding the encoder strips is exactly what `-len % 4` puts back (section 3.2 of RFC 4648) |
| CursorCodec.DecodeOfEncode | src/storage/timeline_cursor.py:24-81 | decoding any encoded cursor gives the UTC instant and the stripped id, or the missing-id error for a blank one |
| CursorCodec.CursorRoundTrip | src/storage/timeline_cursor.py:24-81 | the round trip is exact if and only if the id is non-empty and has no surrounding whitespace |
| CursorCodec.OffsetsAgree | src/storage/timeline_cursor.py:24-81 | an instant told in UTC, with an offset or without one gives the same token, and the token gives that instant back |
| CursorCodec.DecodesAlphabetOnly | src/storage/timeline_cursor.py:44-55 | only whole groups of the base64url alphabet decode, with at most two pads at the end |
| CatchUp.ListTimeline | src/services/alerts/consumer.py:211-221 | a page request is refused exactly above the maximum limit and otherwise returns the page after the cursor |
| CatchUp.AlertConsumer.ProcessAndCheckpoint | src/services/alerts/consumer.py:234-244 | evaluate, then save; a kill between the two leaves the event evaluated and the checkpoint behind |
| CatchUp.AlertConsumer.ProcessPage | src/services/alerts/consumer.py:222-223 | a page is handled in order up to the kill point |
| CatchUp.AlertConsumer.Run | src/services/alerts/consumer.py:194-232 | a run handles exactly the first min(limit, available) source events after the checkpoint, as far as it gets, across any number of pages |
| CatchUp.AvailableMeans | src/services/alerts/consumer.py:194-232 | what a run has to handle: the timeline events but alerts after the checkpoint, oldest first |
| CatchUp.PageMoves | src/services/alerts/consumer.py:224-232 | both cursor assignments of the loop agree: each page moves the cursor on by its own length and the loop stops only at the end |
| CatchUp.CatchUpLosesNothing | src/services/alerts/consumer.py:194-244 | however runs are cut, what was evaluated is a gap-free prefix of the timeline in order, repeats are adjacent and as many as there were cuts between evaluate and save |
| CatchUp.UncutRunAdvances | src/services/alerts/consumer.py:205-232 | an uncut run evaluates and saves exactly the next `limit` events, so enough of them reach the end |
| Sql.OrderByLimitSelects | src/storage/entity_zone_session_repository.py:185-204 | sort-and-cut is one of the answers ORDER BY with LIMIT may give |
| Sql.SelectionReaches | src/storage/alert_repositories.py:619-626 | every answer holds a row that at most `limit` rows come no later than, and none that `limit` rows come strictly before |
| ZoneSessions.GetOpen | src/storage/entity_zone_session_repository.py:109-129 | an open row of the pair, or proof that there is none |
| ZoneSessions.SessionTable.OpenSession | src/storage/entity_zone_session_repository.py:31-63 | appends one open row under a new id |
| ZoneSessions.SessionTable.CloseSession | src/storage/entity_zone_session_repository.py:65-90 | closes an open row once; a closed row and an unknown id change nothing |
| ZoneSessions.SessionTable.TouchSession | src/storage/entity_zone_session_repository.py:92-107 | moves last_seen of an open row only |
| ZoneSessions.SessionTable.ListOpenForEntity | src/storage/entity_zone_session_repository.py:131-147 | lists every open row of the entity once |
| ZoneSessions.SessionTable.ListStaleOpen | src/storage/entity_zone_session_repository.py:185-204 | lists the least recently seen stale open rows, up to the limit |
| ZoneSessions.CountIsEntities | src/storage/entity_zone_session_repository.py:168-183 | the number of open rows of a zone is the number of distinct entities inside it |
| Spatial.SpatialService.SeeInside | src/services/spatial_service.py:346-422 | memory, table and published events after an inside observation, for all four phases and recovery from the table |
| Spatial.SpatialService.SeeOutside | src/services/spatial_service.py:424-489 | the same for an outside observation |
| Spatial.SpatialService.ConfirmEnterNow | src/services/spatial_service.py:491-549 | an enter adopts an open session or opens one with occupancy + 1 |
| Spatial.SpatialService.ConfirmExitNow | src/services/spatial_service.py:551-583 | an exit closes the open session or only resets the memory |
| Spatial.SpatialService.CloseOpenSession | src/services/spatial_service.py:585-621 | the row, the reset membership and the exit events of one close |
| Spatial.SpatialService.ForceCloseEntity | src/services/spatial_service.py:253-290 | every open session of the entity is closed and its memory forgotten |
| Spatial.SpatialService.ReconcileStale | src/services/spatial_service.py:292-331 | up to 100 stale sessions, oldest first, are closed and their memory forgotten |
| Spatial.SpatialService.ProcessObservation | src/services/spatial_service.py:140-251 | stale reconciliation, then either the forced close or every zone in turn |
| SpatialRuns.LatestRunIsLatest | src/services/spatial_service.py:356-489 | the specification's latest run of n equal observations ends where it says and no later run exists |
| SpatialRuns.StepSeen | src/services/spatial_service.py:346-621 | what each operation does to any pair's memory entry and open session, and that it touches no other pair |
| SpatialRuns.RunRefinesHistory | src/services/spatial_service.py:253-621 | on every run, restarts, forced and stale closes included: one open session per pair, memory mirrors the table, counters strictly within thresholds, and a session is open exactly when the observation history says inside |
| SpatialRuns.Hysteresis | src/services/spatial_service.py:346-489 | with observations only, a session is open if and only if the latest run of enter_confirm insides ended later than the latest run of exit_confirm outsides |
| SpatialRuns.InsideRefreshes | src/services/spatial_service.py:396-421 | an inside observation dates the open session, so only an unseen one can go stale |
| SpatialRuns.ObserveZonesIsRun | src/services/spatial_service.py:200-251 | one observation of many zones is a run of single-zone observations; failed geometry is skipped and a filtered zone counts as outside |
| Occupancy.ClosingCounts | src/services/spatial_service.py:594-604 | a close records exactly the count minus one: the max(0, ...) clamp never acts |
| Occupancy.OccupancyIsExact | src/services/spatial_service.py:521-533 | on every run recorded occupancy is a walk of steps +1 on enter and -1 on exit, is what the row holds, and ends at the number of distinct entities inside; every session is published as entered once, and exited once exactly when its row is closed |
| SpatialLog.ChangesFollowTransitions | src/services/spatial_service.py:623-733 | on every run: with occupancy changes switched off none is published; switched on, each zone_entered and zone_exited is followed at once by the change of the same session, pair, time and count, and no other change is published |
| SpatialLog.NewsIsNow | src/services/spatial_service.py:623-733 | what one more operation publishes bears the time of that operation |
| SpatialLog.RowsAreDated | src/services/spatial_service.py:346-621 | on every run an open session was last seen when its pair was last observed inside, a closed one when it was closed |
| SpatialLog.StaleAreUnseen | src/storage/entity_zone_session_repository.py:185-211 | reconciliation closes exactly open sessions whose pair was last observed inside before the cutoff: all of them when the limit allows, otherwise those unseen the longest |
| Matching.IntersectionIsCommon | src/services/memory_service.py:318-343 | the intersection box covers exactly the cells both boxes cover |
| Matching.OverlapIsFraction | src/services/memory_service.py:318-343 | intersection over union is symmetric and within [0, 1], degenerate boxes included |
| Matching.OverlapOfSelf | src/services/memory_service.py:318-343 | a proper box overlaps itself fully |
| Matching.CollectCandidates | src/services/memory_service.py:148-163 | the candidates are exactly the same-label pairs at or over the threshold, with their overlap |
| Matching.GreedyIsOneToOne | src/services/memory_service.py:165-191 | greedy selection picks members of the list, no two of which share a track or a detection |
| Matching.GreedyIsStable | src/services/memory_service.py:165-191 | down a descending list, every candidate is picked or blocked by a pick that overlaps at least as much |
| Matching.Match | src/services/memory_service.py:145-191 | the assignment is a stable, maximal, one-to-one matching of eligible pairs |
| MatchingMeaning.AreaIsCells | src/services/memory_service.py:14-27 | a box has as many cells as its area |
| MatchingMeaning.OverlapIsShare | src/services/memory_service.py:318-343 | the overlap of two boxes is the number of cells in both over the number of cells in either, and zero when both are empty |
| MatchingMeaning.MatchingMeans | src/services/memory_service.py:148-191 | every pick is of one label and overlaps at least the threshold, nothing is picked twice, and of every such pair the track or the detection is picked for a partner overlapping at least as much |
| MatchingMeaning.AcceptedWhenProper | src/services/memory_service.py:287-316 | a frame is accepted if and only if every item is a detection with a box of positive width and height |
| Tracker.MemoryService.ApplyMatches | src/services/memory_service.py:175-191 | matched tracks take their detection and publish one update each |
| Tracker.MemoryService.AgeTracks | src/services/memory_service.py:195-213 | unmatched tracks age by one frame and those over the limit leave with one exit event |
| Tracker.MemoryService.EnterUnmatched | src/services/memory_service.py:216-236 | each unmatched detection becomes a track under the next id and publishes one enter event |
| Tracker.MemoryService.HandleFrame | src/services/memory_service.py:127-236 | the new tracks, id counter and events of a frame under a stable matching; a malformed item changes nothing |
| Tracker.MemoryService.Clear | src/services/memory_service.py:263-267 | every track goes and the id counter stays |
| IdentityHistory.IdentityHistoryService.HandleObjectEvent | src/services/identity_history_service.py:95-158 | the histories and session counters after an event of each kind |
| HistoryRuns.HistoriesTell | src/services/identity_history_service.py:95-284 | whatever is published, each history is what its own events say: first and last sighting, latest and highest confidence, appearances, frames, and whether it is active |
| TrackerRuns.ExpiryIsExact | src/services/memory_service.py:195-213 | a track survives a frame if and only if it was matched or its missed frames stay within the limit |
| TrackerSightings.FrameSightingsShow | src/services/memory_service.py:165-236 | a frame sights each id at most once: as the detection its track was picked for, or as the unmatched detection it was given to |
| TrackerSightings.NewTracksShow | src/services/memory_service.py:215-236 | the new tracks are the unmatched detections, in order, as shown |
| TrackerSightings.LiveTracksAreAsSighted | src/services/memory_service.py:165-236 | on every run a live track is its id's last sighting, first seen at its first one, has as many frames as sightings, and its missed count is the number of frames since the last one |
| TrackerSightings.LiveWithinLimit | src/services/memory_service.py:193-213 | no live id has gone unsighted for more frames than allowed |
| TrackerSightings.ExitsWhenUnsighted | src/services/memory_service.py:193-213 | an id exits exactly in the frame that is its (maxMissed + 1)-th in a row without a sighting |
| TrackerRuns.DetectionsConserved | src/services/identity_history_service.py:222-284 | over any run of frames and clears the frames counted in all histories are exactly the detections processed |
| TrackerRuns.IdsLiveOnce | src/services/memory_service.py:165-236 | each id's events spell ENTERED, UPDATED*, at most one EXITED, and no id is used twice, even across clear |
| Outbox.DeliveryRepository.CreateIfAbsent | src/storage/notification_repositories.py:364-420 | a new pending row, or nothing when the idempotency key exists |
| Outbox.DeliveryRepository.SelectDue | src/storage/notification_repositories.py:505-522 | the due PENDING and FAILED rows, earliest first, up to the batch size |
| Outbox.DeliveryRepository.ClaimDue | src/storage/notification_repositories.py:487-535 | exactly the selected rows become PROCESSING under this worker's lock |
| Outbox.DeliveryRepository.RecoverStaleLocks | src/storage/notification_repositories.py:537-570 | exactly the overdue PROCESSING rows return to PENDING, and their number is returned |
| Outbox.DeliveryRepository.RecordAttempt | src/storage/notification_repositories.py:572-626 | one attempt row and the row's new status, times and dropped lock, or the lookup error |
| Outbox.DeliveryRepository.ScheduleManualRetry | src/storage/notification_repositories.py:628-659 | only FAILED and EXHAUSTED rows are rescheduled; the conflict and lookup errors change nothing |
| OutboxRuns.HoldsExactlyUntilLost | src/storage/notification_repositories.py:487-659 | on every run, under any clock, an unrecorded claim holds its row if and only if no recovery has met it overdue and no other claim on the row was recorded since |
| OutboxRuns.SafeExactlyWhenClean | src/storage/notification_repositories.py:572-626 | all records of a run meet their rows under their own claims if and only if none is made under a claim that a recovery had taken |
| OutboxRuns.TimelyIsClean | src/storage/notification_repositories.py:537-570 | with a forward clock and every record within the lock timeout no record is made under a taken claim |
| OutboxRuns.RunIsSafe | src/storage/notification_repositories.py:487-659 | on such timely runs every record meets its claim and each unexpired unrecorded claim still holds its row |
| OutboxRuns.RecordMeetsItsClaim | src/storage/notification_repositories.py:572-626 | a record, however late, meets its row still PROCESSING under its own claim if and only if no recovery has taken the claim, when the records before it were made under untaken claims |
| OutboxRuns.LeasesAreExclusive | src/storage/notification_repositories.py:487-535 | on every run no row has two claims that are neither recorded nor lost |
| OutboxRuns.RecoveryTakesOverdue | src/storage/notification_repositories.py:537-570 | on every run recovery takes the row of a claim that holds it if and only if the lease is overdue |
| OutboxRuns.DeliveredIsAbsorbing | src/storage/notification_repositories.py:487-659 | with no record under a taken claim a DELIVERED row is never changed again |
| OutboxRuns.AttemptsNumbered | src/services/notifications/worker.py:288-346 | with no record under a taken claim each row's counter is the number of its attempt rows, which are numbered 1, 2, 3, ... |
| OutboxRuns.RowsAreDated | src/storage/notification_repositories.py:505-659 | with no record under a taken claim and a forward clock a row is locked exactly while PROCESSING, and delivered_at, exhausted_at, first and last attempt times agree with its status and counter |
| OutboxRuns.KeysAreUnique | src/storage/notification_repositories.py:383-420 | on every run no two deliveries share an idempotency key |
| OutboxRuns.LateRecordOverwrites | src/storage/notification_repositories.py:589-626 | a concrete run in which a record under a taken claim overwrites DELIVERED |
| OutboxHistory.RowsAreAsTold | src/storage/notification_repositories.py:364-659 | on clean runs each delivery has the status, due time, attempt count and dates that its enqueue, claims, records, recoveries and retries call for, and there is one for each key |
| OutboxHistory.ClaimsAreDue | src/storage/notification_repositories.py:505-535 | a claim answers only with deliveries that the history leaves pending or failed and whose time has come, all of them when the batch is large enough, the earliest otherwise |
| OutboxHistory.RecoveryCounts | src/storage/notification_repositories.py:537-570 | the count of a recovery is the number of rows it took from PROCESSING to PENDING |
| EntityTables.Latest | src/storage/entity_repository.py:74-123 | a matching row with the greatest last_seen, or proof that none matches |
| EntityTables.EntityRepository.ApplyObservation | src/storage/entity_repository.py:125-176 | the counters, mean and label after one more observation; the status is kept |
| EntityTables.EntityRepository.Close | src/storage/entity_repository.py:178-204 | the row is closed and dated |
| EntityTables.ObservationRepository.Append | src/storage/observation_repository.py:44-87 | a source event id that is already there inserts nothing, and breaks the UNIQUE column if it is empty, as it then skipped the lookup |
| EntityMemory.EntityMemoryService.Finalise | src/services/entity_memory_service.py:448-553 | the observation, close, snapshot and throttle of one event, or the exception of the UNIQUE column |
| EntityMemory.EntityMemoryService.OnEntered | src/services/entity_memory_service.py:271-309 | create, or observe the active row |
| EntityMemory.EntityMemoryService.OnUpdated | src/services/entity_memory_service.py:311-378 | observe the active row, record a late event on a closed one, or create |
| EntityMemory.EntityMemoryService.OnExited | src/services/entity_memory_service.py:380-446 | observe and close the active row, record a late event, or create a closed row |
| EntityMemory.EntityMemoryService.ProcessEvent | src/services/entity_memory_service.py:227-269 | the whole store after one event; a duplicate changes nothing, and an event that raises, malformed or a second one with the empty id, is rolled back |
| EntityRuns.ReplayIsNoOp | src/services/entity_memory_service.py:227-262 | processing an event a second time changes nothing, whether it is skipped or rolled back |
| EntityRuns.EntryReplaysUnlessBlank | src/storage/observation_repository.py:60-106 | for an entry that holds if and only if its event id is not a non-empty one of nothing but whitespace |
| EntityRuns.BlankEntryCountsTwice | src/storage/observation_repository.py:60-106 | a concrete run: one entry under a blank id, delivered twice, is counted twice and recorded once |
| EntityRuns.SourcesAreUnique | src/storage/entity_orm.py:211-215 | on every run no two observations share a source event id |
| EntityRuns.ReplaysCollapse | src/services/entity_memory_service.py:249-446 | a list with repeated event ids and malformed events, none of its ids blank, leaves the same entities, observations and snapshots as its well-formed first occurrences, with one observation for each, in order |
| EntityRuns.ProcessLands | src/services/entity_memory_service.py:249-446 | an event is counted on one active or new row and recorded, or recorded against one closed row, or changes neither table |
| EntityRuns.AggregatesAreExact | src/storage/entity_repository.py:139-204 | on every run, whatever the event ids, each key has at most one ACTIVE row, and times_seen times average_confidence is the sum of the confidences counted on the row, none after it closed |
| EntityRuns.TableAgreesExactly | src/storage/observation_repository.py:60-106 | the counters can be read off the observation table throughout a run if and only if no event is counted under a non-empty id of nothing but whitespace that an observation already has |
| EntityRuns.NamedNeverSlip | src/storage/observation_repository.py:60-106 | with ids that are more than whitespace, or empty, they always can |
| EntityRuns.TiesAreClosed | src/storage/entity_repository.py:74-123 | ties among the rows of a key never matter to a row: the active row is the only answer of its query, and the other query is consulted only when every answer is closed |
| EntityRuns.MeanStaysInRange | src/storage/entity_repository.py:148-165 | the stored mean stays in [0, 1] |
| EntityRuns.ClosedIsFinal | src/services/entity_memory_service.py:311-446 | a CLOSED row never changes again, whatever the event ids |
| EntityRows.RowsTell | src/storage/entity_repository.py:125-204 | on every run each row's key, label, count, first and last time and status are those of the events counted on it |
| EntityRows.RecordedExactly | src/services/entity_memory_service.py:249-269 | an event with a non-blank id is recorded, as it is, on one entity of its key if and only if it parses, its confidence is in [0, 1] and its id is new; otherwise nothing changes |
| EntitySnapshots.SnapshotsTellTheLife | src/services/entity_memory_service.py:470-581 | on every run, process restarts included, an entity's snapshots are one on creation (none when an exit created it), updates at least the minimum interval apart unless a restart lies between them, and one on close that holds its final row |
| EntitySnapshots.RestartForgets | src/services/entity_memory_service.py:555-581 | a concrete run in which a restart leaves two updates of an entity closer than the interval |
| EntitySnapshots.ThrottleIsLatest | src/services/entity_memory_service.py:492-503 | the throttle remembers an entity's latest update snapshot since the last restart, until it closes |
| EntitySnapshots.SnapshotTakenExactly | src/services/entity_memory_service.py:487-503 | creations and closes always leave a snapshot; an update leaves one if and only if update snapshots are on and the latest one is at least the interval ago |
| EntitySnapshots.ProcessWrites | src/services/entity_memory_service.py:249-446 | an event changes the one entity it lands on and its snapshots, and no other; a duplicate, malformed or late event changes none |
| EntitySessions.OpenSessionsAreOfActiveEntities | src/services/entity_memory_service.py:527-546 | with entity memory and spatial processing in one transaction, every open zone session belongs to an ACTIVE entity on every run, process restarts included: closing an entity closes its sessions and nothing late or repeated reopens one |
| AlertRules.OneVerdict | src/services/alerts/evaluators.py:72-295 | one evaluation speaks of one subject of its rule, never raises and settles at once, and schedules for when the condition has lasted from the event on |
| AlertRules.RaisingIsMonotone | src/services/alerts/evaluators.py:135-219 | a higher occupancy never turns a raise into a settlement |
| AlertTables.OpenFor | src/storage/alert_repositories.py:257-279 | an open or acknowledged alert of the subject, or proof that there is none |
| AlertTables.LastTrigger | src/storage/alert_repositories.py:469-487 | the latest trigger time of the subject, or proof that it never triggered |
| AlertTables.AlertRepository.Create | src/storage/alert_repositories.py:281-357 | a new open alert only when neither the key nor a live alert of the subject exists; otherwise the one in the way |
| AlertTables.AlertRepository.Acknowledge | src/storage/alert_repositories.py:359-379 | only OPEN alerts are acknowledged |
| AlertTables.AlertRepository.Resolve | src/storage/alert_repositories.py:381-399 | resolving twice changes nothing |
| AlertTables.AlertEvaluatorStateRepository.UpsertPending | src/storage/alert_repositories.py:526-570 | a missing row is created, a CLEARED one restarted, any other keeps its times |
| AlertTables.AlertEvaluatorStateRepository.Clear | src/storage/alert_repositories.py:572-592 | the subject's row, if any, is CLEARED |
| AlertTables.AlertEvaluatorStateRepository.MarkTriggered | src/storage/alert_repositories.py:594-610 | the named row is TRIGGERED by the alert |
| AlertTables.AlertEvaluatorStateRepository.ListDue | src/storage/alert_repositories.py:612-629 | the pending rows due by now, earliest first, up to the limit |
| AlertEvaluation.AlertEvaluationService.ApplyAction | src/services/alerts/evaluation_service.py:200-293 | both tables after an action; a trigger passes only cooldown, key and live-alert checks |
| AlertEvaluation.AlertEvaluationService.ProcessSourceEvent | src/services/alerts/evaluation_service.py:73-101 | the actions of the enabled rules, applied in order; the new alerts are returned |
| AlertEvaluation.AlertEvaluationService.ProcessDueStates | src/services/alerts/evaluation_service.py:103-182 | each due row is cleared, cleared and resolved, or fired, in due order; the new alerts are returned |
| AlertRuns.DueRowOutcome | src/services/alerts/evaluation_service.py:113-181 | a due row ends up cleared exactly when its rule or condition is gone, triggered exactly when both stand and the trigger is allowed, pending otherwise; the end of a dwell leaves its subject without a live alert |
| AlertRuns.RunEvolves | src/storage/alert_repositories.py:281-399 | alerts are only appended, their identity is fixed, status only advances, RESOLVED is absorbing |
| AlertRuns.LogIsLegal | src/services/alerts/evaluation_service.py:73-182 | every step the service plans is legal where it happens, due rows unaffected by the rows handled before them |
| AlertRuns.ServiceIsSafe | src/services/alerts/evaluation_service.py:200-293 | on every run: at most one open or acknowledged alert per (rule, subject), unique idempotency keys, one evaluator row per subject, no due alert before its promised time, due alerts and their rows pointing at each other, and dates that fit the status |
| AlertRuns.AlertsAreSpaced | src/services/alerts/evaluation_service.py:241-248 | every stored alert was triggered at least the cooldown then in force after every earlier alert of its subject, under any clock |
| AlertRuns.RowsFollowTheirHistory | src/storage/alert_repositories.py:526-592 | a live row's start and due time are those of the first schedule after the latest clear, and it is CLEARED exactly when a clear came last |
| AlertRuns.DueAlertsKeepTheirPromise | src/services/alerts/evaluation_service.py:103-182 | a due alert promises the due time of the first schedule after the latest clear and is triggered no earlier |
| AlertRuns.OneDueAlertPerRow | src/services/alerts/evaluation_service.py:157-181 | each evaluator row yields at most one due alert |
| AlertRuns.DueRowFires | src/services/alerts/evaluation_service.py:113-181 | a due row fires if and only if its rule and condition stand, it never had a due alert, its subject has no live alert and the cooldown has passed |
| AlertRuns.FiredRowStaysSilent | src/services/alerts/evaluation_service.py:162 | once a row has had its due alert, firing it at any later point of the run does nothing, whatever was resolved, cleared and scheduled in between |
| SecondDwell.SecondDwellNeverAlerts | src/services/alerts/evaluation_service.py:103-182 | a concrete run: enter, due pass, exit, enter, due pass; the second dwell is due and stands, with no live alert and no cooldown, and never alerts |
| AlertDue.MarksComeFromEvents | src/services/alerts/evaluators.py:196-268 | every scheduled start and due time of a run is some event's time, and that time plus the threshold of a rule enabled when it was handled |
| AlertDue.DueAlertsAreSustained | src/services/alerts/evaluation_service.py:103-182 | on every run a due alert is triggered no sooner than the rule's full threshold after the event that started its condition, the first scheduled since the latest clear |
| AlertDue.DueRowReached | src/storage/alert_repositories.py:612-629 | a pass handles a due row when at most a batch of rows is due no later, and does not when a whole batch is due strictly earlier |
| AlertDue.StarvedRowWaits | src/services/alerts/evaluation_service.py:111-181 | a batch of standing rows that already had their alert, due earlier, keeps a due row waiting: the pass leaves it and them as they were |
| AlertReplay.EvaluationIsQuiet | src/services/alerts/evaluation_service.py:73-101 | evaluating a source event, for the first time or again, at any time, changes nothing if and only if everything it asks for is so already and no trigger of it passes |
| AlertReplay.ReevaluationIsQuiet | src/services/alerts/consumer.py:234-244 | repeated on the tables its first evaluation left, with no rule newly active, a source event changes nothing if and only if no trigger of it passes; what passes was asked for before and had not alerted |
| AlertReasons.AlertsHaveReasons | src/services/alerts/evaluators.py:46-295 | on every run each alert that came with an event came from a call whose event its enabled, active rule heard (type, camera, entity type, zone) and found its condition met on the spot; it is about that event and of that time |
| AlertReasons.EventDoes | src/services/alerts/evaluators.py:46-295 | a source event does to each rule what the rule's settings and the event's values call for: nothing when it is not heard, exactly one alert when the condition is met and nothing stands in the way, a waiting row when it has begun, a cleared row and a resolved alert when it is over; above, at and just below a threshold, immediate and sustained |
| AlertReasons.NextEventDoes | src/services/alerts/evaluation_service.py:73-101 | the same of one more event on any run of the service |
| AlertReasons.OperatorDoes | src/storage/alert_repositories.py:281-399 | an operator acknowledges an open alert or resolves one that is not resolved, at that time, and changes nothing else |
| AlertReasons.StandsMeans | src/services/alerts/evaluation_service.py:113-205 | a due row's condition stands if and only if its rule is enabled and, for a dwell, its session is open, for an occupancy, at least the threshold of entities is inside |
| AlertReasons.NoRuleIsFound | src/services/alerts/evaluation_service.py:113-119 | a due row whose rule is gone does not stand |
| AlertRuns.ReplayedEventAlertsOnce | src/services/alerts/evaluation_service.py:250-254 | handling a source event again never gives a rule a second alert for it |
| ActivityStream.NarrowingOnlyRemoves | src/services/activity_stream.py:50-84 | restricting any categories, in any combination, only removes events |
| StreamFilters.MatchesIsConjunction | src/services/activity_stream.py:50-84 | AND across categories: a subscription matches if and only if each subscription that keeps one of its categories and frees the others does |
| StreamFilters.OnlyItsValueMatters | src/services/activity_stream.py:50-84 | OR within one: with one category kept, an event matches if and only if it has a value of that category and the value is in the set; nothing else it carries matters, and a missing or unparsable value matches no set |
| StreamFilters.MatchesMeans | src/services/activity_stream.py:50-84 | both together, over the seven categories |
| StreamFilters.DefaultIsLifecycle | src/services/activity_stream.py:20-48 | the default subscription lets through every timeline event but observations |
| StreamFilters.DefaultClientLosesNothing | src/services/activity_stream.py:208-307 | a client that keeps the default subscription loses nothing while it is open |
| ActivityStream.OldestIs | src/services/activity_stream.py:281-307 | what back-pressure takes out is the first observation in the queue, and nothing else moves |
| ActivityStream.ActivityClient.DropOldestObservation | src/services/activity_stream.py:281-307 | the drained and refilled queue lacks exactly its first observation, if it has one |
| ActivityStream.ActivityClient.Enqueue | src/services/activity_stream.py:208-278 | the client after a message: queued, queued in place of an observation, or closed as a slow consumer |
| ActivityStream.ActivityStreamBroker.Register | src/services/activity_stream.py:135-147 | a new open client under a new id, or the limit error |
| ActivityStream.ActivityStreamBroker.Unregister | src/services/activity_stream.py:149-153 | the named client is closed and gone; all others are untouched |
| ActivityStream.ActivityStreamBroker.UpdateSubscription | src/services/activity_stream.py:155-165 | only the named client's subscription changes; an unknown id is the error |
| ActivityStream.ActivityStreamBroker.Publish | src/services/activity_stream.py:167-182 | every client takes the event exactly as its own state and subscription say |
| ActivityStream.ActivityStreamBroker.BroadcastStatus | src/services/activity_stream.py:184-189 | every open client takes the status message |
| ActivityStream.ActivityStreamBroker.CloseAll | src/services/activity_stream.py:191-206 | every client is closed, with a close message where there is room |
| StreamRuns.OpenClientLosesOnlyObservations | src/services/activity_stream.py:208-307 | on every run the queue keeps its bound and, while the client is open, lifecycle events and statuses are all delivered or queued, in order; dropped_events counts exactly the missing observations |
| StreamRuns.ClosedExactlyWhenStuck | src/services/activity_stream.py:251-274 | a client is closed if and only if a message meets a full queue without observations; two messages are lost then and one is counted |
| StreamRuns.WarningsNeverArrive | src/services/activity_stream.py:233-249 | no client ever receives the best-effort warning: the queue is full again when it is tried |
| StreamRuns.ClosedOnlyDrains | src/services/activity_stream.py:215-216 | a closed client is offered nothing and only drains |
| StreamRuns.ShutdownIsAnnounced | src/services/activity_stream.py:191-206 | a shutdown closes the client and queues the close message after the rest, where there is room |
| ConsoleStore.Store.constructor | console/js/store.js:51-60 | the cap is at least 50 and defaults to 400 |
| ConsoleStore.Store.SelectEvent | console/js/store.js:82-94 | only a held event can be selected, and with it the entity it names |
| ConsoleStore.Store.SelectEntity | console/js/store.js:96-98 | the entity selection is set or cleared and nothing else changes |
| ConsoleStore.Store.UpsertMany | console/js/store.js:105-131 | the batch merged and cut to the newest hardCap records, the counts exact, a dropped selection cleared |
| ConsoleStore.Store.RebuildOrder | console/js/store.js:133-137 | the displayed ids are all held ids, strictly newest first |
| ConsoleStore.Store.EnforceCap | console/js/store.js:139-150 | popping the end of the list keeps exactly the hardCap newest |
| ConsoleStore.Store.Clear | console/js/store.js:152-156 | no event is held, listed or selected; the entity selection stays |
| ConsoleStore.MergeIsLatest | console/js/store.js:112-126 | each property has its latest value, an omitted property stays, and a record has the source it was last merged from, but a live one stays live |
| ConsoleStore.MergedTimeIsLatest | console/js/store.js:112-126 | the last time given for an id counts, an explicit null erases the held one, an omitted one leaves it |
| NewestKeys.TopAbsorbs | console/js/store.js:128-129 | keeping only the k newest of what has been seen loses nothing from any later k newest |
| NewestKeys.PrefixIsTop | console/js/store.js:139-150 | the first k of a newest-first list are the k newest |
| ConsoleRecovery.HeldIsTopOfEver | console/js/store.js:105-150 | after any calls since clear, with each id always carrying the same time, the held keys are exactly the hardCap newest of all ever upserted |
| ConsoleRecovery.HeldSize | console/js/store.js:139-150 | below the cap nothing was ever dropped |
| ConsoleRecovery.ArrivalOrderIsIrrelevant | console/js/recovery.js:79-84 | two histories of the same ids display the same list, however batched, repeated or ordered |
| ConsoleRecovery.RecoveryController.NoteProcessed | console/js/recovery.js:47-62 | the newer of the noted and the given event is noted, the given one on a tie |
| ConsoleRecovery.RecoveryController.RunRecovery | console/js/recovery.js:72-105 | recovered then buffered events are merged, only the buffered ones after a failure, nothing while one is running; the newest notable event is noted |
| ConsoleRecovery.TruthyMerges | console/js/recovery.js:64-67 | an event without an id is not buffered: it leaves out what merging would hold under the empty id, and nothing else |
| ConsoleRecovery.FetchOverlapWindow | console/js/recovery.js:125-160 | at most 20 pages of 100 collect exactly the first 2000 events of the window |
| ConsoleRecovery.RecoveryClosesTheGap | console/js/recovery.js:1-12 | if all wanted events older than the window had been seen and the window is within the page bound, the store ends as if every wanted timeline event and every buffered one had been merged |

## Left out

Assumptions under which the results are stated:

- A transaction commits unless one of its own statements raises, and there is one vision process. The membership map is not rolled back with the database.
- Event handlers, due passes and operator calls are sequential steps; threads, locks and insert races are not modelled.
- Retention deletes, rule deletion and manual database edits are outside every run.
- Providers honour their contract and event keys are unique, as the timeline's own design demands.

Stated weaker than the source, or on abstract parts:

- CursorCodec.DecodeOfEncode: JSON text and ISO 8601 text are an abstract layer assumed to read back what it wrote (`Faithful`).
- CursorCodec.CursorRoundTrip: says nothing of tokens no encoder wrote; the model rejects characters outside the base64url alphabet, which the library may skip.
- Composer.ListEvents: the column filters are one predicate `wanted`, and provider registration checks and single-event lookup are not modelled.
- CatchUp.AlertConsumer.Run: the kill point is a step count given to the run; the live queue path, which may skip dropped events, is not modelled.
- Spatial.SpatialService.ProcessObservation: zone lookup and its cache, polygon geometry and zone filters arrive as one reading per zone, and the reconcile timer as a flag.
- Tracker.MemoryService.HandleFrame: the pass that both assigns and refreshes is two passes here, and a track's dictionary key is its position.
- EntitySessions.OpenSessionsAreOfActiveEntities: spatial processing is enabled throughout, and reconciliation happens with observations only.
- EntityTables.Latest: among rows of equal last_seen it takes the earliest, where SQL may take any; only the row a late observation is recorded on depends on it.
- EntityMemory.EntityMemoryService.ProcessEvent: identity matching is given as a key, and the variant without a shared session, the worker queue, the activity notifications and ids wider than their column are not modelled.
- AlertTables.AlertRepository.Create: severity, camera, summary and payload text are not copied into the modelled row, and the branch for a concurrent insert cannot be reached by sequential steps.
- AlertRules.OneVerdict: whether a rule's time window is active is a given function of rule and time.
- AlertRuns.ReplayedEventAlertsOnce: idempotency keys are structured values; an event id that imitates a due key is not considered.
- AlertEvaluation.AlertEvaluationService.ProcessDueStates: open zone sessions and rules are given and do not change during one pass.
- Outbox.DeliveryRepository.ClaimDue: an uncontended SKIP LOCKED; `OutboxRuns` allows any subset of the due rows.
- ConsoleStore.Store.UpsertMany: time strings arrive parsed, and a fractional cap is not modelled.
- ConsoleRecovery.HeldIsTopOfEver: assumes, as the console's design does, that an id always carries the same time.
- ConsoleRecovery.FetchOverlapWindow: the timeline does not change while its pages are fetched.

Not modelled, being input and output or easy members: HTTP routes and schemas, WebSocket plumbing,
camera, detector and rendering, configuration loading, LISTEN/NOTIFY, migrations, retention, alert
rule validation, notification targets, backoff times and HTTP delivery, list and count queries of the
repositories, and the console's user interface.
