# A verified model of the scrapyrealestate engine

scrapyrealestate watches property portals, keeps normalized listings, and tells people about new
listings and price changes. This project models the stateful engine of that application in Dafny
and proves what it guarantees: the durable delivery queue, the transactional ingestion step, the
search for duplicate listings across portals, the scheduler, the migration runner, and the pair of
functions that print and parse prices.

`dafny verify dfyconfig.toml` checks everything.

## How the model is built

Each SQL table is a map from row id to row, and each repository call a function from tables to
tables with a `Result`: `Raised` stands for the exception, after which the transaction has been
rolled back. The objects of the application are classes whose methods are proved against these
functions; runs with any number of threads, processes or workers are sequences of atomic steps, and
the guarantees are proved for every such sequence.

| file | what it models |
|---|---|
| `Wrappers`, `Domain`, `Ordering` | options and results, shared values, the row orders of SQL queries |
| `Timestamps` | instants, and the two orders SQLite puts on their stored text |
| `DeliveryQueue`, `DeliveryRuns`, `DeliveryGuarantees`, `DeliveryCalls` | events, channels and delivery attempts; every run of the queue; what holds at each reachable state; what each call means for the columns |
| `NotificationDelivery` | the repository, the dispatcher and retention as objects; why draining ends |
| `Prices`, `Listings`, `Ingestion`, `IngestionRuns`, `IngestionServices`, `IngestionDelivery`, `ListingCalls`, `IngestionCalls` | price history, listing identity and visibility, the ingestion transaction, runs of it, the objects, the link to the delivery queue, and what the calls mean for the columns |
| `DuplicateMatching`, `DuplicateScoring`, `DuplicateNarrowing`, `DuplicateGroups`, `DuplicateCandidates`, `DuplicateEvidence`, `DuplicateCalls` | comparing two listings, scoring a pair, the narrowing query, the stored groups over batches and reviews, the objects, and what evidence, narrowing and groups mean for the columns |
| `DuplicateWorker` | the background worker, its queue and its shutdown |
| `Scheduler`, `SchedulerPasses`, `SchedulerLoop`, `InProcessSchedulers` | deadlines over whole runs and restarts; one pass; the loop amid other threads; the object |
| `Numbers`, `NumberRoundTrip`, `NumberParsing` | printing and parsing prices |
| `Migrations` | the migration runner, alone and against other runners |

Modelling decisions that matter to a reader:

- **Time.** An instant is a number of microseconds. `datetime(x)` in SQL is the floor to the second.
  A bare text comparison is another order: within a second, a timestamp without a fraction sorts
  last, because `.` precedes `Z`. `Timestamps` proves that this is what the characters do.
- **Row ids** are one more than the greatest id in the table, so an id can be used again after
  pruning. The token on a claim, and not the row id, is what protects it.
- **The text checks of the schema** are kept, such as `completed_at >= claimed_at`, and they have a
  cost. A delivery claimed on a full second cannot be completed later within that second: the call
  raises, the row stays claimed, and the message is sent again after the lease. A duplicate group
  created on a full second cannot be scored again or reviewed within it. The exact conditions are
  proved.
- **Completing a delivery** looks at the token alone; the lease may have expired.
- **Event keys** name the portal and the listing, never the search. One event per listing is shared
  by all searches: a second search that finds a known listing announces it only if its price has
  moved to one not announced before.
- **Queueing an event again** after its attempts were pruned, and `create_retry`, are not among the
  actions of a delivery run, because they break its guarantees. Both have their exact condition, and
  for the first there is a run from empty tables that shows the damage.
- **Decimal arithmetic** has 28 digits, so rounding a price of 10^28 euros or more raises. The round
  trip of printing and parsing therefore holds below that bound and fails above it.
- **Spacing of scheduled searches** is measured between the clock readings of the passes that
  dispatch them. Writing the deadline of a deleted search raises and ends the loop. An epoch is the time between
  two loads of the deadlines from disk, where they are kept to the millisecond.
- **The duplicate worker** must not be started between the two halves of a shutdown: exactly then can
  it lose a batch, and the model shows how.
- **Scores** are exact: weights and similarities are real numbers, and `round(x, 4)` rounds half to
  even. Token normalization is a parameter, a function from text to a list of tokens of which nothing
  is assumed but, where the pool of a source is concerned, that the empty text has no tokens.

## Model

| member | source | states |
|---|---|---|
| `Timestamps.TextOrder` | scrapyrealestate/scrapyrealestate/persistence/prices.py:105-108 | The characters of two stored UTC timestamps compare as `StoredBefore` says, for every date the calendar can write. |
| `Timestamps.TextIsInjective` | scrapyrealestate/scrapyrealestate/persistence/prices.py:43-49 | Equal stored texts mean equal instants. |
| `Timestamps.TextOrderIsTimeOrderExcept` | scrapyrealestate/scrapyrealestate/persistence/prices.py:50-57 | Text order is time order except exactly when both instants share a second and only the earlier has no fraction, where it is reversed. |
| `Timestamps.LaterIsStoredAtMost` | scrapyrealestate/scrapyrealestate/persistence/prices.py:105-108 | For a later instant, a check that wants its text not to sort before the earlier one fails exactly when both share a second and the earlier is on the full second. |
| `Timestamps.YearsBegin` | scrapyrealestate/scrapyrealestate/persistence/prices.py:105-108 | The dates of the stored texts are those of the Gregorian calendar: where each year begins. |
| `DeliveryQueue.DelayDoublesUntilSaturated` | scrapyrealestate/scrapyrealestate/persistence/notifications.py:659-662 | Retry delays lie between base and maximum, never shrink, and double until the maximum is reached. |
| `DeliveryQueue.PruneKeepsTheNewest` | scrapyrealestate/scrapyrealestate/services/retention.py:80-100 | Pruning keeps every live attempt; the surviving terminal ones are exactly the greatest N by (completion second, id) among those not past the cutoff. |
| `DeliveryCalls.PruneSpelledOut` | scrapyrealestate/scrapyrealestate/services/retention.py:52-100 | A row survives exactly when it is pending or claimed, or was completed, to the second, no earlier than the days of retention before, and fewer than the cap of such rows come after it by completion second and id. |
| `DeliveryRuns.CreateKeeps` | scrapyrealestate/scrapyrealestate/persistence/notifications.py:418-448 | Creating an event, with its first attempts, keeps the queue invariant. |
| `DeliveryRuns.EnqueueKeeps` | scrapyrealestate/scrapyrealestate/persistence/notifications.py:489-509 | Queueing an event again keeps the invariant when it inserts no first attempt after a completion. |
| `DeliveryRuns.TakeKeeps` | scrapyrealestate/scrapyrealestate/persistence/notifications.py:537-600 | Claiming with a fresh token keeps the invariant, also when it takes over an expired lease. |
| `DeliveryRuns.FinishKeeps` | scrapyrealestate/scrapyrealestate/persistence/notifications.py:602-674 | Completing a claim, with the retry it may insert, keeps the invariant. |
| `DeliveryRuns.PruneKeeps` | scrapyrealestate/scrapyrealestate/services/retention.py:80-100 | Pruning keeps the invariant, so it never makes a delivered pair claimable. |
| `DeliveryRuns.RunKeeps` | scrapyrealestate/scrapyrealestate/persistence/notifications.py:418-674 | Every allowed run of creations, claims, completions, prunings and channel changes keeps the invariant. |
| `DeliveryGuarantees.DeliverySafety` | scrapyrealestate/scrapyrealestate/persistence/notifications.py:511-674 | Over every run each (event, channel) pair has at most one live attempt, with the greatest number; at most one success and at most `max_attempts` completions are ever recorded, pruned rows included; a queued pair is live exactly while it is neither delivered nor exhausted. |
| `DeliveryGuarantees.DeliveredIsNeverClaimedAgain` | scrapyrealestate/scrapyrealestate/persistence/notifications.py:573-578 | No claim at any reachable state takes a pair that was ever delivered, whatever was pruned. |
| `DeliveryGuarantees.OnlyTheLatestClaimOwns` | scrapyrealestate/scrapyrealestate/persistence/notifications.py:628-638 | Exactly the most recently issued claim on a row that is claimed owns it; completing with any other claim raises and changes no row. |
| `DeliveryGuarantees.CompletionIsAcceptedExactlyWhen` | scrapyrealestate/scrapyrealestate/persistence/notifications.py:628-656 | At every reachable state a completion is accepted if and only if its claim is the latest on a row that is still claimed and the text of its time does not sort before that of the claim; a refused one changes nothing. |
| `DeliveryGuarantees.CompletionIsAcceptedUnlessInTheFullSecond` | scrapyrealestate/scrapyrealestate/persistence/notifications.py:628-656 | For a completion no earlier than its claim, the owner is refused exactly in the rest of the second of a claim taken on a full second. |
| `DeliveryGuarantees.RefusedCompletionIsSentAgain` | scrapyrealestate/scrapyrealestate/persistence/notifications.py:537-656 | A run from empty tables after which the owner is refused in this way: the row stays claimed, and after the lease the next worker claims it and sends it again. |
| `DeliveryCalls.CompletionRecordsTheOutcome` | scrapyrealestate/scrapyrealestate/persistence/notifications.py:639-669 | An accepted completion closes the claimed row with its outcome and time, and inserts exactly the pending row of the next number, one delay later, when it failed before the last attempt; nothing else changes. |
| `DeliveryCalls.CompletionRaisesExactlyWhen` | scrapyrealestate/scrapyrealestate/persistence/notifications.py:615-656 | A completion raises exactly for a policy out of bounds, a claim that no longer owns its row, and a time whose text sorts before the claim's, in this order. |
| `DeliveryGuarantees.ReclaimWaitsForTheLease` | scrapyrealestate/scrapyrealestate/persistence/notifications.py:566-572 | A row taken over at t2 from a lease of L taken at t1 has t2 > t1 + L − 1 s. |
| `DeliveryGuarantees.RetryIsNeverEarly` | scrapyrealestate/scrapyrealestate/persistence/notifications.py:658-669 | Attempt n + 1 is never claimed earlier than delay(n) − 1 s after the completion of attempt n. |
| `DeliveryGuarantees.ClaimTakesTheLeastEligible` | scrapyrealestate/scrapyrealestate/persistence/notifications.py:556-594 | A claim takes the least eligible attempt by (available second, id), or none only when none is eligible, and changes that row alone. |
| `DeliveryCalls.ClaimedAttemptMayBeSent` | scrapyrealestate/scrapyrealestate/persistence/notifications.py:558-594 | A claimed attempt has an existing event and an enabled channel that is assigned to the event's search, no attempt of its pair has succeeded, and it was available, or its lease had expired, by the second of the claim. |
| `DeliveryCalls.ClaimTakesNoneOnlyWhenNoneMayBeSent` | scrapyrealestate/scrapyrealestate/persistence/notifications.py:556-585 | A claim takes none only when every attempt fails one of these conditions. |
| `DeliveryCalls.ClaimRaisesExactlyWhen` | scrapyrealestate/scrapyrealestate/persistence/notifications.py:544-589 | A claim raises exactly for a lease out of bounds and for a token another attempt holds; both change nothing. |
| `DeliveryCalls.ClaimWritesTokenAndLease` | scrapyrealestate/scrapyrealestate/persistence/notifications.py:551-600 | What a claim hands out, token, time and lease, is what it wrote to the row. |
| `DeliveryGuarantees.CreatedEventReachesExactlyItsChannels` | scrapyrealestate/scrapyrealestate/persistence/notifications.py:418-509 | A created event is queued for exactly the enabled channels assigned to its search, once each, if the search wants events of its kind, and for none otherwise. |
| `DeliveryCalls.NewEventFollowsThePreferences` | scrapyrealestate/scrapyrealestate/persistence/notifications.py:418-509 | A new event gets a first attempt on a channel exactly when the flag of its kind is set in the row of the search and the channel is enabled and assigned. |
| `DeliveryCalls.NewEventFollowsTheDefaults` | scrapyrealestate/scrapyrealestate/domain/notification.py:20-41 | Without such a row, exactly new listings and price drops are queued. |
| `DeliveryCalls.KnownKeyCreatesNothing` | scrapyrealestate/scrapyrealestate/persistence/notifications.py:428-448 | A known key creates and queues nothing; an unknown search raises. |
| `DeliveryCalls.EnqueueRaisesExactlyWhen` | scrapyrealestate/scrapyrealestate/persistence/notifications.py:489-500 | Queueing an event raises exactly when the event or its search does not exist. |
| `DeliveryCalls.AttemptIsInsertedOnce` | scrapyrealestate/scrapyrealestate/persistence/notifications.py:511-535 | An attempt is inserted under a new id exactly when none has its event, channel and number. |
| `DeliveryGuarantees.EnqueueKeepsExactlyWhenSafe` | scrapyrealestate/scrapyrealestate/services/notification_delivery.py:69-75 | Queueing again keeps the invariant if and only if it inserts no first attempt for a pair that has seen a completion. |
| `DeliveryGuarantees.UnsafeEnqueueBreaks` | scrapyrealestate/scrapyrealestate/persistence/notifications.py:489-509 | An unsafe one makes a second attempt live, or revives a delivered or exhausted pair. |
| `DeliveryGuarantees.EnqueueAfterPruningBreaks` | scrapyrealestate/scrapyrealestate/services/notification_delivery.py:69-75 | For every policy, a run from empty tables, ending with a pruning, after which queueing again does exactly that. |
| `DeliveryGuarantees.RetryKeepsExactlyWhenNeverQueued` | scrapyrealestate/scrapyrealestate/persistence/notifications.py:676-691 | `create_retry` keeps the invariant if and only if the pair was never queued. |
| `DeliveryGuarantees.RetryDoublesALiveAttempt` | scrapyrealestate/scrapyrealestate/persistence/notifications.py:676-691 | While an attempt is live, `create_retry` makes a second one live. |
| `DeliveryCalls.RetryTakesTheNextNumber` | scrapyrealestate/scrapyrealestate/persistence/notifications.py:680-687 | `create_retry` takes the number after the greatest one of the pair, or 1. |
| `DeliveryCalls.RetryNeedsEventAndChannel` | scrapyrealestate/scrapyrealestate/persistence/notifications.py:676-691 | It succeeds exactly for an event and a channel that exist. |
| `NotificationDelivery.NotificationRepository.EnsureDeliveryAttempt` | scrapyrealestate/scrapyrealestate/persistence/notifications.py:511-535 | The method inserts a pending attempt unless one with that number exists, and returns the row with that number and whether it is new. |
| `NotificationDelivery.NotificationRepository.EnsureEventDeliveries` | scrapyrealestate/scrapyrealestate/persistence/notifications.py:489-509 | The loop over channels leaves the tables the specification function gives and returns the first attempts of the channels that receive the event, in row order. |
| `NotificationDelivery.NotificationRepository.CreateEvent` | scrapyrealestate/scrapyrealestate/persistence/notifications.py:418-448 | The method creates an event once per key and queues first attempts only for a created one, or raises and changes nothing. |
| `NotificationDelivery.NotificationRepository.ClaimNextDelivery` | scrapyrealestate/scrapyrealestate/persistence/notifications.py:537-600 | The method updates the attempt table as a claim does, or raises and changes nothing. |
| `NotificationDelivery.NotificationRepository.CompleteDelivery` | scrapyrealestate/scrapyrealestate/persistence/notifications.py:602-674 | The method records the outcome and the retry, or raises and changes nothing. |
| `NotificationDelivery.OperationalRetentionService.Prune` | scrapyrealestate/scrapyrealestate/services/retention.py:80-105 | The two deletions leave what pruning keeps, and the count returned is what they removed. |
| `NotificationDelivery.CompleteLowersWeight` | scrapyrealestate/scrapyrealestate/persistence/notifications.py:639-669 | A completion lowers the sum over live attempts of `max_attempts + 1 − number`, retry included. |
| `NotificationDelivery.DispatchLowersWeight` | scrapyrealestate/scrapyrealestate/services/notification_delivery.py:77-124 | Every dispatch that returns an outcome lowers that sum, at any clock readings. |
| `NotificationDelivery.DrainingEnds` | scrapyrealestate/scrapyrealestate/services/notification_delivery.py:126-135 | Draining without a limit ends: no run of outcomes is longer than the sum it starts from. |
| `NotificationDelivery.ReachableNumbersAreInRange` | scrapyrealestate/scrapyrealestate/persistence/notifications.py:655-669 | Every state a run of the queue reaches has its live attempt numbers within `max_attempts`, so draining ends there. |
| `NotificationDelivery.DurableNotificationDispatcher.DispatchNext` | scrapyrealestate/scrapyrealestate/services/notification_delivery.py:77-124 | One dispatch is a claim followed by the completion of that claim. |
| `NotificationDelivery.DispatchSpelledOut` | scrapyrealestate/scrapyrealestate/services/notification_delivery.py:77-124 | A dispatch closes the row it claimed with what the provider answered, at its own clock readings, under the lease of its policy. |
| `NotificationDelivery.DispatchLeavesAtMostAClaim` | scrapyrealestate/scrapyrealestate/services/notification_delivery.py:77-124 | One that finds nothing changes nothing; one that raises leaves at most its claim behind. |
| `NotificationDelivery.DurableNotificationDispatcher.DispatchAvailable` | scrapyrealestate/scrapyrealestate/services/notification_delivery.py:126-135 | The loop returns the outcomes of as many dispatches as it made, stops early only when nothing is due, and raises only where a dispatch does; with live numbers in range it makes no more than the sum it starts from. |
| `Prices.PreviousIsChronological` | scrapyrealestate/scrapyrealestate/persistence/prices.py:50-58 | On a history of uniform precision the text query finds the chronological predecessor. |
| `Prices.PreviousIsChronologicalExactlyWhen` | scrapyrealestate/scrapyrealestate/persistence/prices.py:50-58 | On any history it does so if and only if precision is not mixed in one of three named ways. |
| `Prices.PredecessorIsMissed` | scrapyrealestate/scrapyrealestate/persistence/prices.py:50-58 | A price drop within the second of a full-second observation is recorded as a first price. |
| `ListingCalls.RecordingSpelledOut` | scrapyrealestate/scrapyrealestate/persistence/prices.py:34-102 | An observation is written once, another price for it raises, and the change is told from the previous price. |
| `Listings.ConflictExactlyWhenContested` | scrapyrealestate/scrapyrealestate/persistence/listings.py:411-436 | An identity conflict is raised exactly when external id and URL belong to different rows. |
| `Listings.FoundIsOnlyHolder` | scrapyrealestate/scrapyrealestate/persistence/listings.py:411-436 | The row found is the only one that shares an identifier with the listing, and has its portal. |
| `ListingCalls.FindingSpelledOut` | scrapyrealestate/scrapyrealestate/persistence/listings.py:411-436 | A row is found exactly when it is of the portal and shares an external id or a URL; a conflict is raised exactly when two rows share one each. |
| `Listings.UpsertKeepsIdentity` | scrapyrealestate/scrapyrealestate/persistence/listings.py:438-474 | Every accepted upsert, also one that overwrites an identifier with null, keeps both identifiers unique per portal, and writes one row. |
| `Listings.IngestOneWrites` | scrapyrealestate/scrapyrealestate/persistence/listings.py:279-333 | One listing row and one match are written, both active, and `new` means the match is new. |
| `Listings.IngestOneStoresTheReport` | scrapyrealestate/scrapyrealestate/persistence/listings.py:279-333 | The row carries the report, both rows keep when they were first seen, and the outcome tells exactly what was there before. |
| `ListingCalls.ChangedExactlyWhen` | scrapyrealestate/scrapyrealestate/persistence/listings.py:476-503 | A shown listing comes out as changed exactly when its external id, URL, price or a descriptive column differs. |
| `ListingCalls.IngestRaisesExactlyWhen` | scrapyrealestate/scrapyrealestate/persistence/listings.py:279-333 | Ingesting raises exactly for a conflict, an observation whose text sorts before the first one of the row or the match, and an unknown search. |
| `Listings.IngestOneKeepsShown` | scrapyrealestate/scrapyrealestate/persistence/listings.py:279-333 | Ingesting keeps "a listing is active if and only if some search shows it". |
| `Listings.ReconcileKeepsShown` | scrapyrealestate/scrapyrealestate/persistence/listings.py:353-409 | So does reconciling. |
| `ListingCalls.ReconcilingSpelledOut` | scrapyrealestate/scrapyrealestate/persistence/listings.py:353-409 | Only a successful or empty attempt hides anything: exactly the active matches of the search on that portal that were not seen, and of their listings those no active match is left for; all else stays. |
| `Listings.DeletingASearchKeepsExactlyWhen` | scrapyrealestate/scrapyrealestate/persistence/searches.py:286-291 | Deleting a search keeps it if and only if another search shows every listing it shows; "shown implies active" always survives. |
| `Ingestion.ReconcileVisibility` | scrapyrealestate/scrapyrealestate/persistence/listings.py:353-409 | A conclusive status leaves the search showing what it showed and was seen; an inconclusive one changes nothing. |
| `Ingestion.AttemptShowsTheBatch` | scrapyrealestate/scrapyrealestate/services/ingestion.py:86-112 | After a committed attempt the search shows on that portal exactly the batch (or the batch besides what it showed, if inconclusive), other searches and portals are untouched, the tallies add up to the batch, and `new` is the growth of the match table. |
| `IngestionCalls.TalliesCountTheOutcomes` | scrapyrealestate/scrapyrealestate/services/ingestion.py:87-93 | Each tally counts the listings that came out so. |
| `IngestionCalls.IdsAreInOrder` | scrapyrealestate/scrapyrealestate/services/ingestion.py:88-94 | The ids are those of the listings in the order of the batch. |
| `IngestionCalls.AttemptReportsTheBatch` | scrapyrealestate/scrapyrealestate/services/ingestion.py:79-112 | A listing of another portal refuses the batch; else it raises exactly when a listing does, and otherwise reports the batch and what the reconciliation with its ids hid. |
| `Ingestion.EventsSayWhatHappened` | scrapyrealestate/scrapyrealestate/services/ingestion.py:114-172 | The events of a listing are exactly: new when its match was new, reappearance when it was inactive, drop or increase when the price is below or above the previous one; each exists afterwards. |
| `IngestionCalls.CreatedEventsSpelledOut` | scrapyrealestate/scrapyrealestate/services/ingestion.py:114-196 | Every event a listing adds belongs to the search and the listing, carries its time and price, and its kind agrees with its key and with the price the history held before: a drop is from a higher one. |
| `IngestionCalls.BatchEventsTellOfItsListings` | scrapyrealestate/scrapyrealestate/services/ingestion.py:91-99 | Every event a batch adds tells so of one of its listings, under the id reported for it, and changes no event there was. |
| `Ingestion.SettledItemReplays` | scrapyrealestate/scrapyrealestate/services/ingestion.py:91-99 | A listing whose traces are all there is ingested again without effect. |
| `Ingestion.ReplayChangesNothing` | scrapyrealestate/scrapyrealestate/services/ingestion.py:86-196 | A committed batch of distinct listings, delivered again at any time, leaves listings, matches, prices, events and attempts as they are, and everything comes out unchanged. |
| `IngestionRuns.RunKeeps` | scrapyrealestate/scrapyrealestate/services/ingestion.py:86-112 | Over every run identity stays unique and there is one event per key; without deletions of searches a listing is active exactly when shown. |
| `IngestionRuns.RunFromEmptyTables` | scrapyrealestate/scrapyrealestate/services/ingestion.py:86-112 | So it is from empty tables on. |
| `IngestionRuns.DeletingSpelledOut` | scrapyrealestate/scrapyrealestate/persistence/searches.py:286-291 | Deleting a search leaves exactly the matches, events, attempts, assignments and preferences of the others, and all listings and prices. |
| `IngestionRuns.QueueIsUntouchedExactlyWhenAllIsKnown` | scrapyrealestate/scrapyrealestate/services/ingestion.py:114-172 | A search that meets a listing for the first time leaves the queue as it is if and only if the listing has been announced, and so has the price it moved to, if it moved. |
| `IngestionRuns.MovedPriceIsAnnounced` | scrapyrealestate/scrapyrealestate/services/ingestion.py:148-171 | A second search that meets a known listing at a price not announced before announces the move. |
| `IngestionServices.ListingMatchRepository.IngestLocked` | scrapyrealestate/scrapyrealestate/persistence/listings.py:279-333 | The method finds, upserts and matches as the specification function does; when it raises, the listing is written exactly if only its match was refused. |
| `IngestionServices.ListingMatchRepository.ReconcilePortalLocked` | scrapyrealestate/scrapyrealestate/persistence/listings.py:353-409 | The loop over missing listings hides exactly those that no search shows any more. |
| `IngestionServices.PriceHistoryRepository.Record` | scrapyrealestate/scrapyrealestate/persistence/prices.py:34-81 | The method records an observation once, and raises on a different price for the same one. |
| `IngestionServices.IngestionService.EventsFor` | scrapyrealestate/scrapyrealestate/services/ingestion.py:114-172 | Visibility event first, then the price and its event; when it raises, what was written before stays until the rollback. |
| `IngestionServices.IngestionService.IngestAttempt` | scrapyrealestate/scrapyrealestate/services/ingestion.py:65-112 | The batch commits as a whole, or the call raises and every table is as before. |
| `IngestionDelivery.AttemptIsARunOfCreates` | scrapyrealestate/scrapyrealestate/services/ingestion.py:174-196 | What a committed attempt does to the queue is a run of event creations, so the delivery invariant survives ingestion. |
| `DuplicateMatching.SimilarPrices` | scrapyrealestate/scrapyrealestate/domain/duplicate_matching.py:96-103 | Prices are similar exactly when they differ by at most 3% of the greater. |
| `DuplicateMatching.SimilarAreas` | scrapyrealestate/scrapyrealestate/domain/duplicate_matching.py:106-121 | Areas are similar exactly when they differ by at most 3 square metres or 5% of the greater. |
| `DuplicateMatching.DiceIsASimilarity` | scrapyrealestate/scrapyrealestate/domain/duplicate_matching.py:85-93 | Title similarity lies in [0, 1], is symmetric, and is 1 exactly for equal token sets. |
| `DuplicateScoring.ScorePair` | scrapyrealestate/scrapyrealestate/services/duplicate_candidates.py:54-156 | The accumulating scorer returns score, gates, confidence and reasons, with their differences and similarity, of the closed form. |
| `DuplicateEvidence.LocationSpelledOut` | scrapyrealestate/scrapyrealestate/services/duplicate_candidates.py:60-65 | Locations match when both are known with the same tokens, at least one. |
| `DuplicateEvidence.NeighbourhoodSpelledOut` | scrapyrealestate/scrapyrealestate/services/duplicate_candidates.py:264-269 | Neighbourhoods agree or differ only when both are known and have tokens. |
| `DuplicateEvidence.AddressSpelledOut` | scrapyrealestate/scrapyrealestate/services/duplicate_candidates.py:246-261 | An address matches when both listings give street and number and the words of the streets and the tokens of the numbers are the same; it conflicts when both give them and either differs. |
| `DuplicateEvidence.DifferentAddressesExclude` | scrapyrealestate/scrapyrealestate/services/duplicate_candidates.py:67-70 | Different numbers of one street, and different streets, are never eligible. |
| `DuplicateEvidence.HighMeansSameStreetAndNumber` | scrapyrealestate/scrapyrealestate/services/duplicate_candidates.py:150-150 | High confidence means the same street and the same number. |
| `DuplicateEvidence.TitlesSpelledOut` | scrapyrealestate/scrapyrealestate/services/duplicate_candidates.py:111-112 | Similarity is known when both titles have words, and is twice the shared over all words; long titles have three each. |
| `DuplicateEvidence.StructureSpelledOut` | scrapyrealestate/scrapyrealestate/services/duplicate_candidates.py:77-109 | When property types, rooms, areas and prices match and when they are unknown, in numbers. |
| `DuplicateEvidence.DifferencesSpelledOut` | scrapyrealestate/scrapyrealestate/services/duplicate_candidates.py:289-294 | The differences shown are those of the greater value. |
| `DuplicateEvidence.ReasonsSpelledOut` | scrapyrealestate/scrapyrealestate/services/duplicate_candidates.py:227-243 | The reasons one by one, with verdict and weight. |
| `DuplicateEvidence.ConflictsAndGateSpelledOut` | scrapyrealestate/scrapyrealestate/services/duplicate_candidates.py:132-149 | After them the conflicts, if any, and the gate, if not passed. |
| `DuplicateEvidence.ConflictsSpelledOut` | scrapyrealestate/scrapyrealestate/services/duplicate_candidates.py:57-109 | Each conflict is named exactly when it occurred. |
| `DuplicateEvidence.DetailsSpelledOut` | scrapyrealestate/scrapyrealestate/services/duplicate_candidates.py:90-122 | Details are the nearest tenth of a percent and ten-thousandth. |
| `DuplicateEvidence.NearestIsClose` | scrapyrealestate/scrapyrealestate/services/duplicate_candidates.py:119-130 | Rounding takes the nearest integer and, of two, the even one. |
| `DuplicateEvidence.RoundedIsTenThousandths` | scrapyrealestate/scrapyrealestate/services/duplicate_candidates.py:130-130 | A score is the nearest whole number of ten-thousandths. |
| `DuplicateScoring.ScoreIsSymmetric` | scrapyrealestate/scrapyrealestate/services/duplicate_candidates.py:54-156 | Swapping the two listings changes nothing, to the last reason. |
| `DuplicateScoring.ScoreIsAFraction` | scrapyrealestate/scrapyrealestate/services/duplicate_candidates.py:130-130 | The weights add up to one: a score lies in [0, 1], is never cut off, and is full exactly when everything matches. |
| `DuplicateScoring.AddresslessEligibility` | scrapyrealestate/scrapyrealestate/services/duplicate_candidates.py:124-131 | Without both addresses a pair is eligible if and only if location, neighbourhood and known property type agree, bedrooms, area and price match, and distinctive titles are at least 0.8 similar. |
| `DuplicateEvidence.AddresslessVerdict` | scrapyrealestate/scrapyrealestate/services/duplicate_candidates.py:54-156 | The same in terms of the columns and the tokens of their texts, as one equivalence. |
| `DuplicateScoring.AddressEligibility` | scrapyrealestate/scrapyrealestate/services/duplicate_candidates.py:124-131 | With one exact address it is eligible if and only if nothing conflicts and the other evidence is worth six points, or five or four with a sufficiently similar title. |
| `DuplicateEvidence.HighSpelledOut` | scrapyrealestate/scrapyrealestate/services/duplicate_candidates.py:150-150 | With one exact address, confidence is high exactly when the pair is eligible and the weights reach 0.85. |
| `DuplicateScoring.HighMeansExactAddress` | scrapyrealestate/scrapyrealestate/services/duplicate_candidates.py:150-150 | High confidence means an exact address match; a known and different address excludes a pair. |
| `DuplicateScoring.ReasonsAddUp` | scrapyrealestate/scrapyrealestate/services/duplicate_candidates.py:227-243 | The contributions of the reasons add up to the score, within two roundings. |
| `DuplicateNarrowing.AreaWindowIsExact` | scrapyrealestate/scrapyrealestate/persistence/duplicates.py:174-199 | All areas similar to the source's lie in a window if and only if the window reaches 3 square metres and a nineteenth of the area. |
| `DuplicateNarrowing.DefaultAreaWindowIsExact` | scrapyrealestate/scrapyrealestate/persistence/duplicates.py:174-199 | All areas similar to the source's lie in its 15% window if and only if it is at least 20 square metres. |
| `DuplicateNarrowing.EligibleIsNarrowed` | scrapyrealestate/scrapyrealestate/persistence/duplicates.py:155-203 | Of comparable and eligible rows, the query admits exactly those in the area window. |
| `DuplicateNarrowing.NarrowingIsExact` | scrapyrealestate/scrapyrealestate/persistence/duplicates.py:155-203 | A source whose pool is under the limit finds exactly the comparable and eligible rows in its window, which is all of them from 20 square metres or with unknown area. |
| `DuplicateNarrowing.CollectedWhenFound` | scrapyrealestate/scrapyrealestate/services/duplicate_candidates.py:180-192 | A pair is collected exactly when one of the sources finds it, in either direction. |
| `DuplicateNarrowing.GeneratedAreAllDuplicates` | scrapyrealestate/scrapyrealestate/services/duplicate_candidates.py:177-197 | A pair is generated and eligible if and only if comparing every source with every listing finds it and one of the two is a source with the other in its area window; only the pools of these two must not be cut off. |
| `DuplicateNarrowing.WideSourceReachesItsDuplicates` | scrapyrealestate/scrapyrealestate/persistence/duplicates.py:155-203 | A source of 20 square metres or more, or of unknown area, has every duplicate of it in its window. |
| `DuplicateNarrowing.CutOffLosesTheOldest` | scrapyrealestate/scrapyrealestate/persistence/duplicates.py:178-179 | A pool over the limit loses only rows with lesser ids than all it keeps. |
| `DuplicateNarrowing.AddresslessMatchesAreStructural` | scrapyrealestate/scrapyrealestate/services/duplicate_candidates.py:208-224 | An eligible pair without both addresses has all four structural matches. |
| `DuplicateCalls.NoCaseSpelledOut` | scrapyrealestate/scrapyrealestate/persistence/duplicates.py:162-162 | Locations compare equal when they differ at most in the case of ASCII letters. |
| `DuplicateCalls.CandidatesSpelledOut` | scrapyrealestate/scrapyrealestate/persistence/duplicates.py:155-203 | The rows the query admits, condition by condition, in terms of the columns. |
| `DuplicateCalls.StructuralMatchesSpelledOut` | scrapyrealestate/scrapyrealestate/services/duplicate_candidates.py:208-224 | Two structural matches are some two of the four. |
| `DuplicateCalls.KeySpelledOut` | scrapyrealestate/scrapyrealestate/services/duplicate_candidates.py:29-31 | The key of a pair is its ids, the lesser first, either way round. |
| `DuplicateCalls.KeyOrderSpelledOut` | scrapyrealestate/scrapyrealestate/services/duplicate_candidates.py:194-194 | Generated pairs ascend by the lesser id, then the greater. |
| `DuplicateCalls.SourcesSpelledOut` | scrapyrealestate/scrapyrealestate/services/duplicate_candidates.py:178-179 | The sources are the first distinct ids in the order in which they first appear. |
| `DuplicateCandidates.DuplicateCandidateRepository.PotentialMatches` | scrapyrealestate/scrapyrealestate/persistence/duplicates.py:138-203 | The pool for any windows and limit, greatest id first, or the exception for a bad limit, a bad window or an unknown listing. |
| `DuplicateCandidates.DuplicateCandidateRepository.UpsertPair` | scrapyrealestate/scrapyrealestate/persistence/duplicates.py:205-260 | The group of the unordered pair takes the score and keeps its review state and members; every rejected argument, and an update time whose text sorts before the creation, changes nothing. |
| `DuplicateCandidates.DuplicateCandidateRepository.IsRejectedPair` | scrapyrealestate/scrapyrealestate/persistence/duplicates.py:325-333 | Whether the pair, in either order, has been rejected. |
| `DuplicateCandidates.DuplicateCandidateRepository.SetReviewState` | scrapyrealestate/scrapyrealestate/persistence/duplicates.py:293-323 | A decision is taken once, and not at a time whose text sorts before the creation; any other call raises and changes nothing. |
| `DuplicateCandidates.DuplicateCandidateGenerator.Generate` | scrapyrealestate/scrapyrealestate/services/duplicate_candidates.py:177-197 | Each collected pair once, in key order, for the first sources; it raises exactly when one of them does not exist. |
| `DuplicateCandidates.ProcessPairs` | scrapyrealestate/scrapyrealestate/services/duplicate_worker.py:109-120 | Pairs are stored one by one in key order; it raises exactly when one of them does, and those before the first such pair stay stored. |
| `DuplicateCandidates.ProcessBatch` | scrapyrealestate/scrapyrealestate/services/duplicate_worker.py:102-120 | A batch with an unknown source raises and changes nothing; otherwise the groups are those of the specification, and it raises exactly when a pair does. |
| `DuplicateGroups.BatchGroupsExactlyTheDuplicates` | scrapyrealestate/scrapyrealestate/services/duplicate_worker.py:102-120 | A batch scores exactly the pairs brute force would find from its sources, that nobody rejected, and that come before a pair that raises; every other group stays as it is. |
| `DuplicateGroups.BlockedOnlyInTheFullSecond` | scrapyrealestate/scrapyrealestate/persistence/duplicates.py:231-244 | A pair raises, at a time no earlier than its group was created, exactly in the rest of the second of a creation on a full second. |
| `DuplicateGroups.BatchIsIdempotent` | scrapyrealestate/scrapyrealestate/services/duplicate_worker.py:102-120 | Processing a batch that went through again, at any times, changes nothing but when groups were last updated. |
| `DuplicateGroups.RunKeeps` | scrapyrealestate/scrapyrealestate/persistence/duplicates.py:205-323 | Over any batches and reviews every group carries score and reasons of one eligible comparison, and decisions, members and rejected groups stay as they are. |
| `DuplicateCalls.RescoringSpelledOut` | scrapyrealestate/scrapyrealestate/persistence/duplicates.py:231-260 | A scored pair keeps decision, creation and members; a new one is pending, begins now, and has its two listings as members; no other group changes. |
| `DuplicateCalls.DecisionSpelledOut` | scrapyrealestate/scrapyrealestate/persistence/duplicates.py:293-323 | A decision stores the state and time asked for, on that group alone, and is accepted exactly for a pending group at a time not before its creation. |
| `DuplicateCalls.RejectionSpelledOut` | scrapyrealestate/scrapyrealestate/persistence/duplicates.py:325-333 | A pair is rejected, either way round, exactly when its group is. |
| `DuplicateCalls.ConfidenceSpelledOut` | scrapyrealestate/scrapyrealestate/persistence/duplicates.py:94-96 | The confidence of a group is high from 0.85 on. |
| `DuplicateGroups.HighGroupHasExactAddress` | scrapyrealestate/scrapyrealestate/persistence/duplicates.py:94-96 | A stored group of high confidence had an exact address match when it was last scored. |
| `DuplicateWorker.EveryAcceptedBatchIsProcessedOnce` | scrapyrealestate/scrapyrealestate/services/duplicate_worker.py:47-99 | In every interleaving, batches are processed once and in the order accepted, all of them before the worker stops or an idle wait returns; with the lock free the counter is what is queued or in processing, and it is never negative. |
| `DuplicateWorker.StartInsideShutdownLosesABatch` | scrapyrealestate/scrapyrealestate/services/duplicate_worker.py:66-75 | Started between the two halves of a shutdown, at any capacity, the worker ends and a batch is still accepted and never processed. |
| `DuplicateWorker.StartIsSafeExactlyOutsideShutdown` | scrapyrealestate/scrapyrealestate/services/duplicate_worker.py:35-75 | Every continuation of a start has processed all accepted batches when the worker stops if and only if no shutdown is between its halves. |
| `DuplicateWorker.UnsafeStartIsReachable` | scrapyrealestate/scrapyrealestate/services/duplicate_worker.py:66-75 | A state in which a start is unsafe is reached from the beginning. |
| `DuplicateWorker.ClosedAcceptsNothing` | scrapyrealestate/scrapyrealestate/services/duplicate_worker.py:62-68 | Once the intake is closed no batch is accepted, whatever threads do, unless the worker is started. |
| `DuplicateWorker.SubmittingSpelledOut` | scrapyrealestate/scrapyrealestate/services/duplicate_worker.py:47-60 | A batch is accepted exactly when the intake is open, it is not empty and the queue has room. |
| `DuplicateWorker.WorkingSpelledOut` | scrapyrealestate/scrapyrealestate/services/duplicate_worker.py:86-99 | The worker takes batches from the front and counts each down once, after processing it. |
| `DuplicateWorker.OwnActionsSpelledOut` | scrapyrealestate/scrapyrealestate/services/duplicate_worker.py:86-99 | Left alone, the worker takes, processes and counts down the first batch, ends at a stop marker, and waits on an empty queue. |
| `DuplicateWorker.RunKeeps` | scrapyrealestate/scrapyrealestate/services/duplicate_worker.py:35-99 | Every step of starting, submitting, closing, shutting down and working keeps the counting invariant. |
| `DuplicateWorker.DuplicateCandidateWorker.Submit` | scrapyrealestate/scrapyrealestate/services/duplicate_worker.py:47-60 | A batch is accepted unless closed or full, with repeated ids dropped; an empty one without queueing. |
| `DuplicateWorker.DuplicateCandidateWorker.Drain` | scrapyrealestate/scrapyrealestate/services/duplicate_worker.py:81-99 | While nobody submits, the loop processes exactly the queued batches, in order, up to the stop marker. |
| `DuplicateWorker.DuplicateCandidateWorker.WorkAmid` | scrapyrealestate/scrapyrealestate/services/duplicate_worker.py:81-99 | With other threads acting before each of its steps, the loop and they make one run, and everything accepted has been processed when it reaches its stop marker. |
| `Scheduler.RespectsIsKept` | scrapyrealestate/scrapyrealestate/services/scheduler.py:130-201 | Every step keeps deadlines, in memory and on disk, at their distance from every past dispatch. |
| `Scheduler.ApplyKeeps` | scrapyrealestate/scrapyrealestate/services/scheduler.py:130-201 | Every step keeps the spacing invariant. |
| `Scheduler.DispatchesAreSpaced` | scrapyrealestate/scrapyrealestate/services/scheduler.py:164-201 | Over every run two dispatches of a search are an interval apart within an epoch, resets included, and more than an interval less 1 ms across restarts. |
| `Scheduler.WindowIsBounded` | scrapyrealestate/scrapyrealestate/services/scheduler.py:164-201 | A window of length W holds at most W / I + 1 dispatches of a search within an epoch. |
| `Scheduler.RefreshSpelledOut` | scrapyrealestate/scrapyrealestate/services/scheduler.py:130-162 | A load takes each stored deadline as it is and writes nothing; a missing deadline, and with a reset every one, becomes exactly one interval from now. |
| `SchedulerPasses.PassedEntries` | scrapyrealestate/scrapyrealestate/services/scheduler.py:175-192 | A pass moves each dispatched search to one interval after the clock reading and no other. |
| `SchedulerPasses.ImmediateRepeatDispatchesNothing` | scrapyrealestate/scrapyrealestate/services/scheduler.py:164-201 | Right after a pass that was neither stopped nor raised nothing is due at the same clock reading. |
| `SchedulerPasses.PassIsARun` | scrapyrealestate/scrapyrealestate/services/scheduler.py:175-201 | A pass of the object is a run of dispatch actions with the same rows, deadlines and log. |
| `SchedulerPasses.PassIsAllowed` | scrapyrealestate/scrapyrealestate/services/scheduler.py:175-201 | Each of them is allowed where it happens, so the spacing results hold of the object. |
| `SchedulerPasses.StillDue` | scrapyrealestate/scrapyrealestate/services/scheduler.py:180-182 | A due search is still due when its turn comes, and if its row is there dispatching it continues the pass. |
| `SchedulerPasses.PassDispatchesInOrder` | scrapyrealestate/scrapyrealestate/services/scheduler.py:164-201 | A pass dispatches a prefix of what is due in (deadline, id) order, all of it unless stopped; it raises exactly when it comes to a search whose row is gone. |
| `SchedulerPasses.PassReportsExactlyWhatIsDue` | scrapyrealestate/scrapyrealestate/services/scheduler.py:164-201 | In terms of the entries: what a pass reports was due, once each in the order of deadline and id, and nothing due is missing unless the pass was stopped. |
| `SchedulerPasses.PassMovesExactlyWhatIsDue` | scrapyrealestate/scrapyrealestate/services/scheduler.py:183-192 | A pass leaves a search as it was, or it was due and its deadline is one interval on, on disk to the millisecond and with the deadline it met. |
| `SchedulerPasses.TimeoutIsNearestDeadline` | scrapyrealestate/scrapyrealestate/services/scheduler.py:218-225 | The loop sleeps until something is due and past no deadline, or without end when there is none. |
| `InProcessSchedulers.InProcessScheduler.Refresh` | scrapyrealestate/scrapyrealestate/services/scheduler.py:130-162 | The loop over enabled searches loads or recomputes each deadline and writes recomputed ones back, truncated. |
| `InProcessSchedulers.InProcessScheduler.RunDue` | scrapyrealestate/scrapyrealestate/services/scheduler.py:164-201 | The loop does what a pass does: it dispatches what is due once each in order, stops on request, and raises at a deleted search with those before it dispatched. |
| `InProcessSchedulers.InProcessScheduler.Turn` | scrapyrealestate/scrapyrealestate/services/scheduler.py:203-231 | A turn of the loop refreshes if asked, makes a pass, and returns, repeats, waits or dies of an exception, as the specification function says. |
| `SchedulerLoop.FirstTurnLoadsStoredDeadlines` | scrapyrealestate/scrapyrealestate/services/scheduler.py:90-103 | The first turn after a start takes the stored deadlines as they are and recomputes only missing ones. |
| `SchedulerLoop.StopIsFinal` | scrapyrealestate/scrapyrealestate/services/scheduler.py:117-121 | After a stop request, until the scheduler is started again and whatever else happens, every turn returns and writes no deadline and no row. |
| `SchedulerLoop.StopDuringATurnReturns` | scrapyrealestate/scrapyrealestate/services/scheduler.py:203-217 | A stop requested during a turn ends it with a return, unless it dies first. |
| `SchedulerLoop.NotificationIsServed` | scrapyrealestate/scrapyrealestate/services/scheduler.py:123-128 | A change notified between turns is served by the next turn, whatever happens in between: it recomputes every deadline of the table as it then is. |
| `SchedulerLoop.NotificationDuringATurnIsServed` | scrapyrealestate/scrapyrealestate/services/scheduler.py:203-219 | A change notified during a turn does not let it sleep; it repeats at once and the next turn recomputes. |
| `SchedulerLoop.WaitingLeavesNothingDue` | scrapyrealestate/scrapyrealestate/services/scheduler.py:203-231 | A turn waits exactly when not stopped, not dead and told of no change, and then nothing is due any more at its clock reading. |
| `SchedulerLoop.TurnIsARun` | scrapyrealestate/scrapyrealestate/services/scheduler.py:130-217 | A turn is a run of a refresh and dispatches, each allowed where it happens, so the spacing results hold of the loop. |
| `NumberRoundTrip.GroupedShape` | scrapyrealestate/scrapyrealestate/notifiers/formatting.py:94-95 | A grouped number starts with a digit and has three digits after its last separator. |
| `NumberRoundTrip.GroupedSpells` | scrapyrealestate/scrapyrealestate/notifiers/formatting.py:94-95 | Without its separators it spells the number. |
| `NumberRoundTrip.EveryFourthSeparates` | scrapyrealestate/scrapyrealestate/notifiers/formatting.py:94-95 | From the right, exactly every fourth character of a grouped number is the separator. |
| `NumberRoundTrip.NoZeroInFront` | scrapyrealestate/scrapyrealestate/notifiers/formatting.py:94-95 | A printed number has no zero in front of it. |
| `NumberRoundTrip.PrintedEurosParseBack` | scrapyrealestate/scrapyrealestate/domain/normalization.py:29-67 | Parsing the text printed for n euros gives n if n < 10^28, and raises for every greater n. |
| `NumberRoundTrip.SignedEurosParse` | scrapyrealestate/scrapyrealestate/domain/normalization.py:33-67 | With a minus in front the printed amount is refused unless it is zero; a plus changes nothing, the bound of 10^28 included. |
| `NumberRoundTrip.AmountIsDecimal` | scrapyrealestate/scrapyrealestate/domain/normalization.py:37-47 | Of the two separators the parser takes the one before the two decimals for the decimal one. |
| `NumberRoundTrip.AmountParses` | scrapyrealestate/scrapyrealestate/domain/normalization.py:29-67 | An amount of euros and cents in either grouping parses to its half-up whole euros, or raises from 10^28 on. |
| `NumberRoundTrip.SpellingsAgree` | scrapyrealestate/scrapyrealestate/domain/normalization.py:37-54 | The Spanish and the English spelling of one amount parse alike. |
| `NumberParsing.DecimalSeparatorSpelledOut` | scrapyrealestate/scrapyrealestate/domain/normalization.py:37-47 | The last separator is the decimal one exactly when one or two characters follow it and the other separator occurs too or it is the only one of its kind. |
| `NumberParsing.PrefixIsSkipped` | scrapyrealestate/scrapyrealestate/domain/normalization.py:29-32 | Text without digits in front of a number changes nothing, unless it ends with a sign. |
| `NumberParsing.SuffixIsIgnored` | scrapyrealestate/scrapyrealestate/domain/normalization.py:29-32 | Only the first number of a text counts. |
| `NumberParsing.NoDigitsNoPrice` | scrapyrealestate/scrapyrealestate/domain/normalization.py:29-31 | A text without digits has no price. |
| `NumberParsing.SignsSpelledOut` | scrapyrealestate/scrapyrealestate/domain/normalization.py:33-66 | A minus refuses every printed amount but zero, a plus none. |
| `NumberParsing.BoundSpelledOut` | scrapyrealestate/scrapyrealestate/domain/normalization.py:67-67 | The bound above which rounding raises is a one with 28 zeros. |
| `NumberParsing.SpacesSpelledOut` | scrapyrealestate/scrapyrealestate/domain/normalization.py:11-32 | The characters that count as spaces within a number. |
| `NumberParsing.LabelledEurosParse` | scrapyrealestate/scrapyrealestate/domain/normalization.py:29-67 | A printed amount parses back with a label before it and a remark after it. |
| `NumberParsing.WholeGroupingsParse` | scrapyrealestate/scrapyrealestate/domain/normalization.py:37-54 | Whole euros parse alike grouped by points or by commas. |
| `NumberParsing.SpaceGroupingParses` | scrapyrealestate/scrapyrealestate/domain/normalization.py:32-32 | And grouped by spaces. |
| `NumberParsing.OneDecimalParses` | scrapyrealestate/scrapyrealestate/domain/normalization.py:37-67 | One decimal counts as tenths, rounded half up. |
| `Migrations.TransactAfterPrefix` | scrapyrealestate/scrapyrealestate/persistence/migrations/runner.py:58-67 | A migration commits right after its prefix; after any longer one its history row is refused. |
| `Migrations.ValidHistorySpelledOut` | scrapyrealestate/scrapyrealestate/persistence/migrations/runner.py:82-90 | A history is valid exactly when its versions run from 1 without a gap, within the list, and carry its names. |
| `Migrations.Database.Migrate` | scrapyrealestate/scrapyrealestate/persistence/migrations/runner.py:40-90 | The history ends as a prefix and the schema as the fold of exactly that prefix, complete or stopped before the migration that fails; a bad list or a history that does not match applies nothing. |
| `Migrations.StepKeepsConsistent` | scrapyrealestate/scrapyrealestate/persistence/migrations/runner.py:50-68 | Every step of any runner, crashes included, keeps history, schema and commit log in agreement. |
| `Migrations.RunsApplyExactlyOnce` | scrapyrealestate/scrapyrealestate/persistence/migrations/runner.py:50-90 | Over every run, with runners that overlap, each migration's effect is committed once and in order. |
| `Migrations.FreshDatabaseIsMigratedOnce` | scrapyrealestate/scrapyrealestate/persistence/migrations/runner.py:50-90 | From a fresh database, over every run: history and commits are exactly the first migrations, once and in order, and the schema is what they make of the initial one. |

## Left out

- Spiders, HTML parsing, proxies, browsers and subprocess control: network and operating-system behaviour.
- The web interface, templates, secret masking and redaction.
- Providers: whether a message was accepted is a parameter of a dispatch.
- Payloads, diagnostic texts, error categories and provider ids: opaque or omitted; so is the check that a claim token and an error category are not blank, and that numbers have number types.
- Floating point: weights, similarities, windows and back-off times are exact. The comparisons with 0.68 and 0.85 come after rounding to four decimals, which absorbs the error of adding the weights.
- SQLite itself: transactions are atomic, unique indexes and checks are enforced, and `datetime()` keeps seconds.
- Clocks: an ingestion batch has one clock reading for the attempts it queues, where the code reads the clock for each. Clock readings in delivery runs are arbitrary and need not increase.
- Deleting channels and events in delivery runs; deleting a search is modelled in ingestion runs.
- Scheduler.DispatchesAreSpaced: fixes an interval for each search over a run, so of `update_configuration` it models the cleared deadline and not a changed interval.
- A stored interval that is not positive, for which the scheduler raises: intervals are positive by their type.
- The executor that runs a search: it returns or its exception is swallowed, and neither touches a deadline.
- Threads of the scheduler: a stop request and a change notification that arrive during a pass are parameters of `RunDue` and `Turn`. That a search is deleted between the two statements of a refresh is not modelled.
- A database connection that fails when the duplicate worker starts.
- DuplicateCandidates.ProcessBatch: takes the rejection check and the upsert of a pair together, where the code makes them two transactions and a review may fall in between.
- Ids of duplicate groups, and the wording of the details of a reason: groups are found by their pair of listing ids, and a relative difference is a number of tenths of a percent.
- DuplicateCandidates.DuplicateCandidateGenerator.constructor: requires limits in range, where the code raises `ValueError` otherwise.
- Token normalization (Unicode decomposition, case folding, abbreviations): a parameter. URL canonicalization likewise precedes the model.
- Unicode digits and spaces other than those of the number pattern, and numbers given as numbers and not as text, in the price parser.
- Clearing of run and portal diagnostics in retention.
- Filter evaluation, run status records, pagination, the run lock and optimistic versions: true but easy.
