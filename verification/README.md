# A verified model of the chat backend's delivery and derived data

The backend keeps chats in Postgres, short-lived coordination state in Redis, and live connections in
gateway processes. This project models the parts in which several of these have to agree, and proves
that they do. Redis and Postgres are small abstract tables, hashes, sets and streams; one Lua script,
one SQL statement or one lock section is one atomic step. Clocks, random tokens, fresh ids, the order
in which an unordered collection is iterated and the success of a call to another service are
parameters, so every theorem holds for all of them.

| file | what it models |
|---|---|
| `ReadQueue.dfy`, `ReadStore.dfy`, `ReadPipeline.dfy` | read receipts: the coalescing window, the flush to three tables, and every interleaving of reports, claims, commits, failures and requeues |
| `ReadContents.dfy`, `ReadTimes.dfy` | what reports carry through the pipeline, the times at which reads were recorded, and deadlines |
| `GatewayStream.dfy`, `GatewayHandover.dfy`, `GatewayPasses.dfy` | the Redis Streams consumer group of a gateway: delivery, who is handed which entries, acknowledgement, and which entries a claim pass reclaims |
| `ConnectionRegistry.dfy`, `ConnectionManager.dfy` | the two registries of live connections, deferred eviction, and the local send |
| `VersionedCache.dfy` | the version-stamped read-through cache under concurrent readers and writers |
| `DeliveryMembers.dfy`, `DeliveryRouter.dfy` | keyset paging over a changing member table, and fan-out on write |
| `RouteKeys.dfy` | composite Redis keys and their parsers |
| `Reactions.dfy` | reaction rows, their counters, and the single and batch reads of groups |
| `SharedMedia.dfy` | pages of shared media merged from per-type lists |
| `LastWriter.dfy`, `ProfileProjection.dfy` | the profile row that two event streams write |
| `PrivacyPublication.dfy` | privacy settings from the commands that change them to the copy that decides |
| `PrivacyExceptions.dfy` | privacy exceptions, their snapshot, and the copy rebuilt from it |
| `PrivacyRules.dfy` | the privacy rule, its batch form, and the two direct-message checks |
| `Forwarding.dfy`, `AttachmentTypes.dfy` | message validation and chains of forwards |
| `TokenBucket.dfy` | the token bucket of the load tests |
| `Username.dfy`, `UsernameText.dfy` | username normalisation and generation, and what a name keeps of its text |
| `Ordering.dfy`, `Options.dfy` | ascending lists and optional values, shared by the others |

State machines have a total `Next`: an action that is not enabled leaves the state as it is, so a
theorem about `Run(actions)` is about every schedule. Classes carry the fields the source updates in
place, and their methods are proved against functions on values; the lemmas are about those functions.

Four natural claims are not true of the code as it stands. Each is refuted by a run and replaced by the
exact condition under which it holds:

- The reader query is meant to show when a message was first read, but the mark with the lowest sequence
  number need not be the earliest one. `docker-compose.yaml:52` starts two consumer processes, and each runs
  the read worker (`app/consumers.py:46-50`): one may commit a later claim of a key before the other commits
  an earlier one (`ReadTimes.TwoWorkersInvert`). Under a clock that never goes back and is read together with
  the enqueue, a set of workers is safe exactly if it has at most one member (`EarliestIffOneWorker`), and with
  any number of workers a key is safe as long as no two of them hold it at once (`FirstMarkIsEarliest`). The
  code reads the clock before it calls Redis (`app/chats/services/read_coalescer.py:66-74`); a report with an
  older reading that is enqueued late misleads the query even with one worker (`StaleReadingInverts`).
- A pass over the pending stream entries stops at the first page that claims nothing
  (`app/core/websocket/manager.py:453`), so it can leave entries behind that have been idle long enough
  (`GatewayPasses.PassMayLeaveIdle`). It reclaims an idle entry exactly if every page that begins at or before
  it has an idle entry among those it may look at, ten times the page size (`GatewayStream.PassComplete`).
- The connection limit can be exceeded when a newly registered connection is not its user's latest,
  because the newcomer is spared (`app/core/websocket/manager.py:138`, `ConnectionRegistry.LimitExceeded`).
  `RegisterBound` and `RegisterBoundByAge` say exactly when.
- A read through a key the caller chose can stay stale after the key was deleted
  (`VersionedCache.StaleAfterDelete`). `ExplicitKeyFresh` says exactly when all later reads are fresh. This is
  about the public methods of the repository class: within `app/` no caller passes a key of its own to
  `cache_with_key` or a name to `invalidate_cache`.

## Model

| member | source | states |
|---|---|---|
| `ReadQueue.ReportsCoalesce` | app/chats/services/read_coalescer.py:13-25 | a report not ahead of an earlier one of its key leaves no trace, not even in time or deadline, and two reports leave the same pending seq in either order |
| `ReadQueue.ClaimedKeysDistinct` | app/chats/services/read_coalescer.py:27-40 | one claim never carries two cursors for the same chat and user, as the multi-row upsert behind it requires |
| `ReadQueue.ReadReceiptCoalesceQueue.Enqueue` | app/chats/services/read_coalescer.py:57-84 | accepts exactly the cursors that are ahead of the pending one and keeps an existing deadline |
| `ReadQueue.ReadReceiptCoalesceQueue.ClaimDue` | app/chats/services/read_coalescer.py:86-107 | removes the due fields from both structures and returns exactly their payloads; other fields stay, and less than the limit is claimed only if nothing more is due |
| `ReadQueue.ReadReceiptCoalesceQueue.Requeue` | app/chats/services/read_coalescer.py:148-156 | enqueues the cursors in turn, each with the time of its own call |
| `ReadStore.FlushedReceipts` | app/chats/repositories/reads.py:48-77 | a batch decides every cursor against the table before the batch, and leaves other keys alone |
| `ReadStore.PhasesAgree` | app/chats/services/read_flusher.py:24-47 | upserting all cursors, then adding all marks, then publishing all events equals writing the batch cursor by cursor |
| `ReadStore.ReadReceiptRepository.MarkReadMany` | app/chats/repositories/reads.py:48-77 | writes the strictly greater cursors and returns exactly the keys that advanced |
| `ReadStore.ReadReceiptRepository.AddMarks` | app/chats/repositories/reads.py:79-89 | adds the rows in order, skipping those that exist |
| `ReadStore.ReadReceiptRepository.FirstMark` | app/chats/repositories/reads.py:98-108 | the mark with the lowest seq that covers the message, or none |
| `ReadStore.ReadReceiptRepository.CleanupMarksOlderThan` | app/chats/repositories/reads.py:129-146 | removes the picked expired marks, keeps the others in order, and returns how many rows went |
| `ReadStore.ReadReceiptFlusher.Flush` | app/chats/services/read_flusher.py:20-59 | all three tables are what flushing cursor by cursor gives; returns the number of keys that advanced |
| `ReadPipeline.MaximumIsDirect` | app/chats/tasks/read_coalescer.py:14-36 | in every schedule of any number of workers, the maximum over stored cursor, pending entry and cursors in flight is what writing every read directly stores |
| `ReadPipeline.DrainedIsDirect` | app/chats/tasks/read_coalescer.py:14-36 | once everything has drained, the cursor table equals the one that direct writes give |
| `ReadPipeline.Drains` | app/chats/services/read_coalescer.py:27-40 | one worker empties any window in ceil(pending / limit) ticks past the last deadline |
| `ReadPipeline.AlwaysDrains` | app/chats/tasks/read_coalescer.py:14-36 | from every reachable state, with workers in the middle of flushing or requeueing, a continuation without new reports empties everything and leaves the cursor table of direct writes |
| `ReadPipeline.EventsAndMarksIncrease` | app/chats/services/read_flusher.py:29-47 | per chat and reader, events and marks have strictly increasing seq in commit order and never exceed the cursor, also after cleanup |
| `ReadContents.NothingMadeUp` | app/chats/services/read_coalescer.py:57-84 | in every schedule each pending entry and cursor in flight carries the seq, wishes and time of one report of its key, or the time of a later requeue; what the tables gain was asked for, and what the stored cursors asked for they gain |
| `ReadContents.GreatestIsAnswered` | app/chats/services/read_flusher.py:29-47 | once drained, the greatest read of a key that was news ends as its last event if its reports asked for one and with a mark if they asked for one; otherwise nothing of the kind comes out |
| `ReadContents.ClaimedAfterWindow` | app/chats/services/read_coalescer.py:27-40 | nothing is claimed before a window has passed since a reading of the clock |
| `ReadTimes.FirstMarkIsEarliest` | app/chats/repositories/reads.py:98-108 | with any number of workers and a monotone clock, as long as no two workers hold the key at once, the first mark at or above a message is the earliest recorded read of it, whatever was cleaned up |
| `ReadTimes.EarliestIffOneWorker` | app/chats/tasks/read_coalescer.py:14-28 | whatever the schedule the first mark is the earliest, exactly for sets of at most one worker |
| `ReadTimes.TwoWorkersInvert` | app/chats/tasks/read_coalescer.py:14-28 | any two workers have a schedule after which the reader query names a later read although an earlier one is recorded |
| `ReadTimes.StaleReadingInverts` | app/chats/services/read_coalescer.py:66-74 | one worker and a clock reading older than its enqueue are enough for the query to name a later read |
| `ReadTimes.NeverPostponed` | app/chats/services/read_coalescer.py:22-24 | with any number of workers, whatever is pending can be claimed one window after its last report |
| `ReadPipeline.TickEffect` | app/chats/tasks/read_coalescer.py:15-28 | one tick, with the flush succeeding, failing before or failing after its commit, is a sequence of steps of the state machine |
| `ReadPipeline.RunTick` | app/chats/tasks/read_coalescer.py:15-28 | the task's code on the queue and the tables does what that sequence of steps does |
| `GatewayStream.ScanPage` | app/core/websocket/manager.py:437-446 | a claim page returns exactly the idle entries before its next cursor, and the cursor strictly advances |
| `GatewayStream.PassProgress` | app/core/websocket/manager.py:431-461 | a claim pass reclaims something exactly when fewer than ten times the page size of fresh entries precede an idle one |
| `GatewayStream.PassSound` | app/core/websocket/manager.py:431-461 | a pass reclaims idle entries only, none twice |
| `GatewayStream.PassComplete` | app/core/websocket/manager.py:431-461 | an entry is reclaimed in a pass exactly if it is idle and every page that begins at or before it has an idle entry within reach |
| `GatewayStream.ReachFromEverywhere` | app/core/websocket/manager.py:431-461 | an idle entry is reclaimed if from every position before it an idle entry is within reach of a page |
| `GatewayStream.FewFreshBefore` | app/core/websocket/manager.py:431-461 | an idle entry with fewer fresh entries before it than a page may look at is reclaimed |
| `GatewayStream.GatewayConsumer.ProcessEntries` | app/core/websocket/manager.py:463-484 | acknowledges exactly the entries whose processing did not raise |
| `GatewayStream.GatewayConsumer.ClaimPendingEntries` | app/core/websocket/manager.py:431-461 | terminates, reclaims exactly those entries, acknowledges the successful ones and leaves the others pending afresh |
| `GatewayStream.AtLeastOnce` | app/core/websocket/manager.py:376-404 | in every interleaving of producers, readers, claimers and crashes an entry is in exactly one of undelivered, pending and acknowledged, and acknowledged only after it was handed over or found expired |
| `GatewayHandover.ReadHandsOver` | app/core/websocket/manager.py:384-402 | a read hands its task exactly the entries it moves from undelivered to pending, the next `count` or all that are left |
| `GatewayHandover.ClaimHandsOver` | app/core/websocket/manager.py:436-450 | a claim hands its task entries that have been idle long enough, at most `count`, and stamps exactly those |
| `GatewayHandover.ClaimTakesIdle` | app/core/websocket/manager.py:436-450 | if everything from its cursor on is idle, a claim takes all of it or `count` entries |
| `GatewayHandover.FinishedOnce` | app/core/websocket/manager.py:513-519 | an entry is handed to the local connections exactly if its processing does not raise and it has not expired |
| `GatewayHandover.NobodysEntries` | app/core/websocket/manager.py:463-484 | as long as no task dies, every pending entry is in the batch of a live task or has raised in an acknowledged batch |
| `GatewayStream.LeavesPendingOnlyBySuccess` | app/core/websocket/manager.py:472-484 | an entry leaves the pending list only by the acknowledgement of a finished batch in which it did not raise |
| `GatewayPasses.StaysReclaimable` | app/core/websocket/manager.py:431-461 | after any run, a pass from the beginning reclaims a pending entry exactly under that condition, and every pending entry once nothing has been delivered for the idle time |
| `GatewayPasses.PassMayLeaveIdle` | app/core/websocket/manager.py:453-454 | for every page size there is a run after which a pass leaves an entry behind that has been idle long enough |
| `GatewayPasses.PageEffect` | app/core/websocket/manager.py:463-484 | claiming a page, processing its entries and acknowledging is one claim step, one step per entry and one acknowledgement |
| `GatewayPasses.WholePass` | app/core/websocket/manager.py:431-461 | after any run an undisturbed pass is a sequence of steps with the effect of `ClaimPendingEntries` |
| `ConnectionRegistry.AlwaysMutual` | app/core/websocket/manager.py:113-121 | in every interleaving of the lock sections the two registries are inverse and no user set is empty |
| `ConnectionRegistry.RemovedMutual` | app/core/websocket/manager.py:161-167 | unregistering keeps the registries inverse and removes the connection from its user only |
| `ConnectionRegistry.RegisterBound` | app/core/websocket/manager.py:119-146 | a registration leaves more unmarked connections than allowed exactly when the newcomer is among the stale ones and so is every eviction already decided |
| `ConnectionRegistry.RegisterBoundByAge` | app/core/websocket/manager.py:119-146 | for distinct times: the limit is kept exactly when the newcomer, or a connection already to be evicted, has fewer than the limit of newer ones |
| `ConnectionRegistry.LimitExceeded` | app/core/websocket/manager.py:137-139 | with a limit of two, a third connection that began before the others leaves three of which none is to be evicted |
| `ConnectionRegistry.NeverOverLimit` | app/core/websocket/manager.py:109-146 | if each newcomer is its user's latest, no user ever has more than the limit of connections not marked for eviction |
| `ConnectionManager.Manager.Register` | app/core/websocket/manager.py:109-129 | adds the connection to both registries and picks exactly the overflow of oldest connections |
| `ConnectionManager.Manager.Unregister` | app/core/websocket/manager.py:154-171 | removes the connection from both registries and clears its subscriptions |
| `ConnectionManager.Manager.Subscribe` | app/core/websocket/manager.py:202-204 | deliveries of the channel that ask for a subscription reach the connection from then on; nothing else changes |
| `ConnectionManager.Manager.Unsubscribe` | app/core/websocket/manager.py:218-220 | deliveries of the channel that ask for a subscription no longer reach the connection; nothing else changes |
| `ConnectionManager.Manager.Targets` | app/core/websocket/manager.py:229-240 | lists each matching connection once per mention of its user, and nothing else |
| `ConnectionManager.Manager.SendToUsersLocal` | app/core/websocket/manager.py:229-275 | each matching connection gets one frame per mention as far as its queue has room, exactly the others are refused, and no other queue changes |
| `ConnectionManager.Manager.SendToConnections` | app/core/websocket/manager.py:244-253 | whatever happened since the connections were picked, each gets one frame per occurrence as far as its queue has room, and exactly the others are refused |
| `ConnectionManager.Manager.OnceEach` | app/core/websocket/manager.py:234-240 | with distinct recipients a matching connection is addressed exactly once and no other at all |
| `ConnectionManager.WSConnection.TrySend` | app/core/websocket/websocket.py:111-123 | a closed connection or a full queue refuses the frame and is unchanged |
| `VersionedCache.CacheRepository.Cache` | app/core/db/repository.py:135-146 | an undisturbed call returns and stores what a reader does by starting and hitting, or by missing, computing and storing |
| `VersionedCache.CacheRepository.InvalidateCache` | app/core/db/repository.py:188-192 | without names it is the step that increments the version, with names the step that deletes just those keys |
| `VersionedCache.NeverStale` | app/core/db/repository.py:101-146 | in every interleaving a read through the version stamp returns a value of its own call, no older than the last commit an invalidation had covered when the read started |
| `VersionedCache.NeverFromTheFuture` | app/core/db/repository.py:101-146 | no cached or returned value is from a commit that has yet to happen |
| `VersionedCache.FloorIsLastInvalidation` | app/core/db/repository.py:188-192 | what an invalidation covers is every commit before it |
| `VersionedCache.ExplicitKeyFresh` | app/core/db/repository.py:116-133 | after deleting an explicit key all later reads are fresh exactly when no reader of the key holds an older computed value it has yet to store |
| `VersionedCache.DeletedKeyFresh` | app/core/db/repository.py:188-192 | deleting keys makes later reads of each of them fresh exactly when no reader holds an older value of it |
| `VersionedCache.StaleAfterDelete` | app/core/db/repository.py:116-133 | a run from the empty store after which a deleted key will be filled with a stale value |
| `DeliveryMembers.QueryPage` | app/chats/repositories/chat.py:317-332 | a page has the next eligible members in order, none left out before its last one |
| `DeliveryMembers.EligibleMeans` | app/chats/repositories/chat.py:317-332 | eligible is a member without a running ban who has one of the wanted roles, if roles are asked for |
| `DeliveryMembers.IterDeliveryMembers` | app/chats/repositories/chat.py:309-339 | while members join, leave or are banned between queries: ids strictly increase, only members seen eligible are yielded, everyone who stays eligible is, and it ends |
| `DeliveryRouter.Chunks` | app/chats/dtos/delivery.py:129-143 | splits without loss into full batches and one shorter last one; refuses a size that is not positive |
| `DeliveryRouter.LookupOnlineRoutes` | app/chats/services/delivery_router.py:314-343 | exactly the pairs of gateway and user with a well-formed route, and no gateway without users |
| `DeliveryRouter.OfflineRecipients` | app/chats/services/delivery_router.py:280-291 | in order and without repeats, the looked-up users on no gateway, without the sender |
| `DeliveryRouter.EnqueueGatewayDeliveries` | app/chats/services/delivery_router.py:390-430 | each pair of the route map in exactly one new entry, no other pair, no entry empty or above the limit |
| `DeliveryRouter.FanOut` | app/chats/services/delivery_router.py:176-206 | over any pages in order, each gateway of each member who is not excluded exactly once, and the offline members in order |
| `DeliveryRouter.RouteFanoutOnWrite` | app/chats/services/delivery_router.py:168-206 | for fixed tables, each pair of gateway and active, not excluded, routed member is in exactly one entry and no other pair is; the signal is sent exactly when there are offline members and lists exactly those |
| `DeliveryRouter.Route` | app/chats/services/delivery_router.py:113-206 | for every call: each member who is not banned, except a typing author, is addressed once on each gateway with a well-formed route and nobody else is; only a sent message that notifies is signalled, with exactly the members who are neither banned, muted, the sender nor on a well-formed route |
| `DeliveryRouter.SignalNamesRouteless` | app/chats/services/delivery_router.py:176-195 | no call both signals and excludes members, so a signal never takes an excluded online member for offline |
| `RouteKeys.PrintIntParses` | app/chats/keys.py:30-41 | a printed integer parses back and contains no separator |
| `RouteKeys.CoalesceFieldRoundTrip` | app/chats/keys.py:30-41 | parsing a printed field gives back chat and user exactly when the chat id is not empty, separators or not |
| `RouteKeys.ParsedFieldMeans` | app/chats/keys.py:33-41 | whatever parses is a chat id that is not empty, a separator, and the text of the user id |
| `RouteKeys.CoalesceFieldInjective` | app/chats/keys.py:30-31 | different pairs of chat and user never share a field |
| `RouteKeys.ParsedClaimDistinct` | app/chats/services/read_coalescer.py:96-107 | the cursors parsed from the distinct fields of a claim are those that were printed, no two for the same chat and user |
| `RouteKeys.UserRouteRoundTrip` | app/chats/services/delivery_router.py:331-335 | a user route leads back to its gateway exactly when the gateway id is not empty and has no separator and the connection id is not empty |
| `RouteKeys.GatewayOfMeans` | app/chats/services/delivery_router.py:331-335 | a route leads to a gateway exactly if it begins with that gateway id and a separator and goes on, whatever it is |
| `RouteKeys.ActiveSubscriptionRouteRoundTrip` | app/chats/services/delivery_router.py:449-457 | user, gateway and connection are recovered under exactly the same condition |
| `RouteKeys.ParsedRouteMeans` | app/chats/services/delivery_router.py:449-457 | whatever parses is the text of a user id, a gateway and a connection with separators between |
| `Reactions.AddCounted` | app/chats/repositories/reaction.py:87-119 | adding keeps every counter right and returns the number of reactors, or nothing if the reaction was there |
| `Reactions.RemoveCounted` | app/chats/repositories/reaction.py:121-149 | removing keeps every counter right, drops a counter with its last reaction and returns the number left |
| `Reactions.RecountRepairs` | app/chats/repositories/reaction.py:307-325 | whatever the counters were, recounting makes those of its message right and leaves the others; right counters do not change |
| `Reactions.AlwaysCounted` | app/chats/repositories/reaction.py:87-178 | after any sequence of operations a counter exists exactly for each reacted emoji and counts its reactors |
| `Reactions.CountersDetermined` | app/chats/repositories/reaction.py:25-60 | the rows determine the counters |
| `Reactions.GroupsShowReactions` | app/chats/repositories/reaction.py:180-199 | a reader sees each emoji somebody reacted with and the number of users who did, the most frequent first and equal ones by emoji |
| `Reactions.MessageReactionRepository.SetReactions` | app/chats/repositories/reaction.py:151-178 | the user's emojis end as the target set, nobody else's change, and the result says whether anything did |
| `Reactions.MessageReactionRepository.Recount` | app/chats/repositories/reaction.py:307-325 | the delete and the grouped insert have the effect that `RecountRepairs` is about |
| `Reactions.GetReactionStateForMessages` | app/chats/repositories/reaction.py:201-248 | the batch state has an entry for each message with reactions, with the groups of the single read and the user's own emojis |
| `Reactions.CurrentGroupsUnique` | app/chats/repositories/reaction.py:180-199 | the single read has only one possible answer, so batch and single reads are equal |
| `SharedMedia.TopOfRepresentatives` | app/chats/repositories/attachment.py:66-70 | the newest of the per-type newest are the newest of all |
| `SharedMedia.MatchingMeans` | app/chats/repositories/attachment.py:43-57 | what matches are processed attachments of a wanted type, bound to a message of the chat that is not deleted, strictly older than the cursor |
| `SharedMedia.GetSharedMediaPage` | app/chats/repositories/attachment.py:33-70 | for any list of types, repeated or not, the page is the newest `limit` of everything that matches, newest first |
| `SharedMedia.Handle` | app/chats/queries/attachments/get_shared_media.py:71-88 | a next cursor is given exactly when more matches than the page holds, and it is the page's last key |
| `SharedMedia.WalkPages` | app/chats/queries/attachments/get_shared_media.py:48-88 | feeding cursors back yields everything that matches, newest first, without gap or repeat |
| `LastWriter.FirstOfLatest` | app/chats/repositories/user_profile.py:62-67 | a guarded register ends with the first of the writes with the highest stamp |
| `LastWriter.OrderIrrelevantIff` | app/chats/repositories/user_profile.py:62-67 | reordering and duplicating writes never matters exactly when the writes with the highest stamp agree |
| `ProfileProjection.HalvesAreRegisters` | app/chats/repositories/privacy.py:148-175 | in every interleaving each half of a row holds its own stream's latest event and the defaults before that, so neither stream blocks or overwrites the other |
| `ProfileProjection.ConvergesIff` | app/chats/commands/privacy/apply.py:28-40 | everything held about a user is independent of reordering, duplication and interleaving exactly when within each stream the latest events agree |
| `ProfileProjection.VisibilitySurvives` | app/chats/models/profile.py:56-69 | a visibility that was sent is read back as it was set |
| `ProfileProjection.OtherTexts` | app/chats/models/profile.py:61-69 | a rule that was not sent is open to everybody, a text that names no visibility closes it to all |
| `ProfileProjection.ProjectionRepository.Upsert` | app/chats/repositories/user_profile.py:29-72 | applied exactly when newer; a new row gets default privacy, an old one keeps it |
| `ProfileProjection.ProjectionRepository.UpsertPrivacy` | app/chats/repositories/privacy.py:134-175 | applied exactly when newer; the profile fields stay |
| `ProfileProjection.ProjectionRepository.ApplyPrivacy` | app/chats/commands/privacy/apply.py:28-40 | exceptions are replaced only together with the columns |
| `PrivacyExceptions.AlwaysWithinLimit` | app/profiles/models/privacy.py:80-106 | after any sequence of updates, accepted or refused, the owner is no target and each rule is within its limit |
| `PrivacyExceptions.UpdateSizeMeans` | app/profiles/models/privacy.py:80-86 | the limit counts each named target other than the owner once |
| `PrivacyExceptions.AppliedMeans` | app/profiles/models/privacy.py:94-109 | an accepted update leaves its rule with the allowed targets allowed, the other named ones denied, and nothing else |
| `PrivacyExceptions.OtherRulesUntouched` | app/profiles/models/privacy.py:87-96 | an update changes no other rule, and a refused one nothing |
| `PrivacyExceptions.ProfilePrivacy.ReplaceExceptions` | app/profiles/models/privacy.py:80-106 | the list stays free of repeats and says allow for the allowed targets and deny for the others; it is refused exactly above the limit |
| `PrivacyExceptions.ProfilePrivacy.ExceptionsSnapshot` | app/profiles/models/privacy.py:111-123 | for every rule exactly its allowed and its denied targets, each in order, and no other rule |
| `PrivacyExceptions.ReplaceExceptions` | app/chats/repositories/privacy.py:177-213 | the owner's rows become exactly those the event mentions, allow winning over deny; other owners' rows stay |
| `PrivacyExceptions.RoundTrip` | app/chats/repositories/privacy.py:177-213 | the copy rebuilt from a snapshot says exactly what the exceptions it was taken from say |
| `PrivacyPublication.CopyMatchesProfile` | app/profiles/commands/privacy/update.py:36-47 | after any commands, accepted or refused, with the events of the accepted ones delivered in any order and with repeats, the chat module answers for every rule and viewer as the profile module does once the last event has arrived |
| `PrivacyPublication.HandledMeans` | app/profiles/commands/privacy/update.py:36-43 | an accepted command leaves the visibilities it names and the decisions of each of its updates; everything else stays |
| `PrivacyPublication.InitiallyOpen` | app/profiles/models/privacy.py:66-72 | before any command everybody may and there are no exceptions |
| `PrivacyRules.SkippedLookups` | app/chats/services/privacy.py:116-131 | leaving out contact lookups that cannot matter does not change any answer |
| `PrivacyRules.AllowsMeans` | app/privacy/utils.py:21-40 | the pointwise rule told from the tables: oneself, else the exception row, else everybody, the contacts or nobody by the stored text |
| `PrivacyRules.ColumnMeans` | app/chats/models/profile.py:42-59 | each rule reads its own column |
| `PrivacyRules.AllowedBy` | app/chats/services/privacy.py:98-134 | from the tables: the viewer, whoever has an allowing exception, and without an exception whoever stored nothing, "everybody", or "contacts" with the viewer as contact |
| `PrivacyRules.HiddenByRule` | app/chats/services/privacy.py:146-159 | exactly the other users who blocked the viewer or whose rule does not allow them |
| `PrivacyRules.EnsureCanAdd` | app/chats/services/privacy.py:62-75 | fails exactly when some target refuses, naming all of those in order |
| `PrivacyRules.EnsureCanUse` | app/chats/services/privacy.py:22-52 | on an existing direct chat blocked exactly by a block in either direction, and otherwise restricted exactly as the peer's exception, stored text and contacts say; no restriction elsewhere |
| `PrivacyRules.EnsureCanStartDirect` | app/chats/services/privacy.py:54-60 | the same decision, told from the tables, for a chat that does not exist yet |
| `PrivacyRules.SameDirectDecision` | app/chats/services/privacy.py:22-60 | in a direct chat of two users both checks give the same verdict in every state |
| `Forwarding.CreateIsWellMade` | app/chats/models/message.py:225-280 | what `create` returns has passed text and attachment validation |
| `Forwarding.CreateCarries` | app/chats/models/message.py:225-280 | an accepted message carries its author, chat, seq, kind, text, reply target, origin and bound attachments; an accepted reply names its target |
| `Forwarding.AcceptedExactly` | app/chats/models/message.py:412-453 | exactly which messages are accepted, by text, reply target and counts of attachments |
| `Forwarding.RefusedBecause` | app/chats/models/message.py:412-453 | what each error says, with the count or length it reports |
| `Forwarding.ForwardCloses` | app/chats/models/message.py:301-363 | forwarding a forwardable message never raises, author hidden or shown; text, attachment kinds in order and files are kept, author, chat and seq are the forwarder's, and the origin is named exactly when the author is shown |
| `Forwarding.CopyTypeFits` | app/chats/models/message.py:355-363 | the type chosen for a copy suits its attachments |
| `Forwarding.CopyTypeChosen` | app/chats/models/message.py:355-363 | a plain message keeps its type when copied; a reply or forward is typed by what it takes along |
| `Forwarding.ForwardableMeans` | app/chats/models/message.py:345-353 | forwardable is what is neither deleted nor a system message and has a text or a processed attachment |
| `Forwarding.ForwardTakes` | app/chats/models/message.py:338-343 | a forward of any message takes exactly its processed attachments, by id, as copies of the same kind, file and uploader |
| `Forwarding.ChainCloses` | app/chats/models/message.py:301-343 | any chain of forwards succeeds; with the author shown throughout it names the message it started from |
| `Forwarding.HiddenHopRestartsOrigin` | app/chats/models/message.py:313-336 | after a hop that hides the author, later hops name the copy it made |
| `Forwarding.ForwardSharesFiles` | app/chats/models/attachment.py:95-111 | each copy shares file and uploader, names its source and is bound to the new message |
| `Forwarding.MessageEntity.UpdateContent` | app/chats/models/message.py:365-377 | the text is set before it is validated; an accepted edit keeps the message well made |
| `TokenBucket.Balance` | loadtests/common/rate_limiter.py:32-46 | tokens stay within the bucket, and grants plus tokens never exceed what was there plus what was refilled |
| `TokenBucket.Bucket.Pass` | loadtests/common/rate_limiter.py:32-46 | one pass of the loop is one step of the state machine, and a refused one waits exactly until a token is there |
| `TokenBucket.AtMostCapacityPlusRate` | loadtests/common/rate_limiter.py:38-46 | in any stretch of passes by any callers no more are granted than capacity plus rate times length |
| `TokenBucket.NoRoomNoGrant` | loadtests/common/rate_limiter.py:25-31 | with a capacity below 1 nothing is ever granted |
| `TokenBucket.DefaultCapacityIs` | loadtests/common/rate_limiter.py:25-31 | without a burst the capacity is the rate cut to a whole number, and at least 1 |
| `TokenBucket.Bucket.Acquire` | loadtests/common/rate_limiter.py:38-46 | with a capacity of at least 1 an undisturbed acquire ends after one pass exactly when a token is there, and otherwise after two |
| `Username.NormalizeIsNormal` | app/auth/services/username.py:35-42 | every result has at most 93 characters, only allowed ones, no double space and no trim character at either end |
| `Username.NormalIsFixed` | app/auth/services/username.py:35-42 | names of that shape are exactly the ones normalising leaves alone |
| `Username.Idempotent` | app/auth/services/username.py:35-42 | normalising twice is normalising once |
| `UsernameText.NormalMeans` | app/auth/services/username.py:35-42 | a name is left alone exactly if it has at most 93 characters, only letters, digits and the five marks, no double space and no mark at either end |
| `UsernameText.LettersKept` | app/auth/services/username.py:35-42 | no letter or digit of the transliterated text is lost, invented or moved, except that a long name is cut at its end |
| `UsernameText.LongIsCut` | app/auth/services/username.py:42 | a name that is too long is its first 93 characters, stripped again |
| `UsernameText.OneSpaceOfTwo` | app/auth/services/username.py:42 | any run of spaces comes out as one space |
| `UsernameText.StripMeans` | app/auth/services/username.py:42 | stripping takes away the five marks at both ends and nothing else |
| `UsernameText.SmallLetter` | app/auth/services/username.py:17-27 | a small Cyrillic letter becomes small Latin letters, the two soundless signs nothing |
| `UsernameText.CapitalLetter` | app/auth/services/username.py:24-27 | a capital Cyrillic letter becomes what the small one does with a capital in front, or stays |
| `UsernameText.BaseMeans` | app/auth/services/username.py:50-55 | the base is the wished-for name, else the part of the address before the first at sign, else "user" |
| `Username.Generate` | app/auth/services/username.py:50-65 | every branch returns 4 to 100 characters: the base if long enough and free, else the first free candidate, else the unchecked last resort |

## Left out

- Losing cursors: a read worker that is cancelled or dies between claim and commit, or a Redis error in the middle of the requeue loop, loses the cursors it holds; the read pipeline has no such step.
- Lua numbers: sequence numbers and times are unbounded integers, not doubles; payload encoding and decoding is taken to be lossless.
- `MessageReader` listing: the join of marks with members and profiles, its ordering by time and its limit.
- Active-subscriber delivery: it removes repeated users within one scan batch only and promises no more.
- Redis routes, presence and their refresh loop: routes may outlive the local registry, so nothing is claimed about them.
- Stream trimming, key expiry of streams and routes, hash collisions of cache keys, and eviction of the version counter.
- ClaimPendingEntries: one undisturbed pass at one reading of the clock; interleavings with other tasks are covered by the state machine, whose claim step is one page with its own reading.
- FirstMarkIsEarliest: reading the clock and enqueueing are one step, and all reporters and workers share one clock that never goes back; the code reads its own process's clock before it calls Redis (app/chats/services/read_coalescer.py:66-74).
- NeverOverLimit: counts an eviction from the moment it is decided under the lock; the task that carries it out is created after awaits that may raise, and then it never runs (app/core/websocket/manager.py:131-146).
- SendToUsersLocal: picking and sending are one step, while the lock is released in between; `Targets` and `SendToConnections` are proved separately, so each holds in the state it runs in.
- Shutdown of the gateway, metrics, logging and the close handshake of a socket.
- GetReactionStateForMessages: the optional recent reactors of the batch state are not modelled.
- Reaction timestamps, and interleaving of the statements inside one reaction transaction.
- The clock within one fan-out: mutes and bans are judged at one moment, not once per batch.
- Join-request and removed-member routing: single lookups followed by the same enqueueing.
- Message events, link detection, reply checks beyond the missing id, and attachment status changes after a message was created; new ids are taken to increase.
- Fields that are copied without being looked at (mime type, names, sizes, previews) are one value.
- Postgres collation: emojis are numbered in database order, and UUIDs are natural numbers.
- Unicode digits and white space in `int()`, and white space other than a space after cleaning, which cannot occur.
- Floating point in the token bucket: times and tokens are exact reals.
- Idempotency store, chat list paging, permissions, invitations, typing, slow mode, tokens, calls and media processing.
