# A verified model of Wappa's core mechanisms

Wappa is a framework for messaging bots. Most of it adapts other systems; this project models the parts that have
state, time, concurrency or string structure of their own, and proves what they promise, for all inputs and over all
runs. Where the code does less than its documentation or its natural law says, the code is modelled as it is, the
exact condition under which the law holds is proved, and a concrete run shows the failure.

One module file per mechanism. `dafny verify dfyconfig.toml` checks the whole project.

| file | what it models |
|---|---|
| `CacheSpace.dfy`, `TableCache.dfy`, `VersionedCache.dfy`, `RowLaws.dfy`, `GenerationProtocol.dfy`, `SharedBackend.dfy` | generation-versioned cache: table names, atomic row operations on a timed store and their laws for the client, sequential refinement of plain timed maps, interleaved two-step clients with an expiring counter, and many caches and clients on one store |
| `EventHub.dfy` | bounded drop-oldest queues (`SubscriberQueue`) and the SSE hub over them |
| `StagedEvent.dfy` | the claim-once staging slot of an incoming message |
| `SseFraming.dfy` | the wire formatter and consumer loop against the parser of sections 9.2.5 and 9.2.6 of the WHATWG HTML Living Standard |
| `Lifespan.dfy` | stable priority sort (`PrioritySort`), hooks, drain protocol, background work tracker |
| `SessionLifecycle.dfy` | the shared HTTP session: serialized recreation, drain, close |
| `EventRouting.dfy` | tiered event patterns against a declarative matching relation |
| `RateLimiter.dfy` | fixed-window limiter against its whole admission history |
| `Pipeline.dfy` | composed middleware against the recursive run |
| `Retry.dfy` | three retry loops against one specification, and session accounting (`SessionManager`) |
| `Expiry.dfy` | expiry keys, the registry's substring search, the parser |
| `Escalation.dfy` | the escalation window against the whole history, tallies |
| `LogPrefix.dfy` | the context prefix of log lines, printed and parsed |
| `Text.dfy` | string operations and their laws (`Text`), `Option` and `Result` (`Outcomes`) |

## Findings

- The counter margin of `versioned_table_cache.py:114-119` covers the fallback to generation 1 exactly when a row TTL
  plus the longest read-to-write delay fits into the counter TTL (`FallbackExactlyCold`). It does not cover a bump
  after the counter has expired: such a bump starts again at generation 2 and can expose rows of the earlier
  generation 2, exactly within a row TTL plus delay after the expiry (`ExposureExactlyWithinTtlAndDelay`). With the margin kept,
  only the bump that reaches the expired counter's final generation can do so (`ExposureExactlyAtLastGeneration`).
- Cache spaces are not isolated in the backends: the key factory turns the separator into an underscore, so space
  `a` with table `b_c` and space `a_b` with table `c` share their rows (`RowsCollideIff`, `SpacesCanCollide`).
- `SessionLifecycle.close` forgets a client that is recreated while it is closing the old one, exactly when draining
  has not begun (`CloseLeaksExactlyWithoutDraining`).
- A staged incoming event whose first flush finds the runtime draining is lost (`ScheduledOnceUnlessRefused`). Replies
  need not follow it: they all do if and only if an accepted flush and after it a suspension come before the first
  reply is published (`RepliesFollowIff`); a send that flushes and does not suspend overtakes it
  (`HastySendOvertakes`).
- Expiry keys: an action that ends in `EXPTRIGGER` lets its identifier pose as another key
  (`MarkerInActionWitness`); the round trip holds exactly for clear keys (`RoundTripIff`). The key factory's keys
  never reach a hierarchical registration (`FactoryKeysMissHierarchies`).
- `with_arguments` with its defaults turns keyword-only arguments into positional ones
  (`DefaultRewriteKeepsShapeIff`).
- Event data holding U+0085, U+2028 or U+2029 does not survive the stream (`EncodedDataSurvivesIff`).

## Model

| member | source | states |
|---|---|---|
| CacheSpace.ValidateSegment | wappa/persistence/cache_space.py:43-52 | an accepted segment is the text without the white space around it, non-empty and free of separator and generation mark; blank and reserved names are rejected exactly then |
| CacheSpace.AcceptedIff | wappa/persistence/cache_space.py:43-52 | a segment is accepted, as `t`, exactly if `t` is the text trimmed, non-empty and free of the two reserved characters |
| CacheSpace.NamesReadBack | wappa/persistence/cache_space.py:22-40 | a base name splits at colons into its space and table, a physical name at the mark into base name and `v` with the generation |
| CacheSpace.BuiltNameIsBase | wappa/persistence/cache_space.py:22-40 | an accepted pair names exactly the cache of its stripped space and table |
| CacheSpace.BaseInjective | wappa/persistence/cache_space.py:22-40 | two valid caches with the same base name are the same cache |
| CacheSpace.PhysicalInjective | wappa/persistence/versioned_table_cache.py:242-243 | the physical table name determines space, table and generation |
| CacheSpace.CountersAreSeparate | wappa/persistence/versioned_table_cache.py:47-50 | no generation of any table is ever a table of counters |
| CacheSpace.CounterKeyInjective | wappa/persistence/versioned_table_cache.py:95-100 | only the same cache shares a counter row |
| CacheSpace.RowsCollideIff | wappa/persistence/redis/redis_handler/utils/key_factory.py:47-50 | two caches' rows share a backend key exactly when their names agree after flattening, for equal generation and flattened row ids |
| CacheSpace.SpacesCanCollide | wappa/persistence/redis/redis_handler/utils/key_factory.py:47-50 | two different spaces whose rows overwrite each other in every generation |
| TableRows.WritesResolvedTtl | wappa/persistence/versioned_table_cache.py:254-255 | whatever an operation writes carries the TTL asked for, or the default; reads and deletions write nothing |
| TableRows.CreatesOnlyAbsentRows | wappa/persistence/typed_table_cache.py:90-108 | CREATED is answered only where no row is live |
| TableRows.ApplyHere | wappa/persistence/redis/redis_handler/table.py:28-57 | after an effect the addressed row is live exactly as the effect says |
| TableRows.ApplyElsewhere | wappa/persistence/redis/redis_handler/table.py:28-57 | an effect changes no other row |
| VersionedCache.KeysDiffer | wappa/persistence/versioned_table_cache.py:242-243 | row keys agree only for equal cache, generation and row; none is a counter key; counters belong to one cache |
| VersionedCache.WriteAgrees | wappa/persistence/versioned_table_cache.py:166-240 | a write in the current generation keeps the store showing the plain maps, for every cache |
| VersionedCache.RowStepAgrees | wappa/persistence/versioned_table_cache.py:143-240 | every row operation answers as on the plain map and keeps the agreement; what it answers is said by the row laws below |
| VersionedCache.BumpAgrees | wappa/persistence/versioned_table_cache.py:111-130 | a bump is the plain map being emptied, and returns the next generation |
| VersionedCache.WaitAgrees | wappa/persistence/versioned_table_cache.py:53-59 | passing time without a counter expiry ages store and plain maps alike |
| VersionedCache.RunRefinesPlainMaps | wappa/persistence/versioned_table_cache.py:95-255 | any sequential run over any caches of one backend, with waits of any real length, without counter expiry, answers exactly as plain timed maps that bumps empty |
| VersionedCache.EmptyStoreRefines | wappa/persistence/versioned_table_cache.py:95-255 | the same from an empty backend, with no further assumption |
| VersionedCache.TableCache.GetField | wappa/persistence/redis/redis_handler/table.py:183-187 | a field is read from the live row only |
| VersionedCache.TableCache.Increment | wappa/persistence/redis/redis_handler/table.py:196-221 | one atomic increment of a live counter row, with the given TTL; `RowLaws.IncrementLaw` says what it leaves |
| VersionedCache.TableCache.Execute | wappa/persistence/typed_table_cache.py:66-170 | one atomic row operation, on a merging or a replacing backend: its decision on the live row, its effect on the store; the row laws below say what that decision means |
| VersionedCache.VersionedTableCache.Create | wappa/persistence/versioned_table_cache.py:80-100 | rejects a TTL that is not positive and bad names, in that order, and else makes a cache of the stripped, valid identity whose base name is the one built |
| VersionedCache.VersionedTableCache.ReadVersion | wappa/persistence/versioned_table_cache.py:102-109 | reads the generation the store shows |
| VersionedCache.VersionedTableCache.BumpVersion | wappa/persistence/versioned_table_cache.py:111-130 | is the specified bump of store and answer |
| VersionedCache.VersionedTableCache.Perform | wappa/persistence/versioned_table_cache.py:143-243 | reads the generation, then acts in its table: the specified row step; for accepted data and a scalar condition, `replace_if` answers REPLACED exactly if the live row has every expected field with that value, and then the live row is the data, else the store is as before |
| VersionedCache.ReplaceIsExact | wappa/persistence/row_conditions.py:56-73 | that characterisation of `replace_if`, over the stored rows alone |
| RowLaws.SeenIff | wappa/persistence/versioned_table_cache.py:102-109 | a row is seen exactly if it is stored in the current generation's table and its time has not come |
| RowLaws.GetLaw | wappa/persistence/versioned_table_cache.py:143-151 | get answers the row seen, and raises if the model refuses it |
| RowLaws.ExistsLaw | wappa/persistence/versioned_table_cache.py:209-213 | exists holds exactly if a row is seen, and changes nothing |
| RowLaws.UpsertLaw | wappa/persistence/versioned_table_cache.py:153-164 | after an upsert the row seen has every given field, with the TTL asked for or the default; a merging backend keeps the old row's other fields, a replacing one nothing |
| RowLaws.CreateIfAbsentLaw | wappa/persistence/versioned_table_cache.py:166-179 | creates exactly if no row is seen; otherwise it answers the row seen and changes nothing |
| RowLaws.ReplaceIfLaw | wappa/persistence/versioned_table_cache.py:181-201 | replaces exactly if the row seen has every expected field with that value; MISSING without a row, and in every other case nothing changes |
| RowLaws.DeleteLaw | wappa/persistence/versioned_table_cache.py:203-207 | counts one exactly if a row was seen, and leaves none |
| RowLaws.UpdateFieldLaw | wappa/persistence/versioned_table_cache.py:215-228 | the row seen afterwards has the new value there and every other field as before; without a row it is created from that field alone |
| RowLaws.RenewTtlLaw | wappa/persistence/versioned_table_cache.py:230-236 | keeps the data and sets its time anew, exactly where a row is seen |
| RowLaws.RejectedInputs | wappa/persistence/typed_table_cache.py:176-183 | blank identifiers, refused data, an empty condition and one on a container raise, in that order, and change nothing |
| RowLaws.OthersAreUntouched | wappa/persistence/versioned_table_cache.py:242-243 | no operation touches another row of any cache or generation, a counter or the clock |
| RowLaws.GetAfterUpsert | wappa/persistence/versioned_table_cache.py:143-164 | what was upserted, over no row or on a replacing backend, is what get answers until its TTL is over |
| RowLaws.NothingAfterDelete | wappa/persistence/versioned_table_cache.py:203-213 | after a delete, get and exists find nothing and a second delete counts none |
| RowLaws.SecondClaimIsRefused | wappa/persistence/versioned_table_cache.py:166-179 | after a successful claim the next one is refused with the first one's row |
| RowLaws.ReplaceAfterCreateIff | wappa/persistence/versioned_table_cache.py:181-201 | a replace after a create succeeds exactly if the created data has every expected field with that value |
| RowLaws.NothingSeenAfterBump | wappa/persistence/versioned_table_cache.py:111-130 | after a bump no row is seen |
| RowLaws.GenerationIs | wappa/persistence/versioned_table_cache.py:133-141 | the generation is one more than the positive number the live counter's field reads as, and the first one without such a number |
| RowLaws.IncrementLaw | wappa/persistence/redis/redis_handler/table.py:196-221 | an increment adds to the number the live field reads as, or to zero without one, changes no other field and sets the TTL; a field that is no number stops it |
| GenerationProtocol.InvKept | wappa/persistence/versioned_table_cache.py:111-141 | every step keeps where tickets and rows come from: which counter, which generation, how old |
| GenerationProtocol.RunKeepsInv | wappa/persistence/versioned_table_cache.py:111-141 | so does every interleaved run |
| GenerationProtocol.FallbackIsCold | wappa/persistence/versioned_table_cache.py:114-119 | with the counter TTL covering row TTL and delay, no row of generation 1 read before the expiry is live after it |
| GenerationProtocol.MarginCoversThreeTtls | wappa/persistence/versioned_table_cache.py:53-59 | the documented factor covers any delay up to three row TTLs |
| GenerationProtocol.FallbackWitness | wappa/persistence/versioned_table_cache.py:114-119 | beyond that a reachable run resurrects a generation-1 row |
| GenerationProtocol.FallbackExactlyCold | wappa/persistence/versioned_table_cache.py:114-119 | no run resurrects a generation-1 row if and only if delay plus row TTL fits into the counter TTL |
| GenerationProtocol.BumpExposesNothing | wappa/persistence/versioned_table_cache.py:111-130 | after a safe bump nothing is live, and nobody can still write, at or above the new generation |
| GenerationProtocol.SinceHolds | wappa/persistence/versioned_table_cache.py:143-243 | while the counter stays live, the new generation only ever holds what was read and written since |
| GenerationProtocol.FreshReadsSeeFreshRows | wappa/persistence/versioned_table_cache.py:166-243 | an operation whose generation read follows a bump observes only data whose own reads follow it, however earlier operations interleave |
| GenerationProtocol.ExposureWitness | wappa/persistence/versioned_table_cache.py:111-130 | a bump any time within row TTL plus delay after an expiry can expose an earlier row |
| GenerationProtocol.ExposureExactlyWithinTtlAndDelay | wappa/persistence/versioned_table_cache.py:111-130 | and exactly then |
| GenerationProtocol.OnlyTheLastGenerationIsExposed | wappa/persistence/versioned_table_cache.py:111-130 | with the margin, a bump can expose an earlier row only by reaching the expired counter's final generation |
| GenerationProtocol.LastGenerationWitness | wappa/persistence/versioned_table_cache.py:111-130 | and for every final generation and every age below row TTL plus delay a reachable run does |
| GenerationProtocol.ExposureExactlyAtLastGeneration | wappa/persistence/versioned_table_cache.py:111-130 | so exactly then: that generation, within that age |
| GenerationProtocol.OneCreatorPerVacancy | wappa/persistence/versioned_table_cache.py:166-179 | per row and generation, CREATED is answered at most once more often than the row is deleted or expires |
| GenerationProtocol.ReadsAgree | wappa/persistence/versioned_table_cache.py:102-109 | the protocol's generation read is what the cache reads from a store |
| GenerationProtocol.ActionsAgree | wappa/persistence/versioned_table_cache.py:143-243 | the protocol's action answers and writes what the cache does under that generation |
| GenerationProtocol.BumpsAgree | wappa/persistence/versioned_table_cache.py:111-130 | the protocol's bump is the cache's |
| GenerationProtocol.WaitsAgree | wappa/persistence/versioned_table_cache.py:53-59 | so is passing time |
| GenerationProtocol.OtherActionsInvisible | wappa/persistence/versioned_table_cache.py:242-243 | actions of other caches of the backend change nothing this cache sees |
| GenerationProtocol.OtherBumpsInvisible | wappa/persistence/versioned_table_cache.py:95-100 | nor do their bumps |
| SharedBackend.RunIsProtocolRun | wappa/persistence/versioned_table_cache.py:102-243 | every run of all caches and two-step clients on one store is, seen from any one cache, a run of its protocol that keeps showing its rows, counter and clients |
| SharedBackend.EveryRunIsReachable | wappa/persistence/versioned_table_cache.py:102-243 | from an empty backend it is a reachable one, so what holds of all reachable protocol states holds of the store |
| SharedBackend.StoreIsEmptyAtNewGeneration | wappa/persistence/versioned_table_cache.py:111-130 | right after a safe bump the store has no live row at the new generation or above |
| SharedBackend.FreshReadsSeeFreshStore | wappa/persistence/versioned_table_cache.py:166-243 | over any such run that keeps the counter alive, a client that read its generation after the bump finds in the store only rows whose data was all written under generation reads after the bump |
| SubscriberQueue.QueueAfter | wappa/core/sse/event_hub.py:179-196 | the queue never exceeds its capacity |
| SubscriberQueue.QueueIsNewestUnconsumed | wappa/core/sse/event_hub.py:179-196 | after any history the queue is exactly the newest offers since the last consumed one, as many as fit |
| SubscriberQueue.ConsumedInOrder | wappa/core/sse/event_hub.py:179-196 | consumed events are offers at strictly increasing positions, all before the queued ones |
| SubscriberQueue.NothingElseIsLost | wappa/core/sse/event_hub.py:179-196 | offered = consumed + queued + dropped |
| EventHub.StepKeepsHub | wappa/core/sse/event_hub.py:36-123 | every step keeps registrations distinct and known |
| EventHub.NormalizeTypes | wappa/core/sse/event_hub.py:44-48 | no types or an empty set mean all; otherwise a type is kept exactly if it is the trimmed, non-blank form of a given one |
| EventHub.Audience | wappa/core/sse/event_hub.py:162-177 | a publish reaches exactly the registered subscribers whose inbox and user filters are absent or equal the event's, and whose types are absent or contain the event's |
| EventHub.DeliveriesAreAudience | wappa/core/sse/event_hub.py:92-105 | the count the publishing loop keeps is the size of that audience |
| EventHub.OfferedAreMatchingPublishes | wappa/core/sse/event_hub.py:68-105 | over any run a subscriber is offered exactly the events published while it was registered that its filter lets through, in order, and the close event of a shutdown |
| EventHub.UnregisteredHearsNothing | wappa/core/sse/event_hub.py:63-66 | after unsubscribing, nothing reaches a subscriber any more |
| EventHub.ClosedHearsNothingMore | wappa/core/sse/event_hub.py:107-123 | after a shutdown, nothing published reaches those registered before it |
| EventHub.CloseEventIsLast | wappa/core/sse/event_hub.py:107-123 | the close event is the last one offered to everyone registered, and the last in every queue not yet emptied |
| EventHub.Subscription.PutNowait | wappa/core/sse/event_hub.py:179-196 | adds an event exactly if there is room |
| EventHub.Subscription.EnqueueEvent | wappa/core/sse/event_hub.py:179-196 | always accepts, dropping the oldest of a full queue: the specified offer |
| EventHub.Subscription.Get | wappa/api/routes/sse.py:111-115 | takes the oldest event |
| EventHub.SSEEventHub.constructor | wappa/core/sse/event_hub.py:28-34 | an empty hub |
| EventHub.SSEEventHub.SubscribeTo | wappa/core/sse/event_hub.py:36-61 | registers a new subscription last, with an empty history, under the given inbox and user filters and the normalised types |
| EventHub.SSEEventHub.UnsubscribeFrom | wappa/core/sse/event_hub.py:63-66 | removes exactly that subscription, or nothing, and leaves every history alone |
| EventHub.SSEEventHub.OfferToAll | wappa/core/sse/event_hub.py:89-105 | the loop offers the event to exactly the audience and returns its size |
| EventHub.SSEEventHub.PublishEvent | wappa/core/sse/event_hub.py:68-105 | exactly the subscribers of the audience, read off filter and event fields, are offered the event, all others are left alone, and the answer is their number |
| EventHub.SSEEventHub.ShutdownHub | wappa/core/sse/event_hub.py:107-123 | offers the close event to exactly the registered subscribers and forgets them |
| EventHub.SSEEventHub.ConsumeFrom | wappa/api/routes/sse.py:111-115 | a consumer takes its oldest event, registered or not, and nothing else changes |
| StagedEvent.StagedEventIsConserved | wappa/core/sse/context.py:73-98 | over any interleaving the staged event is in exactly one place: pending, scheduled, published or lost |
| StagedEvent.LossIsDecidedAtFirstFlush | wappa/core/sse/context.py:73-98 | the first flush decides: the event is lost exactly if scheduling is refused then, by a draining tracker or for want of a running loop |
| StagedEvent.ScheduledOnceUnlessRefused | wappa/core/events/event_handler.py:187-206 | when processing returns normally the event was scheduled exactly once, unless scheduling was refused at the first flush |
| StagedEvent.NeverScheduledTwice | wappa/core/sse/context.py:73-98 | and never twice, however processing ends |
| StagedEvent.ScheduledAheadOfLaterWork | wappa/core/sse/context.py:87-92 | the flushed event runs right behind earlier work and ahead of everything scheduled later, by whatever interleaving |
| StagedEvent.IncomingBeforeReplies | wappa/core/messaging/middleware/sse_lifecycle.py:38-59 | if every send suspends between flush and reply and scheduling is never refused, the incoming event is published before every reply |
| StagedEvent.RepliesFollowIff | wappa/core/messaging/middleware/sse_lifecycle.py:38-59 | over every run, with tasks running while sends wait: all replies follow the incoming event if and only if an accepted flush and then a suspension precede the first reply |
| StagedEvent.StagedRepliesFollowIff | wappa/core/messaging/middleware/sse_lifecycle.py:38-59 | the same from the moment the event is staged, read off the tracker and the steps alone |
| StagedEvent.HastySendOvertakes | wappa/core/messaging/middleware/sse_lifecycle.py:38-59 | a send that flushes the event and does not suspend publishes its reply first |
| StagedEvent.SSEEventContext.LogIncomingMessage | wappa/core/sse/handlers.py:184-197 | stages the event and schedules nothing |
| StagedEvent.SSEEventContext.FlushIncoming | wappa/core/sse/context.py:73-98 | claims it once, and schedules it last unless the tracker is draining or no loop runs: then it is lost |
| StagedEvent.SSEEventContext.MergeMetadata | wappa/core/sse/context.py:101-110 | every key of either side is there, the new value winning key by key, and what was staged is flushed |
| StagedEvent.SSEEventContext.OverrideIdentity | wappa/core/sse/context.py:113-132 | each identity field given replaces its own and no other, and what was staged is flushed |
| SseFraming.FieldOfPrinted | wappa/api/routes/sse.py:60-67 | a printed field line is read back as that field, whatever its value |
| SseFraming.LinesOfTerminated | wappa/api/routes/sse.py:54-68 | terminated lines are read back as they were, and what follows them on its own |
| SseFraming.FeedFrame | wappa/api/routes/sse.py:54-68 | the lines of one frame dispatch exactly one event and leave the buffers clear |
| SseFraming.FramingRoundTrip | wappa/api/routes/sse.py:54-68 | parsing a concatenation of frames gives one event each, with its name, its id carried on, and its data joined at its line breaks |
| SseFraming.ReceivedAt | wappa/api/routes/sse.py:54-68 | of each frame its name (or "message" for an empty one), its data and its id, or else the id before it, are what is received |
| SseFraming.FramesComeBackIff | wappa/api/routes/sse.py:54-68 | for NUL-free ids, the frames come back if and only if every name and id is free of line ends |
| SseFraming.CutOffFrameIsDiscarded | wappa/api/routes/sse.py:54-68 | a stream cut anywhere inside a frame gives exactly the whole frames before it |
| SseFraming.DataSurvivesIff | wappa/api/routes/sse.py:65-67 | data arrives unchanged exactly when its only line breaks are line feeds and none is last |
| SseFraming.SplitLinesCuts | wappa/api/routes/sse.py:65-66 | lines end at the first of ten characters, a carriage return with a line feed ending one line, and a last line needs no end |
| SseFraming.EncodedDataSurvivesIff | wappa/api/routes/sse.py:127-131 | for encoded data that is: exactly without U+0085, U+2028 and U+2029 |
| SseFraming.StreamEvents | wappa/api/routes/sse.py:104-133 | the loop sends one frame per turn until the client is gone or the close event comes |
| SseFraming.ListenerHears | wappa/api/routes/sse.py:104-133 | a listener hears one event per turn up to the first that finds the client gone or takes the closing event: for an event taken its type, or "message", its data and id; for a quiet turn "ping" with "{}" and no new id |
| SseFraming.HubCloseEndsStream | wappa/api/routes/sse.py:121-122 | a subscriber that takes the hub's own closing event hears nothing from that turn on |
| PrioritySort.AscendingSorts | wappa/core/factory/wappa_builder.py:458-458 | startup order: a permutation, ordered by priority, each priority in registration order |
| PrioritySort.DescendingSorts | wappa/core/factory/wappa_builder.py:501-501 | shutdown order: the same with priorities descending, ties still in registration order |
| PrioritySort.SortedOrderIsUnique | wappa/core/factory/wappa_builder.py:500-501 | those facts determine the order |
| Lifespan.WappaBuilder.AddStartupHook | wappa/core/factory/wappa_builder.py:128-156 | appends the hook |
| Lifespan.WappaBuilder.AddShutdownHook | wappa/core/factory/wappa_builder.py:158-187 | appends the hook |
| Lifespan.WappaBuilder.ConfigureCore | wappa/core/plugins/wappa_core_plugin.py:71-78 | registers startup at 10 and the shutdown phases at 90, 70 and 10 |
| Lifespan.WappaBuilder.ExecuteAllStartupHooks | wappa/core/factory/wappa_builder.py:443-485 | hooks run in order up to and including the first that raises |
| Lifespan.WappaBuilder.ExecuteAllShutdownHooks | wappa/core/factory/wappa_builder.py:487-523 | every hook runs exactly once in descending order whichever of them raise |
| Lifespan.WappaBuilder.RunLifespan | wappa/core/factory/wappa_builder.py:377-392 | the shutdown hooks all run however startup or the application ended; it raises exactly when the last startup hook run or the application did, and startup stops early only then |
| Lifespan.HigherRunsFirst | wappa/core/factory/wappa_builder.py:500-501 | of two core phases the one with the higher priority runs first, whatever else is registered |
| Lifespan.PhasesInOrder | wappa/core/plugins/wappa_core_plugin.py:71-78 | so draining is marked before the drain, and the drain runs before the close |
| Lifespan.CoreIsRegistered | wappa/core/plugins/wappa_core_plugin.py:71-78 | so the phases are registered whatever hooks of others come before and after |
| Lifespan.PhasesAmongOthers | wappa/core/plugins/wappa_core_plugin.py:71-78 | draining is marked ahead of every hook below 90, work is drained ahead of every hook below 70, so of all at the default 50, and the session is closed after every hook above 10 |
| Lifespan.InvKept | wappa/core/lifecycle/background_work_tracker.py:36-101 | every step of the shutdown keeps its invariant |
| Lifespan.ClosedOnlyAfterDrain | wappa/core/plugins/wappa_core_plugin.py:142-175 | over all runs, once the session is closed draining had begun, the drain has ended and counted every task of its recorded snapshot once, only snapshot tasks can be live, and without a timeout none is |
| Lifespan.NothingAcceptedWhileDraining | wappa/core/lifecycle/background_work_tracker.py:36-51 | from the begin of draining no task is accepted and live ones only go |
| Lifespan.BackgroundWorkTracker.Track | wappa/core/lifecycle/background_work_tracker.py:36-51 | accepts exactly while not draining |
| Lifespan.BackgroundWorkTracker.MarkDraining | wappa/core/lifecycle/background_work_tracker.py:53-59 | marks draining |
| Lifespan.BackgroundWorkTracker.DrainTasks | wappa/core/lifecycle/background_work_tracker.py:61-101 | completed are those of the snapshot that finished in time, cancelled all others; it timed out exactly if there are others, and without a timeout nothing is left |
| SessionLifecycle.Lifecycle.GetSession | wappa/core/lifecycle/session_lifecycle.py:45-63 | hands out only an open session, and none while draining |
| SessionLifecycle.Lifecycle.Recreate | wappa/core/lifecycle/session_lifecycle.py:65-81 | keeps an open session, replaces a closed one, refuses while draining |
| SessionLifecycle.Lifecycle.MarkDraining | wappa/core/lifecycle/session_lifecycle.py:83-86 | marks draining |
| SessionLifecycle.Lifecycle.GetMediaDownloadClient | wappa/core/lifecycle/session_lifecycle.py:88-101 | keeps an open media client, makes one otherwise, refuses while draining |
| SessionLifecycle.Lifecycle.CloseAll | wappa/core/lifecycle/session_lifecycle.py:103-113 | closes and forgets both clients |
| SessionLifecycle.FactoryCallsBalance | wappa/core/lifecycle/session_lifecycle.py:65-81 | over all interleavings every factory call is paid for by a session that stopped being usable |
| SessionLifecycle.UsableSessionStays | wappa/core/lifecycle/session_lifecycle.py:65-81 | while nothing is closed a usable session stays the same client |
| SessionLifecycle.SameClientBetweenClosings | wappa/core/lifecycle/session_lifecycle.py:65-81 | callers with no closing between them get the same client |
| SessionLifecycle.NoGrantWhileDraining | wappa/core/lifecycle/session_lifecycle.py:65-86 | once draining has begun nobody is granted a session and the factory is not called |
| SessionLifecycle.NothingDroppedWhileDraining | wappa/core/lifecycle/session_lifecycle.py:103-113 | while draining, no open client is forgotten |
| SessionLifecycle.CloseLeaksExactlyWithoutDraining | wappa/core/lifecycle/session_lifecycle.py:103-113 | closing can forget an open client exactly when draining has not begun |
| EventRouting.PatternsMatch | wappa/core/external_webhooks/registry.py:159-166 | every generated pattern matches the event type |
| EventRouting.MatchingIsGenerated | wappa/core/external_webhooks/registry.py:159-166 | every matching pattern is generated |
| EventRouting.PatternsDescend | wappa/core/external_webhooks/registry.py:159-166 | patterns come most specific first |
| EventRouting.RoutingIsSoundAndComplete | wappa/core/external_webhooks/registry.py:110-122 | a handler is returned exactly when it is subscribed under a matching pattern, and once |
| EventRouting.RoutingOrder | wappa/core/external_webhooks/registry.py:110-122 | handlers come in the order of their best registrations: exact, longest prefix, `*`, then registration order |
| EventRouting.ExternalEventRegistry.Register | wappa/core/external_webhooks/registry.py:74-97 | rejects blank names and unusable handlers without effect, else appends the registration |
| EventRouting.ExternalEventRegistry.MatchingKeys | wappa/core/external_webhooks/registry.py:159-166 | the loop builds exactly the specified patterns |
| EventRouting.ExternalEventRegistry.Lookup | wappa/core/external_webhooks/registry.py:110-122 | the loops compute the specified handlers |
| EventRouting.ExternalEventRegistry.Dispatch | wappa/core/external_webhooks/registry.py:124-157 | every matching handler runs; the errors are the handlers at exactly the positions that raised, in their order, each once, and the rest succeeded |
| Text.JoinSplit | wappa/core/external_webhooks/registry.py:159-166 | joining the segments of a string gives it back |
| Text.LeadingSegments | wappa/core/external_webhooks/registry.py:159-166 | the proper leading segment groups are exactly the prefixes that end before a separator |
| RateLimiter.RetryAfterIsLeast | wappa/core/plugins/rate_limit_plugin.py:63-65 | Retry-After lies in [1, window] and is the least whole number of seconds after which the window has elapsed |
| RateLimiter.WindowsKeepLimit | wappa/core/plugins/rate_limit_plugin.py:50-68 | on a nondecreasing clock every window admits at most the limit, and windows do not overlap |
| RateLimiter.SlidingBound | wappa/core/plugins/rate_limit_plugin.py:50-68 | any closed interval of one window length holds at most twice the limit |
| RateLimiter.BoundIsReached | wappa/core/plugins/rate_limit_plugin.py:50-68 | and a run reaches that bound, for every profile |
| RateLimiter.KeyErrorIff | wappa/core/plugins/rate_limit_plugin.py:82-89 | no key is derived exactly if the profile needs an inbox and the request has none or an empty one |
| RateLimiter.SimpleKeysShareIff | wappa/core/plugins/rate_limit_plugin.py:70-80 | by client address two requests share a key exactly if their hosts agree, an absent one counting as "unknown"; by inbox exactly if their inboxes agree |
| RateLimiter.CompositeKeysShareIff | wappa/core/plugins/rate_limit_plugin.py:70-80 | exactly when two requests share a composite key: same inbox and same host, an absent one counting as "unknown", or inboxes with colons that overlap |
| RateLimiter.CompositeKeysSeparate | wappa/core/plugins/rate_limit_plugin.py:70-80 | for colon-free inboxes: exactly for the same inbox and the same host |
| RateLimiter.SizeShowsUnique | wappa/core/plugins/rate_limit_plugin.py:44-48 | the constructor's size comparison accepts exactly the lists without a repeated name |
| RateLimiter.LocalRateLimiter.Create | wappa/core/plugins/rate_limit_plugin.py:44-48 | succeeds exactly for unique profile names, with that table and no windows |
| RateLimiter.LocalRateLimiter.Check | wappa/core/plugins/rate_limit_plugin.py:50-68 | each key's window is what its whole history makes it; a rejection and errors change no window, an admission only its own key's; which error is raised, read off profile and request |
| Pipeline.BindAgrees | wappa/core/messaging/pipeline.py:617-623 | binding one middleware around an inner chain is one level of the recursive run |
| Pipeline.MessengerPipeline.constructor | wappa/core/messaging/pipeline.py:152-167 | the pre-composed entry point equals the recursive outer-to-inner run in descending priority, for every invocation and every past of a raw messenger whose answers may depend on all earlier calls |
| Pipeline.MessengerPipeline.Invoke | wappa/core/messaging/pipeline.py:204-235 | a call is the recursive run of its captured invocation from where the raw messenger is, and moves it on by exactly the calls that reached it; through pass-through middleware that is one call with the method name, message type, recipient and arguments given, positional values in order and keyword-only ones by keyword |
| Pipeline.CallsAreWellNested | wappa/core/messaging/pipeline.py:617-623 | whatever middleware do, before and after steps are well nested and the raw messenger is called only innermost |
| Pipeline.ShortCircuit | wappa/core/messaging/pipeline.py:116-140 | a middleware that never awaits lets nothing inside it run, however those around it rewrite, retry or catch |
| Pipeline.ForwardingCallsRawOnce | wappa/core/messaging/pipeline.py:152-167 | if all forward once, raw is called exactly once between all before-steps in order and all after-steps in reverse |
| Pipeline.PassThroughIsRaw | wappa/core/messaging/pipeline.py:199-202 | a chain of pass-through middleware is the raw messenger |
| Pipeline.PassThroughSends | wappa/core/messaging/pipeline.py:199-202 | and exactly one call reaches the raw messenger, the invocation given |
| Pipeline.CaptureCarries | wappa/core/messaging/pipeline.py:204-235 | the captured call has the names, recipient and arguments given; its positional values are those of the arguments without a keyword-only name, at increasing positions, and all of them without keyword-only arguments |
| Pipeline.CaptureReassembles | wappa/core/messaging/pipeline.py:204-235 | for any names, positional and keyword arguments reassemble the named ones: each passed exactly one way, nothing else |
| Pipeline.WithArguments | wappa/core/messaging/pipeline.py:83-105 | a rewrite keeps method, message type and recipient, and takes the positional and keyword values given, or else every value in order and no keyword |
| Pipeline.DefaultRewriteKeepsShapeIff | wappa/core/messaging/pipeline.py:83-105 | a default rewrite gives the call back exactly when it has no keyword-only arguments |
| Retry.BoundedIsUnique | wappa/resilience/retry.py:95-116 | the one retry specification determines attempts used and end |
| Retry.DelayFor | wappa/resilience/retry.py:63-68 | delays lie between zero and the maximum whatever the jitter |
| Retry.DelayGrows | wappa/resilience/retry.py:63-68 | the delay starts at the initial one scaled by the jitter, and from attempt to attempt is multiplied, capped at the maximum |
| Retry.RetryAsync | wappa/resilience/retry.py:95-116 | stops at the first success, permanent failure, cut-off sleep or last attempt; it sleeps exactly the delays of all attempts but the last |
| Retry.BackoffIsNotNegative | wappa/database/session_manager.py:369-383 | backoff delays are never negative |
| Retry.BackoffGrows | wappa/database/session_manager.py:369-383 | and double from attempt to attempt, from the base delay scaled by the jitter, capped at the maximum |
| Retry.InitializeWithRetry | wappa/database/session_manager.py:385-474 | meets the same specification, whose end is read off the health checks; true exactly if the last one is healthy; it sleeps exactly the backoffs between attempts |
| SessionManager.AcquireSession | wappa/database/session_manager.py:502-583 | meets the same specification, whose end is read off connects and closings; returns a session exactly if the last connect succeeded, closes every other before the next, and sleeps exactly the backoffs between |
| SessionManager.ManagedSession | wappa/database/session_manager.py:586-625 | the block is entered exactly when the acquisition, run by the retry specification, ends in a session; each session is created, connected (with retries), used, committed, rolled back and closed in that order, each at most once and one session after the other; which of these happen, and the exit, are read off the outcomes; each session created is closed exactly once and last |
| SessionManager.UseSession | wappa/database/session_manager.py:615-625 | body, commit, rollback and close come in that order, each at most once; a normal block completes exactly if neither its attempted commit nor its close is interrupted, and a body's error gets out exactly if no teardown step is |
| SessionManager.FailedAccounted | wappa/database/session_manager.py:548-583 | failed acquisition leaves every session closed once and last |
| SessionManager.SuccessAccounted | wappa/database/session_manager.py:586-625 | so does every use of an acquired one |
| SessionManager.CommitAndRollback | wappa/database/session_manager.py:615-625 | body and close always happen, rollback exactly on exceptional exits from body or commit, commit exactly after a normal body with auto-commit |
| SessionManager.OneTransactionAtMost | wappa/database/session_manager.py:586-625 | over the whole block, retries included, the events are exactly those due, in turn: the only body, commit and rollback are the used session's, on exactly those exits |
| SessionManager.BodyErrorPropagatesIff | wappa/database/session_manager.py:476-500 | the body's error reaches the caller unchanged exactly when no teardown step is interrupted |
| SessionManager.NormalExitHidesCommitFailure | wappa/database/session_manager.py:476-500 | a normal exit does not show whether the commit failed |
| Expiry.FoundIffContained | wappa/core/expiry/registry.py:128-129 | the search finds a prefix exactly if it occurs |
| Expiry.AfterIsFirstOccurrence | wappa/core/expiry/registry.py:107-115 | the identifier is what follows the first occurrence |
| Expiry.Registered | wappa/core/expiry/registry.py:59-78 | registering keeps places, replaces only the action's own handler, and keeps actions distinct |
| Expiry.BestMatchIs | wappa/core/expiry/registry.py:119-129 | the match is the one found entry that none found beats: longest, first registered on ties |
| Expiry.ExpirationHandlerRegistry.OnExpireAction | wappa/core/expiry/registry.py:35-78 | rejects handlers that are not async without effect, else updates the table as specified |
| Expiry.SegmentsReadBack | wappa/core/expiry/parser.py:122-137 | inbox and action are read back from any key, whatever the identifier |
| Expiry.SegmentsOfKey | wappa/core/expiry/parser.py:122-137 | the action is a key's third segment, "unknown" without one; the inbox is the first, "wappa" without a colon |
| Expiry.ParseIff | wappa/core/expiry/parser.py:60-104 | an event is reported exactly for a message with data in which a registered action is spelled behind the marker; its handler is that of a longest one, its identifier what follows an occurrence |
| Expiry.FoundInKeyIff | wappa/core/expiry/registry.py:119-129 | an action is found in a key exactly when it is the key's own or an impostor |
| Expiry.RoundTripIff | wappa/core/expiry/registry.py:80-116 | resolving a key gives its handler and identifier back exactly when no registered impostor is preferred and the marker is not spelled twice |
| Expiry.ParseReadsKeyBack | wappa/core/expiry/parser.py:60-137 | under conditions a caller can check, a message parses back to exactly the inbox, action, identifier and handler of its key |
| Expiry.MarkerInActionWitness | wappa/core/expiry/registry.py:119-129 | without the last of those conditions it need not |
| Expiry.ResolvesMostSpecific | wappa/core/expiry/registry.py:119-129 | with hierarchical registrations the longest one that starts the tail is chosen, and the identifier is all that follows |
| Expiry.TriggerSegments | wappa/persistence/redis/redis_handler/utils/key_factory.py:52-75 | a factory key splits at colons into inbox, marker, action and identifier, the colons of the last two become underscores |
| Expiry.FactoryKeysReadBack | wappa/persistence/redis/redis_handler/utils/key_factory.py:52-75 | keys of the key factory parse back to the action and identifier it wrote, whatever was asked for |
| Expiry.FactoryKeysMissHierarchies | wappa/persistence/redis/redis_handler/utils/key_factory.py:52-75 | and never reach a registration with a colon in its action |
| Escalation.RecentIsFilter | wappa/core/events/default_handlers.py:557-565 | on a nondecreasing clock the kept list is exactly what the whole history holds newer than the cutoff |
| Escalation.SuffixIsNewest | wappa/core/events/default_handlers.py:557-565 | which is its newest part, without gaps |
| Escalation.KeptIff | wappa/core/events/default_handlers.py:557-565 | on any clock, a report is kept exactly while its own and every later cutoff allow it |
| Escalation.RecentIsSelected | wappa/core/events/default_handlers.py:557-565 | on any clock the kept list is the reports, in order, that are newer than the window of minutes before themselves and before every later report |
| Escalation.InWindowIff | wappa/core/events/default_handlers.py:557-565 | which on a nondecreasing clock are those newer than that many minutes, of sixty seconds, before the last |
| Escalation.EscalatesIff | wappa/core/events/default_handlers.py:547-555 | on any clock, escalation read off the whole history: threshold reports counted, or two with one of the five critical codes |
| Escalation.BumpAddsOne | wappa/core/events/default_handlers.py:484-488 | counting a key adds exactly one to the total, new key or not |
| Escalation.DefaultErrorHandler.HandleError | wappa/core/events/default_handlers.py:467-533 | all statistics stay functions of the history; critical, escalated and logged are read off code, history and strategy, and each counter moves by exactly its own; error type counts sum to the number of calls and agree per code |
| Escalation.DefaultErrorHandler.ResetStats | wappa/core/events/default_handlers.py:617-619 | starts a new history |
| Escalation.DefaultMessageHandler.UpdateStats | wappa/core/events/default_handlers.py:189-216 | the three tallies each sum to the number of messages; sensitive ones are counted only when masking is on |
| LogPrefix.TakeTagged | wappa/core/logging/logger.py:27-30 | a printed bracket is taken off whole exactly when its id has no closing bracket |
| LogPrefix.PrintedForms | wappa/core/logging/logger.py:152-167 | the printed line in the four presence cases |
| LogPrefix.OneLineConcat | wappa/core/logging/logger.py:52-87 | a traceback is escaped character by character, a line feed as a backslash and an n |
| LogPrefix.PrefixRoundTripIff | wappa/core/logging/logger.py:152-167 | in all four presence cases the parse recovers exactly the shown ids and the message if and only if the line is recoverable |
| LogPrefix.Format | wappa/core/logging/logger.py:52-87 | the JSON entry, field by field: time, level, logger, message, ids and request id when present, and the fresh traceback before the cached one; the traceback is consumed |
| LogPrefix.EntryShowsContext | wappa/core/logging/logger.py:152-167 | from request and logger ids to the JSON entry: for a recoverable line its message is the one logged, and each id the request's, or else the logger's, with no field for an empty one or the placeholder |
| LogPrefix.InForceShows | wappa/core/logging/logger.py:157-167 | the request's id wins over the logger's unless empty, and the placeholder never shows |

## Left out

- VersionedCache.TableCache.Execute: Redis, JSON and memory storage are one abstract timed store with atomic row operations; that Redis replaces a TTL of zero by a default, and deletes a row whose upsert has no fields, is not modelled.
- VersionedCache.CurrentVersion: in the protocol the counter row is only written by bumps; malformed counter values are covered by `RowLaws.GenerationIs` alone. Two fields are equal exactly when their canonical tokens are; the token encoder is not modelled.
- VersionedCache.RunRefinesPlainMaps: is about a store that keeps different (table, row) pairs apart; `CacheSpace.RowsCollideIff` says when the key factory does not.
- SharedBackend.RunIsProtocolRun: assumes that all objects for the observed cache are configured alike, and that its clients use TTLs up to the default and act within the delay.
- EventHub.SSEEventHub.PublishEvent: takes the built event as given; building the envelope, its id and its time stamp is not modelled, nor is `get_stats`. Publishing is one atomic step, as it does not suspend between snapshot and enqueuing.
- StagedEvent.RepliesFollowIff: a suspension runs everything scheduled so far to its end; that a scheduled publish may itself suspend is not modelled. Calls without an active context do nothing in the source and are left out.
- SseFraming.FramingRoundTrip: assumes names and ids without line ends, which the formatter does not check (`FramesComeBackIff` shows the assumption is exact); the parser's `retry` field sets a reconnection time no event carries and is ignored. UTF-8 encoding and the HTTP response around the body are not modelled.
- Lifespan.WappaBuilder.ExecuteAllShutdownHooks: hooks raise ordinary exceptions only; a `BaseException` (cancellation of the shutdown itself) ends the source's loop early and is not modelled. Middleware and router assembly is left out.
- SessionLifecycle.CloseLeaksExactlyWithoutDraining: the interleavings are those of the session; the media client, which has no lock, is modelled in the class only.
- EventRouting.ExternalEventRegistry.Dispatch: handlers are opaque; `fails` says which raise.
- Pipeline.MessengerPipeline.Invoke: one call runs at a time. A middleware awaits the inner chain at most a bounded number of times, for a bound of its own that may be any, and keeps nothing between calls; values are strings, and `to_request_payload` is left out. Each `send_*` method only builds the arguments of one invocation.
- Retry.RetryAsync: outcomes, jitter and cancellations are arbitrary streams; attempts, delays and multipliers are exact reals, so the overflow of `multiplier ** attempt` in floating point is not modelled. Which errors are transient is decided elsewhere.
- SessionManager.ManagedSession: durability of a commit and the engine, replica choice and health checks are left out; the error of a failed acquisition is known by its kind only.
- RateLimiter.LocalRateLimiter.Check: time is a nondecreasing real; the HTTP dependency around the check is left out.
- Expiry.Parse: decoding a byte payload, and the asynchronous dispatch of handlers, are left out; a handler is a number.
- Escalation.DefaultErrorHandler.HandleError: the list of the five most frequent error types in the answer, message formatting, and the statistics object shared with the SSE wrapper are left out.
- Escalation.DefaultMessageHandler.UpdateStats: the masking patterns are left out; whether a text matches one is an input.
- LogPrefix.Format: the entry is the mapping that is encoded; the JSON encoding is left out. `%`-formatting of the arguments of a log call happens after the prefix is added and is left out, as are `CompactFormatter` and the Rich handler.
- Webhook schemas and factories, WhatsApp transport, signature checks, FastAPI wiring, CLI, settings, reconnection and platform detection are I/O, configuration or field copies, and are left out.
