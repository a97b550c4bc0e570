# Verified models of the order, warehouse and transport services

This project models the decision-making core of the order/warehouse/transport backend and of its
mobile client in Dafny, and proves what that core promises. Each module follows one component:

- `HubGraph`, `Dijkstra`, `RoutePlanner`: the hub network, the lazy-deletion heap search with its
  early exit, and the minimum over all hub pairs.
- `Batches`, `StockOut`, `StockCount`, `OptimisticLock`, `Contention`: batch picking, the multi-batch
  deduction, the stock count with its ledger, version-checked adjustments under concurrency, and when
  a caller loses all its attempts.
- `RateLimiter`, `MemoryCache`: the sliding-window-log limiter and the LRU cache.
- `Outbox`, `TokenStore`, `Revocation`, `Rotation`: the delivery protocol with any number of workers,
  refresh tokens with failover from Redis to memory, what revoking and storing guarantee, and whole
  sessions of interleaved refreshes.
- `TransportStatus`, `SegmentStatus`, `OrderStatus`: the state machines over whole runs.
- `Edifact`, `OfflineQueue`, `Gtin`: the EDIFACT printer and parser, the offline mutation queue, and
  EAN-13 check digits.

Code that updates state is a class whose methods are specified by functions on values; the laws are
lemmas about those functions over all inputs, runs or interleavings. The methods also state the new
state field by field, in the source's own terms and constants. Where operations interleave,
each database transaction, Redis call or HTTP exchange is one atomic step, and a failure is a step
or a parameter. Run `dafny verify dfyconfig.toml` to check everything.

## Reading the model

- Decimal amounts are exact reals; Decimal's 28-digit rounding is not modelled. Times are integers or
  reals read from one clock.
- The heap is a multiset from which some least entry is popped, so results hold for every way heapq
  may break ties and order its list. Non-negative costs, which the search needs to terminate, follow
  from the request schemas (`src/tms/schemas.py:36`, `:316`, `:396`).
- Database queries are functions of the table; Redis, HTTP and the clock are parameters saying what
  they answer. A failed transaction leaves the tables as they were (`src/core/database.py:48-57`).
- `src/wms/service.py:1360` compares an enum member with its value; the model reads it as "is active",
  as the message beside it says.
- `_get_session()` in `src/core/outbox.py` is read as opening a session.
- `parse` in `src/models/erp_connector.py` returns segments, not payload items. The round trip reads an
  item off a segment as its tag and its elements joined again by `+` (`Edifact.PairOf`), the inverse of
  how `serialize` writes it.
- No row carries `date.max` or `datetime.min`, which stand in for missing dates in `stock_out`.
- What `str()` makes of a reply to the token pop (`src/auth/token_store.py:54`) is a parameter,
  `asText`: the identity for a client that decodes replies, `b'...'` for the pool as it is created
  (`src/cache/redis_client.py:38-44`).
- The character database behind `str.isdigit` and `int` is a parameter of `Gtin`: any assignment of
  values to decimal digits that contains the ASCII ones.

## Where the code departs from its description

- A route's cost is right, but its path is that of an entry that lost, or just the two end hubs. The
  reported path has the reported cost if and only if a direct connection is a cheapest walk
  (`Dijkstra.Search`); under a carrier price and for two different hubs, if and only if a direct
  connection exists (`RoutePlanner.FlatPathIsRightIff`). `RoutePlanner.ReportedPathCanBeWrong` gives a
  network where it does not.
- `adjust_inventory` announces a conflict exception after three attempts; it returns normally with
  nothing stored instead. Undisturbed, an increase does so if and only if its row has no version, and a
  withdrawal if and only if the picked batches cover it but the first alone does not, or has no version
  (`OptimisticLock.InventoryStore.AdjustInventory`): two batches of five lose a withdrawal of eight
  (`Contention.TwoBatchesOfFive`). Under contention it takes three disturbances
  (`Contention.GivingUpTakesThree`); and any increases and covered withdrawals on one versioned row can
  make a caller give up, with commits that never fail, if and only if there are at least four
  (`Contention.GivesUpIffFourCallers`).
- A stock count whose `actual_qty` is missing or exactly zero, without an `actual_qty_count`, is refused
  as missing wherever it stands in the list; with non-negative counts and at most one row per SKU nothing
  else is refused (`StockCount.AcceptedIffNoneMissing`), while a second row of a SKU is a database error. A negative count for an unknown SKU stores negative stock.
- The outbound audit entry's previous quantity is right if and only if the first batch covers the request
  and the request is not negative (`StockOut.AuditBeforeIsTrueIff`). The description asks for a positive
  quantity and nothing checks it: any other takes nothing but is logged, and raises an index error when
  every stocked row is fully locked.
- The outbox schedules a retry for failed events that no fetch ever picks up again; and delivered events
  can end as failed if and only if at least two workers run (`Outbox.FailsIffTwoWorkers`).
- `incr` on a counter that only the larger of two caches still holds makes them disagree on it, unless
  it stood at zero (`MemoryCache.IncrAgreesIff`). It keeps LRU inclusion if and only if that zero counter
  also has no expiry and is more recent than all the smaller cache keeps (`MemoryCache.IncrKeepsIff`), and
  a whole run keeps it if and only if each of its `incr` does (`MemoryCache.CounterInclusion`).
- An order that is not DELIVERED can show a delivery before its pickup, namely if and only if it was
  reported delivered before it first went into transit (`TransportStatus.DeliveredBeforePickupIff`).
- An ERP acknowledgment sets CONFIRMED whatever the order was: its history is a path of the state machine
  if and only if no acknowledgment comes after CONFIRMED (`OrderStatus.HistoryIsAPathIff`).
- Two tasks and the acknowledgment handler change order status without logging it; the log stays
  consistent exactly when none of them did (`OrderStatus.LogAgreesIffNoSilentChange`).
- A payload item with the key UNH sets the parsed message type, to ORDERS if its value has no `+`; so does
  a UNH segment that a quote in an item splits off. The type survives if and only if the pieces of the
  payload set none or the same one (`Edifact.TypeSurvivesIff`).
- With replies left undecoded, a pop answered by Redis gives `b'alice'` for `alice`, and the refresh issues
  and stores the next token for that name (`Rotation.RefreshRenamesUser`, one login and one refresh). A
  session stays with its user if and only if the reply's text is the user's name or Redis answered none of
  its pops (`Rotation.SessionKeepsUserIff`).
- A digit replaced by the same digit of another script goes undetected, and digits that `int` refuses
  escape as an error (`Gtin.SingleErrorDetectedIff`, `Gtin.GeneratedIsValid`).
- Mutations enqueued while a sync is running are lost when it writes the queue back
  (`OfflineQueue.Client.SyncMutations`).
- The first failure of Redis strands every refresh token kept there: a stored token that was neither
  popped nor revoked and has not expired is found if and only if Redis is still trusted or the token was
  stored in memory (`Revocation.StoredTokenIsFoundIff`).
- Refresh tokens carry no unique id (`src/core/security.py:47-51`), so the same token can be issued
  twice within a second; the single-use law counts redemptions against stores, and the law of one live
  token per session asks that tokens are issued once.

## Model

| member | source | states |
|---|---|---|
| HubGraph.HubsOf | src/tms/service.py:974-979 | the hub path of a walk has one hub more than edges, starts at the origin and ends on the walk's last hub |
| HubGraph.WalkExtend | src/tms/service.py:957-981 | following a connection out of a walk's last hub gives a walk, so appending the next hub to a path is sound |
| HubGraph.CheapestExists | src/tms/service.py:962-966 | every price table has a lowest price for a city pair, or no price for it at all |
| HubGraph.CheapestUnique | src/tms/service.py:962-966 | the lowest price for a city pair is unique |
| HubGraph.Cheapest | src/tms/service.py:962-966 | the price meant by the scan: attained by some carrier serving the pair and a lower bound for all of them |
| HubGraph.CheapestPrice | src/tms/service.py:962-966 | the scan, in whatever order the table is visited, finds the true minimum for the city pair |
| HubGraph.FlatCostCountsHops | src/tms/service.py:967-970 | under a carrier price every walk costs that charge times its number of hops |
| HubGraph.BuildGraph | src/tms/service.py:803-809 | the adjacency list of every hub is the table's rows from that hub, all of them, in table order, with their distances and hours |
| HubGraph.EdgeIsConnection | src/tms/service.py:803-809 | an edge is in a hub's list exactly when the table has that connection |
| HubGraph.ChainIsWalk | src/tms/service.py:957-981 | every chain of table rows is a walk of the graph at the same cost, the charge per connection or half a unit per kilometre |
| HubGraph.WalkIsChain | src/tms/service.py:957-981 | and every walk is such a chain |
| HubGraph.TableGivesUniqueEdges | src/tms/models.py:366-368 | a connection table that obeys its unique index yields a graph with at most one edge per hub pair |
| Dijkstra.Search | src/tms/service.py:916-1039 | None exactly when no walk exists; otherwise the cost is attained and minimal over all walks despite the early exit; the reported path has that cost if and only if a direct connection is a cheapest walk; pops never decrease and end with the destination's, no hub is expanded twice, every hub nearer than the destination is expanded and none farther, pushes are at most one plus the degrees of the expanded hubs; the path is that of a destination entry left in the heap if one is left, else the two end hubs |
| Dijkstra.RunSearch | src/tms/service.py:948-982 | the main loop terminates (unexpanded hubs, then heap size) and leaves the minimal cost and only dearer destination entries, or an unreachable destination; entries popped and entries left add up to those pushed, and the hubs expanded are those the costs require |
| Dijkstra.LogAtDestination | src/tms/service.py:951-957 | at the early exit every hub with a cheaper walk has been expanded |
| Dijkstra.ExpandHub | src/tms/service.py:957-982 | relaxing all connections of a popped hub restores the search invariant and pushes at most one entry per connection |
| Dijkstra.EdgeCost | src/tms/service.py:958-968 | half a unit per kilometre, overridden by weight times the cheapest carrier price |
| Dijkstra.HeapPop | src/tms/service.py:951 | a least entry leaves the heap and nothing else changes; ties are arbitrary |
| Dijkstra.StartInv | src/tms/service.py:929-948 | the start state satisfies the search invariant |
| Dijkstra.PopStale | src/tms/service.py:954-955 | skipping an overtaken entry loses no hub's best entry and pops never decrease |
| Dijkstra.PopFresh | src/tms/service.py:951-957 | an entry that is not stale belongs to a hub never expanded before and carries its best cost |
| Dijkstra.PushInv | src/tms/service.py:970-982 | an improving entry is for a hub not yet expanded, is new in the heap, and keeps the invariant |
| Dijkstra.PushedIsRealWalk | src/tms/service.py:973-981 | every pushed entry's path is a walk with exactly the entry's priority, distance and hours |
| Dijkstra.LowerBound | src/tms/service.py:950-982 | every walk is bounded below by the settled cost of its last hub or by some waiting entry |
| Dijkstra.PoppedDestinationIsOptimal | src/tms/service.py:951-953 | at the early exit the popped cost is minimal, and destination entries left behind are strictly dearer |
| Dijkstra.ExhaustedMeansUnreachable | src/tms/service.py:950-986 | an empty heap means the destination has no recorded cost and no walk |
| Dijkstra.PathEdgesRecoverWalk | src/tms/service.py:996-1007 | with unique connections the per-leg comprehension recovers exactly the edges of the walk |
| Dijkstra.LeftoverSegmentsAddUp | src/tms/service.py:989-1008 | the segment lists have one item per leg and sum to the totals |
| Dijkstra.LeftoverNeverRealises | src/tms/service.py:988-995 | a path taken from a leftover entry never has the reported cost |
| Dijkstra.FallbackRealises | src/tms/service.py:1010-1013 | the two-hub fallback path has the reported cost exactly when a direct connection of that cost exists |
| Dijkstra.FallbackDescribesDirect | src/tms/service.py:1014-1038 | the fallback's distances and hours are those of the direct connection, or zero without one |
| Dijkstra.FlatDirectIsCheapestIff | src/tms/service.py:957-970 | under a carrier price, for two different hubs, a direct connection is a cheapest walk exactly when it exists |
| RoutePlanner.BuildPriceMap | src/tms/service.py:814-818 | the price of a key is that of the last route loaded for it, and no other keys exist |
| RoutePlanner.HubsIn | src/tms/service.py:512-525 | exactly the hubs of the given city |
| RoutePlanner.FindBestRoutePlan | src/tms/service.py:786-836 | the answer costs the least over every chain of connection rows from a hub of the one city to a hub of the other, priced by the lowest carrier price in force or by distance; NotFound exactly when there is no such chain; Validation exactly for a missing city; no other error |
| RoutePlanner.ChargeIsFlatCharge | src/tms/service.py:814-818 | the charge is the weight times the lowest price among the routes of the city pair that no later route of the same carrier replaces; without such a route distance decides |
| RoutePlanner.PlanIsLeastChain | src/tms/service.py:824-833 | the best plan over the graph is the cheapest chain over the tables |
| RoutePlanner.PairStep | src/tms/service.py:824-833 | keeping the strictly cheaper answer covers one more hub pair |
| RoutePlanner.ReportedPathCanBeWrong | src/tms/service.py:988-1013 | a network where the reported path does not have the reported (correct) cost |
| RoutePlanner.FlatPriceMinimisesHops | src/tms/service.py:957-973 | with a carrier price the least cost is the charge times the fewest hops |
| RoutePlanner.PushesBoundedByConnections | src/tms/service.py:948-982 | the entries a search pops and leaves are at most one per connection row plus the start |
| RoutePlanner.FlatPathIsRightIff | src/tms/service.py:988-1013 | with a carrier price and two different hubs the reported path has the reported cost exactly when a direct connection exists |
| Batches.LeqTransitive | src/wms/service.py:337-342 | the picking orders, missing dates included, are transitive |
| Batches.LeqIff | src/wms/service.py:337-342 | the picking orders by their sort keys: which row must stand in front of which, for each strategy of the query and of stock_out |
| Batches.PickingMeans | src/wms/service.py:325-350 | a picking lists exactly the rows of the SKU in the warehouse, and location if given, that hold more than is locked, none in front of one that goes first |
| Batches.PickBatches | src/wms/service.py:311-350 | each row with free stock in scope exactly once, in the strategy's order |
| Batches.TotalUpdate | src/wms/service.py:1418-1425 | changing one row's quantity changes the scope's total by the same amount |
| StockOut.StockTable.Deduct | src/wms/service.py:1417-1425 | the loop leaves the rows that taking from batch after batch leaves |
| StockOut.DeductFromIsGreedy | src/wms/service.py:1417-1425 | those rows are greedy: from the first i batches exactly min(need, what they can give) is taken, for every i, and the total drops by the need |
| StockOut.StockTable.StockOut | src/wms/service.py:1337-1444 | which requests are refused and with which error, non-positive quantities included, rollback on refusal, the greedy deduction, the exact drop in total stock, and the one audit entry |
| StockOut.EarlierBatchesAreDrained | src/wms/service.py:1417-1425 | once a batch loses stock, every earlier one is down to its locked amount |
| StockOut.PivotExists | src/wms/service.py:1417-1425 | all batches before some pivot are drained, all after it untouched |
| StockOut.LockedStockStays | src/wms/service.py:1419-1424 | no batch falls below its locked amount or gains stock |
| StockOut.FirstExpiryFirstOut | src/wms/service.py:1397-1425 | under FEFO nothing leaves a batch while one expiring earlier has free stock |
| StockOut.FirstGoesOutFirst | src/wms/service.py:1381-1425 | under any strategy nothing leaves a batch while one that goes first has free stock |
| StockOut.FirstInFirstOut | src/wms/service.py:1381-1425 | under FIFO nothing leaves a batch while one received earlier, or at an unknown time, has free stock |
| StockOut.HighestBatchFirstOut | src/wms/service.py:1381-1425 | in batch order nothing leaves a batch while one with a higher number has free stock |
| StockOut.AuditBeforeIsTrueIff | src/wms/service.py:1427-1438 | the audit entry's previous quantity is right if and only if the first batch covered the request and it was not negative |
| StockCount.CountService.AdjustStockCount | src/wms/service.py:536-641 | the loop computes the item-by-item specification, refuses with the same errors, and changes nothing when any item fails |
| StockCount.ErrorStops | src/wms/service.py:568-576 | the first failing item decides the outcome of the request |
| StockCount.LedgerMatchesChange | src/wms/service.py:595-638 | per SKU the signed sum of the adjustment entries is the exact change in stock |
| StockCount.CountOneEffect | src/wms/service.py:582-623 | an item brings its own SKU within the tolerance and leaves all other keys alone |
| StockCount.LastCountWins | src/wms/service.py:567-638 | each counted SKU ends within 0.001 of its last count, duplicates included; the first field counts unless it is missing or zero |
| StockCount.CountTouchesOnlyCounted | src/wms/service.py:582-638 | a count changes quantities of counted SKUs only and no other field; new rows are of batch COUNT with nothing locked; every new entry names a counted SKU and a quantity of 0.001 or more |
| StockCount.CountOneRefusedIff | src/wms/service.py:567-619 | an item is refused exactly for two rows of its SKU (database error), a missing count, or a negative count below its row's stock |
| StockCount.CountOneNonNegativeIff | src/wms/service.py:598-623 | an accepted item keeps quantities non-negative exactly unless it counts -0.001 or less for a SKU without a row |
| StockCount.CountsKeepStockNonNegative | src/wms/service.py:567-638 | non-negative counts never produce negative stock |
| StockCount.CountsAreAccepted | src/wms/service.py:567-638 | present, non-negative counts are always accepted when each SKU has at most one row |
| StockCount.AcceptedIffNoneMissing | src/wms/service.py:567-576 | with non-negative counts and one row per SKU a list is accepted if and only if no item has a missing or zero first field and no second one; otherwise it is refused as invalid |
| OptimisticLock.NoLostUpdates | src/wms/service.py:415-524 | over every interleaving the stock of a key is its initial stock plus the signed movements, which equal the committed requests; no row goes negative |
| OptimisticLock.VersionCountsCommits | src/wms/service.py:428-451 | a row's version is its initial one plus its committed updates; a row without a version never changes |
| OptimisticLock.UnchangedVersionMeansUnchangedRow | src/wms/service.py:440-451 | while a snapshot is held, an unchanged version means an unchanged row |
| OptimisticLock.StepKeepsInv | src/wms/service.py:415-524 | every step of every caller keeps the invariant behind these results |
| OptimisticLock.StepConserves | src/wms/service.py:486-515 | every step keeps stock, ledger and committed requests in balance |
| OptimisticLock.UpdateRowInv | src/wms/service.py:440-447 | a successful version check means the snapshot still is the row |
| Contention.LoneCallerGivesUp | src/wms/service.py:415-530 | on any table, a reading of a row without a version or of a first batch that is too small leads three times nowhere, and the call returns normally with nothing stored |
| Contention.TwoBatchesOfFive | src/wms/service.py:464-482 | with two free batches of five a withdrawal of eight is lost, whatever the picking order |
| Contention.GivingUpTakesThree | src/wms/service.py:415-524 | in every run a caller on versioned rows gives up only after three disturbances: rival updates of the row it holds, failures of its own commit, or first batches that are too small |
| Contention.GivesUpIffFourCallers | src/wms/service.py:415-524 | for any list of increases and withdrawals of one versioned row that covers the withdrawals together, when commits never fail, some run makes a caller give up if and only if the list has at least four |
| OptimisticLock.InventoryStore.ReadSnapshot | src/wms/service.py:417-482 | one attempt's reads: the matching batch, or the first pick, or why there is none |
| OptimisticLock.InventoryStore.AdjustInventory | src/wms/service.py:384-530 | the retry loop stores exactly one adjustment with its movement or nothing; the adjusted or added row is given field by field, a set expiry date kept; storing, giving up, refusing for lack of stock and raising each happen exactly under the stated condition on the row, the picked batches and the commits |
| OptimisticLock.RaisedIff | src/wms/service.py:517-524 | with the same picks at each attempt a database error reaches the caller exactly after an ambiguous row or three failed commits |
| OptimisticLock.FirstPickGoesFirst | src/wms/service.py:464-482 | the batch a withdrawal adjusts is of the requested key, and none with free stock goes before it under the strategy |
| OptimisticLock.RowsAreSettled | src/wms/service.py:428-500 | over every interleaving a row keeps its key, batch, locked amount and receipt date, and an expiry date once set never changes |
| OptimisticLock.OriginsAreKnown | src/wms/service.py:428-463 | every added row has nothing locked and comes from a committed increase of its batch, and so does every expiry date that was not there from the start |
| RateLimiter.Limiter.CheckRateLimit | src/core/rate_limiter.py:54-91 | the new set score by score, its new deadline, the answer, fail-closed on every fault, defaults for absent arguments, and other keys untouched |
| RateLimiter.RecordIsRecorded | src/core/rate_limiter.py:74-84 | one pipeline adds the call, drops every score a window old or older, and starts from nothing if the key had expired |
| RateLimiter.LogIsExact | src/core/rate_limiter.py:80-84 | inside the window the stored log is exactly the attempts made; neither trimming nor expiry loses one |
| RateLimiter.DecisionIsPlainCount | src/core/rate_limiter.py:74-88 | a call is allowed exactly when at most the limit of attempts, rejected ones included, fall in its window |
| RateLimiter.WindowBound | src/core/rate_limiter.py:74-88 | in every run every half-open interval of the window's length holds at most the limit of allowed calls |
| RateLimiter.ClosedWindowExceedsLimit | src/core/rate_limiter.py:82 | a closed interval can hold more: the bound is sharp |
| RateLimiter.ExpiryIsInvisible | src/core/rate_limiter.py:84 | the limiter with key expiry answers like one without it |
| MemoryCache.Cache.Get | src/cache/redis_client.py:115-121 | the stored value or nothing; the key moves behind all others and nothing else changes |
| MemoryCache.Cache.Set | src/cache/redis_client.py:123-130 | the value under the key, which stands last; only the oldest entry goes, and only for a new key in a full cache |
| MemoryCache.Cache.Delete | src/cache/redis_client.py:132-133 | the key is gone, all other entries and their order stay, and the answer says whether it was there |
| MemoryCache.Cache.Exists | src/cache/redis_client.py:135-136 | membership, without touching the order |
| MemoryCache.IncrBy | src/cache/redis_client.py:138-143 | the counter's new value, from zero for an absent key, without moving an existing one |
| MemoryCache.RunValid | src/cache/redis_client.py:108-136 | after any run keys are distinct and the capacity is respected |
| MemoryCache.KeptInOrderOfUse | src/cache/redis_client.py:119-130 | after any run keys stand in the order of their last use, so the evicted one is the least recently used |
| MemoryCache.HitsAreFresh | src/cache/redis_client.py:115-133 | a hit returns the value last stored and not deleted since |
| MemoryCache.CacheAnswers | src/cache/redis_client.py:111-136 | for every run and key the cache answers the value last stored if the key is retained, else nothing; retained means not deleted since and never outnumbered by as many newer keys as the cache holds |
| MemoryCache.RetainedAmongFewOthers | src/cache/redis_client.py:119-130 | a key stored or found and not deleted since is a hit as long as fewer other keys than the capacity were stored or asked for since |
| MemoryCache.MakeRoomBoth | src/cache/redis_client.py:124-129 | making room for a key keeps inclusion; the larger cache never evicts alone |
| MemoryCache.Inclusion | src/cache/redis_client.py:111-136 | for capacities k <= m and any run, the smaller cache's entries are a subsequence of the larger's with equal values |
| MemoryCache.LargerCacheHitsMore | src/cache/redis_client.py:111-136 | a hit in the smaller cache is the same hit in the larger one |
| MemoryCache.IncrAgreesIff | src/cache/redis_client.py:138-143 | after incr the two caches agree on the counter exactly when the larger one does not hold it alone, or holds it at zero |
| MemoryCache.IncrBoth | src/cache/redis_client.py:138-143 | incr keeps inclusion unless only the larger cache holds the counter |
| MemoryCache.IncrKeepsIff | src/cache/redis_client.py:138-143 | incr keeps inclusion exactly when no cache has lost the counter alone, or the larger one holds it at zero, without expiry and more recent than every entry the smaller one keeps |
| MemoryCache.BehindMeansOlder | src/cache/redis_client.py:119-143 | that place in the order, entry by entry: each kept entry is older than the counter in the larger cache |
| MemoryCache.CounterInclusion | src/cache/redis_client.py:111-143 | inclusion holds throughout a run with incr if and only if every incr of the run meets that guard |
| MemoryCache.EvictedCounterRestarts | src/cache/redis_client.py:138-143 | such a run exists: an evicted counter restarts from zero in the smaller cache only |
| Outbox.OutboxService.AppendEvent | src/core/outbox.py:143-165 | a new pending event with no retries |
| Outbox.OutboxService.DispatchPendingEvents | src/core/outbox.py:168-191 | pending events not scheduled for later and not locked, oldest first, and all of them unless the limit is reached |
| Outbox.OutboxService.MarkDispatched | src/core/outbox.py:194-207 | every listed row becomes dispatched now with its other fields kept, whatever its status was; no other row changes |
| Outbox.OutboxService.MarkFailed | src/core/outbox.py:210-252 | only a dispatched row changes: failed, to be retried in 60 seconds, at most five times |
| Outbox.DispatchOutboxEvents | src/tasks/outbox.py:14-50 | an undisturbed worker dispatches exactly the accepted events of its batch; everything else stays, refused events pending |
| Outbox.DeliveredBeforeLeavingPending | src/core/outbox.py:168-252 | any number of workers, any interleaving, crashes included: leaving pending needs a successful POST; pending means no retries; at most five |
| Outbox.EventsPersist | src/core/outbox.py:143-252 | no event disappears, none returns to pending, retry counts never fall |
| Outbox.PostedIsDispatched | src/tasks/outbox.py:24-48 | with any number of workers, an event whose POST succeeded is dispatched when its worker finishes, and is never pending or fetched again after that |
| Outbox.FailedIsNeverRetried | src/core/outbox.py:168-230 | a failed event is never fetched again |
| Outbox.LocksPreventFailure | src/core/outbox.py:168-191 | if fetches respected unfinished workers' events, none would ever fail |
| Outbox.SingleWorkerNeverFails | src/tasks/outbox.py:21-48 | with one worker, or none, no event becomes failed |
| Outbox.TwoWorkersCanFailADeliveredEvent | src/tasks/outbox.py:38-47 | with any number of workers from two on, a delivered event can end as failed |
| Outbox.FailsIffTwoWorkers | src/tasks/outbox.py:21-48 | some run makes an event fail if and only if there are at least two workers, and every event that fails was delivered |
| Edifact.OracleEDIConnector.Parse | src/models/erp_connector.py:197-218 | the segments of the stripped pieces in order, and the type set by the last UNH naming a known one |
| Edifact.OracleEDIConnector.Serialize | src/models/erp_connector.py:220-232 | the whole text: header, type, every payload item except the key segments, and trailers, each terminated |
| Edifact.PrintIsConcatenation | src/models/erp_connector.py:220-232 | joining the segments and terminating the last is the same as terminating each |
| Edifact.StripMeans | src/models/erp_connector.py:199 | stripping takes whitespace off both ends, all of it and nothing else |
| Edifact.SplitJoin | src/models/erp_connector.py:199 | splitting a joined list of separator-free pieces gives the list back |
| Edifact.JoinSplit | src/models/erp_connector.py:203-205 | re-joining split elements gives the text back, so values containing + are recovered |
| Edifact.WholeTextsReturn | src/models/erp_connector.py:199 | segments without quotes and edge whitespace come back one for one |
| Edifact.RoundTripIff | src/models/erp_connector.py:197-232 | parsing a printed message recovers sender, receiver and every payload item in order exactly for the transmittable messages |
| Edifact.TypeAfterRoundTrip | src/models/erp_connector.py:197-232 | for every message, quotes and separators in its fields included, the parsed type is the one the pieces of its payload set last, or else its own |
| Edifact.TypeSurvivesIff | src/models/erp_connector.py:197-232 | the type of any message survives exactly when the pieces of its payload set none or the same one |
| Edifact.FragmentsOfMessage | src/models/erp_connector.py:197-232 | the pieces of a printed message are those of its header, its type segment whole, those of its payload items, and the trailers, in this order |
| Edifact.ItemsDecideType | src/models/erp_connector.py:206-211 | in a transmittable message the payload sets the type of its last item UNH that names one; an item UNH without + sets ORDERS |
| TokenStore.TokenStore.PopToken | src/auth/token_store.py:34-61 | the user and the stores after a pop, for each way the Redis call can go; a reply of Redis is handed on as its text |
| TokenStore.TokenStore.RevokeToken | src/auth/token_store.py:63-71 | both stores after a revocation, for each way the Redis call can go: gone from memory always, from Redis if the call reached it, other tokens untouched |
| TokenStore.TokenStore.LookupToken | src/auth/token_store.py:73-83 | the user found, with the fallback to memory |
| TokenStore.TokenStore.StoreToken | src/auth/token_store.py:85-94 | the stores after a store, for each way the Redis call can go |
| TokenStore.CreateTokens | src/auth/service.py:86-95 | issuing stores the refresh token once |
| TokenStore.RefreshTokens | src/auth/service.py:98-112 | a token that does not decode changes nothing; only a successful pop issues and stores the next token, for the name the pop gave |
| TokenStore.RedeemedAtMostAsStored | src/auth/token_store.py:34-94 | with overlapping operations, Redis faults before or after the effect and expiring keys, a token is redeemed at most as often as stored, plus once for each store that reached Redis and raised after a pop took the token or while one waits for it |
| TokenStore.NoSecondCopies | src/auth/token_store.py:34-94 | without such a store the surplus is zero, so use is single |
| TokenStore.OverlapRedeemsTwice | src/auth/token_store.py:34-94 | the surplus occurs: one store redeemed twice |
| TokenStore.TrustIsOneWay | src/auth/token_store.py:41-61 | Redis is trusted only while memory is empty and never again after a failure |
| TokenStore.RedemptionsAreGenuine | src/auth/token_store.py:34-94 | a redeemed token yields a user it was stored for, or the text of that user's reply if Redis answered the pop |
| TokenStore.DecodedAnswersAreStored | src/auth/token_store.py:34-94 | with a client that decodes replies, every answer is a user stored for the token |
| TokenStore.RunAloneIsSteps | src/auth/token_store.py:34-94 | an uninterrupted operation is its interleaving steps in sequence |
| Revocation.RevokedStaysRevoked | src/auth/token_store.py:34-94 | in every interleaving, after a finished revocation every pop and lookup that begins later answers None, if no store of the token was under way when it began and none has begun since |
| Revocation.StoredTokenIsFoundIff | src/auth/token_store.py:34-94 | a stored token that was neither popped nor revoked and has not expired is found exactly while Redis is trusted, or if it was stored in memory |
| Rotation.SessionUsesOnce | src/auth/service.py:86-112 | in a session whose tokens are issued once and presented only after being received, every token is redeemed at most once, with no further proviso |
| Rotation.AtMostOneLiveToken | src/auth/service.py:86-112 | however the refreshes of one login interleave and Redis fails, at most one of its tokens is issued and not redeemed |
| Rotation.SessionKeepsUserIff | src/auth/service.py:98-112 | every token of a session is issued for, and every pop gives, the user who logged in if and only if the reply's text is that user's name or Redis answered none of the session's pops |
| Rotation.RefreshRenamesUser | src/auth/service.py:105-111 | with replies left undecoded, one login and one refresh store the next token for another name |
| TransportStatus.TransportOrder.ChangeTransportStatus | src/tms/service.py:435-466 | accepted exactly along the transition table, with the pickup and delivery times it sets |
| TransportStatus.TransportOrder.CreateTrackingEvent | src/tms/service.py:1162-1164 | a delivered event sets a missing delivery time and nothing else |
| TransportStatus.TimesAreConsistent | src/tms/service.py:455-462 | under a monotone clock: on the way implies a pickup time, delivered implies a delivery time not before it |
| TransportStatus.SettledForever | src/tms/service.py:448-462 | a pickup time never changes; delivered and cancelled orders stay so |
| TransportStatus.TransitionsBounded | src/tms/service.py:418-432 | a run with k exceptions makes at most 5(k+1) transitions |
| TransportStatus.BoundIsTight | src/tms/service.py:418-432 | that bound is attained for every k |
| TransportStatus.DeliveredBeforePickupIff | src/tms/service.py:1163-1164 | in every monotone run the delivery time precedes the pickup time if and only if the order is not DELIVERED and was first reported delivered before it first went into transit |
| TransportStatus.TrackingCanPrecedePickup | src/tms/service.py:1163-1164 | such a run exists |
| SegmentStatus.TransportSegment.UpdateSegmentStatus | src/tms/service.py:670-732 | accepted exactly along the segment table, with the departure and arrival times it sets |
| SegmentStatus.CompletedSegment | src/tms/service.py:684-728 | a completed segment was dispatched, had no exception, and departed no later than it arrived |
| SegmentStatus.ExceptionIsFinal | src/tms/service.py:710-711 | after an exception a segment can only be cancelled |
| OrderStatus.OrderTable.CreateOrder | src/oms/service.py:168-208 | a pending order whose log opens with the creation entry |
| OrderStatus.OrderTable.UpdateOrderStatus | src/oms/service.py:277-299 | the status and log entry of an allowed change; errors for unknown orders and forbidden changes |
| OrderStatus.IsMoveIff | src/oms/service.py:24-32 | the accepted requests, one by one, with the status each leads to |
| OrderStatus.OrderTable.ProcessStaleOrders | src/tasks/orders.py:29-52 | every stale order gets a flag entry, no status changes, and the count is right |
| OrderStatus.OrderTable.AutoCompletePickedOrders | src/tasks/orders.py:67-92 | exactly the orders long in picking are completed and logged |
| OrderStatus.OrderTable.CancelAbandonedDrafts | src/tasks/orders.py:103-128 | exactly the old drafts are cancelled and logged |
| OrderStatus.OrderTable.CancelExpiredOrders | src/tasks/inventory.py:119-132 | exactly the pending orders over seven days are cancelled, with a new update time and without a log entry |
| OrderStatus.OrderTable.ProcessPendingOrders | src/tasks/inventory.py:141-155 | exactly the pending orders of a day or more are confirmed, with a new update time and without a log entry |
| OrderStatus.OrderTable.HandleAck | src/models/erp_connector.py:273-285 | an acknowledged order becomes confirmed whatever it was |
| OrderStatus.HistoryIsAPathIff | src/oms/service.py:24-32 | under all writers in any order the history is a path of the state machine if and only if no acknowledgment comes after CONFIRMED, and FAILED is never reached |
| OrderStatus.AtMostFourChanges | src/oms/service.py:24-32 | such a history has at most four changes |
| OrderStatus.TerminalIsAbsorbingIff | src/oms/service.py:29-31 | completed and cancelled orders keep their status exactly as long as no acknowledgment comes |
| OrderStatus.LogAgreesIffNoSilentChange | src/oms/service.py:290-298 | the log chains and replays to the current status exactly when no unlogged writer changed the order |
| OfflineQueue.Client.EnqueueMutation | mobile/src/api/client.js:62-74 | one unsynced entry with the next number is appended |
| OfflineQueue.Client.Request | mobile/src/api/client.js:37-47 | a mutation without network queues itself; everything else leaves the queue alone |
| OfflineQueue.Client.SyncMutations | mobile/src/api/client.js:77-98 | the queue ends up with exactly the network-failed entries in order, whatever was enqueued meanwhile; count plus remainder is the old length |
| OfflineQueue.OfflineSyncIsIdentity | mobile/src/api/client.js:82-98 | a fully offline sync changes nothing |
| OfflineQueue.SyncKeepsOrder | mobile/src/api/client.js:93-96 | a sync leaves the entries at the kept positions, in ascending order of position, whatever their numbers |
| OfflineQueue.StaysIffOffline | mobile/src/api/client.js:83-91 | a position is kept exactly when its own exchange found no network |
| Gtin.CheckDigit | src/barcode/service.py:18-24 | the one digit that makes the weighted sum a multiple of ten |
| Gtin.CalcCheckDigit | src/barcode/service.py:18-24 | the loop computes that digit, or raises at a character int refuses |
| Gtin.ImplementationsAgree | src/barcode/excel_barcode.py:23-26 | both implementations agree on every string of at most twelve digits |
| Gtin.GeneratedIsValid | src/barcode/service.py:27-48 | generation succeeds exactly for 7 to 12 decimal digits of any script and its result is those digits, zeros and a digit that makes it valid |
| Gtin.SkuCodeIsValid | src/barcode/excel_barcode.py:29-33 | the SKU generator yields a valid code whenever its first twelve digits are decimal, the same one as the other generator where that accepts |
| Gtin.ValidIffSum | src/barcode/service.py:37-48 | a 13-digit code is valid exactly when its full weighted sum is a multiple of ten |
| Gtin.SumIsEverySecond | src/barcode/service.py:20-23 | the weighted sum is that of every second digit plus three times that of the others |
| Gtin.ValidMeans | src/barcode/service.py:37-48 | of the digits of any text, 8, 12 or 14 are accepted, 13 exactly when their sum is a multiple of ten; the check raises exactly for 13 digits int refuses |
| Gtin.CleanedConcat | src/barcode/service.py:29 | texts are cleaned character by character |
| Gtin.CleanedOne | src/barcode/service.py:29 | a character stays exactly when it is a digit of some script |
| Gtin.SingleErrorDetectedIff | src/barcode/service.py:42-47 | changing one digit of a valid 13-digit code is rejected exactly when its value changes; among ASCII digits, always |
| Gtin.NeighbourSwapDetectedIff | src/barcode/service.py:42-47 | swapping neighbours of a valid code is accepted exactly when their values are equal or differ by five |

## Left out

- Creating customers, SKUs, order items, notifications and webhooks beside the modelled writes: plain inserts without a law of their own.
- `stock_in`, CSV import and the global release of locked stock: single additions, or a different reading of availability; being writers that ignore `version`, they are outside the optimistic-lock interleavings, as are `stock_out` and `adjust_stock_count`.
- Route-plan caching and the zip of path and segments into response items: presentation of a search result already covered.
- SAP IDOC parsing, the dead-letter queue and ANSI X12: thin mappings.
- Order splitting and merging: child orders start as pending without the creation entry in their log.
- The other cache methods (`decr`, `expire`, `ttl`, `flushall`): one-line members; expiry times are stored but never enforced by the cache.
- Rate-limit headers, decorators and distributed locks: degrade to plain calls on errors.
- Hash, JWT and password internals: tokens are opaque and their keys injective.
- Batch numbers are ordered as numbers rather than as texts under a database collation.
- OptimisticLock.InventoryStore.AdjustInventory: models the call after the warehouse and location lookups; the manufacturing date, stored like the expiry date but read by nothing, is dropped.
- OptimisticLock.NoLostUpdates: an attempt's read and its version-checked commit are one step each, so isolation levels above read-committed are not distinguished.
- OrderStatus.HistoryIsAPathIff: each batch task acts on an order in one step, its selection and its write together.
- TokenStore.RedeemedAtMostAsStored: one process; several processes sharing one Redis are not modelled. A second copy that no pop comes to use still counts in the bound.
- Rotation.AtMostOneLiveToken: asks that a session's tokens are issued once, since they carry no unique id.
- RateLimiter.WindowBound: one bucket with one limit and window; members of the sorted set are distinct.
