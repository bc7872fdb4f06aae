# Verified model of the tsflow storage engine

tsflow keeps flow logs as per-minute node-pair rows and answers from several
faster forms of the same data: hourly rollup rows, a cache of closed hours,
packed entries, per-bucket row counters, single-pass stats. This project models
those forms and the state machines around them, and proves that each stays
equal to the one simple thing it stands for.

The modules follow the program:

- `GoInts` has Go's truncating division, `Int64s` its checked 64-bit addition and
  `Strings` its string order; `PairGroups` has the partial sums of one node pair,
  whose merge is associative and commutative.
- `HourRollup` and `RollupStore` are the minute table, the hour table, the mark,
  and every write transaction on them. `Consistent` is the rollup invariant;
  `Apply` is the effect of a transaction; class `Store` is the imperative form
  and each of its methods is proved to be `Apply`. `HourSums` says what every
  stored row is a sum of, column by column, without them.
- `WindowPlan`, `SpanSplit`, `SpanReads` and `GraphPlan` plan a read, cut it into
  work items and add the items up.
- `ClosedHours`, `ClosedHourCache`, `CommitSeq`, `StoreWorld` and `GraphRead` are
  the concurrent side: the LRU cache with its epochs and floors, the commit
  counter, the interleaving of commits, invalidations, fills and reads, and the
  graph read as a record over such a history.
- `SumSets`, `PartitionMerge`, `PackedHour` and `PackedMerge` are the in-memory
  groups, their partitioned merge, and the packed hour.
- `JsonInt`, `StatsJson`, `PortsJson` and `PortsAccept` are the strict parsers and
  the printers they undo. `StatsPlan`, `StatsPass`, `StatsPorts`, `StatsAgree`,
  `PortsAgree` and `MissingRanges` derive the stats.
- `BucketRows`, `ObjectPoll`, `PollRuns`, `PollLosses`, `DeviceCache`,
  `Aggregator` and `RateLimit` are the other state machines, and `LogSums` what
  each total of the aggregator is in terms of the logs. `FiniteSums` has sums over
  sets.

A table is a map, a write transaction one atomic step, a read transaction one
state of the history. Clocks, hash functions, read outcomes of objects and the
order in which SQL returns rows are inputs, so every claim holds for all of them.

## What the proofs found

Each of these is proved with its exact condition.

- `planHours` reads past the end of a window that ends before 1970 off an hour
  boundary, because Go rounds the end up there
  (`WindowPlan.PlanHoursPartitions`, `WindowPlan.PlanHoursOverrun`). No row is
  stored there, so reads are exact all the same (`WindowPlan.PlanThroughMarkStored`).
- `missingAggregatedRanges` is exact for every set of stored buckets when the
  window starts at or after 1970, and before it only for a one-second window on
  a bucket boundary (`MissingRanges.GapsExactExactlyWhen`).
- The cursor an object-store poll stores can pass objects it left un-ingested, in
  two ways (`ObjectPoll.AskedExactly`). A poll that stores nothing and fails
  nothing moves the cursor to the end of its window (`poller.go:581-585`), also
  when it gave up on a whole page of `MaxObjects` objects with more behind it. And
  a poll cut short by a guard, commit or context error returns its newest time
  without stepping back to an unreadable object, and that time is stored despite
  the error (`object_store_source.go:362-371`, `poller.go:590-594`). A third loss
  needs no wrong cursor: while no first cursor could be stored, the window moves
  with the clock. For every lookback a turn loses an object exactly when it leaves
  one out of reach: older than the end of a window it gave up on, or than a newer
  object that a poll cut short had reached, by more than the lookback
  (`PollRuns.UnsafeTurnLoses`, `ObjectPoll.ReachExactly`). An object behind the
  lookback is never listed again (`PollRuns.LostForGood`). `PollLosses` has a run
  from an empty store for each case.
- An empty address in the device list is stored with the device and comes back in
  its metadata row (`poller.go:440-448`) after the device left the list. It is
  mapped when the row is adopted, dropped from the device's list when another row
  merges, and so survives the device's pruning
  (`DeviceCache.EmptyAddressOutlivesItsDevice`); `DeviceCache.Cache.PruneFlowOnly`
  says exactly when. All other addresses stay live.
- A device of the device list takes an address that another one lists when a row
  that merges into it carries that address; only then does a listed address stop
  resolving to a device that lists it (`DeviceCache.Cache.AdoptLocked`).
- `quiet()` needs `finished` loaded first to be right by itself
  (`CommitSeq.StartedFirstIsWrong`), as its comment says; together with the later
  `unchangedSince` either order would do (`CommitSeq.RecheckCoversOtherOrder`).
- `parseProtocolBytes` accepts any text that starts with `{}` and ends with `}`
  as an empty object (`StatsJson.AcceptsOnlyPrinted`), and the two list parsers any
  text that starts with `[]` and ends with `]`.
- The sum of the protocols other than TCP and UDP is not checked for overflow and
  wraps (`StatsPass.Classes`; `stats_single_pass.go:266-275`).
- The one-minute floor on `StaleAfter` is needed: any shorter one lets cleanup
  forgive a client (`RateLimit.EarlierCleanupForgives`).

## Model

| member | source | states |
|---|---|---|
| PairGroups.MergeAssoc | backend/internal/database/node_pair_parallel.go:425-462 | merging partial groups may be bracketed in any way: nulls, minimums, flags and protocol maps included |
| PairGroups.MergeComm | backend/internal/database/node_pair_parallel.go:425-462 | partial groups merge the same in either order |
| HourRollup.LiftAdd | backend/internal/database/aggregate_queries.go:192-365 | the SQL merge of two rows of a minute and the in-memory merge of their groups agree |
| HourRollup.FoldUpsert | backend/internal/database/aggregate_queries.go:192-365 | a delta adds itself to exactly the windows that hold its minute and pair, once |
| HourRollup.HoursOfAt | backend/internal/database/hour_rollup.go:334-391 | the rollup has a row exactly where a minute of the hour at or below the mark survives, and it is the fold of those minutes |
| HourRollup.HoursAfterLateUpsert | backend/internal/database/hour_rollup.go:569-612 | a minute at or below the mark moves its own hour row by the same delta and no other row |
| HourRollup.HoursAfterOpenUpsert | backend/internal/database/aggregate_queries.go:329-363 | a minute above the mark leaves the rollup alone |
| HourRollup.HoursAfterChunk | backend/internal/database/hour_rollup.go:334-391 | merging the waiting minutes of one hour and moving the mark gives the rollup of the new mark, for the whole table |
| HourRollup.HoursAfterAdvance | backend/internal/database/hour_rollup.go:348-362 | a mark that crosses an empty tail changes no hour row |
| HourRollup.PruneKeepsRollup | backend/internal/database/hour_rollup.go:632-675 | retention leaves the rollup of exactly the surviving minutes, for every cutoff: before, on or inside a minute or an hour, or past the mark |
| RollupStore.RollupInvariant | backend/internal/database/hour_rollup.go:322-391 | after any run of writes, row by row: presence, fold and min_bucket of every hour row |
| HourSums.HourRowsAreColumnSums | backend/internal/database/node_pair_read.go:386-437 | in every reachable state each number and each protocol key of an hour row is the sum of that same column over the surviving minutes of its pair and hour at or below the mark, and it is directional exactly when all of them are |
| HourSums.MinuteRowsAreDeltaSums | backend/internal/database/aggregate_queries.go:253-323 | in every reachable state a minute row is there exactly when a delta landed in it that retention has not passed, and is their sum column by column |
| StatsPlan.FallbackIsExact | backend/internal/database/hour_rollup.go:476-486 | the fallback test flags exactly the rows whose stored protocol bytes can miss a total |
| RollupStore.Store.MergeMinutesIntoHour | backend/internal/database/hour_rollup.go:415-474 | the minutes between two bounds are added onto the hour's stored rows, untouched pairs stay as stored, and the legacy need is reported exactly |
| RollupStore.ReadMinuteRows | backend/internal/database/hour_rollup.go:439-474 | rows scanned in any order give each pair its seed merged with the fold of its minutes, and the pairs with a row are the dirty ones |
| RollupStore.Store.WriteDirtyHourGroups | backend/internal/database/hour_rollup.go:513-557 | exactly the dirty groups are written, the rest of the table is untouched |
| RollupStore.Store.MergeHourDelta | backend/internal/database/hour_rollup.go:569-612 | one late delta joins its hour row, and raises the legacy flag exactly when it needs the protocol fallback |
| RollupStore.Store.UpsertNodePairs | backend/internal/database/aggregate_queries.go:192-365 | all deltas land in their minutes, late ones in their hours, and the reported touches are the hours of the late ones |
| RollupStore.Store.RollNextHourChunk | backend/internal/database/hour_rollup.go:334-391 | keeps the invariant, never reaches the two errors of a chunk or mark that did not advance, and moves the mark strictly toward its goal |
| RollupStore.Store.RollClosedMinutes | backend/internal/database/hour_rollup.go:322-332 | terminates with the mark at the larger of the old mark and one minute before the closed minute, or unmoved when no mark existed and no minute waited |
| RollupStore.Store.PruneHourRollups | backend/internal/database/hour_rollup.go:632-675 | deletes and rebuilds exactly as PrunedHours, which PruneKeepsRollup shows is the rollup of what survives |
| RollupStore.Store.Cleanup | backend/internal/database/maintenance.go:353-417 | keeps the invariant, and the bound handed to the cache is past the hour it rebuilt |
| RollupStore.Store.UpsertPollCursor | backend/internal/database/maintenance.go:65-85 | the cursor only moves forward |
| RollupStore.Store.CommitPollResults | backend/internal/database/aggregate_queries.go:65-104 | one transaction: deltas, cursor and roll, with the touches of the mark before it |
| RollupStore.Store.CommitObjectIngest | backend/internal/database/aggregate_queries.go:106-175 | a recorded object applies nothing again; a new one applies its aggregates once |
| RollupStore.Store.UpdatePollState | backend/internal/database/maintenance.go:35-59 | moves the cursor forward and closes minutes up to the same point |
| RollupStore.Store.UpsertNodePairAggregates | backend/internal/database/aggregate_queries.go:480-504 | deltas then the roll to the present minute, nothing for an empty batch |
| RollupStore.Store.BackfillHourRollups | backend/internal/database/hour_rollup.go:286-319 | every state the startup run commits is the one before it rolled to some closed minute, and the last is that of one roll |
| WindowPlan.PlanHoursPartitions | backend/internal/database/hour_rollup.go:41-68 | every window and mark: no second lost or read twice, exactly unless the window overruns before 1970 |
| WindowPlan.PlanHoursOverrun | backend/internal/database/hour_rollup.go:41-68 | a concrete window that is read past its end |
| WindowPlan.PlanThroughMarkPartitions | backend/internal/database/hour_rollup.go:79-104 | the same for the plan with the filling hour, whose hour ranges are rolled |
| WindowPlan.PlanThroughMarkStored | backend/internal/database/hour_rollup.go:79-104 | for seconds that can hold rows the plan is exact for every window |
| WindowPlan.RangeIsRolled | backend/internal/database/hour_rollup.go:70-104 | every minute of a planned hour range is at or below the mark |
| WindowPlan.PlanHoursReadsHours | backend/internal/database/hour_rollup.go:41-68 | a stored second is read from hour rows exactly when its whole hour is in the window and rolled, but for the first hour of a window that starts less than an hour before 1970 |
| WindowPlan.PlanThroughMarkReadsHours | backend/internal/database/hour_rollup.go:70-104 | with the filling hour, also exactly the rolled part of the mark's own hour |
| WindowPlan.CombineHourPlans | backend/internal/database/hour_rollup.go:146-159 | a stored second is read as often as the ranges hold it, and from hour rows exactly when one of them holds its whole rolled hour |
| SpanSplit.SplitClosedHours | backend/internal/database/node_pair_parallel.go:30-48 | closed and open parts hold each second as often as before; closed parts are whole rolled hours, open parts start with none |
| SpanSplit.SplitClosedMinutes | backend/internal/database/node_pair_parallel.go:88-115 | the same for minutes: closed chunks of at most three minutes below the mark, open parts after it |
| SpanSplit.OpenSpans | backend/internal/database/node_pair_parallel.go:149-172 | the items hold the open minutes exactly, and there are at most 32 plus one per span |
| GraphPlan.ListRolledHours | backend/internal/database/node_pair_parallel.go:61-82 | the seeks list exactly the hours of the ranges that have rows |
| GraphPlan.ClampMinuteSpans | backend/internal/database/node_pair_parallel.go:188-211 | trimmed spans hold every minute with rows as often as before, and nothing else more often |
| GraphPlan.PlanGraphRead | backend/internal/database/node_pair_read.go:94-131 | the items of a read hold every minute with rows of the window once and no stored second twice, closed items are closed under the mark, for both modes |
| SpanReads.HourScanIsFold | backend/internal/database/node_pair_read.go:138-158 | scanning covered hour rows is scanning their minutes |
| SpanReads.PiecesAddUp | backend/internal/database/node_pair_parallel.go:255-336 | items that hold each stored minute of the window once merge to one scan of it |
| ClosedHours.ClosedHourStable | backend/internal/database/node_pair_read.go:81-93 | a closed hour stays closed, and its rows change only in a commit that reports it |
| ClosedHours.RolledMinuteStable | backend/internal/database/node_pair_read.go:81-93 | a minute at or below the mark changes only in a reported hour |
| ClosedHourCache.Cache.Get | backend/internal/database/closed_hour_cache.go:71-85 | returns the entry, moves it to the front, changes nothing a reader can see |
| ClosedHourCache.Cache.Put | backend/internal/database/closed_hour_cache.go:95-113 | refuses an entry exactly when it is over the budget or, since its Start, a call named its hour or was under a floor above it; otherwise stores it in front and keeps the longest front of the list that fits |
| ClosedHourCache.DroppedExactly | backend/internal/database/closed_hour_cache.go:87-93 | over all calls an hour was last dropped after an epoch exactly when a call since that epoch dropped it |
| ClosedHourCache.Cache.Invalidate | backend/internal/database/closed_hour_cache.go:124-138 | drops exactly the given hours and records a new epoch on them; nothing for an empty set |
| ClosedHourCache.Cache.InvalidateBelow | backend/internal/database/closed_hour_cache.go:141-164 | drops exactly the tailnet's hours below the raised floor and folds their touches into it |
| CommitSeq.QuietIsExact | backend/internal/database/store_lock.go:70-77 | quiet reports idle exactly when no commit is in flight at the second load and none finished between the two |
| CommitSeq.UnchangedIsExact | backend/internal/database/store_lock.go:79-81 | the recheck succeeds exactly when no commit started since |
| CommitSeq.QuietReadIsStable | backend/internal/database/store_lock.go:43-81 | quiet then unchanged: every moment in between sees one version, for any number of writers |
| CommitSeq.StartedFirstIsWrong | backend/internal/database/store_lock.go:70-77 | a run in which the other load order reports idle with a commit about to land |
| CommitSeq.RecheckCoversOtherOrder | backend/internal/database/node_pair_read.go:94-126 | with the recheck the other order is also caught |
| StoreWorld.CurrentAfterCommit | backend/internal/database/store_lock.go:83-92 | rows somebody holds stay current across a commit, or the commit owes their invalidation |
| StoreWorld.InvKept | backend/internal/database/node_pair_parallel.go:398-419 | every step of commits, invalidations and fills keeps the cache and all fills coherent |
| StoreWorld.CachedHoursAreCommitted | backend/internal/database/closed_hour_cache.go:15-23 | over every interleaving a cached hour equals the committed rows unless a landed commit that drops it has its invalidation still to run |
| GraphRead.ParallelReadIsStable | backend/internal/database/node_pair_parallel.go:287-289 | a kept parallel read saw one version from its plan to its check |
| GraphRead.GraphReadCountsOnce | backend/internal/database/node_pair_read.go:79-136 | every finished read, parallel or fallback: each minute of the window comes from the one committed version its item shows, and is counted once |
| GraphRead.CompositeAt | backend/internal/database/node_pair_read.go:81-93 | the one item that holds a minute decides which version it comes from |
| GraphRead.UndisturbedReadIsPlainScan | backend/internal/database/node_pair_parallel.go:266-336 | without late delta, cleanup or owed invalidation the read is a plain minute scan of the planning snapshot, while polls commit and the mark moves |
| GraphRead.KeptParallelReadIsPlainScan | backend/internal/database/node_pair_read.go:89-93 | a kept parallel read needs only that no invalidation is owed |
| SumSets.Add | backend/internal/database/node_pair_read.go:283-308 | a sum set is a plain map on both sides of the switch to an index |
| SumSets.PairGroup.Merge | backend/internal/database/node_pair_parallel.go:425-462 | merging in place is merging the values, ports included |
| PartitionMerge.SpansScanAsOne | backend/internal/database/node_pair_parallel.go:255-265 | however rows are split into spans, merging the scans is one scan |
| PartitionMerge.AggregateParts | backend/internal/database/node_pair_parallel.go:290-336 | for every hash and number of parts the output lists each group of the sequential merge once |
| PartitionMerge.SortIsUnique | backend/internal/database/node_pair_read.go:221-237 | the sort order leaves one listing of a set of groups |
| PartitionMerge.ParallelEqualsSequential | backend/internal/database/node_pair_parallel.go:255-265 | the sorted parallel result is the sorted result of one sequential scan |
| PackedHour.ProtoKeyRoundTrip | backend/internal/database/closed_hour_cache.go:329-350 | a protocol key and its flags survive the word exactly when the key fits 30 signed bits |
| PackedHour.PortRoundTrip | backend/internal/database/closed_hour_cache.go:352-375 | a port key and its flags survive the word exactly when port and protocol fit 32 and 16 signed bits |
| PackedHour.PackHour | backend/internal/database/closed_hour_cache.go:249-305 | accepts exactly the hours whose values fit; the entry lists exactly the groups, offsets of pairs are disjoint, hashes are the keys' |
| PackedMerge.MergePartition | backend/internal/database/closed_hour_cache.go:390-447 | adds the pairs of one partition onto the groups, as scanning their rows would |
| PackedMerge.PackedRoundTrip | backend/internal/database/closed_hour_cache.go:249-447 | merging all partitions into empty maps gives back exactly the packed groups |
| JsonInt.ParseJSONInt | backend/internal/database/stats_single_pass_json.go:9-48 | accepts exactly the canonical integers up to the largest int64 in magnitude, and its uint64 never wraps |
| JsonInt.PrintedNumber | backend/internal/database/stats_single_pass_json.go:9-48 | a printed integer reads back exactly when it is above the smallest int64 and at most the largest |
| JsonInt.NumberIsPrinted | backend/internal/database/stats_single_pass_json.go:9-48 | whatever is accepted is what the printer prints for that value |
| StatsJson.ParseProtocolBytes | backend/internal/database/stats_single_pass_json.go:50-102 | the index loop computes the grammar ProtocolBytes, errors included |
| StatsJson.ProtocolsRoundTrip | backend/internal/database/node_pair_read.go:514-533 | printed entries read back in order exactly when every sum is a number and sums and keys are above the smallest int64 |
| StatsJson.AcceptsOnlyPrinted | backend/internal/database/stats_single_pass_json.go:50-102 | the full set of accepted texts |
| PortsJson.ParsePortList | backend/internal/database/stats_single_pass_json.go:133-200 | the loops compute the grammar PortList: three keys, each once, in any order |
| PortsJson.PortsRoundTrip | backend/internal/database/node_pair_read.go:556-610 | printed port lists read back exactly when no key or sum is null and all are above the smallest int64 |
| PortsJson.ParseIntArray | backend/internal/database/stats_single_pass_json.go:104-131 | the loop computes the grammar IntArray |
| PortsJson.IntArrayRoundTrip | backend/internal/database/node_pair_read.go:492-512 | printed protocol lists, null keys included, read back exactly when no key is null and all numbers are above the smallest int64 |
| PortsJson.IntArrayAcceptsOnlyPrinted | backend/internal/database/stats_single_pass_json.go:104-131 | parseIntArray accepts printed in-range lists and texts that open with an empty list and end with a bracket, nothing else |
| PortsAccept.AcceptsOnlyPrintedPorts | backend/internal/database/stats_single_pass_json.go:133-200 | parsePortList accepts lists of in-range objects with their three fields in any order, and the same empty texts, nothing else |
| StatsPlan.PlanTotalsAreMinuteTotals | backend/internal/database/stats_single_pass.go:318-345 | for whole-hour buckets and no legacy rows every total of every bucket is the same over the plan and the raw minutes |
| StatsPlan.PlanPairsAreMinutePairs | backend/internal/database/stats_single_pass.go:318-345 | so are the distinct pairs of every bucket |
| StatsPlan.GapPlanServes | backend/internal/database/aggregate_queries.go:987-993 | the combined plan of the gap finder's ranges reads every stored second of them once |
| Int64s.AddInt64Exact | backend/internal/database/stats_single_pass.go:73-79 | the overflow comparison rejects exactly the sums that do not fit |
| StatsPass.Pass.ReadRow | backend/internal/database/stats_single_pass.go:84-227 | a row is taken exactly when its counted columns are present and readable and its total and every kept sum and port sum it adds to fit 64 bits; then every kept measure, the port sums and the pairs of its bucket grow by it |
| StatsPass.Pass.Read | backend/internal/database/stats_single_pass.go:84-160 | a statement is accepted exactly when its rows are complete and readable and no running sum or port sum leaves 64 bits; then all its rows are added, bucket by bucket |
| StatsPass.Pass.Results | backend/internal/database/stats_single_pass.go:244-300 | a bucket's stats are its sums, the number of its distinct pairs, its protocol classes and its top ports |
| StatsPorts.AddPorts | backend/internal/database/stats_single_pass.go:229-242 | a port column is taken exactly when the strict parser reads it and no sum leaves 64 bits on the way; then each protocol and port has its old sum plus all its entries |
| StatsPorts.RankPorts | backend/internal/database/stats_single_pass.go:275-297 | whatever order the sums come in, the listing is the first twenty of their one ranking |
| StatsPorts.TopIsExact | backend/internal/database/stats_single_pass.go:275-297 | the listing stands in rank order and holds a sum exactly when fewer than twenty outrank it |
| StatsPass.CountUnique | backend/internal/database/stats_single_pass.go:257-262 | sort-and-count is the cardinality of the set |
| StatsPass.CodesCountPairs | backend/internal/database/stats_single_pass.go:64-71 | interned codes of different pairs differ, so counting codes counts pairs |
| StatsPass.Classes | backend/internal/database/stats_single_pass.go:264-275 | TCP and UDP are their sums, other is the wrapped sum of the rest, and the three lose nothing while that sum fits |
| StatsPass.SinglePassMinuteStats | backend/internal/database/stats_single_pass.go:303-316 | all or nothing: the stats of the rows exactly when the rows are accepted |
| StatsPass.SinglePassRollupStats | backend/internal/database/stats_single_pass.go:318-345 | the same over minute edges and then hour rows; a legacy plan is refused |
| StatsAgree.TotalsFitAccepted | backend/internal/database/stats_single_pass.go:73-160 | rows without negative numbers, with readable port lists, are accepted as soon as their bucket totals and port sums fit |
| StatsAgree.SinglePassAgrees | backend/internal/database/stats_single_pass.go:303-345 | when no number is negative, port columns are lists and no bucket total or port sum overflows, both passes accept and return the same stats but for the top ports in every bucket, unique pairs included, in any order of rows |
| PortsAgree.TopPortsAgree | backend/internal/database/stats_single_pass.go:229-345 | when each hour row's port list sums those of its minutes the top ports are the same too, and the raw totals are all that has to fit |
| StatsAgree.OfTypesIsConsistent | backend/internal/database/stats_single_pass.go:305-345 | the rows of a list of traffic types keep the rollup invariant, so the same holds of filtered statements |
| MissingRanges.MissingAggregatedRanges | backend/internal/database/stats_overview.go:54-107 | sorted, disjoint, non-touching ranges of exactly the uncovered segments |
| MissingRanges.GapsExactExactlyWhen | backend/internal/database/stats_overview.go:51-107 | the ranges are the missing seconds for all stored buckets exactly from 1970 on, or for one second on a boundary before |
| BucketRows.StepKeepsInv | backend/internal/database/bucket_rows.go:37-241 | every step of triggers, merges, retention, chunks, restarts and rebuilds keeps: a counter is exact or the builder will still recount it |
| BucketRows.StepOnRows | backend/internal/database/bucket_rows.go:10-54 | an insert adds its row, retention takes exactly a tailnet's rows below the cutoff, no other step changes the stored rows |
| BucketRows.StepOnCounters | backend/internal/database/bucket_rows.go:44-54 | with the trigger a new row counts one at its minute, a stored one nothing, and retention clears what it deletes |
| BucketRows.AlwaysPossible | backend/internal/database/bucket_rows.go:90-143 | writers never wait for the builder, and every startup ends with the trigger in place and no counter below the oldest stored minute |
| BucketRows.RowsAreInserts | backend/internal/database/bucket_rows.go:10-20 | over every run the stored rows are those inserted and not since retained away |
| BucketRows.ReadyCountersAreExact | backend/internal/database/bucket_rows.go:40-54 | whenever the counters are in use each equals the number of stored rows |
| BucketRows.CountAllNodePairs | backend/internal/database/bucket_rows.go:259-275 | the counted and the uncounted read both return the number of stored rows |
| BucketRows.CountedReadsAgree | backend/internal/database/bucket_rows.go:246-257 | the same from any bucket, in every reachable state |
| BucketRows.CountedReadCountsInserts | backend/internal/database/bucket_rows.go:246-257 | in a ready state the counted read is the number of different rows inserted and not since retained away |
| BucketRows.BuildPairRowCounts | backend/internal/database/bucket_rows.go:150-212 | alone, the builder terminates with the counters ready and exact |
| ObjectPoll.ObjectStoreSource.Select | backend/internal/services/object_store_source.go:357-379 | the page is the oldest un-ingested objects up to the limit; the scan is stopped exactly when a guard fails no later than the page is full |
| ObjectPoll.ObjectStoreSource.HandleObject | backend/internal/services/object_store_source.go:381-449 | one object is stored, given up on after its fifth permanent failure, left with its failure counted, or halts the poll; a transient failure or an ended context changes nothing |
| ObjectPoll.ReadExactly | backend/internal/services/object_store_source.go:381-443 | a poll records an object without its flows exactly at a permanent failure that fills the budget and commits, never at a transient one, and counts only permanent failures |
| ObjectPoll.UnreadStays | backend/internal/services/object_store_source.go:381-443 | objects a poll does not read keep their state |
| ObjectPoll.ReadsUntilTheEnd | backend/internal/services/object_store_source.go:381-437 | the page is read in order up to the first read that ends the poll |
| ObjectPoll.ObjectStoreSource.Poll | backend/internal/services/object_store_source.go:330-452 | the result, the store and the failure counts for every way of stopping, about which the laws below are proved |
| ObjectPoll.PageIsOldest | backend/internal/services/object_store_source.go:353-379 | without a failing guard the page is the oldest un-ingested objects, as many as fit |
| ObjectPoll.FlagsAre | backend/internal/services/object_store_source.go:330-452 | a poll fails exactly when its listing fails, it is cut short, or an object of its page stays unreadable |
| ObjectPoll.FailuresAre | backend/internal/services/object_store_source.go:389-413 | each attempted object's failures are counted or cleared as its outcome and the budget say |
| ObjectPoll.IngestsAreNew | backend/internal/database/aggregate_queries.go:106-175 | a poll ingests only new keys, each once |
| ObjectPoll.SteppedBack | backend/internal/services/object_store_source.go:444-449 | when nothing cuts the poll short its own cursor passes no object it left un-ingested |
| ObjectPoll.AskedExactly | backend/internal/services/poller.go:578-597 | the cursor that is stored passes no un-ingested object, exactly unless a whole page was given up on with more behind it or the poll was cut short with a newer object already seen or stored |
| ObjectPoll.ReachExactly | backend/internal/services/object_store_source.go:341-452 | the asked cursor puts an object left in the window behind the lookback exactly when the poll gave up on its page with the window's end that far ahead, or was cut short past an object that much newer |
| ObjectPoll.ObjectStoreSource.PollObjectStore | backend/internal/services/poller.go:578-597 | that cursor is stored whatever error the poll returned, unless storing it fails |
| PollRuns.PollOnce | backend/internal/services/poller.go:514-547 | one poll of the program is one turn of the runs below |
| PollRuns.RunLosesNothing | backend/internal/services/object_store_source.go:341-347 | up to any moment of a run of polls, restarts and errors no object has been lost exactly when all turns so far were safe; and while they are, an un-ingested listed object is listed again by every later poll |
| PollRuns.UnsafeTurnLoses | backend/internal/services/poller.go:578-597 | for every lookback a turn loses an object exactly when it leaves one out of reach |
| PollRuns.RecordedExactly | backend/internal/services/object_store_source.go:381-413 | over all runs an object that is read becomes ingested exactly when its flows commit, or at a permanent failure that is at least the fifth since the process started or last read it |
| PollRuns.FailuresAreStrikes | backend/internal/services/object_store_source.go:389-413 | the failures remembered for an object are its permanent ones since then |
| PollRuns.OnlyReadsRecord | backend/internal/services/object_store_source.go:381-443 | an object no turn reads stays as it is |
| PollRuns.LostForGood | backend/internal/services/object_store_source.go:341-344 | an object behind the lookback of the stored cursor is never listed or ingested again |
| PollLosses.GivingUpLoses | backend/internal/services/object_store_source.go:388-403 | five polls of a full page whose only object cannot be decoded lose the object behind it |
| PollLosses.GuardErrorLoses | backend/internal/services/object_store_source.go:361-371 | a guard error behind a newer ingested object loses an unreadable one |
| PollLosses.CommitErrorLoses | backend/internal/services/object_store_source.go:418-434 | so does a commit error after a stored object |
| PollLosses.UnstoredCursorLoses | backend/internal/services/poller.go:533-540 | so does a first cursor that is not stored |
| PollRuns.RunAddsUp | backend/internal/database/aggregate_queries.go:106-175 | over a run with retries, restarts and cursor rolls the stored minutes are those at the start plus the total of each ingested object, applied once |
| PollRuns.IngestOrderIsFree | backend/internal/services/object_store_source.go:381-443 | the order of ingestion does not matter |
| DeviceCache.Cache.Update | backend/internal/services/device_cache.go:94-136 | each device has its own row's addresses, node id and legacy id; a legacy id that is no device id finds the last device that lists it, an address the last device that lists that, and nothing else is mapped |
| DeviceCache.Cache.MatchLocked | backend/internal/services/device_cache.go:308-353 | a row matches by id, then legacy id, then its first Tailscale address whose holder both its ids may name |
| DeviceCache.ConflictIsExact | backend/internal/services/device_cache.go:328-353 | the conflict test finds exactly the devices one of the ids cannot name |
| DeviceCache.Cache.MapIPLocked | backend/internal/services/device_cache.go:293-306 | an address goes to the device exactly when it is listed, or when the holder is neither listed nor seen later |
| DeviceCache.Cache.AliasLocked | backend/internal/services/device_cache.go:433-450 | an alias is never a device id, reaches a live device in one hop and is in its list |
| DeviceCache.Cache.RekeyLocked | backend/internal/services/device_cache.go:452-474 | the entry moves to the new id; the old id and every alias follow |
| DeviceCache.Cache.MergeLocked | backend/internal/services/device_cache.go:355-418 | the row's ids find the device it joined and every other id what it found before; exactly its addresses move; preferred id, node id and later flow time are kept |
| DeviceCache.Cache.AdoptLocked | backend/internal/services/device_cache.go:269-291 | a row joins exactly the device it belongs to or becomes one; its ids find it, every other id and every other device stay as they were; a listed device's address keeps resolving to a device that lists it unless the row brings it to another listed device |
| DeviceCache.Cache.PruneFlowOnly | backend/internal/services/device_cache.go:534-551 | drops exactly the expired flow-only devices, their aliases and the addresses they list and hold; the empty address stays live exactly unless its holder expired without listing it |
| DeviceCache.Cache.RemoveLocked | backend/internal/services/device_cache.go:553-566 | removes the device, its aliases and its addresses; the empty address stays dangling exactly when it was mapped but not listed |
| DeviceCache.Cache.EquivalentIDs | backend/internal/services/device_cache.go:600-624 | the canonical id first, then exactly the aliases that reach it, once each, in order |
| DeviceCache.Cache.EquivalentIDsAgree | backend/internal/services/device_cache.go:598-624 | each member of a device's ids finds that device, so all give the same set |
| DeviceCache.EmptyAddressOutlivesItsDevice | backend/internal/services/device_cache.go:94-190 | a run of list refreshes, stored rows and a prune by which an empty address outlives its device |
| Aggregator.Aggregate | backend/internal/services/aggregator.go:81-260 | the loop's branches add up to Aggregated, about which the laws below are proved |
| LogSums.PairsAreLogSums | backend/internal/services/aggregator.go:88-151 | bytes, packets and flows of a pair sum the logs that run each way between its nodes in that minute |
| LogSums.PairsAreLogged | backend/internal/services/aggregator.go:88-151 | a pair has a row exactly when a log ran between its nodes |
| LogSums.PairPartsAreLogSums | backend/internal/services/aggregator.go:153-184 | protocol and port counters sum the logs of that protocol or service, the service port being told by cases on both ports |
| LogSums.StatsAreLogSums | backend/internal/services/aggregator.go:186-224 | every number of a minute's traffic stats sums that minute's logs |
| LogSums.NodesAreLogSums | backend/internal/services/aggregator.go:226-258 | a node's TX is what it sent, its RX what others sent it, the bandwidth what all sent |
| Aggregator.BytesAreConserved | backend/internal/services/aggregator.go:100-258 | non-physical pair bytes, network bandwidth, TCP plus UDP plus other bytes, and TX over nodes are one number |
| Aggregator.NodesMatchPairs | backend/internal/services/aggregator.go:226-257 | each node's stored TX and RX are what the normalized pairs say, self-pairs counting once |
| Aggregator.ProtocolsMatchPairs | backend/internal/services/aggregator.go:153-184 | directional protocol maps sum to the pair's TX and RX and to its protocol map |
| Aggregator.StatsMatchPairs | backend/internal/services/aggregator.go:186-224 | bytes per traffic type, flows and service ports agree with the pairs |
| Aggregator.UniquePairsMatch | backend/internal/services/aggregator.go:220-220 | the unique pairs of a minute are the endpoints of its pair rows |
| Aggregator.OrderDoesNotMatter | backend/internal/services/aggregator.go:81-260 | permuting the logs changes no total |
| RateLimit.Normalize | backend/internal/middleware/ratelimit.go:42-61 | invalid fields get their defaults, a staleness under a minute becomes one minute, and a valid configuration is unchanged |
| RateLimit.Limiter.Allow | backend/internal/middleware/ratelimit.go:78-102 | the decision, the new bucket and the retry delay of one request |
| RateLimit.RetryAfterIsExact | backend/internal/middleware/ratelimit.go:99-101 | a refused client that stays away is let in after its delay, and not before, to the millisecond |
| RateLimit.AtMostBurstPlusRate | backend/internal/middleware/ratelimit.go:78-124 | in every run, with other keys and cleanup ticks in between, at most capacity plus rate times T requests of one key pass in a time T |
| RateLimit.LetInExactly | backend/internal/middleware/ratelimit.go:78-124 | over every run a request is let in exactly when, counted from every earlier event, it and those of its key let in since fit into capacity plus rate times T |
| RateLimit.DecisionsAreAllows | backend/internal/middleware/ratelimit.go:78-102 | the answers of a run are those decisions, in order |
| RateLimit.CleanupChangesNoDecision | backend/internal/middleware/ratelimit.go:104-124 | cleanup at any times changes no decision |
| RateLimit.EarlierCleanupForgives | backend/internal/middleware/ratelimit.go:42-61 | with any staleness under a minute some run is decided differently |

## Left out

- SQL text, the SQLite driver, WAL, migrations and older binaries on the same database (including the counters their cleanup leaves below the oldest bucket).
- Stored buckets before 1970: a bucket is a natural number. With negative ones retention at a cutoff before 1970 would round the wrong way.
- Port columns of stored rows: minute rows keep the top 20 on merge and hour rows keep all, so rollup, plan and graph-read claims are about the other columns. Ports are in the merge, packing, parsing and aggregation claims.
- Protocol columns that are not objects of integers, NULL counters of stored minute rows, and the derivation of missing protocol bytes; the protocol-list share of a row is a function of the row.
- int64 wrap-around of stored sums; the single pass checks its own sums, and those checks are modelled.
- StoreWorld.InvKept: the cache epoch and the commit counters are unbounded where the source has uint64, and a cache that is switched off (budget zero or less) is not modelled.
- MergePartition: the entry's flags are booleans rather than bits of one word.
- PackHour: offsets and string ids wrap at 2^32 as in the source, and the round trip is stated for entries below that; the size estimate is an input of the cache.
- CodesCountPairs: stated for at most 2^32 interned ids, past which the source's uint32 wraps.
- Pass.ReadRow: a bucket's protocol list is a map, and protocol columns come parsed.
- SinglePassAgrees: top ports are left to TopPortsAgree, because minute rows keep 20 ports on merge and a late delta adds all of its ports to the hour, so the two port columns can differ.
- Pass.Results: the top ports are a list of values; their JSON text is not modelled.
- Sorting itself: sorted results are stated for any sorted arrangement, and proved unique for the graph read.
- Select: the listing is an input that is sorted by log time with different keys; the day prefixes and the parsing of times from keys are not modelled.
- RunLosesNothing: the bucket keeps its objects, a key keeps its time, the clock does not go back and windows begin after year 1; retention of the recorded keys is not part of a run.
- AskedExactly: stated for listings without the zero time, which the source also uses for "no time"; the windows of runs have none.
- Cache.Update: device ids differ and no later id is an earlier legacy id, as in the device list; ids are taken as already trimmed.
- AdoptLocked: names, owners, tags and online flags are not modelled; whether an address is a Tailscale address is any predicate that rejects the empty string.
- Limiter.Allow: tokens and times are real numbers.
- Aggregate: endpoints are resolved before the loop; the top-20 port cut, JSON encoding and sorting of the results are not modelled.
- Goroutine pools, cancellation and error returns of reads: a read that finishes is modelled, with its items read at any moments.
- Storage clients, HTTP handlers, access control, configuration parsing, metrics and the frontend.
