# JianManager control plane: verified models

JianManager's control plane queries the logs of many workers as one, keeps its own state in SQLite, and reconciles what
workers report with what it has recorded. This project models the parts of it whose correctness is not visible from
any single function, and proves in Dafny what they are for. `dafny verify dfyconfig.toml` checks everything.

**Federated log queries** (`internal/controlplane/logcoord`). A query fans out to the workers that hold its targets
(`Targets`, `Budget`, `Fanout`, `FanoutSearch`), the sorted streams that come back are merged with a binary heap
(`Merge`), rows are deduplicated (`Dedupe`), and a page with its coverage and its cursor is assembled (`SearchPage`,
`Cursor`, `Completeness`). The main results: following the cursors loses nothing and ends (`Paging`), the answer does
not depend on which worker replies first (`OrderFree`), a page claims completeness exactly when every target resolved
for it was covered (`Completeness`), which on a reused view is the whole view exactly when all its targets still
resolve (`ViewReuse`), an export ends for arbitrary workers and publishes an artifact only for whole pages (`Export`),
a cached answer was read for exactly the caller's request (`SearchCache`), statistics merge
independently of order and grouping (`Stats`), and facets of the order of the workers (`Facets`). `HonestRuns` shows that
the runs these theorems speak of exist, and `HonestExport` that the export's own loop publishes on all of them.

**The SQLite pool** (`internal/controlplane/database/sqlite_pool.go`). `PoolGuard` is the protocol of write gate,
idempotent hold and transaction flag as a state machine over any number of transactions and connections; its theorems
hold in every interleaving. `SqlitePool` is the same protocol as an object whose methods each perform one step, keep
the invariant, and make up a whole transaction.
`EvictionLog` is the rate limiter of the eviction log. `NodeNames` is the migration that gives active nodes distinct
names (`database.go`).

**Heartbeats** (`internal/controlplane/grpc`). `Heartbeat` is the machine of beats, reconcile tasks and writes of the
control plane, `ControlPlane` the handler whose loops perform its steps.

**Object store requests** (`internal/controlplane/blobstore/s3.go`). `Encoding` proves that percent-encoding is undone
by the decoder of RFC 3986 and what a canonical query tells.

`Text`, `Sorting` and `LogTypes` hold what several modules share: byte-wise text order, decimal printing, joining with
a separator, the stable sort and why its result is unique, and the order of events. A `char` stands for one byte.

## What the proofs brought to light

- A view fixes its targets, but a page reports only those that resolve today. A target that has vanished since is asked
  for under an empty worker id, fails, and is not reported, although the comment in the code promises a not-ready entry:
  the page can be complete and an export's artifact published without it (`ViewReuse.VanishedTargetLeftUnread`). A
  complete page covers the whole view exactly when every target of the view still resolves.
- Replies that spell the same worst quality in different case merge to a text that depends on arrival; the rank never
  does. `OrderFree.QualityOrderFree` gives the exact condition; the texts the adapter makes of the wire meet it.
- The write gate always serialises its own holders, but not SQLite's transactions: the one writer open there stays the
  only one, whatever the others do, exactly while it still holds the token (`PoolGuard.StaysAloneExactly`). It does in
  runs in which the outer layer releases after the driver and a failed COMMIT or ROLLBACK leaves nothing open; either
  rule without the other is not enough (`PoolGuard.BothRulesAreNeeded`).
- What the cache warmer writes ahead for the next minute can never be served, because the exact-window guard of the
  lookup always turns it away (`SearchCache.WrittenAheadNeverServed`). A comment about the key differs from the code:
  target ids are sorted but not deduplicated before the digest. The filter may hold any byte; an order version with the
  separator byte could make different requests share a key (`SearchCache.OrderVersionBlursFields`), but no caller sends
  one.
- A DAMAGED status written while a reconcile task has the instance still to settle can be overwritten by it
  (`Heartbeat.LateDamagedIsLost`), and only then (`Heartbeat.DamagedIsSafeExactly`).
- `dimsKey` tells points apart when no text holds `|` and no dimension name `=`; two points it does not tell apart are
  given by `Stats.BlurredKey`. The merge is independent of order exactly when given points with equal keys have equal
  bucket and dimensions (`Stats.OrderFreeExactly`). The average of a merged point is the weighted mean exactly when
  points that counted nothing summed to nothing (`Stats.AvgIsWeightedMean`).
- The canonical query orders names and values before encoding them. That gives what ordering the encodings would exactly
  when encoding swaps no two of them (`Encoding.OrderBeforeOrAfterExactly`).
- A client that repeats a page limit other than the cursor's is turned away (`Paging.NextPageBinds`).
- The comment of `MergeStreams` calls the merge stable, but rows with equal keys of different streams come in the heap's
  order (`Merge.TiedRowsTakeHeapOrder`). The order is determined exactly when rows with equal keys are equal
  (`Merge.OrderDeterminedExactly`).

## Model

| member | source | states |
|---|---|---|
| LogTypes.CompareAntisymmetric | internal/controlplane/logcoord/types.go:152-178 | the composite key order has no ties but equal keys, and reverses with its arguments |
| LogTypes.CompareTransitive | internal/controlplane/logcoord/types.go:152-178 | the composite key order is transitive, so with the above it is a total order |
| LogTypes.SortedIsNewestFirst | internal/controlplane/logcoord/types.go:150-178 | sorted rows, field by field: times never increase; at one time the source ids ascend, then the generations, then the record starts descend, the record ends descend, and last the event ids ascend, texts by their first differing byte |
| LogTypes.Event.ApproxBytes | internal/controlplane/logcoord/types.go:216-225 | every event costs at least 32 bytes of a budget |
| LogTypes.SortedUnique | internal/controlplane/logcoord/types.go:150-178 | with distinct keys there is exactly one sorted arrangement of the same events |
| Merge.Swap | internal/controlplane/logcoord/merge.go:33 | the two cells are exchanged, nothing else, and the cursors stay the same bag |
| Merge.Down | internal/controlplane/logcoord/merge.go:27-42 | sinking one cell restores the heap order below it and keeps the cursors |
| Merge.Heapify | internal/controlplane/logcoord/merge.go:59 | after initialisation every cell is at most its children, with the same cursors; a heap is left as it is |
| Merge.RootIsLeast | internal/controlplane/logcoord/merge.go:27-42 | the root of a heap sorts after no other cell |
| Merge.AdvanceRoot | internal/controlplane/logcoord/merge.go:78-83 | the root's cursor moves on, or leaves when drained and the last cell takes its place, and the rest is a heap again |
| Merge.PopRoot | internal/controlplane/logcoord/merge.go:35-41 | the root leaves, every other cursor stays, and the heap order holds |
| Merge.MergeStreams | internal/controlplane/logcoord/merge.go:50-86 | the rows are the sorted bag of what was read from the streams' fronts, newest first field by field, each under its stream's worker and with its stream's target when it named none; nothing left sorts before a row; both caps hold; pageMore and byteCut hold exactly when rows were left for that reason |
| Merge.PartialIsPrefix | internal/controlplane/logcoord/merge.go:44-86 | rows in order that hold what was taken, and stand before the rest, start the sorted union |
| Merge.MergedIsPrefix | internal/controlplane/logcoord/merge.go:44-86 | when events with equal keys are equal the merged rows are exactly the first rows of the sorted union of all streams |
| Merge.OrderDeterminedExactly | internal/controlplane/logcoord/merge.go:44-86 | rows with the same events in order are the same rows exactly when events with equal keys are equal |
| Merge.TiedRowsTakeHeapOrder | internal/controlplane/logcoord/merge.go:27-86 | the merge loop emits three tied last rows as first, third, second: equal keys follow the heap, not the streams |
| Merge.SortEventsInPlace | internal/controlplane/logcoord/merge.go:96-103 | the in-place exchange sort leaves the stable sort of the items, newest first field by field |
| Dedupe.DedupeMergedRows | internal/controlplane/logcoord/coordinator.go:1129-1147 | the map-based loop collapses runs per id, and reports a duplicate exactly when some id occurs twice |
| Dedupe.DedupePageByPage | internal/controlplane/logcoord/coordinator.go:1123-1147 | deduplicating joined deduplicated pages is deduplicating the whole sequence |
| Dedupe.DedupeIdempotent | internal/controlplane/logcoord/coordinator.go:1129-1147 | a second pass drops nothing |
| Dedupe.DedupeSelects | internal/controlplane/logcoord/coordinator.go:1129-1147 | the kept rows are, in their order, exactly those that do not repeat the hash of the row of their id nearest before them |
| Dedupe.DedupeKeepsContent | internal/controlplane/logcoord/coordinator.go:1129-1147 | every (id, hash) pair survives |
| Dedupe.DedupeLeavesNoRepeat | internal/controlplane/logcoord/coordinator.go:1129-1147 | rows of one id that follow each other differ in hash |
| Dedupe.DedupeDistinct | internal/controlplane/logcoord/coordinator.go:1129-1147 | without a repeated id nothing is dropped |
| Targets.ResolveTargets | internal/controlplane/logcoord/targets.go:48-69 | all authorised targets are kept; with onlineOnly every queried target is online and every excluded one is not, without it all are queried; both keep the given order and together are the given bag |
| Targets.ResolveConserves | internal/controlplane/logcoord/targets.go:48-69 | every target is either queried or excluded, never both and never neither |
| Targets.ByWorker | internal/controlplane/logcoord/targets.go:31-42 | the groups are the targets of each worker, the workers in order of first appearance |
| Targets.ReadinessSuccess | internal/controlplane/logcoord/targets.go:75-125 | an entry built without an answer is success exactly for an online target with no failing reason |
| Targets.FirstFailingDecides | internal/controlplane/logcoord/targets.go:75-125 | for an online target the first failing reason decides the state, whatever follows |
| Targets.ReadinessTells | internal/controlplane/logcoord/targets.go:75-125 | a target that is not online is told by its readiness, whatever the reasons |
| Targets.ReadinessNamed | internal/controlplane/logcoord/targets.go:75-125 | an entry made without an answer keeps the reasons it was made with and names its target's readiness |
| Targets.AwayTold | internal/controlplane/logcoord/targets.go:131-196 | a summary with an entry of an offline target says OFFLINE, of an unsupported one LOG_UNSUPPORTED, whatever else it says |
| Targets.StateTells | internal/controlplane/logcoord/targets.go:160-196 | an entry none of whose reasons the wire knows is told by its state |
| Targets.AwayTells | internal/controlplane/logcoord/targets.go:212-234 | what the wire calls a worker without logs and one that is away |
| Targets.CutTells | internal/controlplane/logcoord/targets.go:212-234 | what it calls a cut answer, and that it has no name for a failed dial |
| Targets.EntriesMatch | internal/controlplane/logcoord/targets.go:131-196 | the coverage names exactly the authorised targets, each once |
| Targets.EntriesInOrder | internal/controlplane/logcoord/targets.go:131-196 | the entries follow the authorised targets one by one |
| Targets.CompleteExactly | internal/controlplane/logcoord/targets.go:131-196 | the summary is complete iff there is a target, every state is success and nothing was excluded, and iff it gives no partial reason |
| Targets.BuildCoverage | internal/controlplane/logcoord/targets.go:131-196 | the loops compute that summary; what onlineOnly left out makes it incomplete and OFFLINE, and without entries it is incomplete and ENGINE_NOT_READY |
| Budget.ReadBudget | internal/controlplane/logcoord/coordinator.go:870-882 | the view fixes the page limit, the request the bytes; 200 rows and 32 MiB where neither is given |
| Budget.SplitExactAndFair | internal/controlplane/logcoord/coordinator.go:886-915 | the shares add up to the total, never increase, differ by at most one, and are zero only past the total |
| Budget.ReserveWorkerBudgets | internal/controlplane/logcoord/coordinator.go:886-915 | the loop with its running remainder grants exactly those shares to at most MaxFanout workers, never an empty one, and to no other worker anything |
| Fanout.SuccessExactly | internal/controlplane/logcoord/coordinator.go:988-1122 | a target counts as success exactly when its worker could be asked and gave a usable answer that covers it; every dial failure, error, missing view or unsupported worker excludes it |
| Fanout.FailedEntry | internal/controlplane/logcoord/coordinator.go:988-1122 | an online target whose worker fails is offline after a failed dial, partial after a failed call or no response, and not ready without view or log support |
| Fanout.FailedElsewhere | internal/controlplane/logcoord/coordinator.go:988-1122 | a target that is not online is told by its readiness, whichever way its worker fails |
| Fanout.ReportedTells | internal/controlplane/logcoord/coordinator.go:1082-1122 | an entry carries the last state, reasons, sequence and generation the worker reports of the target, partial when the answer was cut, and the catalog's sequence and generation where it reports none; under a bound view the generation is the one the view fixed |
| Fanout.ErrorTells | internal/controlplane/logcoord/coordinator.go:567-588 | with an error the worker's first report of the target counts, as partial when it says success, and the error is among its reasons |
| Fanout.BindingTells | internal/controlplane/logcoord/coordinator.go:597-624 | an answer under another view than the bound one, or without a generation the view fixed, is an error |
| Fanout.EnumerationWorst | internal/controlplane/logcoord/coordinator.go:918-942 | the merged enumeration is the worst that anyone reports, cancelled before stale before open before exhausted |
| Fanout.UnsettledDegrades | internal/controlplane/logcoord/coordinator.go:845-866 | a partial or stale entry makes the duplicate quality at least unresolved, and nothing else touches the quality |
| Fanout.RankIgnoresCase | internal/controlplane/logcoord/coordinator.go:949-986 | the rank of a quality does not depend on how it is capitalised |
| Fanout.FanoutOne | internal/controlplane/logcoord/coordinator.go:988-1122 | the loops give every target of the worker its entry and hand on its rows, the same bag and newest first; the outcome is cut or open exactly as the reply is; an error only for a cancelled call or a broken binding |
| FanoutSearch.Search | internal/controlplane/logcoord/coordinator.go:747-867 | the answer is the fold of the outcomes in order of arrival over the unfunded workers' entries, or the first error; a partial or stale entry makes its duplicate rank at least 2, and its streams and gaps are in order |
| FanoutSearch.GatherUnfunded | internal/controlplane/logcoord/coordinator.go:796-811 | the answer starts cut, open and incomplete exactly when some worker has no budget, and exactly the targets of such workers are already partial |
| OrderFree.GatherOrderFree | internal/controlplane/logcoord/coordinator.go:747-867 | gathering the same outcomes in any order gives the same streams, coverage, flags, gaps, enumeration, reasons and quality rank |
| OrderFree.ArrivalOrderIrrelevant | internal/controlplane/logcoord/coordinator.go:747-986 | so for any two orders of arrival of the same error-free replies, when no id is at home under two workers |
| OrderFree.QualityOrderFree | internal/controlplane/logcoord/coordinator.go:944-986 | the merged quality rank never depends on order; its text does not exactly when the worst rank is spelled one way |
| OrderFree.WireQualityOrderFree | internal/controlplane/logcoord/worker_adapter.go:211-243 | with the texts the adapter makes of the wire the merged quality is the same text in every order |
| Cursor.CursorRoundTrip | internal/controlplane/logcoord/cursor.go:10-41 | a cursor decodes to what was encoded exactly when it names a view, a positive limit and this order or none |
| SearchPage.Search | internal/controlplane/logcoord/coordinator.go:1171-1312 | a page is the cached answer rebound, or the response to a merge of what was gathered, newest first; errors come only from the cursor and the fan-out; when a worker was unfunded or cut, the page leads nowhere, says so, and with two workers delivers no rows; an exhausted page is complete and leaves nothing open |
| SearchPage.BuildResponse | internal/controlplane/logcoord/coordinator.go:1243-1312 | rows, coverage, enumeration, quality, flags and next cursor of the response, with no rows when two workers were asked and one was cut; a byte cut is told, and no reason of a worker is lost |
| SearchPage.AnswerCutExactly | internal/controlplane/logcoord/coordinator.go:747-867 | the gathered answer is cut iff a worker was unfunded or an asked one truncated or said so in its reasons, and open iff one was unfunded or has not said its last |
| SearchPage.CutPage | internal/controlplane/logcoord/coordinator.go:1243-1312 | so every page of a search that was cut short leads nowhere, and with two workers it is empty |
| SearchPage.ExhaustedPage | internal/controlplane/logcoord/coordinator.go:1243-1312 | an exhausted page was complete, uncut, and every worker asked had said its last |
| SearchPage.PageNewestFirst | internal/controlplane/logcoord/coordinator.go:1226-1312 | the rows of a page come newest first, fresh or from the cache |
| SearchPage.WindowExactly | internal/controlplane/logcoord/coordinator.go:230-265 | of a cached answer exactly the rows of the caller's window stay, its end excluded, each as often as it was there |
| SearchPage.AnswerSorted | internal/controlplane/logcoord/coordinator.go:1080-1122 | every stream reaches the merge sorted, whatever the workers sent |
| Paging.PageStep | internal/controlplane/logcoord/coordinator.go:1171-1312 | a page from honest workers, read now or recalled from the cache, delivers the next rows of the sorted union, and its cursor stands behind the last of them |
| Paging.CutStreamsSuffice | internal/controlplane/logcoord/coordinator.go:1171-1312 | cutting every worker's stream to a page's rows never changes the page |
| Paging.PagingIsLossless | internal/controlplane/logcoord/coordinator.go:1171-1312 | following NextCursor ends, and the pages together, fresh ones or ones rebound from the cache, are the sorted union of all workers' events, byte-cut pages included |
| HonestRuns.HonestPagesExist | internal/controlplane/logcoord/coordinator.go:988-1122 | for every world, query, view and catalog generations in which a worker's targets of one id agree, on either path, honest replies and a page they lead to exist |
| HonestRuns.HonestPagesComplete | internal/controlplane/logcoord/coordinator.go:1258-1295 | such a page is complete exactly when there is a target and no byte budget cut it |
| HonestRuns.PageExists | internal/controlplane/logcoord/coordinator.go:1171-1312 | a search past the cache that meets no error always has a page, whatever the workers sent |
| Paging.UnionOfWorld | internal/controlplane/logcoord/merge.go:44-86 | that union exists and is the reference merge of everything |
| Paging.NextPageBinds | internal/controlplane/logcoord/coordinator.go:1177-1196 | the next page's query is accepted exactly when it names no other view, order or page limit |
| Completeness.CompleteExactly | internal/controlplane/logcoord/coordinator.go:1258-1295 | a page is complete iff there is a resolved target, every resolved target was covered by a worker that was asked, and nothing was excluded, unfunded, cut by bytes or reported incomplete |
| ViewReuse.ResolveForReuse | internal/controlplane/logcoord/coordinator.go:651-681 | a target for each of the view's ids in their order, the last resolved under it or a placeholder that is not ready and has no worker; beside them exactly the targets of other ids, in their order |
| ViewReuse.VanishedUnreported | internal/controlplane/logcoord/coordinator.go:651-681 | a target of a reused view that no longer resolves is not even named by the page's coverage |
| ViewReuse.VanishedTargetLeftUnread | internal/controlplane/logcoord/coordinator.go:651-681 | on either path, a page of a reused view that is complete although a target of the view, whose worker cannot be dialled, was not read |
| ViewReuse.CompletePageCoversViewExactly | internal/controlplane/logcoord/coordinator.go:651-681 | a complete page of a reused view covers every target of the view iff every one of them still resolves |
| ViewReuse.ArtifactCoversViewExactly | internal/controlplane/logcoord/coordinator.go:1780-1891 | a published artifact was read from every target of its view at every page iff every one still resolved at every page |
| Export.Effective | internal/controlplane/logcoord/coordinator.go:1780-1820 | the export's limits are the smaller of the server's and the request's |
| Export.BuildExportWithCut | internal/controlplane/logcoord/export.go:89-186 | an artifact exists iff the export is not incomplete, iff every gate passes: coverage, cut, quality, rows, bytes and encoding; the empty window included |
| Export.GateReasonsTell | internal/controlplane/logcoord/export.go:89-186 | every reason in the result names its cause, and every cause its reason |
| Export.QualityFineExactly | internal/controlplane/logcoord/export.go:120-150 | the gate lets every quality pass but unresolved and conflict, partial and unavailable, in whatever case |
| Export.Export | internal/controlplane/logcoord/coordinator.go:1780-1891 | the page loop ends for any environment after at most one page per 32 bytes of budget; an artifact comes out iff every page was whole, the last exhausted and told no cut, and worst quality, rows, bytes and lines are within the gates, and it is the lines of all rows; every page but the last led on; an error is the view's or a failed search |
| Export.CursorNeedsRows | internal/controlplane/logcoord/coordinator.go:1821-1883 | a page that leads on is never empty, fresh or rebound from the cache |
| HonestRuns.WholePageExists | internal/controlplane/logcoord/coordinator.go:1171-1312 | with bytes to spare there is a page wherever a query stands: complete, uncut, of good quality, with the next rows up to the page limit, and exhausted or leading on |
| HonestRuns.ArtifactExists | internal/controlplane/logcoord/coordinator.go:1780-1891 | for every world with distinct event ids and bytes to spare there are pages, read one after the other from honest workers, that meet every condition of publishing; more rows than a page holds take several pages |
| HonestExport.ExportPublishes | internal/controlplane/logcoord/coordinator.go:1780-1891 | whatever honest pages such an export reads, the page loop publishes the artifact, and it is the lines of all rows of all workers in order |
| Export.ArtifactIsLossless | internal/controlplane/logcoord/coordinator.go:1780-1891 | an artifact read from the start of honest workers holds the sorted union of all their events, up to deduplication |
| SearchCache.KeyTells | internal/controlplane/logcoord/coordinator.go:186-215 | for windows that are times or left out, requests share a key iff they agree in everything but the window and their windows fall into the same minutes; the filter may hold any byte, order version and view id not the separator |
| SearchCache.KeyTellsInWindow | internal/controlplane/logcoord/coordinator.go:186-215 | for one and the same window, whatever its text, requests share a key iff they agree in everything else |
| SearchCache.OtherTargetsOtherKey | internal/controlplane/logcoord/coordinator.go:186-215 | whatever else they contain, requests for different target multisets never share a key |
| SearchCache.OrderVersionBlursFields | internal/controlplane/logcoord/coordinator.go:186-204 | the order version must hold no separator: two requests with different filters that otherwise share a key |
| SearchCache.ShiftChangesBucket | internal/controlplane/logcoord/coordinator.go:120-144 | a parsable time moved by a minute changes its text and its minute; other text stays |
| SearchCache.WrittenAheadNeverServed | internal/controlplane/logcoord/coordinator.go:267-345 | an entry written ahead for the next minute is turned away for every caller who asks with its key, whatever the requests contain |
| SearchCache.Cache.Lookup | internal/controlplane/logcoord/coordinator.go:268-285 | a hit is unexpired, was not written ahead, and was read for the caller's exact window, targets and conditions, whatever the filter; an expired entry is removed and nothing else changes |
| SearchCache.Cache.Store | internal/controlplane/logcoord/coordinator.go:288-312 | empty incomplete answers are not kept, a full cache is emptied first, and every entry stays accounted for |
| SearchCache.PendingExpiresFirst | internal/controlplane/logcoord/coordinator.go:89-107 | a pending answer lives at most half as long as a final one, and that of a narrow window at most half as long as that of a wide one |
| SearchCache.Cache.Search | internal/controlplane/logcoord/coordinator.go:1210-1223 | an answer carries the caller's own view and is fresh, or rebound from an answer that was read for the same request |
| SearchCache.Cache.WarmSearch | internal/controlplane/logcoord/coordinator.go:328-345 | warming answers past the cache and keeps every entry accounted for |
| SearchCache.ServedIsRecalled | internal/controlplane/logcoord/coordinator.go:210-265 | an answer the cache serves was read at the caller's own cursor, so it may stand in a lossless chain of pages |
| Stats.BucketHolds | internal/controlplane/logcoord/aggregate.go:35-47 | with Go's remainder the bucket start is the one multiple of the width at or before the instant, before the epoch too |
| Stats.MergeTallies | internal/controlplane/logcoord/types.go:332-353 | merging aggregates adds counts and sums and widens measured bounds, ignoring unmeasured ones |
| Stats.MergeEncloses | internal/controlplane/logcoord/types.go:332-353 | counts and sums add up, and the bounds are the least and greatest that either side measured |
| Stats.MergedBounds | internal/controlplane/logcoord/aggregate.go:86-107 | the bounds of a merged point are the least minimum and greatest maximum measured under its key |
| Stats.KeyTells | internal/controlplane/logcoord/aggregate.go:63-79 | points share a key iff they share bucket and dimensions, when no text holds `|` and no dimension name `=` |
| Stats.PlainKeysTell | internal/controlplane/logcoord/aggregate.go:63-79 | points whose texts hold no `|` and whose dimension names hold no `=` meet the condition under which order does not matter |
| Stats.BlurredKey | internal/controlplane/logcoord/aggregate.go:63-79 | two concrete points with different dimensions that share a key |
| Stats.MergeStatsPoints | internal/controlplane/logcoord/aggregate.go:86-116 | the loop over a map of accumulators and the stable sort compute the merged points |
| Stats.MergeKeepsSums | internal/controlplane/logcoord/aggregate.go:86-116 | the result says of every key exactly what all its points together said |
| Stats.MergeUnordered | internal/controlplane/logcoord/aggregate.go:81-116 | any order of the points gives the same result while given points with equal keys have equal bucket and dimensions |
| Stats.OrderFreeExactly | internal/controlplane/logcoord/aggregate.go:81-116 | every order gives the same result iff given points with equal keys have equal bucket and dimensions |
| Stats.MergeRegroups | internal/controlplane/logcoord/aggregate.go:81-116 | merging merged parts is merging everything, for any points |
| Stats.MergedStrictlyAscends | internal/controlplane/logcoord/aggregate.go:108-115 | the result ascends strictly, so nothing comes out twice, whatever the texts |
| Stats.MergedCoversExactly | internal/controlplane/logcoord/aggregate.go:86-107 | every bucket and dimensions that occur come out iff given points with equal keys agree in them |
| Stats.MergeConserves | internal/controlplane/logcoord/aggregate.go:81-116 | total count and total sum are those of the points |
| Stats.AvgIsWeightedMean | internal/controlplane/logcoord/types.go:355-361 | the average of a merged point is the weighted mean of its parts iff points without a count carry no sum |
| Facets.MergeFacets | internal/controlplane/logcoord/facets.go:31-108 | requested dimensions first and once, then the others; each is the ranked exact counts, cut to the limit |
| Facets.ShownCountsExact | internal/controlplane/logcoord/facets.go:64-66 | every value shown carries the exact sum of all workers' counts |
| Facets.ShownOutrankOmitted | internal/controlplane/logcoord/facets.go:76-97 | a value that is not shown ranks below every shown one, and then the limit is reached |
| Facets.ShownMostFirst | internal/controlplane/logcoord/facets.go:76-97 | the values shown come by count, greatest first, and by name where counts are equal |
| Facets.TruncatedCountExact | internal/controlplane/logcoord/facets.go:84-101 | TruncatedCount is what the workers left out and what was cut here |
| Facets.CompleteMeansEverything | internal/controlplane/logcoord/facets.go:24-106 | Truncated is false iff no worker truncated, nothing was cut and the dimension is controlled, limited or empty; then every value is shown with its exact total and the counts add up to all that was listed |
| Facets.WorkersUnordered | internal/controlplane/logcoord/facets.go:31-108 | the workers' order changes no field of a dimension |
| Facets.RequestedComeFirst | internal/controlplane/logcoord/facets.go:39-62 | the requested dimensions keep their places whatever the workers add |
| Facets.FacetsTruncated | internal/controlplane/logcoord/facets.go:111-118 | true iff some dimension is truncated |
| PoolGuard.GateIsSafe | internal/controlplane/database/sqlite_pool.go:410-542 | in every interleaving the token is out iff exactly one hold is live, releases never block, and once every transaction is over the gate is free |
| PoolGuard.LaterWriterKeepsToken | internal/controlplane/database/sqlite_pool.go:482-542 | no step of another transaction, a second release included, frees a writer's token |
| PoolGuard.HolderCanLeave | internal/controlplane/database/sqlite_pool.go:336-374 | the holder can always give the token back by its own steps |
| PoolGuard.OwnRunsEnd | internal/controlplane/database/sqlite_pool.go:336-374 | any run of a transaction's own steps is short, and one that cannot go on has given the token back |
| PoolGuard.WaiterGetsIn | internal/controlplane/database/sqlite_pool.go:410-440 | from every reachable state a waiting writer can still become the only holder |
| PoolGuard.NoPoisonedConnection | internal/controlplane/database/sqlite_pool.go:216-374 | a transaction open in SQLite is flagged, and no connection in the pool or on its way to BEGIN has one, whatever BEGIN, COMMIT and ROLLBACK did |
| PoolGuard.OrderlyRunsSerialise | internal/controlplane/database/sqlite_pool.go:376-542 | a gated writer open in SQLite holds the token, so there is at most one, provided the outer layer releases last and a failed end leaves nothing open |
| PoolGuard.BothRulesAreNeeded | internal/controlplane/database/sqlite_pool.go:336-374 | for either rule a run that keeps it and breaks the other, in which two gated writers are open at once |
| PoolGuard.StaysAloneExactly | internal/controlplane/database/sqlite_pool.go:376-542 | in every reachable state the one writer open in SQLite stays the only one, whatever the others do, iff it still holds the token |
| PoolGuard.UngatedIsTransparent | internal/controlplane/database/sqlite_pool.go:552-558 | with one connection nobody ever waits for, takes or gives back a token |
| SqlitePool.Pool.BeginTx | internal/controlplane/database/sqlite_pool.go:503-532 | a reader never touches the token; a writer gets in exactly when no other writer holds it, and every other transaction stays as it is |
| SqlitePool.Pool.Wait | internal/controlplane/database/sqlite_pool.go:419-435 | a granted writer is the only holder; a cancelled one is over and never touches the token |
| SqlitePool.Pool.Lease | internal/controlplane/database/sqlite_pool.go:279-285 | in a valid pool an idle connection is never refused; what t gets has no open transaction and no flag, and nobody else has it |
| SqlitePool.Pool.TrackTx | internal/controlplane/database/sqlite_pool.go:237-258 | an open transaction is flagged and its writer still holds the token; after a refusal the hold is gone and other holds stand |
| SqlitePool.Pool.Commit | internal/controlplane/database/sqlite_pool.go:343-358 | the connection is clean exactly after success and stays flagged otherwise; the hold is not touched yet |
| SqlitePool.Pool.Rollback | internal/controlplane/database/sqlite_pool.go:361-374 | likewise for ROLLBACK |
| SqlitePool.Pool.DeferredRelease | internal/controlplane/database/sqlite_pool.go:343-374 | the release never blocks; t holds nothing afterwards, the token is free if t had it and as it was otherwise |
| SqlitePool.Pool.PutConn | internal/controlplane/database/sqlite_pool.go:263-275 | what the pool keeps of a returned connection is idle and clean, or nothing |
| SqlitePool.Pool.OuterLayerRelease | internal/controlplane/database/sqlite_pool.go:534-542 | a second release changes nothing at all; whoever else holds the token keeps it |
| SqlitePool.Pool.Transact | internal/controlplane/database/sqlite_pool.go:503-542 | a whole transaction, whatever fails in it, leaves the token where it was, every other transaction as it was, and its connection clean in the pool or gone |
| EvictionLog.LinesAreSpaced | internal/controlplane/database/sqlite_pool.go:298-334 | however loggers interleave, two error lines are a window apart and no eviction goes uncounted |
| EvictionLog.EveryEvictionMarked | internal/controlplane/database/sqlite_pool.go:298-334 | when a logger has decided, whatever came between, there is a new line or the last one stood less than a window before its eviction |
| NodeNames.Nodes.DedupeActiveNames | internal/controlplane/database/database.go:454-489 | afterwards all active names differ; of the nodes that shared a name one keeps it, the one with the latest heartbeat, then the latest created, then the smallest id; the others get the name with "-dup-", the id and perhaps a number, and no field but names changes |
| NodeNames.Nodes.DedupeName | internal/controlplane/database/database.go:469-486 | one group: the first keeps the name, every other gets a fresh one |
| NodeNames.NextName | internal/controlplane/database/database.go:491-509 | the suffix search ends within one try more than there are active names, at the first free candidate |
| NodeNames.CandidatesCount | internal/controlplane/database/database.go:491-509 | k different candidates cannot all be among fewer than k names |
| NodeNames.GroupShape | internal/controlplane/database/database.go:469-477 | a group holds the active rows of the name once each, and only its first row leads |
| NodeNames.WhoKeepsItsName | internal/controlplane/database/database.go:454-489 | a row keeps its name iff it is deleted or leads, nothing but names changes, and new names were not in use |
| NodeNames.KeeperSeenLast | internal/controlplane/database/database.go:470-477 | a node that keeps a shared name was seen last of those that held it: none has a later heartbeat, at the same heartbeat none is newer, and of the same age none has a smaller id |
| NodeNames.KeeperExists | internal/controlplane/database/database.go:469-486 | every active name is kept by some node |
| NodeNames.SecondRunChangesNothing | internal/controlplane/database/database.go:454-489 | a table whose active names differ is left as it is |
| Heartbeat.ListedEndsAsReported | internal/controlplane/grpc/handler.go:592-702 | however often it is listed, an instance ends the beat as its own reports make it, in order: with the last status, or DAMAGED after a stopped or crashed report when nothing was reported against it |
| Heartbeat.DamagedSurvives | internal/controlplane/grpc/handler.go:592-702 | DAMAGED survives any number of stopped and crashed reports |
| Heartbeat.DamagedStays | internal/controlplane/grpc/handler.go:592-921 | DAMAGED that no task has taken up stays through every run whose reports say stopped or crashed and whose own writes leave it, and no task ever takes it up |
| Heartbeat.DamagedIsSafeExactly | internal/controlplane/grpc/handler.go:832-921 | DAMAGED survives all such runs from a state iff no task in flight has the instance still to settle |
| Heartbeat.OwnReasonKept | internal/controlplane/grpc/handler.go:640-702 | a reason of the control plane's own survives exactly the reports that leave it alone |
| Heartbeat.WorkerReasonCleared | internal/controlplane/grpc/handler.go:640-702 | a reason the heartbeat wrote goes exactly with a healthy running report without one |
| Heartbeat.ReasonReported | internal/controlplane/grpc/handler.go:640-702 | a reported reason is written unless DAMAGED stands or an earlier one outlives a plain crash |
| Heartbeat.GraceCountsPasses | internal/controlplane/grpc/evidence.go:79-94 | stored counts are one or two, and count the unanswered passes since the last listing or definite answer by threes |
| Heartbeat.StopsExactly | internal/controlplane/grpc/handler.go:832-902 | a missing instance is stopped iff the evidence says it does not run, or on the third unanswered pass in a row |
| Heartbeat.StopKeepsOwnReason | internal/controlplane/grpc/handler.go:909-921 | a stop empties a reason the heartbeat wrote and leaves any other alone |
| Heartbeat.KeptIsToldWhy | internal/controlplane/grpc/handler.go:880-902 | a missing instance that is not stopped keeps its status and is given a reason |
| Heartbeat.StatusChangesOnlyBy | internal/controlplane/grpc/handler.go:832-921 | nothing but a report, its own settling or a control plane write changes a status |
| Heartbeat.HeldSince | internal/controlplane/grpc/reconcile_dispatcher.go:22-42 | over all runs: what a task holds was missing when it started with no other task on the node, and since then it has neither ended nor settled it, so a node never has two tasks and nothing is settled twice by one |
| Heartbeat.LateDamagedIsLost | internal/controlplane/grpc/handler.go:832-921 | a concrete run in which DAMAGED written during a task is overwritten |
| ControlPlane.Handler.SyncInstanceStates | internal/controlplane/grpc/handler.go:592-702 | the loop over the reports performs exactly the beat |
| ControlPlane.Handler.FindMissing | internal/controlplane/grpc/handler.go:832-868 | the missing instances are the node's own that are running, starting or stopping and were not reported |
| ControlPlane.Handler.Settle | internal/controlplane/grpc/handler.go:870-902 | an instance said to run keeps its status, one said not to is stopped, and without an answer it is stopped on the third pass and counted before |
| ControlPlane.Handler.ReconcileMissing | internal/controlplane/grpc/handler.go:832-902 | the pass finds the node's running unlisted instances and settles each by its own verdict and count, in any order, or stops all without an evidence client; no other instance is touched |
| ControlPlane.SettledOneByOne | internal/controlplane/grpc/handler.go:870-902 | settling several instances settles each as if it were alone |
| ControlPlane.Handler.BumpReconcileGrace | internal/controlplane/grpc/evidence.go:79-88 | one more for this instance, the others unchanged |
| ControlPlane.Handler.SetStopped | internal/controlplane/grpc/handler.go:909-921 | the status always, the reason only when the heartbeat wrote it |
| ControlPlane.Handler.Dispatch | internal/controlplane/grpc/reconcile_dispatcher.go:22-42 | starts iff the node is named and idle |
| ControlPlane.Handler.MaybeNotifyCircuitBroken | internal/controlplane/grpc/handler.go:804-828 | what goes out and what is remembered |
| ControlPlane.AlertsOncePerReason | internal/controlplane/grpc/handler.go:804-828 | over the reports of all nodes an alert goes out iff the circuit is broken and this node's last report of the instance was not so for this reason |
| Encoding.AwsURIEncode | internal/controlplane/blobstore/s3.go:456-468 | the byte loop computes the encoding, which the decoder undoes |
| Encoding.DecodeEncode | internal/controlplane/blobstore/s3.go:456-468 | the decoder of section 2.1 of RFC 3986 undoes the encoder on every byte string |
| Encoding.EncodeSafe | internal/controlplane/blobstore/s3.go:456-468 | an encoding holds only unreserved bytes and percent signs, so no delimiter |
| Encoding.EscapesExactly | internal/controlplane/blobstore/s3.go:456-468 | every byte that is not unreserved is escaped in capitals, and no other |
| Encoding.S3EscapeKey | internal/controlplane/blobstore/s3.go:419-425 | the escaped key has as many segments as the key, and each decodes to the key's |
| Encoding.CanonicalizeQuery | internal/controlplane/blobstore/s3.go:428-453 | the builder loop prints the sorted pairs |
| Encoding.ArrangedAscends | internal/controlplane/blobstore/s3.go:428-453 | the pairs ascend by name and then by value, each as often as it was given |
| Encoding.CanonicalPrints | internal/controlplane/blobstore/s3.go:428-453 | the text is the encoded pairs in that order between ampersands |
| Encoding.CanonicalTells | internal/controlplane/blobstore/s3.go:428-453 | two queries print alike iff they give every key the same values equally often, in whatever order |
| Encoding.EncodingKeepsOrderExactly | internal/controlplane/blobstore/s3.go:456-468 | encoding keeps the order of two byte strings iff, at their first difference, an escaped byte is not greater than an unreserved one; otherwise it reverses it |
| Encoding.OrderBeforeOrAfterExactly | internal/controlplane/blobstore/s3.go:428-453 | ordering before or after encoding gives the same canonical query iff encoding swaps no two names and no two values of one name |
| Encoding.UnreservedQueriesAgree | internal/controlplane/blobstore/s3.go:428-453 | so it does for every query of unreserved names and values |
| Encoding.RawOrderIsNotEncodedOrder | internal/controlplane/blobstore/s3.go:432-453 | two names for which the canonical query differs from the one ordered by encodings |

## Left out

- Goroutines, timeouts and cancellation of the fan-out: replies are a map and an order of arrival; a cancelled call is a reply.
- The view registry, its eviction and the authorisation checks of view reuse: a search is given its view, and a reused view its target ids and what they resolve to today.
- The worker side (ingest, catalog, retention, state index): workers are arbitrary replies, and honest ones only where a theorem says so.
- Tail, Fields, Stats and Facets request handling around the merges; persisting the closed visible sequence.
- JSON text of cursors and export lines, reading and printing of times, and digests: records, an encoder parameter and functions with their stated properties.
- SearchCache.KeyTells: assumes the 64-bit digest injective and time printing faithful; `strings.TrimSpace` trims ASCII white space only.
- ViewReuse.ArtifactCoversViewExactly: speaks of pages read past the cache; that nobody is reached under an empty worker id is an assumption about the dialer.
- HonestRuns.ArtifactExists: asks for twice the bytes of all rows in a page's byte budget, so that no page is cut; a cut page is never part of an artifact.
- SearchCache.Cache.Search: looks up, searches and stores in one call; each step by itself keeps the cache accounted for, so other calls may fall between them.
- Merge.AdvanceRoot: the heap holds cursors as values in an array, written back when they advance, where the source holds pointers.
- Merge.Down: `container/heap` of Go's library is modelled from its documented algorithm; it is not part of the repository.
- Merge.TiedRowsTakeHeapOrder: runs the merge loop without its caps, on three streams with one row left each.
- Stats.MergeStatsPoints: accumulators are values stored back into the map; sums are real numbers, so rounding is not modelled.
- Overflow of 64-bit counters, byte totals and nanoseconds: numbers are unbounded.
- Stable and unstable library sorts are the same insertion sort here; where the source's sort is not stable its keys are distinct.
- database/sql beyond put, get and begin: BEGIN answered with `driver.ErrBadConn` and BEGIN sent as plain SQL are excluded.
- Errors of database calls in the migration and in the heartbeat handlers: each call takes effect.
- NodeNames.Nodes.DedupeActiveNames: names compare byte by byte, as SQLite's default collation does.
- Log text, wall-clock values, crash classification by pattern, and the other notifications of a heartbeat.
- Signing (HMAC, SHA-256) and the other object store operations.
- Configuration, HTTP and gRPC plumbing, the user interface and the worker binaries.
