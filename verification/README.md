# Verified model of DAWGS

DAWGS is a Go library for working with large directed graphs: an in-memory reachability engine, a resumable
dump format ("retriever"), compact encodings, and a parallel traversal. This project models its algorithmic
core in Dafny 4.11 and proves what that code is for. `dafny verify dfyconfig.toml` checks everything; no
library outside this directory is needed.

Graphs are the `Digraph` value of `Digraphs.dfy` (an order of nodes and adjacency lists in both directions), and
"reaches" means that a walk exists. Bitmaps are sets, deques are sequences, maps are maps. Objects whose methods
update their fields are classes; loops are loops with invariants; protocols are machines over their steps.

## What is proved

**Reachability engine** (`StronglyConnected`, `Csr`, `Components`, `ComponentSearches`, `SieveCache`, `ReachSearch`,
`ReachCalls`, `ReachForests`, `DiamondSearches`, `Diamonds`, `Reachability`).
The iterative Tarjan loop is run on its explicit stacks and yields exactly the classes of mutual reachability, numbered
in reverse topological order. The component graph built from it is acyclic, and reachability in it is reachability in
the original graph for every direction, so that `CanReach` answers path existence. The memoising depth-first search
over components is sound in every run of calls, but not always exact: it caches a component whose neighbour it had
already visited with that neighbour's reach missing. `AlwaysExactIff` says for which caches this cannot happen: every
run of calls on the component graph of every graph has only exact entries and answers if and only if the cache has room
for one entry at most. For every larger capacity the diamond 4→2, 4→3, 2→1, 3→1, 1→0, which is its own component graph,
is worked through to a wrong second answer. `OnePredecessorExact` says for which graphs it cannot happen whatever the
capacity: those where no component has two predecessors in the direction of travel.
The SIEVE cache keeps its invariant over every sequence of operations and a hit is the last value put. What it evicts is told
by the operations (`SieveRuns`, `SieveSweeps`): a key that was asked for or put again since the last eviction survives the
next one unless every stored key was asked for since it came in; without requests the cache is first in, first out; and once
a full cache was asked for some of its keys, new keys replace the others, oldest first, one by one, before any of those go.

**Resumable dump** (`DumpModel` to `DumpValidators`, `EntityScan`, `FragmentWriters`). The disk survives crashes, the
process does not. A run is any sequence of process steps, crashes at any point (which may also remove uncommitted files,
as the error paths do), resumptions and restarts. In every reachable world the disk is that of one *spot* of progress
plus the known leftovers of that spot; a directory nobody is working on is finished, or accepted by the resume, or empty;
and the finished directory holds exactly the fragments, counts and metrics of one uninterrupted dump, shard boundaries
included, whatever the batch size.

`DumpContents` says what that means in terms of the source alone: in every run that is done, fragment `i` of a phase holds
the records of rows `(i - 1) * size` and so on, each with the IDs, endpoints, kinds and scrubbed properties of its row; the
manifest lists these fragments, the sums of what the scrubber counted, the observations of the metrics in the order of the
source, and the kinds. `DumpFinality` says what crashes cannot do: a committed fragment is never lost or changed, and once
the manifest is published nothing in the directory changes but for the checkpoint, which goes away.

What a resume refuses is proved for every directory, not only for those a crash leaves. `LoadCompatibleCheckpoint` returns a
checkpoint if and only if (`DumpAcceptance.Loadable`) there is no manifest, the checkpoint is sound entry by entry, every
listed fragment holds exactly its listed records, every Parquet twin is there, and no other file is left once the leftovers
are removed. `ResumeEntersIff` follows a resume through its next steps: it gets to the scan if and only if, further, no source
changed its counts and what is committed of the graph in progress reads back as a consistent part of it.

Three things in a source can make a run fail, and nothing else does (`FailsIff`): a graph with more than 2^32 - 1 nodes,
which is what its metrics can number; a record that cannot be encoded; and a record whose line is longer than ten mebibytes,
which the writer takes and the reader refuses. The first two stop every dump. The third stops none that is left alone, but
once such a record is committed and its process gone, no resume ever finishes (`NeverDoneAgain`). `Finishes` says for every
reachable process whether it will be done or fail: it depends on the source and on whether what it has yet to read back can be.

One part of the manifest can depend on crashes: a scan enters the empty string into the schema's relationship kinds when a
relationship has that kind, a restore does not. `ManifestDeterminedIff` proves that all finished runs have the manifest of
an uninterrupted one if and only if this kind cannot be lost, or no run finishes at all; it can be lost if some shard is the
last with such a relationship and everything committed by then can be read back. The interrupted run is constructed.

**Encodings and traversal** (`EliasFano`, `Decimals`, `MetricKeys`, `Histograms`, `MetricCounts`, `Metrics`, `Resolver`,
`ArchiveFrames`, `ArchiveLayouts`, `BfsTrees`, `Triplestores`, `Routes`, `PathOrders`, `PathEnumeration`, `PathTermination`,
`BreadthFirst`). Round trips, injectivity of keys, the meaning of every bucket of the metrics, refinement
of the ID resolver to a plain map, exact enumeration of paths told by the endpoints of their edges, in one order only for each
of the two searches, which ends if and only if a depth limit is given or no filtered
path takes an edge twice, shortest distances, and the termination detector of the parallel
traversal: in every interleaving the count is exact, the traversal ends within eight steps for each segment, and every
segment is driven exactly once, if and only if there is a worker. An archive written in any parts reads back with any
buffers, and when nothing but one writer's frames opens, nothing but that writer's stream reads to an end. `EFSet.Find`
is right about every target if and only if the set is non-empty and its first value is zero.

## Model

| member | source | states |
|---|---|---|
| `StronglyConnected.DiscoverKeeps` | algo/scc.go:37-77 | discovering a vertex keeps the whole search invariant: index tables, stack order, open and closed segments, low links witnessed by walks |
| `StronglyConnected.PassKeeps` | algo/scc.go:65-88 | examining an already discovered neighbour keeps the invariant: the low link is still witnessed and bounds every examined edge |
| `StronglyConnected.RetreatKeeps` | algo/scc.go:90-100 | finishing a vertex that is not a root hands its low link down and keeps the invariant |
| `StronglyConnected.CloseKeeps` | algo/scc.go:102-120 | closing a root keeps the invariant: its stack segment is strongly connected and every edge leaving it goes to a lower component |
| `StronglyConnected.UnwindStack` | algo/scc.go:107-118 | the inner loop pops exactly the segment above and including the root into one component |
| `StronglyConnected.FinishVertex` | algo/scc.go:90-120 | finishing any exhausted vertex keeps the invariant and removes one cursor |
| `StronglyConnected.ReachesDescends` | algo/scc.go:102-120 | whatever a node reaches has a component index that is not higher |
| `StronglyConnected.SameComponentIff` | algo/scc.go:14-127 | tables that agree, descend along edges and are internally connected are the decomposition: same component exactly when each reaches the other |
| `StronglyConnected.StronglyConnectedComponents` | algo/scc.go:14-127 | for every graph the loop ends with components that partition the nodes, the lookup agreeing with them, and two nodes together exactly when each reaches the other |
| `Csr.Offsets` | container/csr.go:236-291 | offsets are the monotone prefix sums of the bitmap sizes |
| `Csr.FillRow` | container/csr.go:236-291 | a row is filled with the IDs of its bitmap in ascending order and nothing before it changes |
| `Csr.Pack` | container/csr.go:236-291 | every row of the packed array lists exactly its bitmap |
| `Csr.CSRDigraphBuilder.EnsureNode` | container/csr.go:194-209 | a node gets the next dense index once; other indices and all edges stay |
| `Csr.CSRDigraphBuilder.AddNode` | container/csr.go:211-213 | the node is known, edges unchanged |
| `Csr.CSRDigraphBuilder.AddEdge` | container/csr.go:215-234 | exactly one edge more, both endpoints known |
| `Csr.CSRDigraphBuilder.Build` | container/csr.go:236-291 | the built graph has the added nodes in order, each distinct added edge once, and inbound as the converse of outbound |
| `Csr.BuiltView` | container/csr.go:236-291 | packed outbound and inbound arrays of converse bitmaps form a valid graph with exactly the marked edges |
| `Csr.NormalizedEdge` | container/csr.go:139-176 | the reverse array is an isomorphism: edges correspond in both directions of travel |
| `Csr.NormalizedValid` | container/csr.go:139-176 | the normalised graph is a valid graph |
| `Csr.Normalize` | container/csr.go:139-176 | nodes become 0..n-1 in order, with the reverse array as the isomorphism |
| `Components.ConnectNode` | algo/scc.go:302-322 | a node's edges to other components enter the builder, and none is lost |
| `Components.NewComponentGraph` | algo/scc.go:289-329 | the result condenses the graph: its strongly connected components, and an edge exactly where an edge joins two of them, listed once |
| `Components.CondensationReaches` | algo/scc.go:289-329 | reachability between members is reachability between their components, in every direction |
| `Components.CondensationEdge` | algo/scc.go:102-120 | every edge of the component graph goes to a strictly lower index |
| `Components.CondensationDescends` | algo/scc.go:102-120 | so does every walk of at least one edge |
| `Components.CondensationAcyclic` | algo/scc.go:289-329 | the component graph has no cycle |
| `ComponentSearches.Expand` | algo/scc.go:232-241 | one expansion adds only new neighbours, and reports a hit exactly when a neighbour not seen before is on the other side; without one it adds them all |
| `ComponentSearches.Grow` | algo/scc.go:219-259 | one round of a side keeps that side's soundness and closure, and the sides disjoint until a hit |
| `ComponentSearches.MeetInTheMiddle` | algo/scc.go:199-262 | a component seen from both sides proves a walk |
| `ComponentSearches.ClosedBackwards` | algo/scc.go:199-262 | an exhausted inbound side that misses the start proves there is none |
| `ComponentSearches.ClosedMisses` | algo/scc.go:167-197 | an exhausted outbound side that misses the end proves there is none |
| `ComponentSearches.ComponentReachable` | algo/scc.go:199-262 | the bidirectional search ends and answers reachability exactly |
| `ComponentSearches.ComponentSearch` | algo/scc.go:167-197 | the one-sided search ends and answers reachability exactly, so the two agree |
| `SieveCache.EvictRemovesOne` | cache/sieve.go:184-206 | eviction ends and removes exactly its victim; all other values stay |
| `SieveCache.VictimUnvisited` | cache/sieve.go:184-206 | a visited entry is evicted only if every entry was visited |
| `SieveCache.PutKeepsValid` | cache/sieve.go:80-115 | after a put the key holds the value, others keep theirs, and queue, store, size, capacity and hand are consistent |
| `SieveCache.GetKeepsValid` | cache/sieve.go:125-140 | a lookup changes no value, sets the visited flag of the key it hits and no other, and keeps consistency |
| `SieveCache.DeleteKeepsValid` | cache/sieve.go:160-171 | a delete removes exactly the key, moving the hand off it |
| `SieveCache.RunHoldsLastPut` | cache/sieve.go:80-206 | over every sequence of operations a stored value is the last one put for its key |
| `SieveCache.HitReturnsLastPut` | cache/sieve.go:125-140 | over every sequence of operations a hit returns the last value put |
| `SieveCache.EvictSparesNewest` | cache/sieve.go:184-206 | while no entry was asked for again, eviction from two or more entries never takes the newest |
| `SieveCache.PutSparesNewest` | cache/sieve.go:80-115 | so a put leaves the entry put just before it alone |
| `SieveCache.Sieve.Put` | cache/sieve.go:80-115 | the object takes the step of the specification |
| `SieveCache.Sieve.Get` | cache/sieve.go:125-140 | the object takes the step of the specification, whose effect on later evictions `SieveRuns` and `SieveSweeps` state |
| `SieveCache.Sieve.Delete` | cache/sieve.go:160-171 | the object takes the step of the specification |
| `SieveCache.Sieve.RemoveEntry` | cache/sieve.go:146-151 | queue, store and size lose the entry together |
| `SieveCache.Sieve.Evict` | cache/sieve.go:184-206 | the hand sweep loop ends at the victim of the specification |
| `SieveRuns.FlagMeansAsked` | cache/sieve.go:106-140 | over every run, a visited flag means that the key was asked for, or put again, since it came in |
| `SieveRuns.AskedSetsFlag` | cache/sieve.go:106-140 | over every run, a key asked for, or put again, since it came in and since the last eviction has its flag set |
| `SieveRuns.SecondChance` | cache/sieve.go:80-206 | over every run, such a key survives the next put of a new key, unless every stored key was asked for or put again since it came in |
| `SieveRuns.PutTakesVictim` | cache/sieve.go:80-98 | a put of a new key evicts nothing while there is room, and exactly the victim when there is none |
| `SieveRuns.SparedIff` | cache/sieve.go:184-206 | a visited key survives such a put if and only if there is room, some key is not visited, or the hand is elsewhere |
| `SieveRuns.CountersCount` | cache/sieve.go:125-140 | the counters are the numbers of requests for stored keys and for other keys |
| `SieveSweeps.EvictAt` | cache/sieve.go:184-206 | a sweep that meets an unvisited key before the front takes it out and leaves the hand on the next newer one |
| `SieveSweeps.EvictFlags` | cache/sieve.go:191-202 | it clears the flags it passed and no others |
| `SieveSweeps.OldestFirst` | cache/sieve.go:80-206 | after puts of different keys only, the queue is the last ones that fit, newest first, and the next sweep starts at the oldest |
| `SieveSweeps.HoldsTheLast` | cache/sieve.go:80-206 | so a key is stored if and only if it is one of the last ones put, as many as fit |
| `SieveSweeps.MidwayNext` | cache/sieve.go:80-206 | a new key takes the place of the oldest key nobody asked for, and the hand goes on from there |
| `SieveSweeps.AskedOutliveTheRest` | cache/sieve.go:80-206 | fill the cache, ask for some keys, put new ones: exactly the oldest keys nobody asked for are replaced, as many as were put |
| `SieveSweeps.EarlierRequestsCount` | cache/sieve.go:184-206 | a request made before the last eviction still counts: a run in which a key asked for since then goes and one not asked for since then stays |
| `SieveSweeps.DeleteKeepsVictim` | cache/sieve.go:160-206 | deleting another key does not change which key the next eviction takes |
| `ReachSearch.StepSound` | algo/reach.go:206-242 | every step of the search keeps cursors and cache sound |
| `ReachSearch.RootClosed` | algo/reach.go:206-242 | an exhausted root cursor holds exactly what its component reaches |
| `ReachSearch.StepsRun` | algo/reach.go:84-115 | after any number of steps the search is sound, and exact if the cache was |
| `ReachCalls.CallFunctional` | algo/reach.go:206-242 | the cache a call finds determines its answer and the cache it leaves |
| `ReachCalls.CallSound` | algo/reach.go:206-242 | a call stores and returns only reachable components, each entry with itself and its neighbours |
| `ReachCalls.CallExact` | algo/reach.go:206-242 | from an exact cache a call returns exactly the reachable components |
| `ReachCalls.CallsExactIff` | algo/reach.go:206-242 | the next call is exact for every start if and only if every cached entry is exact, so a run is exact as long as its caches are |
| `ReachCalls.RunSound` | algo/reach.go:84-115 | over every run of calls every entry ever stored is sound |
| `ReachCalls.CallRecords` | algo/reach.go:206-242 | a call puts its own answer last, under its own component |
| `ReachCalls.SmallCacheExact` | algo/reach.go:206-242 | with room for one entry every run on every graph keeps an exact cache |
| `ReachCalls.ExactRuns` | algo/reach.go:206-242 | a run whose caches are exact answers every call exactly |
| `ReachForests.SettledAside` | algo/reach.go:206-242 | without two predecessors, a neighbour a cursor is done with does not lead back to the open cursors |
| `ReachForests.VisitedIsSettled` | algo/reach.go:229-230 | then a neighbour found visited is one the same cursor has already passed, so skipping it loses nothing |
| `ReachForests.TopExact` | algo/reach.go:222-229 | a popped cursor holds exactly what its component reaches |
| `ReachForests.StepGrown` | algo/reach.go:206-242 | every step keeps all entries exact and the open cursors on the way to being so |
| `ReachForests.CondensationHasNoCycle` | algo/scc.go:289-329 | a component graph has no cycle in either direction of travel |
| `ReachForests.OnePredecessorExact` | algo/reach.go:206-242 | for any capacity, every run is exact when no component has two predecessors in the direction of travel |
| `DiamondSearches.SecondAnswerWrong` | algo/reach.go:206-242 | on every diamond and for every capacity above one, asking a new cache about the top is answered right and leaves an entry from which the right corner is said not to reach the lowest |
| `Diamonds.DiamondCondenses` | algo/scc.go:289-329 | the diamond is a valid graph and its own component graph |
| `Diamonds.ShapeOf` | algo/scc.go:289-329 | whatever the numbering of its components, every component graph of the diamond is a diamond, up to exchanging its sides |
| `Diamonds.DiamondSecondAnswerWrong` | algo/reach.go:229-230 | for every capacity above one, asking a new cache about 4 is answered right and leaves an entry from which 3 is said not to reach 0 |
| `Diamonds.SmallCacheAlwaysExact` | algo/reach.go:206-242 | up to capacity one, every run on every component graph is exact |
| `Diamonds.AlwaysExactIff` | algo/reach.go:206-242 | every run on every component graph has only exact entries and answers if and only if the capacity is at most one |
| `Reachability.ReachabilityCache.constructor` | algo/reach.go:72-78 | the component graph is built from the graph and both caches start empty |
| `Reachability.ReachabilityCache.CachedComponentReach` | algo/reach.go:185-200 | a lookup in the cache of the direction, and only there |
| `Reachability.ReachabilityCache.CacheComponentReach` | algo/reach.go:173-181 | a store in the cache of the direction, and only there |
| `Reachability.ReachabilityCache.SearchStep` | algo/reach.go:206-242 | one iteration of the loop is one step of the search |
| `Reachability.ReachabilityCache.SearchFrom` | algo/reach.go:206-242 | the loop ends after finitely many steps |
| `Reachability.ReachabilityCache.CachedOrSearched` | algo/reach.go:206-242 | the object takes the step of the specification: the cached answer, or a search to its end |
| `Reachability.ReachabilityCache.CallFaithful` | algo/reach.go:206-242 | a call keeps the cache sound, and exact where the capacity is one or no component has two predecessors |
| `Reachability.ReachabilityCache.ComponentReachDFS` | algo/reach.go:206-242 | the answer is sound, and exact when the capacity is one, no component has two predecessors, or the cache was exact; the other direction is left alone |
| `Reachability.ReachabilityCache.CanReach` | algo/reach.go:128-139 | true exactly when both nodes are known and a walk joins them in the original graph |
| `Reachability.ReachabilityCache.MembersOf` | algo/reach.go:145-154 | the members of a set of components |
| `Reachability.ReachabilityCache.ReachOfComponentContainingMember` | algo/reach.go:259-265 | the members of what one call answers: only reachable nodes, and all of them under the same conditions |
| `Reachability.ReachabilityCache.OrReach` | algo/reach.go:270-274 | the node's reach is merged in and the node itself left out, exactly under the same conditions |
| `Reachability.AskDiamond` | algo/reach.go:259-265 | a new cache on the diamond with any capacity above one, asked about 4 and then about the second of its neighbours, returns nodes that lack 0, which that neighbour reaches |
| `DumpShards.CutFull` | retriever/dump.go:600-707 | the number of shards is necessary and sufficient for the rows |
| `DumpShards.EntriesRecords` | retriever/dump.go:523-574 | the records of the first shards, read back in order, are the first rows |
| `DumpShards.EntriesCounts` | retriever/dump_checkpoint.go:399-419 | the action counts of the listed shards add up to those of the rows |
| `DumpShards.EdgeKindsAgree` | retriever/dump.go:546-550 | restored relationship kinds are the scanned ones without the empty string |
| `DumpShards.NextNodeObservable` | retriever/metrics.go:140-163 | the next node of a scan is accepted exactly while fewer than 2^32 - 1 are held |
| `DumpShards.SeenObservable` | retriever/metrics.go:140-163 | the metrics builder accepts all nodes, then relationships, in scan order exactly when the nodes are at most 2^32 - 1 |
| `DumpSpots.AcceptsManifest` | retriever/types.go:125-213 | the manifest of any number of completed graphs is accepted |
| `DumpSpots.AcceptsCurrent` | retriever/dump_checkpoint.go:192-240 | the graph in progress passes the index, snapshot, phase, count and cursor checks at every spot |
| `DumpSpots.AcceptsCheckpoint` | retriever/dump_checkpoint.go:162-243 | the checkpoint of every spot is accepted |
| `DumpDisk.UpToDistinct` | retriever/dump_checkpoint.go:328-356 | no path is listed twice |
| `DumpDisk.AcceptsFiles` | retriever/dump_checkpoint.go:296-326 | with the leftovers gone every listed file is there and no other |
| `DumpDiskSteps.TempsAreKnown` | retriever/dump_checkpoint.go:265-294 | what a resume removes is exactly what a spot may leave behind |
| `DumpDiskSteps.IdleChange` | retriever/dump_checkpoint.go:88-107 | a disk a crash may leave stays one when uncommitted files or the temporary checkpoint change |
| `DumpSteps.CleaningKeeps` | retriever/dump_checkpoint.go:265-294 | removing one known leftover keeps the invariant |
| `DumpSteps.CheckFilesKeeps` | retriever/dump_checkpoint.go:296-326 | the file and source checks pass and the invariant holds |
| `DumpSteps.CountingKeeps` | retriever/dump.go:295-310 | counting compares with, or records, the snapshot and keeps the invariant |
| `DumpSteps.ReadsBackIff` | retriever/compression.go:331-340 | what is committed can be read back exactly when no line of the committed rows is longer than ten mebibytes |
| `DumpSteps.RestoreRefused` | retriever/compression.go:331-340 | a line too long ends the process and leaves a disk to resume from |
| `DumpSteps.RestoreKeeps` | retriever/dump.go:523-574 | the committed fragments restore exactly what was gathered, empty relationship kind excepted, or one of their lines is too long |
| `DumpSteps.EnterPhaseKeeps` | retriever/dump.go:600-614 | a phase resumes at the cursor after the last committed shard |
| `DumpScanSteps.QueryIs` | retriever/scan.go:87-116 | the keyset query after row `pos` returns the next rows, none skipped, none repeated |
| `DumpScanSteps.ScanKeeps` | retriever/dump.go:646-690 | fetching, opening and writing keep the open fragment equal to the rows after the last commit |
| `DumpScanSteps.OpenParquetKeeps` | retriever/parquet.go:53-57 | the exclusive creation of the Parquet staging file always succeeds, because no stale one is left |
| `DumpScanSteps.RecordKind` | retriever/dump.go:767-771 | scanning a relationship records its kind, so that the empty one stays lost only while it does not occur again |
| `DumpCommitSteps.CloseKeeps` | retriever/fragment_writer.go:90-112 | closing the staged files keeps the invariant |
| `DumpCommitSteps.PublishKeeps` | retriever/fragment_writer.go:113-123 | each rename keeps the invariant: the outputs stay removable leftovers |
| `DumpCommitSteps.CommitKeeps` | retriever/dump.go:364-378 | committing makes the published shard the next entry and its last row the cursor |
| `DumpCommitSteps.PhaseEndKeeps` | retriever/dump.go:383-389 | the phase turns with all nodes committed |
| `DumpCommitSteps.GraphEndKeeps` | retriever/dump.go:470-508 | the finished graph's entry, schema, metrics and totals are those of its source |
| `DumpRuns.StepKeeps` | retriever/dump.go:29-252 | every step of a process keeps the invariant |
| `DumpRuns.CrashKeeps` | retriever/dump.go:945-950 | a crash at any step, with any uncommitted files removed, leaves a resumable disk |
| `DumpRuns.ResumeKeeps` | retriever/dump_checkpoint.go:135-160 | a resume starts from the durable checkpoint with the invariant |
| `DumpRuns.RunGood` | retriever/dump.go:29-252 | every world of every run satisfies the invariant |
| `DumpRuns.NeverFails` | retriever/dump_checkpoint.go:135-326 | all checks of resume, scan and manifest pass in every run, except that a graph beyond the capacity of the metrics, a record that cannot be encoded and a line too long to be read back are refused; a run that is done had neither of the first two |
| `DumpRuns.AlwaysResumable` | retriever/dump_checkpoint.go:135-160 | whenever nobody is at work the dump is finished, or the resume accepts it, or nothing was durable yet |
| `DumpTheorems.DoneIsFinished` | retriever/dump.go:213-223 | a finished directory is exactly the manifest and the shards computed from the source, whatever happened on the way; `DumpContents` says what these hold |
| `DumpTheorems.EmptyKindMeans` | retriever/dump.go:767-771 | the exceptional kind exists exactly when some relationship has a kind and it is the empty string |
| `DumpTheorems.CanBeLostWhenRead` | retriever/dump.go:546-550 | where every record can be read back, the empty kind can be lost exactly where it occurs |
| `DumpTheorems.CrashesLeaveNoTrace` | retriever/dump.go:286-508 | two finished runs of one source leave the same directory, however interrupted, unless the empty relationship kind can be lost |
| `DumpContents.RunTellsSource` | retriever/dump.go:600-819 | in every run that is done, the directory tells the source row by row: fragments, manifest entries, action counts, observations and kinds |
| `DumpContents.FinishedSharded` | retriever/dump.go:600-819 | fragments are numbered from 1 without gaps, and each holds the records of its slice of the rows, its Parquet twin the same ones |
| `DumpContents.RowIsThere` | retriever/dump.go:671-675 | the record of row `k` is number `k` over the fragments of its phase, with the row's IDs, endpoints, kinds and scrubbed properties |
| `DumpContents.FinishedLists` | retriever/dump.go:932-943 | the manifest lists these fragments with their counts, and the sums of what the scrubber counted for their rows |
| `DumpContents.FinishedReports` | retriever/dump.go:677-679 | the metrics observe the nodes and then the relationships of the source, in order, with their IDs, endpoints and kinds |
| `DumpContents.FinishedKinds` | retriever/dump.go:659-770 | the schema has the non-empty kinds of the nodes and the kinds of the relationships, of which only the empty one may be missing |
| `DumpContents.UninterruptedTells` | retriever/dump.go:29-252 | an uninterrupted dump tells the whole source and names every relationship kind |
| `DumpFinality.CommittedStays` | retriever/dump_checkpoint.go:88-107 | a fragment listed by the durable checkpoint is there with the same contents, and listed, in every later world of the run |
| `DumpFinality.ManifestIsFinal` | retriever/dump.go:213-223 | once the manifest is published no file changes any more but for the checkpoint |
| `DumpScanSteps.RowRefused` | retriever/dump.go:676-683 | a node refused by the metrics, or a record that cannot be encoded, ends the process and leaves a disk to resume from |
| `DumpProgress.StepReduces` | retriever/dump.go:29-252 | every step of a process reduces the work left or fails |
| `DumpProgress.CalmGoesOn` | retriever/dump.go:29-252 | a process that can read back what it has yet to read takes its next step, unless the source cannot be dumped at all |
| `DumpProgress.DoomedFails` | retriever/dump.go:523-574 | one that cannot never gets past its restore |
| `DumpProgress.Finishes` | retriever/dump.go:29-252 | from every reachable world an undisturbed process ends: done if and only if the source can be dumped and what the process has yet to read back can be, failed if not |
| `DumpProgress.AllCalm` | retriever/dump.go:523-574 | where no line is too long, every reachable process can read back what it has yet to read |
| `DumpSchema.UninterruptedIsExpected` | retriever/dump.go:29-252 | an uninterrupted dump finishes with the manifest computed from the source (`UninterruptedTells` says what it holds), long lines included, for every source within the capacity of the metrics whose records can be encoded, and fails for every other |
| `DumpJourneys.RunToShard` | retriever/dump.go:29-252 | for every shard of a source that can be dumped there is a run in which that shard has just been committed |
| `DumpJourneys.CrashAndResume` | retriever/dump_checkpoint.go:135-158 | a crash there is resumed from the checkpoint in memory before it |
| `DumpFailures.ResumeFails` | retriever/compression.go:331-340 | with a line too long some run commits it, crashes, resumes and fails, though nothing stops an uninterrupted one |
| `DumpFailures.FailsIff` | retriever/metrics.go:160-163 | some run fails if and only if some graph has more than 2^32 - 1 nodes, some record cannot be encoded, or some line is too long to be read back |
| `DumpFailures.NeverDoneAgain` | retriever/dump.go:523-574 | once a record that cannot be read back is committed and its process gone, no continuation of the run is ever done |
| `DumpSchema.CrashLosesKind` | retriever/dump.go:546-550 | a crash after the last shard with an empty kind makes the finished manifest differ, if everything committed by then can be read back |
| `DumpSchema.ManifestDeterminedIff` | retriever/dump.go:523-574 | every finished run has the expected manifest if and only if the empty relationship kind cannot be lost or no run can finish |
| `EntityScan.VisitBatch` | retriever/scan.go:90-116 | the visitor takes a strictly increasing prefix of what the cursor delivers and names the rule the next row breaks |
| `EntityScan.ScanEntityBatches` | retriever/scan.go:39-142 | over any reader only increasing rows in the counted number; over a keyset reader exactly the rows after the cursor for every batch size, with success exactly when the table has as many as counted |
| `DumpValidators.ValidateFragmentPaths` | retriever/dump_checkpoint.go:245-263 | accepts exactly lists numbered 1, 2, 3 in each phase without repetition |
| `DumpValidators.CountFragments` | retriever/dump_checkpoint.go:206-224 | the totals of each phase, refused exactly when a node fragment follows an edge fragment |
| `DumpValidators.ValidateCurrent` | retriever/dump_checkpoint.go:192-240 | decides the condition on the graph in progress |
| `DumpValidators.ValidateCheckpoint` | retriever/dump_checkpoint.go:162-243 | decides the condition on checkpoints |
| `DumpValidators.AddExpected` | retriever/dump_checkpoint.go:328-380 | accepts exactly if no path is repeated, every file holds its listed records, and every Parquet twin is there; collects their names |
| `DumpValidators.WalkDirectory` | retriever/dump_checkpoint.go:309-325 | accepts exactly directories without unexpected files |
| `DumpValidators.ValidateFiles` | retriever/dump_checkpoint.go:296-326 | accepts exactly directories in which every listed fragment is intact and no other file is left |
| `DumpValidators.RemoveKnownTemps` | retriever/dump_checkpoint.go:265-294 | removes exactly the known leftovers |
| `DumpValidators.LoadCompatibleCheckpoint` | retriever/dump_checkpoint.go:135-160 | returns the checkpoint if and only if it is sound entry by entry and, once the leftovers are removed, its files are intact and alone; so for every directory a crash can leave |
| `DumpAcceptance.PathsAccepted` | retriever/dump_checkpoint.go:245-263 | the check of fragment paths is that each phase counts off from 1; repetition is then impossible |
| `DumpAcceptance.CurrentIsSound` | retriever/dump_checkpoint.go:189-240 | the checks of the graph in progress, over its entries: target, snapshot, counts, order, totals, cursor, numbering |
| `DumpAcceptance.GraphIsSound` | retriever/dump_checkpoint.go:175-187 | the checks of a completed graph, over its entries: name, order, totals, numbering |
| `DumpAcceptance.MetricsAreSound` | retriever/dump_checkpoint.go:172-179 | the check of the metrics: as many as graphs, different names, each with the counts of a graph of its name |
| `DumpAcceptance.AcceptedIsSound` | retriever/dump_checkpoint.go:135-243 | a checkpoint passes if and only if it was made by the same dump and all of these hold |
| `DumpAcceptance.FilesAreIntact` | retriever/dump_checkpoint.go:296-380 | the files of a sound checkpoint pass if and only if each listed fragment holds its records, each twin is there, and nothing else is |
| `DumpAcceptance.TempsAreLeftovers` | retriever/dump_checkpoint.go:265-294 | exactly staging files and the fragment after the last committed one are removed first |
| `DumpRefusals.ChangedIsRefused` | retriever/dump_checkpoint.go:358-368 | from an accepted directory, other contents in a listed fragment, or none, lead to refusal |
| `DumpRefusals.MissingTwinIsRefused` | retriever/dump_checkpoint.go:370-380 | so does a missing Parquet twin |
| `DumpRefusals.ForeignIsRefused` | retriever/dump_checkpoint.go:309-325 | so does a file that is neither listed nor a leftover |
| `DumpRefusals.LoadOverwritten` | retriever/dump_checkpoint.go:135-160 | loading after a listed fragment was overwritten returns nothing |
| `DumpRefusals.ObservedIffConsistent` | retriever/dump.go:523-574 | records read back are observed if and only if no node comes twice, there are not too many, and relationships come after their nodes |
| `DumpRefusals.ResumeChecks` | retriever/dump.go:98-106 | any resume goes on after its checks if and only if the files are intact and the completed graphs have their counts; else it fails |
| `DumpRefusals.ResumeEntersIff` | retriever/dump.go:286-360 | a resume within a graph gets to the scan if and only if, further, the graph has its counts and its fragments read back consistently |
| `FragmentWriters.OpenFragment` | retriever/fragment_writer.go:30-64 | opening succeeds unless a file or the compressor cannot be created, a stale Parquet staging file included; it then leaves the directory alone or without a staging file of the records |
| `FragmentWriters.FragmentWriter.constructor` | retriever/fragment_writer.go:30-64 | opening begins the staging files and touches nothing else, whatever is in the directory |
| `FragmentWriters.FragmentWriter.Write` | retriever/fragment_writer.go:66-84 | a record more; if either sink fails the fragment is aborted and its staging files are gone; nothing once closed |
| `FragmentWriters.FragmentWriter.Cleanup` | retriever/fragment_writer.go:133-147 | staging files go, and the record file if it was published |
| `FragmentWriters.FragmentWriter.Close` | retriever/fragment_writer.go:90-123 | both outputs appear with all records, or on any fault neither does and a directory that had none of the names is as it was before opening; once only |
| `FragmentWriters.FragmentWriter.Abort` | retriever/fragment_writer.go:125-131 | an aborted fragment leaves no staging file, a closed one is left alone |
| `FragmentWriters.PublishedIs` | retriever/fragment_writer.go:90-123 | after publishing, both outputs hold the records, no staging file is left, and every other file is as it was |
| `FragmentWriters.UnstagedIs` | retriever/fragment_writer.go:125-147 | after giving up, no staging file is left and every other file is as it was |
| `BreadthFirst.CountKept` | traversal/traversal.go:316-327 | every worker step keeps the descent count equal to queued, held and counted-only segments |
| `BreadthFirst.WorkerKeeps` | traversal/traversal.go:305-330 | every worker step keeps the invariant: nothing produced twice, offspring complete up to what is being handed out, the main loop told of zero |
| `BreadthFirst.LoopKeeps` | traversal/traversal.go:340-348 | every step of the main loop keeps it |
| `BreadthFirst.RunInv` | traversal/traversal.go:298-348 | in every interleaving the invariant holds throughout |
| `BreadthFirst.DrivenExactlyOnce` | traversal/traversal.go:341-348 | when the main loop sees zero, every segment of the tree was driven exactly once and nothing else was |
| `BreadthFirst.NoDeadlock` | traversal/traversal.go:298-348 | with a worker, a run that can go no further has finished |
| `BreadthFirst.ZeroWorkersHang` | traversal/traversal.go:298-348 | without workers the main loop waits forever on the root |
| `BreadthFirst.RunLength` | traversal/traversal.go:298-348 | every interleaving takes at most eight steps for each segment |
| `BreadthFirst.TraversalCompletesIff` | traversal/traversal.go:267-357 | every maximal run completes the traversal if and only if there is a worker |
| `EliasFano.SelectPosition` | container/ef.go:93-98 | the i-th set upper bit is the unary end of entry i |
| `EliasFano.EntryIs` | container/ef.go:100-108 | upper and lower parts of an entry make its value again |
| `EliasFano.LookupExact` | container/ef.go:93-109 | in 64-bit arithmetic a lookup of entry i is the i-th value, for every width below 64 |
| `EliasFano.NextEnd` | container/ef.go:198-204 | the next set upper bit is the unary end of the next entry |
| `EliasFano.WriteLower` | container/ef.go:121-124 | the bit loop stores the new lower bits and disturbs no other entry |
| `EliasFano.EFSet.constructor` | container/ef.go:28-75 | a new set is empty |
| `EliasFano.EFSet.AppendUnchecked` | container/ef.go:111-128 | exactly one value more, at the end |
| `EliasFano.EFSet.Append` | container/ef.go:130-141 | appends, or refuses a value outside the universe or below the last and changes nothing |
| `EliasFano.EFSet.Lookup` | container/ef.go:93-109 | the `index`-th appended value |
| `EliasFano.EFSet.Find` | container/ef.go:155-174 | on a non-empty set and a target not below the first value: found exactly when present, at an index that holds it |
| `EliasFano.EFSet.Iterate` | container/ef.go:77-87 | all values in order |
| `EliasFano.EFSetIterator.constructor` | container/ef.go:192-196 | an iterator starts before the first entry |
| `EliasFano.EFSetIterator.Next` | container/ef.go:206-226 | the i-th step returns the i-th value |
| `EliasFano.FindsFromFirst` | container/ef.go:155-174 | the unsigned loop ends with the right answer for every target not below the first value |
| `EliasFano.ZeroNeverGivesUp` | container/ef.go:155-174 | a search for zero never moves its lower bound, so it never reports absence |
| `EliasFano.FindRightIff` | container/ef.go:155-174 | the loop is right about every target if and only if the set is non-empty and its first value is zero |
| `EliasFano.BitsRepresent` | container/ef.go:93-128 | the lookup on a set's bits represents its values, so the two results above apply to it |
| `BfsTrees.Reach` | container/digraph.go:118-140 | exactly the nodes a walk of at least one edge leads to |
| `BfsTrees.VisitTerminals` | container/digraph.go:157-172 | one visitor round settles its cursor and keeps the tree's invariant |
| `BfsTrees.SettledIsShortest` | container/digraph.go:142-176 | with every cursor settled each walk is matched by a terminal no further away |
| `BfsTrees.BFSTree` | container/digraph.go:142-176 | each such node once, with the length of a shortest such walk, in non-decreasing distance |
| `BfsTrees.TreeNodesAreReach` | container/digraph.go:118-176 | the node set of the tree is the result of `Reach` |
| `Triplestores.Triplestore.AddNode` | container/triplestore.go:67-69 | the node is known, edges unchanged |
| `Triplestores.Triplestore.AddTriple` | container/triplestore.go:83-111 | one edge more at the end, and both indices still list exactly the edges of each node |
| `Triplestores.Triplestore.AdjacentEdgeIndices` | container/triplestore.go:113-138 | the indices are exactly those of the edges that touch the node in the direction |
| `Triplestores.Triplestore.EachAdjacentEdge` | container/triplestore.go:198-202 | these edges once each, in the order they were added |
| `Triplestores.ChildrenAre` | container/traversal.go:25-37 | the segments pushed for a path are its filtered one-edge extensions, each once, and none exactly when the path ends |
| `PathEnumeration.Taken` | container/traversal.go:18-47 | taking a segment from either end of the deque and pushing its children preserves what is owed |
| `PathEnumeration.YieldIs` | container/traversal.go:8-96 | below a path exactly the inextensible or full-depth extensions are handed over, each once |
| `PathEnumeration.PushChildren` | container/traversal.go:25-37 | the visitor pushes exactly the children |
| `PathEnumeration.TSDFS` | container/traversal.go:8-51 | ends, hands over only routes that are full-length or stuck, told by the endpoints of their edges, none twice, all of them if the handler continues, the later branch first, and counts those of `maxDepth` edges |
| `PathEnumeration.TSBFS` | container/traversal.go:53-96 | the same, but shorter paths first, and those of one length in the order of their edges |
| `Routes.PathsAreRoutes` | container/triplestore.go:14-20 | the paths of a search are the filtered sequences of edges that start at the root and of which each starts where the one before ends, or the mirror image inbound |
| `Routes.EndsAreEnds` | container/traversal.go:22-43 | such a path goes no further if and only if it has `maxDepth` edges or no filtered edge follows its last one |
| `PathEnumeration.ResultsAreRoutes` | container/traversal.go:8-96 | what is handed over are exactly these routes |
| `PathOrders.ChildrenAscend` | container/traversal.go:25-37 | segments are pushed in the order their edges were added |
| `PathOrders.DepthFirstIsOne` | container/traversal.go:8-51 | the depth-first order leaves one list only of a set of paths |
| `PathOrders.BreadthFirstIsOne` | container/traversal.go:53-96 | so does the breadth-first order |
| `PathTermination.TerminatesIffBounded` | container/traversal.go:8-96 | with a handler that always continues, the deque of either search runs empty exactly when a depth limit was given or the filtered paths have bounded length |
| `PathTermination.TerminatesIffNoCycle` | container/traversal.go:8-96 | that is, exactly when a depth limit was given or no filtered path takes an edge twice |
| `PathTermination.LoopNeverEnds` | container/traversal.go:8-96 | without a depth limit neither search ends on one edge that leads back to its node |
| `PathEnumeration.EnumerationsAgree` | container/traversal.go:8-96 | both searches hand over the same multiset |
| `Decimals.ParseUint` | retriever/load.go:83-83 | the digit loop with overflow checks accepts exactly the decimals below 2^64 |
| `Decimals.FormatNumber` | retriever/load.go:84-84 | parsing undoes formatting |
| `Decimals.CanonicalNumericSourceID` | retriever/load.go:78-89 | the numeric form is used exactly for canonical decimals |
| `Decimals.CanonicalIff` | retriever/load.go:78-89 | canonical decimals and unsigned 64-bit numbers are in bijection |
| `Decimals.NumberIsPositional` | retriever/load.go:83-83 | digits are read in the decimal system, most significant first |
| `Decimals.ParsedIff` | retriever/load.go:83-83 | exactly the non-empty strings of digits up to 2^64 - 1 are read, as the number they stand for |
| `Resolver.NodeIDResolver.constructor` | retriever/load.go:40-47 | a new resolver is the empty map |
| `Resolver.NodeIDResolver.Put` | retriever/load.go:49-66 | puts if absent, in one map keyed by all strings |
| `Resolver.NodeIDResolver.Resolve` | retriever/load.go:68-76 | looks up in that map |
| `Resolver.Flush` | retriever/load.go:622-661 | a batch is created and every record of it resolves to its own ID |
| `Resolver.TakeRecord` | retriever/load.go:668-687 | a record is refused exactly when its ID is empty or was handed over before; full batches are flushed |
| `Resolver.LoadGraphNodes` | retriever/load.go:606-702 | succeeds exactly on loadable fragments; then for every batch size and split each record was created once, in order, and resolves to the ID created for it |
| `MetricKeys.PartPrefix` | retriever/metrics.go:646-648 | a length-prefixed part and what follows it are determined by their concatenation |
| `MetricKeys.KindKeyInjective` | retriever/metrics.go:626-632 | different relationship kinds have different keys |
| `MetricKeys.KindSetKeyIff` | retriever/metrics.go:599-624 | two kind lists share a key exactly when they have the same non-empty kinds |
| `MetricKeys.EndpointKeyInjective` | retriever/metrics.go:634-640 | different endpoint triples have different keys |
| `MetricKeys.MetricKindSetKey` | retriever/metrics.go:599-624 | the loop computes the key of the set of non-empty kinds |
| `Histograms.TallySum` | retriever/metrics.go:582-597 | a histogram of a sequence sums to its length |
| `Histograms.RenamedTally` | retriever/metrics.go:262-270 | renaming keys injectively loses no bucket |
| `Histograms.ValidateSum` | retriever/metrics.go:582-597 | accepts exactly histograms with the expected sum |
| `Metrics.Handshake` | retriever/metrics.go:212-223 | in-degrees and out-degrees both total the number of relationships |
| `Metrics.ValidateHistograms` | retriever/metrics.go:529-580 | decides that all six histograms add up |
| `Metrics.DirectAddsUp` | retriever/metrics.go:529-580 | the validator accepts the metrics of every graph |
| `Metrics.MetricsBuilder.constructor` | retriever/metrics.go:89-110 | a new builder has observed nothing |
| `Metrics.MetricsBuilder.AppendNode` | retriever/metrics.go:160-174 | one node more in every table, up to the ordinal capacity |
| `Metrics.MetricsBuilder.ObserveNode` | retriever/metrics.go:116-138 | accepted exactly when not blank, not repeated, not mixed with numeric IDs, and within capacity |
| `Metrics.MetricsBuilder.ObserveDatabaseNode` | retriever/metrics.go:140-158 | the same for numeric IDs |
| `Metrics.MetricsBuilder.ObserveOrdinals` | retriever/metrics.go:212-223 | one relationship more in every table |
| `Metrics.MetricsBuilder.ObserveRelationship` | retriever/metrics.go:180-194 | accepted exactly when both endpoints were observed, and recorded between those nodes |
| `Metrics.MetricsBuilder.ObserveDatabaseRelationship` | retriever/metrics.go:196-210 | the same for numeric endpoints |
| `Metrics.MetricsBuilder.Finalize` | retriever/metrics.go:249-284 | every bucket of the result counts what its key says over the observed graph, no bucket is overwritten, and the histograms add up |
| `MetricCounts.DegreesCount` | retriever/metrics.go:272-278 | under the decimal of `d` stands the number of nodes at which exactly `d` relationships end, start, or both together |
| `MetricCounts.NodeKindsCount` | retriever/metrics.go:262-264 | under the written-out text of a node's kinds stands the number of nodes with the same non-empty kinds |
| `MetricCounts.EdgeKindsCount` | retriever/metrics.go:265-267 | under the length, a colon and the kind stands the number of relationships of that kind |
| `MetricCounts.EndpointsCount` | retriever/metrics.go:268-270 | under the three length-prefixed parts joined by bars stands the number of relationships of that kind from nodes of the first kinds to nodes of the last |
| `MetricCounts.SetTextIsKey` | retriever/metrics.go:599-624 | the key of a kind set is its members behind their lengths, joined by plus signs, or `0:` |
| `ArchiveFrames.FrameAADInjective` | retriever/archive_envelope.go:777-790 | the authenticated data of a frame determine its index and type |
| `ArchiveFrames.ParseEncoded` | retriever/archive_envelope.go:705-757 | an encoded frame parses back whatever follows it |
| `ArchiveFrames.ParseCut` | retriever/archive_envelope.go:705-757 | a frame cut short does not parse |
| `ArchiveFrames.DecodeStream` | retriever/archive_envelope.go:684-757 | reading whole frames delivers their payload and the end |
| `ArchiveFrames.DecodePrefix` | retriever/archive_envelope.go:684-757 | reading a strict prefix delivers a prefix of the payload and an error |
| `ArchiveFrames.AcceptedIsStream` | retriever/archive_envelope.go:705-775 | under ideal authenticity what reads to its end is exactly a stream of sealed frames with that payload |
| `ArchiveFrames.ParsedInPlace` | retriever/archive_envelope.go:705-790 | when only one writer's frames open, the frame parsed at a place is the one written there |
| `ArchiveFrames.OnlyThatStream` | retriever/archive_envelope.go:684-790 | when only one writer's frames open, an input reads to its end if and only if it is that writer's stream, none missing, moved, repeated or replaced |
| `ArchiveFrames.IdealHasOneWriter` | retriever/archive_envelope.go:705-757 | there is such a context for any frames |
| `ArchiveFrames.ArchiveWriter.constructor` | retriever/archive_envelope.go:445-504 | a new writer has written only its header |
| `ArchiveFrames.ArchiveWriter.WriteFrame` | retriever/archive_envelope.go:546-578 | one sealed frame more |
| `ArchiveFrames.ArchiveWriter.Write` | retriever/archive_envelope.go:506-527 | the payload grows by the data, in frames of exactly one mebibyte but for the last; refused once closed |
| `ArchiveFrames.ArchiveWriter.Close` | retriever/archive_envelope.go:529-544 | one final frame, once; the frames are then whole |
| `ArchiveFrames.ArchiveReader.constructor` | retriever/archive_envelope.go:584-612 | a new reader has everything left to deliver |
| `ArchiveFrames.ArchiveReader.ReadNextFrame` | retriever/archive_envelope.go:705-757 | takes one frame without changing what is left, or fails with nothing delivered |
| `ArchiveFrames.ArchiveReader.ReadSome` | retriever/archive_envelope.go:684-703 | for any buffer size: the next bytes, the end exactly when nothing is left, or the error |
| `ArchiveFrames.ArchiveReader.ReadAll` | retriever/archive_envelope.go:684-703 | any positive buffer sizes deliver the same bytes and the same ending |
| `ArchiveFrames.ArchiveRoundTrip` | retriever/archive_envelope.go:445-775 | a written and closed archive reads back as what was written, and no strict prefix of it reads to an end |
| `ArchiveFrames.WriteThenRead` | retriever/archive_envelope.go:445-775 | writing any parts, closing, and reading with any positive buffer sizes delivers the parts joined and then the end |
| `ArchiveLayouts.FrameLayout` | retriever/archive_envelope.go:560-578 | a frame is a byte of type, four bytes of length, most significant first, and the ciphertext |
| `ArchiveLayouts.SealedUnder` | retriever/archive_envelope.go:777-790 | a frame is sealed under the format name, a zero byte, the header hash, eight bytes of index and a byte of type |
| `ArchiveLayouts.EnvelopeLayout` | retriever/archive_envelope.go:480-498 | an archive begins with the format name, four bytes of length and the header |
| `ArchiveLayouts.FrameTakenIff` | retriever/archive_envelope.go:705-757 | a frame is taken if and only if its type is 0 or 1, it is no longer than 1 MiB and 4 KiB, all there, and opens |
| `ArchiveLayouts.EnvelopeTakenIff` | retriever/archive_envelope.go:614-649 | an envelope is opened if and only if it has the name and a valid header of 1 to 65536 bytes that is all there |

## Assumptions that are parameters of the model

- The dump source does not change between resumptions, options are the same, renames are atomic, and every relationship's
  endpoints are nodes of its graph with IDs in increasing order (`ValidConfig`). The failing branches stay in the machine.
- Scrubbing, the order of kinds (`sort.Strings`), the white-space test, the encryption context and the database's bulk
  creation are function parameters; what is needed of them is stated where it is needed.
- Checksums and byte counts of a fragment are represented by its records, a metrics entry of the dump by the observations
  it is computed from; `Metrics.MetricsBuilder.Finalize` shows that these determine it and what each of its counts says.

## Left out

- EliasFano.EFSet.Find: requires a non-empty set and a target not below the first value, because the loop may not end otherwise; `FindRightIff` says exactly when it is right for all targets.
- EliasFano.EFSet.AppendUnchecked: requires that the bit positions it uses are below 2^64, which a bit set in memory cannot exceed.
- EliasFano.EFSet.Append: the same.
- EliasFano.EFSetIterator.Next: is stated for the entries of the set, as the iterator function uses it, not past the last one.
- PathEnumeration.TSDFS: requires a positive depth limit or a bound on the length of filtered paths, because the search does not end otherwise (`TerminatesIffNoCycle`).
- PathEnumeration.TSBFS: the same.
- Resolver.LoadGraphNodes: requires a positive batch size, as the options validation does.
- Reachability.ReachabilityCache.ComponentReachDFS: promises an exact answer only for capacity one, for graphs without two predecessors, or from an exact cache, because the code caches incomplete entries; `AlwaysExactIff` proves that no larger capacity is exact on every graph.
- ReachForests.OnePredecessorExact: is sufficient and not necessary; whether a cache with room for two or more stays exact on a graph beyond it also depends on the order of the neighbours and on which entries eviction spares.
- Metrics.MetricsBuilder.Finalize: leaves out the fingerprint, and references of relationship kinds are not narrowed to 32 bits, which would need 2^32 different kinds; those of node kinds always fit.
- ArchiveFrames.ArchiveReader.ReadNextFrame: a failed read leaves the reader as it was, while the source has consumed input by then; reads after an error are not modelled.
- Histograms.ValidateSum: counts are natural numbers of any size, so the refusal of a negative count and the overflow of a 64-bit total have no case.
- Metrics.ValidateHistograms: the same.
- Csr.CSRDigraphBuilder.Build: does not model that the built graph shares its ID maps with the builder.
- Floating-point sizing in `NewEFSet` and `AllocateEFSet`: the lower width and the preallocated length are parameters.
- Context cancellation, driver errors and the memory limit of `BreadthFirst`; the buffered pipe is a lossless queue.
- The generation time in the manifest, log and progress events, telemetry.
- JSON, compression, checksums, Parquet, tar and cryptography themselves; in particular strings that JSON does not preserve. Whether a record can be encoded and how long its line is are a parameter.
- The escaping of graph names in paths: fragments of different graphs, phases and shards have different paths.
- The forced replacement of an output directory with a checkpoint or a manifest in it begins another run, as if the directory were empty; file-system errors appear as crashes with removed leftovers.
- Canonical fingerprints of metrics and the comparison of two metrics manifests.
- Loading of relationships, schema assertion and load preflight.
- `TSStatelessBFS`, the triplestore projection and edge deletion, segment serialisation: they would only add easier members.
- `ReachSliceOfComponentContainingMember`, `XorReach` and the database fetchers of the reachability cache: easier variants of what is modelled.
- Cypher front end, query builder, drivers, scrubber, command-line tools.
