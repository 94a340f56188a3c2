# StreamingDiskANN: graph, write protocol and storage

A Dafny 4.11 model of the hard parts of pgvectorscale's StreamingDiskANN, an approximate nearest-neighbour
index access method for PostgreSQL, with proofs about it. PostgreSQL itself enters only as its promises: a page
can be locked, copied, and committed as a whole or dropped; an extension of the relation gives a block nobody has
used, or fails; a condition variable follows its documented wait-list semantics.

`dafny verify dfyconfig.toml` checks the whole project.

## How it is organised

| module | what it covers |
|---|---|
| `Sequences` | shared notions about sequences |
| `Pointers` | item pointers, the distance with its tie break, pruning factors |
| `Labels` | label sets as strictly sorted vectors and the index walks over them |
| `Pruning` | robust pruning: nested loops with a growing alpha, their certificate, label coverage |
| `Coverage` | the exact condition under which pruning keeps a label |
| `Nodes` | a stored node: slot array with end sentinel, tombstone, compare-and-replace |
| `Merging` | the computation of one merge attempt and the optimistic retry loop |
| `Adjacency` | any number of backends merging, appending and vacuuming, as a step machine |
| `Search` | the frontier (heap, visited list, inserted set), greedy search, the streaming scan |
| `StoredGraph` | the graph a scan reads from any state of the step machine |
| `LiveScan` | scans of the stored graph while other backends write |
| `Rescore` | the window that rescores a stream by exact distance |
| `EntryPoints` | double-checked publication of default and label roots, as a step machine |
| `IndexRun` | runs of a whole index, and scans of it from its entry points |
| `Pages`, `Chain`, `Root` | page space, byte strings chained over pages, atomic root replacement |
| `Bits`, `Quantizer`, `Training` | 64-bit words, thermometer codes, xor-popcount distance, one-pass statistics |
| `Codes` | which codes and code distances there are |
| `BuilderCache`, `Builder` | the write-back LRU of neighbour lists, for many workers and as one object |
| `Refinement` | a build on shared pages is a run of the cache machine |
| `ParallelBuild` | the start gate and the shared tuple counter |

Code that changes state is modelled as classes and loops (`ListSearchResult`, `ResortIterator`, `ChainTapeWriter`,
`ChainItemIterator`, `SbqQuantizer`, `Trainer`, `BuilderNeighborCache`, `BuildStateParallel`, `Node`, `StartNodes`),
each proved against a specification. Interleavings are step machines: `IsRun` describes a sequence of states and
events from the empty index, and the theorems hold of every such run. In a machine the ghost records (`log`,
`contributed`, `prunedAt`, `added`, `rejected`) never influence a step, and lemmas tie each of them to the events
of the run.

The pieces meet. `PruneNeighbors` returns the function `Prune`, so merges in the step machine use the pruning
contract. `Adjacency.LossesHaveReasons` carries the pruning certificate to runs with any number of writers.
`LiveScan.ScanDuringRun` joins the write protocol with the scan, `StoredGraph.ScanAndResort` adds the rescoring,
`IndexRun.ScanIndex` starts it from the published entry points of the same run, `Refinement.BuildRefines` shows that
the protocol carries out the merges of the build caches, and every method of `BuilderNeighborCache` performs steps of
`BuilderCache`.

Three results say exactly where the code meets a promise. Pruning keeps a label of the source for all codes of the
nodes if and only if fewer of them lack it than the degree bound (`Coverage.CoverageExactlyWhen`; the "only if" asks
for as many dimensions as nodes and two more). The window of the rescoring sorts its stream completely if and only if
the stream is nearly sorted (`Rescore.SortedExactlyWhen`). A byte string written to a chain can be read back unless
it is empty (`Chain.ChainTapeWriter.Write`, `Chain.EmptyItemReadsNothing`).

## Model

| member | source | states |
|---|---|---|
| Pruning.SelectionCertificate | pgvectorscale/src/access_method/graph/mod.rs:447-543 | the chosen positions are distinct and within the degree bound; none is ruled out, at the last alpha tried (the largest power of 1.2 up to max_alpha), by one chosen before it; below the bound every candidate left out is ruled out by a chosen one that sorts earlier and passes the label test; ruling out is stated on distances |
| Pruning.PruneCertificate | pgvectorscale/src/access_method/graph/mod.rs:470-541 | the same certificate on the lists and on the distances: a kept neighbour is not ruled out by a closer one kept before it, and fewer than num_neighbors results means that each dropped candidate has a kept witness no farther away, to which it is more than the last alpha times closer than to the point, and which has every label that matters |
| Pruning.SelectionIsGreedy | pgvectorscale/src/access_method/graph/mod.rs:467-541 | the bookkeeping with factors refines a plain rule: sweep over the sorted candidates at alpha 1, then 1.2, 1.44 and so on up to max_alpha, each time taking what nothing taken before rules out, until the bound is reached |
| Pruning.PruneIsGreedy | pgvectorscale/src/access_method/graph/mod.rs:462-541 | the pruned list is what that rule takes from the sorted candidates, in the order of taking |
| Pruning.FactorIsTooClose | pgvectorscale/src/access_method/graph/neighbor_with_distance.rs:55-64 | a factor is above alpha exactly when the distance to the point is more than alpha times the distance to the neighbour, and how tie breaks decide below EPSILON |
| Pruning.SortIsStable | pgvectorscale/src/access_method/graph/mod.rs:462 | the sort keeps the order of candidates that tie |
| Pruning.PruneSelects | pgvectorscale/src/access_method/graph/mod.rs:463-541 | for every input the result is a sublist of the candidates within the bound, without repeated pointers if the candidates had none |
| Pruning.ClosestIsKept | pgvectorscale/src/access_method/graph/mod.rs:462-483 | the closest candidate is always kept, and is first |
| Pruning.LabelCoverage | pgvectorscale/src/access_method/graph/mod.rs:506-515 | below the degree bound every label of the source that some candidate carries is carried by a kept neighbour |
| Coverage.CoverageExactlyWhen | pgvectorscale/src/access_method/graph/mod.rs:447-543 | for every degree bound, bit width and list of labelled nodes: pruning keeps a neighbour with a given label of the source for all codes of the nodes if and only if fewer nodes lack the label than the bound; distances are the xor-popcounts of codes, as in every labelled index, and the "only if" needs as many dimensions as nodes and two more |
| Coverage.FewLackingKeeps | pgvectorscale/src/access_method/graph/mod.rs:470-515 | if fewer candidates lack the label than the bound, a neighbour with it is kept whatever the distances are, full list or not |
| Coverage.ManyLackingCanLose | pgvectorscale/src/access_method/graph/mod.rs:470-483 | with as many nodes lacking the label as the bound, there are codes for which it is lost |
| Pruning.SkipIsHarmless | pgvectorscale/src/access_method/graph/mod.rs:500-504 | skipping candidates already beyond max_alpha never changes what is chosen or its order |
| Pruning.PruneNeighbors | pgvectorscale/src/access_method/graph/mod.rs:447-543 | the nested loops over the array of factors, with early return, compute the function that the results above are about |
| Pruning.OccludeTail | pgvectorscale/src/access_method/graph/mod.rs:480-538 | the inner loop raises exactly the factors of later candidates that pass the skip and label tests, in place |
| Adjacency.CommitWritesMerge | pgvectorscale/src/access_method/graph/mod.rs:277-320 | in every interleaving a successful compare-and-replace writes the merge of the list on the page just before it with the writer's original additions, and changes nothing else in the index |
| Adjacency.NoLostUpdate | pgvectorscale/src/access_method/graph/mod.rs:261-320 | in every run a list holds only pointers that commits to its node added, never the node itself, and all of them if no commit to it pruned |
| Adjacency.LossesArePruned | pgvectorscale/src/access_method/graph/mod.rs:261-320 | if a list lacks what a commit added to it, also when it had been added and dropped before, then that commit or a later one pruned, had it before it and dropped it |
| Adjacency.ContributedIsAdded | pgvectorscale/src/access_method/graph/mod.rs:264-320 | the additions counted for a node are exactly those of the commits to it |
| Adjacency.LossesHaveReasons | pgvectorscale/src/access_method/graph/mod.rs:299-312 | the list after such a commit is at the degree bound or holds a neighbour that rules the dropped one out |
| Adjacency.LossesHaveMetricReasons | pgvectorscale/src/access_method/graph/mod.rs:299-312 | the same in terms of vectors and labels: the list holds a node no farther than the dropped one, to which that is more than the last alpha times closer, and which has each label they share |
| Adjacency.CommitsCoverLabels | pgvectorscale/src/access_method/graph/mod.rs:506-515 | in every run each commit below the degree bound keeps the labels of its node that the list or the additions carried |
| Adjacency.SmallListsKeepAll | pgvectorscale/src/access_method/graph/mod.rs:298-312 | as long as all that was ever added to a node fits the degree bound, and no eviction merged into it, its list holds all of it |
| Adjacency.JobIsBegun | pgvectorscale/src/access_method/graph/mod.rs:261-276 | node, mode and additions stay those the writer began with through all retries |
| Adjacency.VacuumDeletesExactly | pgvectorscale/src/access_method/vacuum.rs:106-143 | in every run vacuum tombstones exactly the dead nodes of its page, and nothing else changes a heap pointer |
| Adjacency.AppendWritesNode | pgvectorscale/src/access_method/sbq/storage.rs:265-283 | an append writes one new node with its vector, labels and heap pointer and no neighbours, and changes no other |
| Adjacency.RetriesArePaidFor | pgvectorscale/src/access_method/graph/mod.rs:314-319 | a writer's retries never exceed the list-changing commits of others to its node since it began |
| Adjacency.EditingDecides | pgvectorscale/src/access_method/sbq/storage.rs:442-458 | under the page lock a writer either finds its snapshot stale or can replace the list: the length assertion never fails |
| Adjacency.RunKeepsInv | pgvectorscale/src/access_method/graph/mod.rs:298-312 | in every state of every run stored lists fit their slots, repeat nothing, have no self-loop and name written nodes; vectors and labels are those written; locks are exclusive |
| Adjacency.CommitPages | pgvectorscale/src/util/page.rs:172-233 | writing back a whole page copy changes the list of one node only, though other nodes share the page |
| Adjacency.RunEvolves | CONCURRENCY.md:19-21 | over any part of a run written nodes stay, vectors and labels never change, and heap pointers change only to tombstones |
| Adjacency.OnlyCommitsChangeLists | pgvectorscale/src/access_method/vacuum.rs:106-143 | vacuum, appends, aborts and failed attempts leave every neighbour list alone |
| Merging.MergeNeighborsOnDisk | pgvectorscale/src/access_method/graph/mod.rs:264-321 | the retry loop under arbitrary interference ends with the merge of the list found at the last comparison and the unchanged additions, after at most one retry for each interfering commit |
| Merging.ComputeMerge | pgvectorscale/src/access_method/graph/mod.rs:277-312 | the unlocked part of an attempt computes the merge function, within the degree bound and free of sentinels |
| Merging.MergeProperties | pgvectorscale/src/access_method/graph/mod.rs:286-312 | every merge fits the node, repeats nothing, excludes the node, invents nothing, and without pruning loses nothing; it prunes if and only if it is told to always, or the distinct candidates exceed num_neighbors |
| Merging.MergeKeepsOrder | pgvectorscale/src/access_method/graph/mod.rs:286-299 | without pruning an insertion keeps the page's list as it is and appends, and a build puts its own list first |
| Merging.MergeCoversLabels | pgvectorscale/src/access_method/graph/mod.rs:299-312 | below the degree bound a merge keeps each label of the node that some candidate carries |
| Merging.DropHasReason | pgvectorscale/src/access_method/graph/mod.rs:299-312 | a merge drops a pointer only by pruning, and below the degree bound keeps one that rules it out |
| Merging.RetainProperties | pgvectorscale/src/access_method/graph/mod.rs:298-299 | retaining unseen pointers keeps each pointer once, except those already seen, and only given records |
| Nodes.AdjacencyRoundTrip | pgvectorscale/src/access_method/plain/node.rs:73-106 | a written list reads back up to the sentinel if and only if it names no invalid block, whatever the slots held |
| Nodes.Node.SetNeighbors | pgvectorscale/src/access_method/sbq/node.rs:380-422 | writing the slots in place makes the list read exactly as given |
| Nodes.Node.TrySetNeighbors | pgvectorscale/src/access_method/plain/storage.rs:291-316 | succeeds exactly when the ordered list is the expected one; a mismatch changes nothing; an equal replacement is not written |
| Nodes.Node.Delete | pgvectorscale/src/access_method/plain/node.rs:128-133 | the tombstone replaces the heap pointer only |
| Search.ScanWhileChanging | pgvectorscale/src/access_method/scan.rs:210-242 | a scan terminates while the graph changes: no node twice, each result live when read and reachable by links that occurred, every node reachable by lasting links and not deleted in the end is returned, and no result is farther than a later one that was known by then |
| Search.ScanAll | pgvectorscale/src/access_method/scan.rs:210-242 | for every graph that stays as it is, every distance and list size from 1, scanning until nothing is left returns each live node reachable under the filter exactly once, in greedy order, and nothing else |
| Search.ListSearchResult.Next | pgvectorscale/src/access_method/scan.rs:218-241 | the next item is live when read, not returned before, and at the least distance of everything discovered and not yet returned, after a search settled for the list size; everything skipped is a tombstone |
| Search.ListSearchResult.GreedySearchIterate | pgvectorscale/src/access_method/graph/mod.rs:412-440 | terminates with all visited nodes expanded and no candidate left, or more than the limit visited and no candidate closer than the visited node at the limit; visits nothing if that holds already |
| Search.ListSearchResult.VisitClosest | pgvectorscale/src/access_method/graph/mod.rs:153-170 | moves a least candidate to its place in the sorted visited list, exactly unless the frontier is settled already |
| Search.ListSearchResult.VisitLsn | pgvectorscale/src/access_method/sbq/storage.rs:152-201 | after expansion every neighbour on the page is discovered or fails the label filter, and every candidate is reachable |
| Search.ListSearchResult.Consume | pgvectorscale/src/access_method/graph/mod.rs:174-184 | removes the first visited node, which stays inserted and so is never discovered again |
| Search.ListSearchResult.InsertStartNodes | pgvectorscale/src/access_method/graph/mod.rs:116-121 | each start node enters the heap once, without a label test |
| Search.ListSearchResult.PrepareInsert | pgvectorscale/src/access_method/graph/mod.rs:126-128 | tells whether the pointer is new and records it |
| Search.ConsumedIsClosest | pgvectorscale/src/access_method/graph/mod.rs:158-164 | the first visited node of a settled frontier has the least distance of all discovered and unreturned nodes |
| Search.CloserMeans | pgvectorscale/src/access_method/graph/neighbor_with_distance.rs:74-83 | the order of the search is by distance to the query, ties either way |
| Search.GreedySearchForBuild | pgvectorscale/src/access_method/graph/mod.rs:340-382 | while the graph may change: returns all nodes reachable by lasting links, or more than the limit such that every lasting link leaving the result ends no closer than its limit-th closest |
| Search.FilteredSearchIsSound | pgvectorscale/src/access_method/sbq/storage.rs:168-176 | if every start overlaps the query labels, so does everything reachable under the filter |
| StoredGraph.StoredGraphIsSearchable | pgvectorscale/src/access_method/sbq/storage.rs:147-176 | in every state of every run all links lead to stored nodes and labelled indexes have only labelled nodes, as the search assumes |
| StoredGraph.EdgesAreLinks | pgvectorscale/src/access_method/sbq/storage.rs:147-176 | the edges a search follows are exactly the links stored in that state, to nodes whose labels overlap the filter |
| StoredGraph.ScanState | pgvectorscale/src/access_method/scan.rs:210-242 | scanning the index in any state of any run is exhaustive, free of duplicates and skips exactly the tombstones |
| StoredGraph.ScanAndResort | pgvectorscale/src/access_method/scan.rs:210-305 | scan and rescoring together: the results, with their exact distances, are a reordering of what the scan finds and can be rescored, every one a minimum of its window of the scan's greedy order; each live reachable node with an exact distance comes once |
| LiveScan.ScanDuringRun | pgvectorscale/src/access_method/scan.rs:210-242 | the scan of an index while any backends write: each page is read in the state the run has reached; results are stored and live when read, pass the filter if the start nodes do, and miss no node that lasting links reach and that is live in the end |
| LiveScan.BoundsAreTight | pgvectorscale/src/access_method/sbq/storage.rs:137-155 | lasting links are exactly those there whenever their source is, occurring ones those there at some time |
| LiveScan.RunIsWorld | CONCURRENCY.md:19-21 | the graphs of the states of a run keep nodes, labels and tombstones, as a scan across them needs |
| Rescore.DrainWithResort | pgvectorscale/src/access_method/scan.rs:244-305 | the output is a permutation of the rescored stream, its k-th item is a minimum of the first R+k rescored items less those returned, and it is sorted exactly if the stream is nearly sorted, in particular when at most R items are rescored |
| Rescore.ResortIterator.NextWithResort | pgvectorscale/src/access_method/scan.rs:244-305 | fills the window, skipping results without a heap tuple, and pops an exact minimum; passes the stream through when the window is empty |
| Rescore.SmallStreamsAreSorted | pgvectorscale/src/access_method/scan.rs:97-117 | a stream no longer than the window comes out fully sorted |
| Rescore.SortedExactlyWhen | pgvectorscale/src/access_method/scan.rs:255-304 | how much disorder the window repairs: the results come out fully sorted if and only if fewer than R of the items before each item of the rescored stream are farther than it |
| Rescore.BuriedItemIsLate | pgvectorscale/src/access_method/scan.rs:255-304 | for every window size, a stream with a close item behind that many farther ones does not come out sorted |
| EntryPoints.EntryPointsOnlyGrow | pgvectorscale/src/access_method/graph/mod.rs:553-597 | over all interleavings with stale local metadata the persisted default root stays once set and no label root is lost or rebound |
| EntryPoints.RootsCoverAfterReturn | pgvectorscale/src/access_method/graph/mod.rs:553-573 | once the update has returned, also by the lock-free path, every label of the node has a persisted root, then and ever after |
| EntryPoints.RacingInsertsAgree | pgvectorscale/src/access_method/graph/mod.rs:575-586 | backends that returned agree on one default root, including those that raced into an empty index |
| EntryPoints.FilteredScansAreSound | pgvectorscale/src/access_method/graph/mod.rs:397-408 | whatever a filtered search reaches from the roots of its labels overlaps the filter, also when the roots were fetched at an earlier moment of the run |
| IndexRun.ScanIndex | pgvectorscale/src/access_method/graph/mod.rs:386-410 | a scan of an index in use, from entry points fetched at one moment and over pages read at later ones, while others insert, merge, vacuum and publish: it starts exactly at the default root, or at the roots of all queried labels, and misses none of them, nor any node that lasting links reach from them, that is live in the end; with a label filter every result passes it |
| IndexRun.RootsAreStored | pgvectorscale/src/access_method/graph/mod.rs:397-401 | the roots a query starts at, fetched at any moment of a run, are stored at every later one and carry a queried label |
| EntryPoints.ChooseStarts | pgvectorscale/src/access_method/graph/mod.rs:392-397 | a search starts at the default root without labels, at the roots of all its labels that have one otherwise, and nowhere in an empty index |
| EntryPoints.RootsForCarry | pgvectorscale/src/access_method/graph/start_nodes.rs:39-48 | each start node of a filtered search carries one of the queried labels |
| EntryPoints.MergeRoots | pgvectorscale/src/access_method/graph/mod.rs:568-596 | the locked part stores exactly when a label or the default is missing, and then covers the labels without changing older roots |
| EntryPoints.PublishedGrows | pgvectorscale/src/access_method/graph/mod.rs:585-592 | new roots extend the old ones, and each new binding is the inserted node under one of its own labels |
| EntryPoints.StartNodes.Upsert | pgvectorscale/src/access_method/graph/start_nodes.rs:31-33 | binds one label and returns what it was bound to |
| Chain.ChainTapeWriter.Write | pgvectorscale/src/util/chain.rs:104-150 | the returned pointer reads as exactly the bytes given, in one chunk or many, each chunk between the first and the last filling its page; every state published on the way keeps all that was readable; it fails exactly if the relation cannot grow |
| Chain.WriteAll | pgvectorscale/src/util/chain.rs:104-150 | any sequence of non-empty strings written to a tape reads back in the end, each from its own pointer |
| Chain.ReadsSurvive | pgvectorscale/src/util/chain.rs:104-150 | a readable pointer reads the same after whatever is written later |
| Chain.ReadsDetermined | pgvectorscale/src/util/chain.rs:189-210 | a pointer reads as at most one byte string |
| Chain.EmptyItemReadsNothing | pgvectorscale/src/util/chain.rs:136-149 | an empty string is written as an item that the reader's assertion rejects |
| Chain.ChainTapeWriter.constructor | pgvectorscale/src/util/chain.rs:43-54 | a new tape starts on a fresh page and leaves all others alone |
| Root.ReadAll | pgvectorscale/src/access_method/meta_page.rs:389-399 | collecting the chunks terminates and gives exactly the bytes, since links lead to later blocks |
| Root.ChainItemIterator.Next | pgvectorscale/src/util/chain.rs:189-210 | yields the chunks in order and stops at the invalid block |
| Root.ReplaceRoot | pgvectorscale/src/access_method/meta_page.rs:365-387 | every state published before the commit, also when the replacement is abandoned at any point, reads as the old items; from the commit on as exactly the new ones; it is carried out exactly if it is kept, the items fit and no extension fails |
| Root.ReplaceMany | pgvectorscale/src/util/chain.rs:56-60 | after any number of replacements, done or abandoned, the root reads as the last one done; only kept attempts that fit are done, and all but as many of those as extensions failed |
| Root.PrepareRoot | pgvectorscale/src/util/chain.rs:61-101 | staging publishes only additions elsewhere; it succeeds exactly when the items fit, of which only the last may overflow, no extension fails during the call, and a first write is given the requested block |
| Root.WriteSuffix | pgvectorscale/src/util/chain.rs:86-89 | the overflow is complete and readable before the root refers to it |
| Pages.AlignedSpaceIsExact | pgvectorscale/src/util/page.rs:143-204 | a page takes an item if and only if it is no larger than the aligned free space, and then both size assertions hold |
| Pages.Relation.Extend | pgvectorscale/src/util/page.rs:110-125 | allocation gives an unused later block, or fails |
| Pages.Relation.Commit | pgvectorscale/src/util/page.rs:225-245 | publishing replaces one page in one step |
| Quantizer.QuantizedDistance | pgvectorscale/src/access_method/distance/mod.rs:266-323 | for all dimensions and bit widths the xor-popcount of two codes is the sum over dimensions of the absolute difference of their levels, fields straddling words included |
| Quantizer.SbqQuantizer.Quantize | pgvectorscale/src/access_method/sbq/quantize.rs:52-102 | what each bit says: without means the sign of the value, with one bit whether it is above the mean, with several whether it reaches the k-th cut point, with the cases without deviation or samples; the words hold these codes and zeros after them, and every word index is in bounds |
| Quantizer.QuantizedDistanceIsPseudometric | pgvectorscale/src/access_method/distance/mod.rs:266-323 | symmetric, triangle inequality, zero exactly for equal codes |
| Quantizer.LevelDistanceZero | pgvectorscale/src/access_method/distance/mod.rs:266-323 | the distance of level vectors vanishes exactly when all levels agree |
| Quantizer.LevelCountsCutPoints | pgvectorscale/src/access_method/sbq/quantize.rs:64-81 | a level is at least k exactly when the value reaches the k-th cut point between mean minus and mean plus two deviations |
| Quantizer.LevelIsMonotone | pgvectorscale/src/access_method/sbq/quantize.rs:64-78 | larger values never get smaller levels, also without deviation |
| Codes.EveryLevelIsTaken | pgvectorscale/src/access_method/sbq/quantize.rs:64-81 | with a positive deviation every level from zero to the number of bits is the level of some value |
| Codes.IndicatorCodeDistance | pgvectorscale/src/access_method/distance/mod.rs:266-323 | codes with level one in two sets of dimensions are as far apart as the sets differ, for every width |
| Quantizer.QuantizedSize | pgvectorscale/src/access_method/sbq/quantize.rs:37-45 | the number of words is the least that holds all bits |
| Bits.SetBitOf | pgvectorscale/src/access_method/sbq/quantize.rs:83-86 | or-ing a shifted one into word p/64 sets bit p of the vector and no other |
| Bits.XorSumIsHamming | pgvectorscale/src/access_method/distance/mod.rs:255-263 | the sum of popcounts of xored words is the number of differing bits |
| Training.Train | pgvectorscale/src/access_method/sbq/quantize.rs:104-148 | after any sequence of samples each mean is the arithmetic mean and each m2 the sum of squared deviations from it |
| Training.Trainer.AddSample | pgvectorscale/src/access_method/sbq/quantize.rs:115-148 | one sample keeps the statistics of every dimension exact |
| Training.UpdateStatistics | pgvectorscale/src/access_method/sbq/quantize.rs:120-146 | the element-wise updates turn exact statistics into exact statistics of one sample more |
| Training.DeviationStep | pgvectorscale/src/access_method/sbq/quantize.rs:122-140 | the product of the deviations from the old and the new mean is what the sum of squared deviations grows by |
| Training.MeanStep | pgvectorscale/src/access_method/sbq/quantize.rs:129-132 | the running update gives the mean of one sample more |
| Training.Trainer.constructor | pgvectorscale/src/access_method/sbq/quantize.rs:104-113 | training starts from the exact statistics of no samples |
| BuilderCache.EveryEdgeIsAccountedFor | pgvectorscale/src/access_method/graph/neighbor_store.rs:113-180 | in every build with any number of workers, after each addition of an edge, first or repeated, it is cached, in flight or on disk, unless that step or a later one pruned it away |
| BuilderCache.RejectedByStep | pgvectorscale/src/access_method/graph/mod.rs:236-255 | a step records an edge as rejected only if it prunes the list of its source with the edge among its candidates and leaves it out, and an addition forgets the record |
| BuilderCache.DrainedBuild | pgvectorscale/src/access_method/build.rs:935-954 | after the final drain the disk holds added edges only, and every addition that no pruning has undone since |
| Refinement.BuildRefines | CONCURRENCY.md:33-34 | every interleaving of workers on shared pages, with snapshots, locks, copies and retries, is seen as a run of the cache machine that makes the same additions, merges and cache operations in the same order, with the same lists and caches after every event |
| Refinement.StepRefines | pgvectorscale/src/access_method/graph/neighbor_store.rs:146-180 | each step on pages or caches is one step of the cache machine or invisible to it |
| Refinement.DrainedPages | pgvectorscale/src/access_method/build.rs:929-954 | once all caches are drained the pages hold every addition that an event of the build made, unless that event or a later one pruned the edge away |
| Refinement.PagesHoldAdditions | pgvectorscale/src/access_method/graph/neighbor_store.rs:131-180 | at every moment of a build the pages hold only edges that some event of it added |
| BuilderCache.ListsStayShort | pgvectorscale/src/access_method/meta_page.rs:253-255 | cached lists stay below 1.3 times num_neighbors plus one, stored lists never exceed num_neighbors, repeat nothing and have no self-loop; the cache never exceeds its capacity |
| BuilderCache.GrownProperties | pgvectorscale/src/access_method/graph/mod.rs:228-256 | growing a cached list stays within the slack, invents nothing, and without pruning loses nothing; it prunes exactly when the distinct candidates exceed 1.3 times num_neighbors rounded up |
| BuilderCache.GrownKeepsOrder | pgvectorscale/src/access_method/graph/mod.rs:228-256 | without pruning the cached list stays as it is and additions come behind |
| BuilderCache.CommitKeepsEdge | pgvectorscale/src/access_method/graph/neighbor_store.rs:146-157 | each edge of a merged entry and of the disk is on disk afterwards or rejected |
| BuilderCache.PushAccounts | pgvectorscale/src/util/lru.rs:90-102 | a push keeps every other entry, in the cache or as the one evicted, and drops only the old entry of the same key |
| BuilderCache.PushIsByUse | pgvectorscale/src/util/lru.rs:90-102 | the pushed entry becomes the most recently used, the others keep their order, and exactly a full cache that takes a new key evicts its least recently used entry |
| BuilderCache.EvictionsPrune | pgvectorscale/src/access_method/graph/neighbor_store.rs:146-178 | an evicted entry is merged with pruning, a flushed or drained one without |
| BuilderCache.InstallCachesDisk | pgvectorscale/src/access_method/graph/neighbor_store.rs:119-128 | a miss fills the cache with the stored list |
| Builder.BuilderNeighborCache.SetNeighbors | pgvectorscale/src/access_method/graph/neighbor_store.rs:131-158 | what a push evicts is merged with pruning into its own node, and no other list on disk changes |
| Builder.BuilderNeighborCache.GetNeighbors | pgvectorscale/src/access_method/graph/neighbor_store.rs:113-129 | returns the cached or stored list and leaves it most recently used |
| Builder.BuilderNeighborCache.AddNeighbors | pgvectorscale/src/access_method/graph/mod.rs:212-259 | replaces the cached list by its grown form and keeps the account of edges |
| Builder.BuilderNeighborCache.FlushNeighborCache | pgvectorscale/src/access_method/graph/neighbor_store.rs:160-181 | empties the cache, merges each entry into its node exactly once, and changes no other list |
| Builder.BuilderNeighborCache.MergeBack | pgvectorscale/src/access_method/graph/neighbor_store.rs:146-157 | merges one entry into the stored list of its node |
| Builder.GrowList | pgvectorscale/src/access_method/graph/mod.rs:232-256 | computes the grown list, whose properties GrownProperties states |
| ParallelBuild.GateHolds | pgvectorscale/src/access_method/build.rs:658-691 | in every interleaving at most one worker initializes, and no other passes the gate before its first T nodes, or all its nodes if fewer, are flushed |
| ParallelBuild.FlushesAreRegular | pgvectorscale/src/access_method/build.rs:1159-1167 | between two nodes a worker never has as many as interval nodes whose edges it has not flushed |
| ParallelBuild.WaitersGetThrough | pgvectorscale/src/access_method/build.rs:120-152 | no lost wake-up: after the broadcast at the threshold or the one at the end of the initializing worker, each waiter's next step is possible and brings it closer to passing, and no other worker takes it back |
| ParallelBuild.CountIsComplete | pgvectorscale/src/access_method/build.rs:154-186 | when all workers have finished, the shared counter is the sum of all local counts |
| ParallelBuild.BuildStateParallel.IncrementNtuples | pgvectorscale/src/access_method/build.rs:112-135 | the shared counter moves with this worker's share, and sleepers are woken when it has reached the threshold |
| ParallelBuild.BuildStateParallel.UpdateSharedNtuples | pgvectorscale/src/access_method/build.rs:167-186 | adds exactly what the worker has counted and not yet shared |
| ParallelBuild.BuildStateParallel.IntoBuildState | pgvectorscale/src/access_method/build.rs:137-165 | marks the end and wakes everyone if initializing, completes the shared count and returns the local one |
| Labels.ContainsIntersection | pgvectorscale/src/access_method/labels/mod.rs:84-111 | the three-index walk decides whether the common labels of a and b all lie in self |
| Labels.Overlaps | pgvectorscale/src/access_method/labels/mod.rs:123-142 | the walk decides whether two label sets share a label |
| Labels.FromVec | pgvectorscale/src/access_method/labels/mod.rs:30-47 | sorting and deduplicating keeps exactly the labels given, strictly increasing |
| Labels.StrictlySortedIsCanonical | pgvectorscale/src/access_method/labels/mod.rs:13-37 | equal sets of labels have equal stored vectors |
| Pointers.CmpIsTotalPreorder | pgvectorscale/src/access_method/graph/neighbor_with_distance.rs:74-97 | the comparison is a total preorder and its equality is the separately written PartialEq |
| Pointers.CmpMeans | pgvectorscale/src/access_method/graph/neighbor_with_distance.rs:45-83 | the smaller distance comes first, and at distance zero the smaller tie break, which is zero for the query |
| Pointers.FactorMeans | pgvectorscale/src/access_method/graph/neighbor_with_distance.rs:55-64 | when a quotient of distances, or of tie breaks below EPSILON, is above alpha, without division |
| Pointers.IpDistanceIsMetric | pgvectorscale/src/util/mod.rs:166-171 | the tie break is the distance of the slots on their line of 2048 per page, a metric on page slots, zero only for the same slot |
| Pointers.IpDistanceSeparates | pgvectorscale/src/util/mod.rs:166-171 | two offsets are told apart on all blocks if and only if they are equal or do not differ by a multiple of 2048 |

## Left out

- Floating point: distances, alpha and statistics are reals; rounding is not modelled. f64::MAX as a factor is `Infinite`, and a division of zero by zero, which f64::max ignores, is the factor 0.
- IsDeviation: the square root is not computed; the deviations are given as non-negative numbers whose squares are the variances.
- Level: a quantizer without samples has zero m2, so its variance is not a number and sets no bit; a loaded quantizer with a zero count and other statistics is not modelled.
- Serialization: an archived header is 8 bytes, and metadata is a byte string; rkyv, page types, magic numbers and legacy metadata versions are not part of this model.
- Search: the distance of a node to the query is a fixed function, since vectors never change. A list is read when its node is expanded, as SBQ storage does; plain storage keeps the list it read when it discovered the node. Candidates are a set because pointers enter the heap once, and a pop may return any of several equally close ones. A build's search through the cache reads lists as `Builder.BuilderNeighborCache.GetNeighbors` gives them.
- Search.GreedySearchForBuild: the search of an empty index, which has no start nodes, is the call with no starts.
- Env: vectors and labels are functions of the slot, because records are never reused; `Adjacency.RunKeepsInv` proves that stored records keep them.
- Adjacency.LossesHaveReasons: says nothing at the degree bound, where pruning stops by count.
- Placement of nodes on pages: an append may go to any page with any number of records; page capacity for nodes and the search for a page with room are not modelled.
- EntryPoints: reading and storing the metadata are single steps, as `Root.ReplaceRoot` justifies; the creation of the empty cached list for the first root is not modelled there.
- Refinement: a worker that gives up a merge in hand ends the build, so such builds are not covered; inserts by other backends during a build are not covered either. The drain may take entries in any order, the sorted one included.
- ParallelBuild: T and the flush interval are arbitrary positive constants; a flush is one step; only the order of counting, flushing and waiting is modelled, not what is inserted.
- Chain: between two steps of one writer other backends may extend the relation but do not write its pages.
- Rescore.ResortIterator.NextWithResort: the stream and its exact distances are given; NaN distances are not modelled.
- Insertion as a whole: the composition of search, pruning and back pointers, and its warning about nodes left without incoming edges.
- Not claimed, as the repository does not: recall, connectivity, freedom from starvation.
- Scans of the heap, cost estimation, options, operator classes, statistics counters, SIMD variants of the plain distances.
