# A vector-search system, modelled and proved

The programs find the nearest stored vectors of a query. An HNSW graph index, or an exhaustive scan, picks candidates on
a CPU; a coordinator streams queries from a GPU to any number of FPGAs and collects their answers; hardware stream
transformers reshape the packets on the way; the answers of several FPGAs are merged into one list. This project models
the parts of that system where something can go wrong in more than one place at once, and proves what they promise.

**Selection and exhaustive search** (`Selection`, `BruteForce`). A priority queue is a multiset from which any greatest
element may be popped. The serial scan returns exactly the k least (distance, label) pairs; the OpenMP search returns
the same distances for every order of entering the critical section. The ranges given to the threads cover the data
exactly when the number of threads divides the number of elements. Removing a label keeps the index valid exactly when
the label is known and not in the last slot.

**HNSW** (`VisitedLists`, `Graph`, `LayerSearch`, `Heuristic`, `Connect`, `Descent`, `Insert`, `Update`, `HnswData`,
`KnnSearch`, `Hnsw`, `StrandedInsert`, `Agreement`). Distances are an arbitrary total function into the reals. The graph
invariant - lists within their capacity, distinct, in range, never the element itself, only elements of the level; an
entry point of the greatest level; a one-to-one label dictionary - is kept by every run of inserts, updates, deletions
and searches, and none of the internal consistency errors can be thrown. The pruning heuristic has exactly one possible
result. `AddPoint` also says what happened on the way: what each level's search visited and found, what was offered,
chosen and linked, from where the descent lands. One promise fails: with deletions an insertion can find nobody to link
to and reads the back of an empty vector, the outcome `NoCandidate`. It does so exactly when the index is `Stranded` for
the new vector - the entry point is live, and from the node the descent lands on, a function of the index before the
call, no live node can be reached on the first level the element shares with the graph. `InsertNextToDeleted` is a run
of calls from the empty index that ends there. Search is complete, sound and locally optimal, and agrees with the
exhaustive scan whenever every live element can be reached and fits.

**Shards** (`Shards`). The blocks of the shared result buffer do not overlap, and sorting the answers of all FPGAs and
keeping TOPK gives the TOPK least of the whole database, from the ids and distances each FPGA puts into its answer on.

**AXI streams** (`AxiWords`, `AxiMachines`, `AxiWidth`, `AxiWidthPackets`, `AxiShift`, `AxiRoute`, `AxiRouteRuns`,
`AxiClasses`). Each machine is a class whose call reads and writes streams, proved equal to a step function; everything
else is proved about pipelines of these steps under every schedule of arrivals and calls. Well-formed input has a keep
field contiguous from bit 0, full on words that do not end a packet, and never empty. Widening and narrowing, left and
right shift, splitting and merging undo each other. Two claims have exact conditions: a left shift writes well-formed
words exactly for offsets up to 32, because keep is filled from a 32-bit constant, and a right shift exactly when every
packet is longer than the offset.

**The pipeline** (`Rings`, `RingRace`, `Bytes`, `Framing`, `GpuBatches`, `PipelineModel`, `PipelineLocal`,
`PipelineSafety`, `PipelineProgress`, `PipelineRuns`, `PipelineTheorems`, `PipelineOverflow`). Three coordinator threads
and two threads per FPGA, any number of FPGAs, interleaved arbitrarily over FIFO links whose sends and reads move any
positive number of bytes. Link contents are bytes; the simulators decode what they read. Headers and bodies arrive at
their own boundaries and batches, window slots are conserved, the list IDs the GPU encodes arrive cut to 32 bits, every
run ends with everything answered and every byte of every answer sent to the GPU, and a run can be completed exactly
when both windows are at least 1 - the comment that a batch window of 0 means low latency is not what the code does. The
ring buffer loses nothing exactly when the window (or the whole run) fits; if each load and store of its fields is a
step of its own, exactly when one slot fewer than that is used.

**The counter protocol** (`CounterProtocol`). The older program shares plain counters between N send, N receive, an
index and a gather thread. With all counters starting at -1, received <= sent <= indexed <= received + window, stamps
are real and every run ends. The initialiser `{ -1 }` sets only the first element; as written, the stamps are right in
every run exactly for at most one FPGA, and `StampedTooEarly` is a run that shows it.

`dafny verify dfyconfig.toml` checks everything.

## Model

| member | source | states |
|---|---|---|
| `Selection.SelectsPush` | CPU_programs/hnswlib_omp/bruteforce.h:97-101 | while the queue is not full, pushing an entry keeps it a selection of the k least of all that was seen |
| `Selection.SelectsReplace` | CPU_programs/hnswlib_omp/bruteforce.h:105-110 | a new entry no worse than the top replaces it: still the k least of what was seen |
| `Selection.SelectsSkip` | CPU_programs/hnswlib_omp/bruteforce.h:105 | an entry no better than the top of a full queue can be passed over without losing the selection |
| `Selection.SelectsPop` | CPU_programs/hnswlib_omp/hnswalg.h:1159-1161 | dropping the farthest entry turns the k+1 least into the k least |
| `Selection.SelectionIsSufficient` | CPU_programs/hnswlib_omp/bruteforce.h:174-190 | the k least of a part stand for the whole part in any selection of k |
| `Selection.SelectFromSufficient` | CPU_programs/hnswlib_omp/bruteforce.h:174-190 | the k least of the union of partial answers are the k least of the union of the parts |
| `Selection.LexUnique` | CPU_programs/hnswlib_omp/bruteforce.h:93-115 | the k lexicographically least pairs are unique, so the answer does not depend on the order of storage |
| `Selection.DistsUnique` | CPU_programs/hnswlib_omp/bruteforce.h:132-194 | two selections of k by distance have the same multiset of distances, however ties were broken |
| `Selection.LexRefinesDist` | CPU_programs/hnswlib_omp/bruteforce.h:93-115 | a selection by (distance, label) is also one by distance |
| `BruteForce.ScanIsScores` | CPU_programs/hnswlib_omp/bruteforce.h:97-113 | scanning the slots in storage order meets exactly one (distance, label) pair per stored label |
| `BruteForce.NearestContents` | CPU_programs/hnswlib_omp/bruteforce.h:93-115 | pair by pair: as many as asked for, every stored label at most once and at its own distance from the query, and nothing left out that is closer or, equally close, has a smaller label |
| `BruteForce.PartitionIffDivides` | CPU_programs/hnswlib_omp/bruteforce.h:145-150 | the ranges of the threads cover the data once each exactly when the thread count divides the number of elements |
| `BruteForce.LastThreadOverruns` | CPU_programs/hnswlib_omp/bruteforce.h:147-150 | otherwise the range of the last thread ends behind the last element |
| `BruteForce.GatherEverything` | CPU_programs/hnswlib_omp/bruteforce.h:145-171 | when the thread count divides n, the parts of all threads together are the whole data |
| `BruteForce.BruteforceSearch.AddPoint` | CPU_programs/hnswlib_omp/bruteforce.h:48-75 | a known label is overwritten in place, a new one appended, a full index refuses and does not change; the slots and the dictionary stay a bijection |
| `BruteForce.BruteforceSearch.RemovePoint` | CPU_programs/hnswlib_omp/bruteforce.h:77-88 | the index stays valid, and loses exactly this label, exactly when the label is known and not in the last slot; otherwise the dictionary is broken |
| `BruteForce.BruteforceSearch.ScanRange` | CPU_programs/hnswlib_omp/bruteforce.h:152-171 | one thread's queue ends as a selection of the k least of its range |
| `BruteForce.BruteforceSearch.SearchKnn` | CPU_programs/hnswlib_omp/bruteforce.h:93-115 | returns exactly the k lexicographically least (distance, label) pairs of everything stored |
| `BruteForce.BruteforceSearch.MergeCritical` | CPU_programs/hnswlib_omp/bruteforce.h:174-191 | one critical section keeps the shared queue a selection of the k least distances of all merged parts |
| `BruteForce.BruteforceSearch.RunThreads` | CPU_programs/hnswlib_omp/bruteforce.h:144-192 | for every order of entering the critical section the shared queue selects the k least distances of all parts |
| `BruteForce.BruteforceSearch.SearchKnnParallel` | CPU_programs/hnswlib_omp/bruteforce.h:132-194 | the answer is a selection of the k least distances of the whole index, when the thread count divides n |
| `BruteForce.ParallelRefinesSerial` | CPU_programs/hnswlib_omp/bruteforce.h:93-194 | the parallel and the serial search return the same multiset of distances |
| `VisitedLists.VisitedList.Reset` | CPU_programs/hnswlib_omp/visited_list_pool.h:22-28 | the 16-bit tag advances by one and skips 0; nothing is marked afterwards, also at the wrap and on uninitialised memory |
| `VisitedLists.VisitedList.Mark` | CPU_programs/hnswlib_omp/hnswalg.h:210-211 | marking adds exactly one element to the set of marked elements |
| `VisitedLists.VisitedList.IsMarked` | CPU_programs/hnswlib_omp/hnswalg.h:210 | the comparison with the tag decides membership in the set of marked elements |
| `VisitedLists.VisitedListPool.GetFreeVisitedList` | CPU_programs/hnswlib_omp/visited_list_pool.h:50-63 | hands out an empty list that is not already handed out |
| `VisitedLists.VisitedListPool.ReleaseVisitedList` | CPU_programs/hnswlib_omp/visited_list_pool.h:65-68 | only a list that is handed out comes back, and it is then free again |
| `LayerSearch.LocallyOptimal` | CPU_programs/hnswlib_omp/hnswalg.h:263-322 | every live neighbour of a returned node is returned itself or is no closer than the worst of a full result |
| `LayerSearch.Expand` | CPU_programs/hnswlib_omp/hnswalg.h:276-322 | expanding a node keeps the invariant of the search loop |
| `LayerSearch.BreakMeansFull` | CPU_programs/hnswlib_omp/hnswalg.h:263-268 | without deletions the early break can only fire when the result already holds ef nodes |
| `LayerSearch.Finish` | CPU_programs/hnswlib_omp/hnswalg.h:263-326 | when the loop ends, by the break or by an empty queue, the result is complete, sound and the ef closest of the visited |
| `LayerSearch.VisitNeighbors` | CPU_programs/hnswlib_omp/hnswalg.h:287-322 | scanning a list marks all its nodes and keeps the invariant of the search loop |
| `LayerSearch.SearchWith` | CPU_programs/hnswlib_omp/hnswalg.h:242-326 | the loop with the two queues and the visited array: the result is what SearchLevel promises |
| `LayerSearch.SearchLevel` | CPU_programs/hnswlib_omp/hnswalg.h:156-326 | for ef >= 1 the result is distinct, live, holds the ef least distances among visited live nodes, and has exactly min(ef, live nodes reachable from the entry) elements; fewer than ef only if all reachable nodes were visited; every returned node was expanded; for ef = 0 it holds only live reachable nodes |
| `Heuristic.GetNeighborsByHeuristic2` | CPU_programs/hnswlib_omp/hnswalg.h:328-368 | a short input is left alone; of a longer one at most M remain, closest first and of equally close ones the greater id first, with a nearest candidate, each at least as far from every earlier pick as from the query, every skipped one with an earlier pick closer to it than the query unless M were picked |
| `Heuristic.HeuristicUnique` | CPU_programs/hnswlib_omp/hnswalg.h:328-368 | this determines the result: the candidates and the bound leave only one possible choice, ties included |
| `Heuristic.HeuristicKeeps` | CPU_programs/hnswlib_omp/hnswalg.h:328-368 | what is kept are entries of distinct candidates, never more than M, and a nearest one among them |
| `Connect.ConnectBack` | CPU_programs/hnswlib_omp/hnswalg.h:438-499 | the list of a chosen neighbour gains the new element while it is shorter than M above the base level or than 2M on it, is left alone if an update finds it there, and is otherwise what the heuristic with that bound keeps of the old list and the new element; no other list changes |
| `Connect.Reselect` | CPU_programs/hnswlib_omp/hnswalg.h:467-487 | a full list becomes what the heuristic keeps of it and the new element, at most M above the base level and 2M on it |
| `Connect.LinkBack` | CPU_programs/hnswlib_omp/hnswalg.h:436-500 | all chosen neighbours are linked back, one after the other, and no other list changes |
| `Connect.MutuallyConnectNewElement` | CPU_programs/hnswlib_omp/hnswalg.h:387-504 | the element's list becomes the heuristic's choice, the chosen link back where they can, all else stays; no consistency error can be thrown; the next entry point is a nearest candidate |
| `Descent.ScanList` | CPU_programs/hnswlib_omp/hnswalg.h:1124-1146 | one pass over a list, which continues over the old node's list after a move, ends closer or leaves a local minimum |
| `Descent.DescendLevel` | CPU_programs/hnswlib_omp/hnswalg.h:1121-1146 | ends at a node of the level none of whose neighbours is closer; the distance kept is the node's own; it terminates |
| `Descent.Descend` | CPU_programs/hnswlib_omp/hnswalg.h:1117-1147 | through all upper levels: each level ends at a local minimum reachable from where it began |
| `Descent.GreedyAppend` | CPU_programs/hnswlib_omp/hnswalg.h:1061-1081 | an element nobody links to changes nothing about where a level of the descent ends |
| `Descent.LandingAppend` | CPU_programs/hnswlib_omp/hnswalg.h:1057-1081 | nor about where the whole descent lands, so that can be read off the graph before the call |
| `Insert.NotReached` | CPU_programs/hnswlib_omp/hnswalg.h:1086-1095 | a search never meets an element nobody links to |
| `Graph.ReachAppend` | CPU_programs/hnswlib_omp/hnswalg.h:1044-1049 | a new element nobody links to does not change what can be reached |
| `Insert.LinkedOnlyGains` | CPU_programs/hnswlib_omp/hnswalg.h:435-500 | connecting a new element on one level only ever adds that element to other lists, and leaves all other levels alone |
| `Insert.AddDeletedEntry` | CPU_programs/hnswlib_omp/hnswalg.h:1090-1094 | a deleted entry point is offered as a candidate; if that is one too many, a farthest one goes |
| `Insert.ConnectLevel` | CPU_programs/hnswlib_omp/hnswalg.h:1086-1096 | one level: what the search finds is offered, pruned and linked in both directions; it fails exactly when no live node can be reached and the entry point is not deleted, and otherwise hands on a live node unless the entry point is deleted |
| `Insert.ConnectLevels` | CPU_programs/hnswlib_omp/hnswalg.h:1083-1096 | all levels down to 0, each starting where the one above ended, with 1 to M neighbours on each; only the first level can fail, exactly when nobody can be offered there, and then no link has changed |
| `Update.KeepNearest` | CPU_programs/hnswlib_omp/hnswalg.h:877-894 | the candidates kept for a neighbour are the least distances of the candidate set without the neighbour itself |
| `Update.KeepsEnough` | CPU_programs/hnswlib_omp/hnswalg.h:878-894 | asking for the smaller of efConstruction and the number of candidates gives the efConstruction nearest |
| `Update.RechooseNeighbors` | CPU_programs/hnswlib_omp/hnswalg.h:872-909 | a neighbour's list becomes what the heuristic keeps of the efConstruction nearest candidates; no other list changes |
| `Update.CollectCandidates` | CPU_programs/hnswlib_omp/hnswalg.h:851-870 | candidates are the element, its neighbours, and the neighbours of those that were drawn |
| `Update.UpdateLayer` | CPU_programs/hnswlib_omp/hnswalg.h:850-911 | on one layer exactly the drawn neighbours re-choose their lists, each from its efConstruction nearest candidates, and the graph stays well formed |
| `Update.NextLayer` | CPU_programs/hnswlib_omp/hnswalg.h:850-911 | the layers of an element are updated one after the other |
| `Update.FilterOut` | CPU_programs/hnswlib_omp/hnswalg.h:954-960 | the element itself is filtered from what the search found, everything else stays |
| `Update.WithDeletedEntry` | CPU_programs/hnswlib_omp/hnswalg.h:954-971 | a deleted entry point is offered only if somebody else was found |
| `Update.RepairLevel` | CPU_programs/hnswlib_omp/hnswalg.h:950-975 | one level: search, filter, offer, prune and link in both directions, or nothing at all if only the element itself was found |
| `Update.RepairLevels` | CPU_programs/hnswlib_omp/hnswalg.h:950-975 | all levels down to 0, each starting where the one above ended |
| `Update.RepairConnections` | CPU_programs/hnswlib_omp/hnswalg.h:916-976 | descent and repair together; the level error cannot be thrown; the graph stays well formed and lists above the element's level stay as they were |
| `Hnsw.HierarchicalNSW.constructor` | CPU_programs/hnswlib_omp/hnswalg.h:27-70 | an empty index satisfies the graph invariant |
| `Hnsw.HierarchicalNSW.ListSizes` | CPU_programs/hnswlib_omp/hnswalg.h:36-37 | in every valid index a list above the base level has M slots and at most M entries, one on the base level 2M slots and at most 2M entries |
| `Hnsw.HierarchicalNSW.AddPoint` | CPU_programs/hnswlib_omp/hnswalg.h:988-1112 | keeps the graph invariant over every run of inserts, updates and deletions; which outcome exactly when, by conditions on the index before the call; the new contents; what an insertion searched, chose and linked on every level; the entry point has the greatest level |
| `Hnsw.HierarchicalNSW.InsertNew` | CPU_programs/hnswlib_omp/hnswalg.h:1010-1111 | for a new label: back() of an empty vector is read exactly when no live node can be reached, on the first level shared with the graph, from where the descent lands and the entry point is live; then only the blank lists of the element have been added |
| `Hnsw.HierarchicalNSW.AppendElement` | CPU_programs/hnswlib_omp/hnswalg.h:1014-1049 | the next id, its level, label and vector, blank lists that nobody links to; contents gain exactly the new label |
| `Hnsw.HierarchicalNSW.UpdatePoint` | CPU_programs/hnswlib_omp/hnswalg.h:838-914 | replaces one vector, re-chooses lists on every layer of the element and repairs; a single element is left alone |
| `Hnsw.HierarchicalNSW.ConnectNew` | CPU_programs/hnswlib_omp/hnswalg.h:1057-1096 | the descent never lands on the new element; every shared level is connected, or nobody can be offered and the graph is as it was |
| `Hnsw.HierarchicalNSW.MarkDelete` | CPU_programs/hnswlib_omp/hnswalg.h:755-786 | refuses unknown and already marked labels, otherwise exactly one label leaves the contents |
| `Hnsw.HierarchicalNSW.UnmarkDelete` | CPU_programs/hnswlib_omp/hnswalg.h:788-820 | refuses unknown and unmarked labels, otherwise the label is back with its vector |
| `Hnsw.HierarchicalNSW.SearchKnn` | CPU_programs/hnswlib_omp/hnswalg.h:1115-1168 | descent, level-0 search with max(ef, k), the k nearest found, by label; exact when every live element can be reached from the landing point and fits; nothing when nothing is asked for |
| `Hnsw.HierarchicalNSW.ResultPairs` | CPU_programs/hnswlib_omp/hnswalg.h:1159-1167 | every returned pair is a stored label, once, at the distance of its own vector from the query, and there are as many as asked for if so many were found |
| `Hnsw.HierarchicalNSW.ExactWhenComplete` | CPU_programs/hnswlib_omp/hnswalg.h:1149-1168 | when the search can reach all live elements and they fit, its k nearest are the k least of everything stored |
| `Hnsw.DescentAvoids` | CPU_programs/hnswlib_omp/hnswalg.h:1061-1081 | the descent towards a new element's level never lands on that element |
| `Hnsw.HierarchicalNSW.BeforeAppending` | CPU_programs/hnswlib_omp/hnswalg.h:1020-1083 | whether a new element finds anybody to link to is decided by the index before the call |
| `StrandedInsert.KeepsFirst` | CPU_programs/hnswlib_omp/hnswalg.h:328-368 | of two candidates the heuristic keeps one, if the other is closer to it than to the query |
| `StrandedInsert.LinksToStart` | CPU_programs/hnswlib_omp/hnswalg.h:1086-1095 | a search that starts closest to the new element links it to where it started, and to nothing else |
| `StrandedInsert.LastLeaf` | CPU_programs/hnswlib_omp/hnswalg.h:463-490 | the fifth neighbour overfills a list of four, and the heuristic drops the farthest |
| `StrandedInsert.NobodyLeft` | CPU_programs/hnswlib_omp/hnswalg.h:400-404 | in the graph the run has built, with all but element 0 deleted, an insertion has nobody to offer |
| `StrandedInsert.InsertNextToDeleted` | CPU_programs/hnswlib_omp/hnswalg.h:400-404 | a run of insertions and deletions from an empty index, with M = 2, ends in an insertion that finds no candidate |
| `HnswData.StoredAppend` | CPU_programs/hnswlib_omp/hnswalg.h:1021-1042 | appending an element adds exactly one label to the contents |
| `HnswData.StoredOverwrite` | CPU_programs/hnswlib_omp/hnswalg.h:1002-1005 | overwriting a vector and removing its mark sets exactly one label of the contents |
| `KnnSearch.PopTo` | CPU_programs/hnswlib_omp/hnswalg.h:1159-1161 | popping the farthest until k are left keeps the k least of the queue, and so the k nearest nodes |
| `KnnSearch.Relabel` | CPU_programs/hnswlib_omp/hnswalg.h:1162-1167 | internal ids become labels, distances stay |
| `Agreement.SearchBoth` | CPU_programs/hnswlib_omp/hnswalg.h:1115-1168 | the index and the exhaustive scan return the same multiset of k distances when every live element can be reached and fits |
| `Shards.AnswersSuffice` | CPU_programs_old/host_multi_FPGA.cpp:463-489 | if each FPGA returns the TOPK least pairs of its shard, the answers together stand for the whole database |
| `Shards.ShardedTopKIsExact` | CPU_programs_old/host_multi_FPGA.cpp:489-493 | the TOPK least of all answers are exactly the TOPK least of the whole database |
| `Shards.SortPairs` | CPU_programs_old/host_multi_FPGA.cpp:489 | sorts by distance, then id, and keeps every pair |
| `Shards.PrefixSelects` | CPU_programs_old/host_multi_FPGA.cpp:489-493 | the first TOPK of the sorted pairs are the TOPK least |
| `Shards.FieldsFit` | CPU_programs_old/host_multi_FPGA.cpp:475-482 | ids and distances of an answer lie inside the block of that answer |
| `Shards.ReadsPairs` | CPU_programs_old/host_multi_FPGA.cpp:475-486 | from an answer made of 64 header bytes, 8-byte ids and 4-byte distances, each area padded to whole words, exactly the pairs (k-th distance, k-th id) are read |
| `Shards.AsAnswer` | CPU_programs_old/host_multi_FPGA.cpp:475-486 | every block of the right length is such an answer |
| `Shards.ResultBuffer.BlocksDisjoint` | CPU_programs_old/ANN_socket_multithread.hpp:304 | the blocks of different queries or FPGAs do not overlap |
| `Shards.ResultBuffer.Receive` | CPU_programs_old/ANN_socket_multithread.hpp:300-320 | receiving in pieces of any size writes exactly the block of that query and FPGA, at N * query + n blocks from the start |
| `Shards.ResultBuffer.Gather` | CPU_programs_old/host_multi_FPGA.cpp:471-493 | from blocks that hold given answers to the TOPK least of the pairs (k-th distance, k-th id) of all answers, in order; if each answer holds the TOPK least of a shard, these are the TOPK least of the whole database |
| `Shards.ResultBuffer.ReceiveAndGather` | CPU_programs_old/ANN_socket_multithread.hpp:286-327 | from the bytes of the answers on the links to the TOPK least pairs of the database: all answers are received into their blocks and gathered |
| `AxiWords.PacketsOfStream` | fpga-network-stack/hls/axi_utils.hpp:49-58 | a stream built from packets of bytes, word by word, is well formed and carries exactly those packets |
| `AxiMachines.StepFacts` | fpga-network-stack/hls/axi_utils.hpp:315-631 | a call keeps the registers well formed, writes words of the right width, and makes progress unless there is nothing to do |
| `AxiMachines.StepIsLocal` | fpga-network-stack/hls/axi_utils.hpp:315-631 | a call looks at no more than the head of its input |
| `AxiMachines.AnySchedule` | fpga-network-stack/hls/axi_utils.hpp:315-631 | whatever the order of arrivals and calls, what has left a pipeline is a prefix of what an unstalled run writes, and all of it once drained |
| `AxiMachines.ReadyCallWorks` | fpga-network-stack/hls/axi_utils.hpp:315-631 | calling a stage that can do something brings the pipeline one call closer to its end |
| `AxiMachines.CanDrain` | fpga-network-stack/hls/axi_utils.hpp:315-631 | from every state some schedule drains the pipeline |
| `AxiClasses.IncreaseStreamWidth.Call` | fpga-network-stack/hls/axi_utils.hpp:316-343 | one call: new registers, what is left of the input, what was written |
| `AxiClasses.ReduceStreamWidth.Call` | fpga-network-stack/hls/axi_utils.hpp:346-406 | one call: new registers, what is left of the input, what was written |
| `AxiClasses.LShiftWordByOctet.Call` | fpga-network-stack/hls/axi_utils.hpp:564-631 | one call: new registers, what is left of the input, what was written |
| `AxiClasses.RShiftWordByOctet.Call` | fpga-network-stack/hls/axi_utils.hpp:489-560 | one call: new registers, what is left of the input, what was written |
| `AxiClasses.StreamPkgSplitter.Call` | fpga-network-stack/hls/axi_utils.hpp:908-970 | one call: new state, what is left of both inputs, what went to each output |
| `AxiClasses.StreamPkgMerger.Call` | fpga-network-stack/hls/axi_utils.hpp:829-905 | one call: new state, what is left of all inputs, what was written |
| `AxiClasses.PassValidPkg.Call` | fpga-network-stack/hls/axi_utils.hpp:974-1033 | one call: new state, what is left of both inputs, what was written |
| `AxiWidth.WidenThenNarrow` | fpga-network-stack/hls/axi_utils.hpp:315-406 | reducing by D after increasing by D returns the identical words - data, keep and last - also for packets whose length is not a multiple of D |
| `AxiWidth.EmitsGroup` | fpga-network-stack/hls/axi_utils.hpp:359-406 | reducing a wide word writes exactly the words it was made of |
| `AxiWidthPackets.WidenKeepsPackets` | fpga-network-stack/hls/axi_utils.hpp:315-343 | increasing the width keeps every packet's bytes and boundaries |
| `AxiWidthPackets.NarrowKeepsPackets` | fpga-network-stack/hls/axi_utils.hpp:345-406 | reducing the width keeps every packet's bytes and boundaries |
| `AxiWidthPackets.WidthRoundTrip` | fpga-network-stack/hls/axi_utils.hpp:315-406 | the same for every schedule of arrivals and calls: at any time a prefix of the input has come out, and all of it once drained |
| `AxiShift.LShiftPrepends` | fpga-network-stack/hls/axi_utils.hpp:562-631 | for 0 < offset < W/8 and offset <= 32 every packet leaves with exactly offset zero bytes in front, and last only on its final word |
| `AxiShift.LShiftNeedsOffset32` | fpga-network-stack/hls/axi_utils.hpp:604 | because of the 32-bit keep constant the output is well formed exactly when offset <= 32 |
| `AxiShift.RShiftTrims` | fpga-network-stack/hls/axi_utils.hpp:488-560 | every packet leaves without its first offset bytes; the output is well formed exactly when every packet is longer than offset |
| `AxiShift.RShiftUndoesLShift` | fpga-network-stack/hls/axi_utils.hpp:488-631 | right after left shift is the identity on the packets |
| `AxiShift.ShiftRoundTrip` | fpga-network-stack/hls/axi_utils.hpp:488-631 | the same for every schedule of the two machines, with nothing carried from packet to packet |
| `AxiShift.OffsetZeroIsIdentity` | fpga-network-stack/hls/axi_utils.hpp:510-513 | offset 0 passes every word unchanged |
| `AxiRoute.MergeUndoesSplit` | fpga-network-stack/hls/axi_utils.hpp:828-970 | merging the splitter's outputs by the same control bits gives the original words |
| `AxiRoute.SplitMergeIsIdentity` | fpga-network-stack/hls/axi_utils.hpp:828-970 | the same for every order of arrivals and calls; at any time the output is a prefix of the input |
| `AxiRoute.SplitProjects` | fpga-network-stack/hls/axi_utils.hpp:907-970 | a run that never stalls writes to each output exactly the packets addressed to it, whole and in order |
| `AxiRoute.MergeInterleaves` | fpga-network-stack/hls/axi_utils.hpp:828-905 | a run that never stalls writes whole packets in the order the control bits ask for |
| `AxiRoute.PassesValidPackets` | fpga-network-stack/hls/axi_utils.hpp:973-1033 | a run that never stalls passes exactly the packets marked valid, whole and in order |
| `AxiRouteRuns.SplitterProjects` | fpga-network-stack/hls/axi_utils.hpp:907-970 | for every schedule each output of the splitter holds a prefix of the packets addressed to it, whole and in order, and all of them once drained |
| `AxiRouteRuns.MergerInterleaves` | fpga-network-stack/hls/axi_utils.hpp:828-905 | for every schedule the merger has written a prefix of the whole packets in the order of the control bits, and all of them once drained |
| `AxiRouteRuns.ValidPacketsPass` | fpga-network-stack/hls/axi_utils.hpp:973-1033 | for every schedule exactly the packets marked valid pass, whole and in order, and all of them once drained |
| `AxiRouteRuns.AnySchedule` | fpga-network-stack/hls/axi_utils.hpp:828-1033 | whatever the order of arrivals and calls, what has left is a prefix of what a run that never stalls writes, and all of it once drained |
| `AxiRouteRuns.CanDrain` | fpga-network-stack/hls/axi_utils.hpp:828-1033 | from every state some schedule drains each of the three machines |
| `AxiRouteRuns.RouterCanDrain` | fpga-network-stack/hls/axi_utils.hpp:828-970 | from every state some schedule drains splitter and merger together |
| `Rings.WriteAppends` | CPU_programs/ring_buffer.hpp:76-91 | a write appends; on a full buffer it also loses the oldest element |
| `Rings.ReleaseTakesOldest` | CPU_programs/ring_buffer.hpp:93-107 | a read takes the oldest element; on an empty buffer it does nothing |
| `Rings.RingBuffer.WriteSlot` | CPU_programs/ring_buffer.hpp:76-91 | the contents gain the slot, and lose the oldest if the buffer was full |
| `Rings.RingBuffer.ReadSlot` | CPU_programs/ring_buffer.hpp:93-107 | hands over the oldest element, or leaves the caller's buffer as it was |
| `Rings.RingBuffer.SizeOf` | CPU_programs/ring_buffer.hpp:57-74 | the number of elements waiting |
| `Rings.RingBuffer.Empty` | CPU_programs/ring_buffer.hpp:40-44 | true exactly when nothing is waiting |
| `Rings.RingBuffer.Full` | CPU_programs/ring_buffer.hpp:46-50 | true exactly when every slot is waiting to be read |
| `Rings.RingBuffer.Reset` | CPU_programs/ring_buffer.hpp:33-38 | nothing is waiting afterwards |
| `Rings.WindowKeepsAll` | CPU_programs/ring_buffer.hpp:76-107 | with a window no larger than the buffer the i-th read returns the i-th element written |
| `Rings.OverflowLoses` | CPU_programs/ring_buffer.hpp:80-87 | one write too many, and the first read returns the second element |
| `Rings.LosslessIffWindowFits` | CPU_programs/CPU_cooridnator_for_GPU_FPGA.cpp:204-239 | with whole calls, the hand-off is lossless exactly when the window or the whole run fits in the buffer |
| `RingRace.SmallWindowIsSafe` | CPU_programs/ring_buffer.hpp:76-107 | with every load and store a step of its own and fewer outstanding elements than slots: nothing is lost, no slot is read while it is written, full_ stays false |
| `RingRace.FullWindowRaces` | CPU_programs/ring_buffer.hpp:84-100 | with as many outstanding elements as slots some run hands over the caller's old buffer |
| `RingRace.UnlockedIsSafeIffSmall` | CPU_programs/ring_buffer.hpp:76-107 | the unlocked hand-off is lossless in every interleaving exactly when at most one element fewer than slots can be outstanding |
| `RingRace.WriteAlone` | CPU_programs/ring_buffer.hpp:76-91 | the loads and stores of a write that nobody disturbs are one write to the ring, on a full buffer too |
| `RingRace.ReadAlone` | CPU_programs/ring_buffer.hpp:93-107 | the loads and stores of a read that nobody disturbs are one read of the ring: the oldest element, or on an empty buffer what the caller had |
| `Bytes.WordsFor` | CPU_programs/constants.hpp:27-50 | the least number of 512-bit words that hold so many bits |
| `Framing.ResultBytes` | CPU_programs/CPU_cooridnator_for_GPU_FPGA.cpp:217-219 | an answer has 1344 bytes |
| `Framing.SameBodyIffSameWords` | CPU_programs/FPGA_simulator.cpp:257-259 | both ends agree on the length of a body exactly when their dimensions fill the same number of words |
| `Framing.IntRoundTrip` | CPU_programs/utils.hpp:28-33 | decode_int returns the integer that was stored |
| `GpuBatches.LittleEndian` | CPU_programs/utils.hpp:28-33 | a stored integer is four bytes, least significant first, in two's complement |
| `Framing.HeaderRoundTrip` | CPU_programs/FPGA_simulator.cpp:238-240 | batch size, nprobe and the terminate flag are decoded as they were stored |
| `GpuBatches.EncodedSize` | CPU_programs/CPU_cooridnator_for_GPU_FPGA.cpp:225-227 | a batch built from a 16-byte header, the query vectors and one row of 8-byte list IDs per query has the length the coordinator expects |
| `GpuBatches.EncodedId` | CPU_programs/CPU_cooridnator_for_GPU_FPGA.cpp:502-507 | at the coordinator's offset for query q and probe j lies the j-th ID the GPU meant for query q |
| `GpuBatches.StreamAt` | CPU_programs/CPU_cooridnator_for_GPU_FPGA.cpp:297-318 | the b-th stretch of that length in the GPU's stream is the b-th batch |
| `GpuBatches.BodyCarriesIds` | CPU_programs/CPU_cooridnator_for_GPU_FPGA.cpp:502-508 | the j-th four bytes of the body for query q are the low 32 bits of the j-th ID the GPU meant for that query, and that ID itself exactly when it fits |
| `GpuBatches.BodyFields` | CPU_programs/CPU_cooridnator_for_GPU_FPGA.cpp:499-514 | behind the IDs come padding up to a whole word, the query's own vector, its padding and the centre vectors, each at its written-out offset |
| `Framing.CopyIds` | CPU_programs/CPU_cooridnator_for_GPU_FPGA.cpp:505-510 | the loop over nprobe writes the IDs to the front of the buffer and nothing else |
| `Framing.BuildBody` | CPU_programs/CPU_cooridnator_for_GPU_FPGA.cpp:499-514 | the buffer ends as the body of that query, from whatever the previous query left in it; its padding and the query buffer's stay what they were |
| `Framing.BodyLayout` | CPU_programs/CPU_cooridnator_for_GPU_FPGA.cpp:452-459 | where IDs, padding, query and centre vectors lie in a body |
| `PipelineModel.GpuBatch` | CPU_programs/CPU_cooridnator_for_GPU_FPGA.cpp:297-318 | a batch has the length both threads expect |
| `PipelineLocal.OffOrder` | CPU_programs/CPU_cooridnator_for_GPU_FPGA.cpp:397-431 | items of the stream to an FPGA lie one behind the other |
| `PipelineLocal.LogGrows` | CPU_programs/CPU_cooridnator_for_GPU_FPGA.cpp:476-515 | announcing the next header or body extends the stream by exactly that item |
| `PipelineLocal.HeaderRead` | CPU_programs/FPGA_simulator.cpp:228-241 | a complete header is the header of the batch it stands for and decodes as meant |
| `PipelineLocal.BodyRead` | CPU_programs/FPGA_simulator.cpp:262-281 | a complete body is the body the coordinator built for that batch and query |
| `PipelineLocal.InKeeps` | CPU_programs/FPGA_simulator.cpp:224-291 | every step of thread_C2F of a simulator keeps what is known about it |
| `PipelineLocal.OutKeeps` | CPU_programs/FPGA_simulator.cpp:350-395 | every step of thread_F2C of a simulator keeps what is known about it |
| `PipelineSafety.InitialOk` | CPU_programs/CPU_cooridnator_for_GPU_FPGA.cpp:188-206 | the invariant holds when all threads start |
| `PipelineSafety.G2CKeeps` | CPU_programs/CPU_cooridnator_for_GPU_FPGA.cpp:297-335 | thread_G2C splits the GPU's bytes into exactly the GPU's batches |
| `PipelineSafety.C2FKeeps` | CPU_programs/CPU_cooridnator_for_GPU_FPGA.cpp:470-519 | every step of thread_C2F keeps the stream to every FPGA framed |
| `PipelineSafety.F2CReads` | CPU_programs/CPU_cooridnator_for_GPU_FPGA.cpp:585-606 | partial reads of answers keep the count of bytes per FPGA exact |
| `PipelineSafety.SemKeeps` | CPU_programs/CPU_cooridnator_for_GPU_FPGA.cpp:332-335 | every step keeps the three semaphores equal to the windows minus what is in flight, and to the batches not taken |
| `PipelineSafety.MoveKeeps` | CPU_programs/CPU_cooridnator_for_GPU_FPGA.cpp:320-680 | every step of every thread keeps the whole invariant |
| `PipelineProgress.SimOrder` | CPU_programs/FPGA_simulator.cpp:224-395 | answers read <= answers begun <= bodies received <= queries let through the window |
| `PipelineProgress.Order` | CPU_programs/CPU_cooridnator_for_GPU_FPGA.cpp:488-680 | no query or batch is answered before it has been let through, taken and received |
| `PipelineProgress.WindowsConserved` | CPU_programs/CPU_cooridnator_for_GPU_FPGA.cpp:204-206 | free slots plus what is in flight are the window sizes |
| `PipelineProgress.Starved` | CPU_programs/FPGA_simulator.cpp:224-395 | a simulator whose threads both wait, with nothing more coming, has answered all it was given |
| `PipelineProgress.Progress` | CPU_programs/CPU_cooridnator_for_GPU_FPGA.cpp:320-680 | with both windows at least 1, every state that is not final has an enabled step |
| `PipelineRuns.MoveFalls` | CPU_programs/CPU_cooridnator_for_GPU_FPGA.cpp:320-680 | every step leaves strictly less to do |
| `PipelineTheorems.ReachableOk` | CPU_programs/CPU_cooridnator_for_GPU_FPGA.cpp:320-680 | the invariant holds in every state of every run, and a run has only so many steps |
| `PipelineTheorems.WindowsAlwaysConserved` | CPU_programs/CPU_cooridnator_for_GPU_FPGA.cpp:332-679 | window conservation in every state of every run |
| `PipelineTheorems.LosslessHandOff` | CPU_programs/CPU_cooridnator_for_GPU_FPGA.cpp:297-488 | if the batch window or the run fits in the ring, the i-th batch read is the i-th batch of the GPU |
| `PipelineOverflow.StoreOne` | CPU_programs/CPU_cooridnator_for_GPU_FPGA.cpp:297-335 | from every reachable state in which only thread_G2C has run and the window is open, one more batch can be received and stored |
| `PipelineOverflow.LosesFirst` | CPU_programs/CPU_cooridnator_for_GPU_FPGA.cpp:332-488 | with more batches in the window and in the run than slots, some run hands over the second batch of the GPU first |
| `PipelineOverflow.LosslessIffRingLargeEnough` | CPU_programs/CPU_cooridnator_for_GPU_FPGA.cpp:204-239 | over all runs and all contents, every batch read is the batch the GPU sent exactly when the batch window or the whole run fits in the ring |
| `PipelineTheorems.HeadersArrive` | CPU_programs/FPGA_simulator.cpp:228-241 | in every run, every header arrives at its own batch index and decodes as it was meant |
| `PipelineTheorems.BodiesArrive` | CPU_programs/FPGA_simulator.cpp:262-281 | in every run, every body arrives for its own batch and query |
| `PipelineTheorems.IdsArrive` | CPU_programs/FPGA_simulator.cpp:262-281 | end to end: for whatever list IDs the GPU encodes, in every run the body that arrives for query q of batch b starts with the IDs meant for that query of that batch, cut to 32 bits: intact exactly when they fit |
| `PipelineTheorems.FinalMeansAnswered` | CPU_programs/CPU_cooridnator_for_GPU_FPGA.cpp:653-680 | at the end every batch is answered, every FPGA has had one header per batch and then one terminate header, links are empty and all slots free |
| `PipelineTheorems.AnswersReachGpu` | CPU_programs/CPU_cooridnator_for_GPU_FPGA.cpp:609-624 | in every state of every run the GPU has been sent 12 * topk bytes for each query of each answered batch, and of the next batch what has left so far |
| `PipelineTheorems.RunsEnd` | CPU_programs/CPU_cooridnator_for_GPU_FPGA.cpp:320-680 | every run is finite and can only stop in the final state |
| `PipelineTheorems.MaximalRunAnswersEverything` | CPU_programs/CPU_cooridnator_for_GPU_FPGA.cpp:320-680 | a run that cannot be continued has sent the GPU exactly 12 * topk bytes for each query of each batch, and terminated every FPGA once |
| `PipelineTheorems.PackageSizes` | CPU_programs/constants.hpp:3-6 | no call moves more than one package: 4096 bytes, but 1024 of an answer of an FPGA and 64 of a header at an FPGA |
| `PipelineTheorems.CanFinish` | CPU_programs/CPU_cooridnator_for_GPU_FPGA.cpp:320-680 | every run can be continued to the final state |
| `PipelineTheorems.ZeroWindowNeverEnds` | CPU_programs/CPU_cooridnator_for_GPU_FPGA.cpp:80 | with a window of 0, which the program's comment allows, no run ends |
| `PipelineTheorems.EndsIffWindowsOpen` | CPU_programs/CPU_cooridnator_for_GPU_FPGA.cpp:204-206 | a run can be completed exactly when both windows are at least 1 |
| `CounterProtocol.StepKeeps` | CPU_programs_old/ANN_socket_multithread.hpp:59-374 | every step of every thread keeps the meaning of the counters |
| `CounterProtocol.CountersOrdered` | CPU_programs_old/ANN_socket_multithread.hpp:59-374 | with all counters starting at -1: received <= sent <= indexed <= received + window for every FPGA, a stamped query has come back from all of them, none is sent before it is indexed or received before it is sent |
| `CounterProtocol.AsWrittenFromQueryOne` | CPU_programs_old/host_multi_FPGA.cpp:379-381 | as initialised, stamps and window are still right from query 1 on |
| `CounterProtocol.StampedTooEarly` | CPU_programs_old/host_multi_FPGA.cpp:379-381 | as initialised, with two or more FPGAs a run stamps query 0 although an FPGA has not returned it |
| `CounterProtocol.AsWrittenIffOneFpga` | CPU_programs_old/host_multi_FPGA.cpp:379-381 | as initialised, stamps are right in every run exactly for at most one FPGA |
| `CounterProtocol.AsWrittenWindowIff` | CPU_programs_old/host_multi_FPGA.cpp:379-381 | as initialised, the window is kept in every run exactly for at most one FPGA or a window the run never fills |
| `CounterProtocol.Progress` | CPU_programs_old/ANN_socket_multithread.hpp:59-374 | as long as the run is not over, some thread can go on |
| `CounterProtocol.StepFalls` | CPU_programs_old/ANN_socket_multithread.hpp:59-374 | every step leaves strictly less to do |
| `CounterProtocol.RunsEnd` | CPU_programs_old/ANN_socket_multithread.hpp:59-374 | every run ends, and ends with every query returned by every FPGA and stamped |

## Left out

- Floating point: distances are reals, so rounding, NaN, the SIMD variants and the prefetches of the distance functions are not modelled.
- Sockets, connecting, the start flags, error returns, timing, statistics and printing: links are FIFO byte sequences that neither lose bytes nor fill up.
- saveIndex and loadIndex: file input and output.
- Random numbers: the level of a new element is an input, and the draw that decides which neighbours re-choose their lists may fall either way.
- Locks and concurrent calls inside the HNSW index: runs of its methods are sequential; the order in which OpenMP threads reach the critical section is arbitrary.
- BruteForce.BruteforceSearch.RemovePoint: takes a non-empty index, because the program reads the slot before the first of an empty one.
- fair_pkg_merger, packetHeader, keep and length tables, stream copies: not needed by the pairs of machines proved here.
- Integer widths: ids, labels, counts and addresses are unbounded; the 16-bit list counts, the 16-bit visited tags, the 32-bit keep constant and the 32- and 64-bit IDs of the frames are modelled as they are.
- Hnsw.HierarchicalNSW.constructor: takes M > 0 and 2M < 65536, because list counts have 16 bits.
- Hnsw.HierarchicalNSW.AddPoint: after NoCandidate the model stops where the program's behaviour becomes undefined, with the blank lists added and the entry point unchanged; no invariant is promised from there on.
- BruteForce.BruteforceSearch.SearchKnn: takes 1 <= k <= n for a non-empty index, because the first loop reads k slots.
- BruteForce.BruteforceSearch.SearchKnnParallel: also takes that the thread count divides n; PartitionIffDivides says why.
- Memory: allocation never fails, and raw memory is modelled as sequences and arrays of the sizes the programs compute with; the receive buffer that is allocated with another size than it is filled with is not modelled.
- Link lists are values: `SetList` returns the changed table, where the program writes into raw memory.
- Priority queues are multisets; among entries of the same distance any may be popped where the program compares distances only.
- AxiClasses.IncreaseStreamWidth.constructor: the static temporary word starts with an empty keep field.
- Longer pipelines of routing machines: each of them is proved on its own, and splitter and merger together.
- RingRace: loads and stores take effect in program order; reordering by the compiler or the processor is not modelled.
- PipelineModel.Config: batch size and dimension are at least 1, integers fit 31 bits, there is at least one FPGA, both ends pad a vector to the same number of words, and the simulator's limits on batches and body size hold.
- The content of an answer: the simulator sends the same unset buffer each time and the coordinator forwards nothing of it, so only lengths are modelled.
- CounterProtocol: a loop that spins until a counter is large enough is a wait for that, and a pass over all counters may be resumed where it stopped.
- CPU_index_server.cpp, the unused directories, and the udp, mac, ipv4 and ip_handler copies of the shift functions: duplicates.
