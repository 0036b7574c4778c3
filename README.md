# Balanced k-way graph partitioning, modelled in Dafny

The system splits the vertices of an undirected graph into `k` parts of
nearly equal size. It tries to keep the number of edges that cross between
parts (the *cut*) small. The graph is stored in compressed sparse row form
(CSR): a row-pointer array and one flat adjacency list. Part sizes may
differ from the average size `n / k` by at most
`max(1, (n / k) * margin / 100)`.

There are two implementations of the same algorithms:

- the Java `GraphPartitioner` application;
- the C command-line program in `Jimp-2-main` (the root `podzial.c` has the
  same partitioning functions).

A small viewer model (`pl.edu.graph.model`) reads finished partitions.

The model covers:

- **The graph and partition records** (`Graphs`, `Partitions`, `Viewer`).
  - `Partition` is a class. Its `assignments` and `partSizes` arrays are
    updated in place.
  - `Valid()` says that every stored part size counts the vertices
    assigned to that part.
- **Cut counting, gains and the balance rule** (`PartitionUtils`).
  - The central theorem: on a symmetric graph without self-loops, moving
    one vertex lowers the cut by exactly that vertex's gain.
- **Random rebalancing** (`Rebalance`). Java's `balanceRandomPartition` and
  C's `zbalansuj_losowy_podzial` are the same algorithm.
- **The initial partitions** (`Initializers`): modulo, sequential blocks,
  random plus rebalancing, and depth-first growth. The C versions are
  written over bare arrays.
- **Kernighan-Lin refinement** (`MoveLogs`, `KernighanLin`, `KernighanLinC`).
  - A pass makes tentative moves and keeps the prefix of them with the
    largest total gain.
  - The driver repeats passes until none improves the cut or the pass cap
    is reached.
- **Perturbation** (`Perturbation`):
  - uniform random moves, in Java and in C;
  - the Java "smart" variant, which moves boundary vertices towards the
    part holding most of their neighbours.
- **The hybrid search** (`Hybrid`), in Java and in C.
  - The search tries every deterministic start and an adaptive number of
    random starts, each refined by Kernighan-Lin, then perturbs the best
    partition found.
  - The best partition is replaced only by one with a strictly smaller cut.
- **File formats** (`Text`, `GraphLoader`, `GraphSaver`, `GrafC`):
  - the Java loaders: adjacency matrix text, CSRRG text, simple assignment
    text, and a binary bit-per-vertex file;
  - the Java savers: matrix text and CSRRG text;
  - the C CSRRG loader.
- **The C command-line parser** (`UtilsC`).

Randomness (`Random`, `rand()`) is modelled as an arbitrary choice. Every
property is proved for all choices. Java `double` ratios and densities are
exact fractions.

## Model

| member | source | states |
|---|---|---|
| Graphs.Neighbors | GraphPartitioner/src/com/example/graphpartitioner/model/Graph.java:25-39 | A vertex outside the graph has no neighbours. Otherwise its neighbours are the adjacency entries between its two row pointers, in stored order. |
| Graphs.ScanFor | GraphPartitioner/src/com/example/graphpartitioner/model/Graph.java:49-58 | The linear scan of a row finds `v` exactly when `v` occurs in that stretch of the adjacency list. |
| Graphs.HasEdge | GraphPartitioner/src/com/example/graphpartitioner/model/Graph.java:44-59 | `hasEdge(u, v)` holds if and only if both ends are vertices of the graph and `v` is among `u`'s neighbours. |
| Graphs.HasEdgeSymmetric | GraphPartitioner/src/com/example/graphpartitioner/model/Graph.java:44-59 | On a symmetric CSR graph the edge test does not depend on the order of its ends. |
| Graphs.Density | GraphPartitioner/src/com/example/graphpartitioner/model/Graph.java:81-87 | The density is 0 for at most one vertex. Otherwise it is the fraction `d` with `d * n(n-1) = 2E`, i.e. edges over possible edges. |
| Graphs.DensityBelowOnePercent | GraphPartitioner/src/com/example/graphpartitioner/model/Graph.java:81-87 | Density below 0.01 holds if and only if `n <= 1` or `200E < n(n-1)`. |
| Graphs.FromListsCsr | GraphPartitioner/src/com/example/graphpartitioner/io/GraphLoader.java:89-108 | Row pointers and a flat list built from per-vertex lists form a well-formed CSR graph whose rows are exactly those lists. |
| Viewer.GetNeighbors | src/main/java/pl/edu/graph/model/Graph.java:27-42 | Fails with the invalid-vertex exception exactly for an index outside the graph. On success, the result is the entries between the vertex's row pointers. |
| Viewer.StrictNeighbors | src/main/java/pl/edu/graph/model/Graph.java:27-42 | On a well-formed graph the viewer's strict query never fails inside the graph and agrees with the partitioner's lenient one. Outside the graph it refuses where the lenient one answers an empty list. |
| Viewer.GetAssignment | src/main/java/pl/edu/graph/model/Partition.java:18-23 | Succeeds if and only if the vertex index is in range, and then answers that vertex's part; otherwise fails with the invalid-vertex exception. |
| Viewer.StrictAssignment | src/main/java/pl/edu/graph/model/Partition.java:18-23 | The strict query fails exactly where the lenient partitioner query answers -1 for an index outside the array. Otherwise the two agree. |
| Viewer.GetPartSize | src/main/java/pl/edu/graph/model/Partition.java:25-30 | Fails with the invalid-part exception exactly for a part outside `0..partCount-1`. On success, the result is the stored size. |
| Viewer.PartSizesCount | src/main/java/pl/edu/graph/model/Partition.java:10-30 | For consistent sizes, every part's size query answers the number of its vertices. When every vertex is in a part, the sizes add up to the vertex count. |
| Partitions.MaxImbalance | GraphPartitioner/src/com/example/graphpartitioner/model/Partition.java:88-92 | The allowed imbalance is at least 1 and at least the truncated `avg * margin / 100`. |
| Partitions.Partition.constructor | GraphPartitioner/src/com/example/graphpartitioner/model/Partition.java:18-27 | A new partition has every vertex unassigned (-1), every part empty and cut 0, and is consistent. |
| Partitions.Partition.Of | GraphPartitioner/src/com/example/graphpartitioner/model/Partition.java:32-38 | The full constructor stores the given arrays and values unchanged. |
| Partitions.Partition.SetAssignment | GraphPartitioner/src/com/example/graphpartitioner/model/Partition.java:53-67 | Succeeds if and only if the vertex and part are in range. A refused call changes nothing. A successful one sets exactly that vertex's part, moves one unit of size from its old part (if it had one) to the new part, and keeps the sizes consistent. |
| Partitions.Partition.Transfer | Jimp-2-main/podzial.c:196-198 | The C in-place move: the vertex's entry becomes the target part, and the source size drops by one while the target size grows by one. Consistency is kept. |
| Partitions.Partition.Copy | GraphPartitioner/src/com/example/graphpartitioner/model/Partition.java:72-76 | The copy is fresh, with `copyOf` semantics: truncated or zero-padded to the requested length. Sizes, count, cut and margin are equal. A same-length copy of a consistent partition is consistent and equal. |
| Partitions.Partition.CopyC | Jimp-2-main/podzial.c:254-285 | NULL if and only if the vertex count is not positive. Otherwise a fresh deep copy of the first `n` assignments and of all sizes and scalars. |
| Partitions.Partition.IsBalanced | GraphPartitioner/src/com/example/graphpartitioner/model/Partition.java:126-136 | True if and only if every part size lies within the allowed imbalance of the average. |
| Partitions.SizesSumToVertexCount | GraphPartitioner/src/com/example/graphpartitioner/model/Partition.java:53-67 | When every vertex is in a part and the sizes count the parts' vertices, the sizes sum to the number of vertices. |
| Partitions.SizesSumToAssigned | GraphPartitioner/src/com/example/graphpartitioner/model/Partition.java:53-67 | The first `k` sizes sum to the number of vertices assigned to parts below `k`. |
| PartitionUtils.CutEdges | GraphPartitioner/src/com/example/graphpartitioner/algorithms/PartitionUtils.java:17-44 | Each edge `u < v` inside the graph is counted once when its ends lie in different parts, so the cut never exceeds the adjacency entries. The C `oblicz_przeciete_krawedzie` (Jimp-2-main/podzial.c:8-39) is the same count. |
| PartitionUtils.SinglePartHasNoCut | GraphPartitioner/src/com/example/graphpartitioner/algorithms/PartitionUtils.java:17-44 | When all vertices share one part the cut is 0. |
| PartitionUtils.RowCutIgnoresOutside | GraphPartitioner/src/com/example/graphpartitioner/algorithms/PartitionUtils.java:30-40 | A neighbour index outside the graph never adds to the cut. |
| PartitionUtils.NeighborsInPart | GraphPartitioner/src/com/example/graphpartitioner/algorithms/PartitionUtils.java:116-128 | The count of a vertex's in-graph neighbours in a part is at most its degree. |
| PartitionUtils.Gain | GraphPartitioner/src/com/example/graphpartitioner/algorithms/KernighanLin.java:34-45 | The gain of moving a vertex, i.e. neighbours in the target minus neighbours in the own part, lies between minus and plus its degree. |
| PartitionUtils.MoveChangesCutByGain | GraphPartitioner/src/com/example/graphpartitioner/algorithms/KernighanLin.java:34-45 | On a symmetric graph without self-loops, moving one vertex lowers the cut by exactly its gain, for every assignment and every target. |
| PartitionUtils.CanMoveVertex | GraphPartitioner/src/com/example/graphpartitioner/algorithms/PartitionUtils.java:133-153 | A move is allowed if and only if it changes the part, the target stays at most `avg + imb` and the source stays at least `avg - imb`. |
| PartitionUtils.LegalMoveKeepsBalance | GraphPartitioner/src/com/example/graphpartitioner/algorithms/PartitionUtils.java:133-153 | An allowed move keeps a balanced partition balanced. |
| Rebalance.PartsAboveExactly | GraphPartitioner/src/com/example/graphpartitioner/algorithms/PartitionUtils.java:68-76 | A part is listed as too large if and only if its size exceeds `avg + imb`. The list is increasing. |
| Rebalance.PartsBelowExactly | GraphPartitioner/src/com/example/graphpartitioner/algorithms/PartitionUtils.java:68-76 | A part is listed as too small if and only if it is not too large and its size is below `avg - imb`. The list is increasing. |
| Rebalance.ClassifyParts | GraphPartitioner/src/com/example/graphpartitioner/algorithms/PartitionUtils.java:68-76 | The classification loop builds exactly the too-large and too-small lists. |
| Rebalance.VerticesInExactly | GraphPartitioner/src/com/example/graphpartitioner/algorithms/PartitionUtils.java:90-95 | A vertex is a transfer candidate if and only if it is in the source part. |
| Rebalance.CollectCandidates | GraphPartitioner/src/com/example/graphpartitioner/algorithms/PartitionUtils.java:90-95 | The candidate loop builds exactly the source part's vertices, in order. |
| Rebalance.MembersGiveCandidates | GraphPartitioner/src/com/example/graphpartitioner/algorithms/PartitionUtils.java:97-103 | A non-empty part always yields a candidate, so each transfer of a round really happens. |
| Rebalance.TransferOne | GraphPartitioner/src/com/example/graphpartitioner/algorithms/PartitionUtils.java:97-103 | The i-th transfer moves one vertex of the i-th too-large part to the i-th too-small part. |
| Rebalance.TransferRound | GraphPartitioner/src/com/example/graphpartitioner/algorithms/PartitionUtils.java:84-104 | One round pairs the two lists and performs `min(|above|, |below|)` transfers, keeping the sizes consistent. |
| Rebalance.SettledWhenListEmpty | GraphPartitioner/src/com/example/graphpartitioner/algorithms/PartitionUtils.java:79-81 | When either list is empty, no part is both too large and matched by a too-small part, so the loop may stop. |
| Rebalance.RoundKeepsAssignedCount | GraphPartitioner/src/com/example/graphpartitioner/algorithms/PartitionUtils.java:84-104 | Transfers never unassign a vertex. The number of assigned vertices is unchanged. |
| Rebalance.Round | GraphPartitioner/src/com/example/graphpartitioner/algorithms/PartitionUtils.java:63-106 | A round that finds a list empty reports settled and changes nothing. Any round keeps consistency and the assigned count. |
| Rebalance.Rounds | GraphPartitioner/src/com/example/graphpartitioner/algorithms/PartitionUtils.java:60-107 | At most the iteration limit of rounds. Stopping before the limit means the sizes have settled. |
| Rebalance.Balance | GraphPartitioner/src/com/example/graphpartitioner/algorithms/PartitionUtils.java:50-111 | With no vertices or at most one part nothing changes, not even the cached cut. Otherwise it does at most `n/2` rounds, is settled if it stopped early, caches the true cut, and preserves the size total and full assignment. Also models Jimp-2-main/podzial.c:126-212. |
| Initializers.BlockSize | GraphPartitioner/src/com/example/graphpartitioner/algorithms/PartitionInitializer.java:40-64 | Part `p`'s share is `n/k`, plus one for the first `n % k` parts. |
| Initializers.BlockSizeStep | GraphPartitioner/src/com/example/graphpartitioner/algorithms/PartitionInitializer.java:17-34 | Adding vertex `n` adds one to exactly part `n % k`'s share. So the modulo layout's sizes are the block sizes. |
| Initializers.StartClosedForm | GraphPartitioner/src/com/example/graphpartitioner/algorithms/PartitionInitializer.java:40-64 | Block `p` starts at `p*(n/k) + min(p, n%k)`. |
| Initializers.BlocksCoverAll | GraphPartitioner/src/com/example/graphpartitioner/algorithms/PartitionInitializer.java:40-64 | The `k` blocks together cover exactly the `n` vertices. |
| Initializers.BlocksAreContiguous | GraphPartitioner/src/com/example/graphpartitioner/algorithms/PartitionInitializer.java:40-64 | In the sequential layout a later vertex never has a smaller part. |
| Initializers.Modulo | GraphPartitioner/src/com/example/graphpartitioner/algorithms/PartitionInitializer.java:17-34 | No partition for an empty graph or no parts. Otherwise vertex `v` is in part `v % k`, sizes are the block sizes, and the cached cut is the true cut. |
| Initializers.Sequential | GraphPartitioner/src/com/example/graphpartitioner/algorithms/PartitionInitializer.java:40-64 | No partition for invalid input. Otherwise every vertex is in its contiguous block, sizes are the block sizes, and the cut is exact. |
| Initializers.SequentialLayoutUnique | GraphPartitioner/src/com/example/graphpartitioner/algorithms/PartitionInitializer.java:40-64 | The blocks do not overlap, so exactly one assignment puts every vertex in its block. |
| Initializers.FillNextBlock | GraphPartitioner/src/com/example/graphpartitioner/algorithms/PartitionInitializer.java:47-58 | One iteration places the whole next block and leaves the rest unassigned. |
| Initializers.RandomStart | GraphPartitioner/src/com/example/graphpartitioner/algorithms/PartitionInitializer.java:70-88 | For valid input, every vertex gets a real part. The rebalancing stops within `n/2` rounds, settled if early, and the cut is exact. |
| Initializers.Dfs | GraphPartitioner/src/com/example/graphpartitioner/algorithms/PartitionInitializer.java:94-148 | For valid input, every vertex is assigned. Each part before the last one grown holds exactly `n/k` vertices and later parts none, and the cut is exact. |
| Initializers.Grow | GraphPartitioner/src/com/example/graphpartitioner/algorithms/PartitionInitializer.java:112-127 | The depth-first growth assigns only newly visited vertices, all to the current part, and never beyond the target size. |
| Initializers.PushUnvisited | GraphPartitioner/src/com/example/graphpartitioner/algorithms/PartitionInitializer.java:121-125 | Only unvisited neighbours of the popped vertex are pushed. The old stack is kept below them. |
| Initializers.AssignRest | GraphPartitioner/src/com/example/graphpartitioner/algorithms/PartitionInitializer.java:138-142 | Every vertex left unvisited goes to the final part, so all vertices end up assigned. |
| Initializers.ModuloC | Jimp-2-main/podzial.c:42-78 | NULL for invalid counts. Otherwise the same layout, sizes and exact cut as the Java modulo start. |
| Initializers.SequentialC | Jimp-2-main/podzial.c:81-123 | NULL for invalid counts. Otherwise the same contiguous blocks, sizes and exact cut as the Java sequential start. |
| Initializers.PlaceNextBlock | Jimp-2-main/podzial.c:106-117 | One iteration fills the next block and keeps the sizes counting the prefix written so far. |
| Initializers.RandomStartC | Jimp-2-main/podzial.c:215-251 | As written: for `k > 1` the cut is exact. For `k == 1` the cached cut is whatever the fresh allocation held, and it is correct if and only if that stale value happens to be 0. |
| Initializers.RandomStartCFixed | Jimp-2-main/podzial.c:215-251 | Corrected: fully assigned, settled if stopped early, and the cached cut always equals the true cut. |
| MoveLogs.ApplyMoves | GraphPartitioner/src/com/example/graphpartitioner/algorithms/KernighanLin.java:141-146 | Replaying a move log changes only the moved entries and keeps the length. |
| MoveLogs.PrefixGains | GraphPartitioner/src/com/example/graphpartitioner/algorithms/KernighanLin.java:124-132 | Cumulative gains have one entry per move plus a leading 0. |
| MoveLogs.PrefixGainsIncrease | GraphPartitioner/src/com/example/graphpartitioner/algorithms/KernighanLin.java:124-132 | When every logged gain is positive, the full total exceeds every shorter prefix. |
| MoveLogs.ApplyMovesUntouched | GraphPartitioner/src/com/example/graphpartitioner/algorithms/KernighanLin.java:141-146 | A vertex not in the log keeps its part. |
| MoveLogs.EarlierMovesMissVertex | GraphPartitioner/src/com/example/graphpartitioner/algorithms/KernighanLin.java:71-121 | With each vertex moved at most once per pass, no earlier move touches the vertex of a later one. |
| KernighanLin.FindBestMove | GraphPartitioner/src/com/example/graphpartitioner/algorithms/KernighanLin.java:77-101 | Answers -1 if and only if every unmoved, allowed candidate has negative gain. Otherwise it answers an allowed candidate of maximum gain, the first such one in vertex-then-part order. |
| KernighanLin.ChooseMove | GraphPartitioner/src/com/example/graphpartitioner/algorithms/KernighanLin.java:77-120 | A chosen move is the first-found maximum-gain legal move of an unmoved vertex to another part, with positive gain, and on an undirected graph it lowers the true cut by that gain. When none is chosen, no unmoved vertex has a legal move with positive gain. |
| KernighanLin.BestPrefix | GraphPartitioner/src/com/example/graphpartitioner/algorithms/KernighanLin.java:124-132 | The maximum cumulative gain over the prefixes, the shortest prefix reaching it, and 0 moves when no prefix gains. |
| KernighanLin.TentativeStep | GraphPartitioner/src/com/example/graphpartitioner/algorithms/KernighanLin.java:71-121 | One step of phase 1 either logs the best move of the current state, extending the log of chosen moves, or logs nothing when no unmoved vertex has a legal gaining move. |
| KernighanLin.ChooseMoves | GraphPartitioner/src/com/example/graphpartitioner/algorithms/KernighanLin.java:71-121 | The phase-1 loop stops early only when no unmoved vertex has a legal gaining move, and every logged move was the best move of the state it was made in. |
| KernighanLin.NoGainAtStart | GraphPartitioner/src/com/example/graphpartitioner/algorithms/KernighanLin.java:102-106 | If no vertex has a legal gaining move before any move, the assignment is a local optimum. |
| KernighanLin.GainAtStart | GraphPartitioner/src/com/example/graphpartitioner/algorithms/KernighanLin.java:77-101 | If a best legal gaining move exists before any move, the assignment is not a local optimum. |
| KernighanLin.FirstStepDecides | GraphPartitioner/src/com/example/graphpartitioner/algorithms/KernighanLin.java:71-121 | Phase 1 logs no move if and only if the starting assignment is a local optimum (no legal move has positive gain). |
| KernighanLin.TentativeMoves | GraphPartitioner/src/com/example/graphpartitioner/algorithms/KernighanLin.java:71-121 | Phase 1 moves each vertex at most once, at most `n` moves, and records their cumulative gains. Every logged move was the first-found best legal gaining move of its state, a log shorter than `n` ends where no unmoved vertex can gain, and the log is empty exactly at a local optimum. The assignment is the log replayed, and on an undirected graph the true cut falls by the total gain. |
| KernighanLin.RestoreSnapshot | GraphPartitioner/src/com/example/graphpartitioner/algorithms/KernighanLin.java:136-138 | Restoring the snapshot gives back the original assignment with consistent sizes. |
| KernighanLin.ReapplyPrefix | GraphPartitioner/src/com/example/graphpartitioner/algorithms/KernighanLin.java:141-146 | Re-applying the best prefix yields exactly the original assignment with that prefix of the log replayed. |
| KernighanLin.PlanMoves | GraphPartitioner/src/com/example/graphpartitioner/algorithms/KernighanLin.java:71-132 | Phases 1 and 2: the best prefix is the whole log, its gain is positive exactly when some move was logged, and no move is logged exactly at a local optimum. On an undirected graph the cut after the log is lower by that gain. |
| KernighanLin.ApplyBestPrefix | GraphPartitioner/src/com/example/graphpartitioner/algorithms/KernighanLin.java:133-155 | Phase 3 reports an improvement exactly when the best gain is positive. The assignment becomes the original with the best prefix replayed, or the original itself, and the cached cut falls by the gain. |
| KernighanLin.Pass | GraphPartitioner/src/com/example/graphpartitioner/algorithms/KernighanLin.java:51-155 | No improvement for no vertices or one part. Otherwise the pass improves if and only if the starting assignment is not a local optimum. A pass without improvement changes nothing. An improving pass lowers the cached cut, and on an undirected graph the true cut falls by the same amount. |
| KernighanLin.IterationCap | GraphPartitioner/src/com/example/graphpartitioner/algorithms/KernighanLin.java:168-175 | The pass limit is the caller's positive value, else 20 above 5000 vertices and 50 otherwise. |
| KernighanLin.Optimize | GraphPartitioner/src/com/example/graphpartitioner/algorithms/KernighanLin.java:161-233 | Does nothing for no vertices or one part. Otherwise it does at most the capped number of passes and leaves the cached cut equal to the true cut. Stopping below the cap means the result is a local optimum. On an undirected graph the cut never increases. |
| KernighanLinC.Duplicate | Jimp-2-main/algorytm_kl.c:78-79 | The snapshot copy is fresh and equal to the assignment. |
| KernighanLinC.ReapplyPrefixC | Jimp-2-main/algorytm_kl.c:165-174 | The C re-application writes parts directly and gives exactly the log prefix replayed. |
| KernighanLinC.ApplyBestPrefixC | Jimp-2-main/algorytm_kl.c:160-187 | The C phase 3 restores both snapshots and re-applies the best prefix. It reports an improvement exactly when the best gain is positive, and the cached cut falls by that gain. |
| KernighanLinC.PassC | Jimp-2-main/algorytm_kl.c:43-188 | Same promises as the Java pass: it improves if and only if the start is not a local optimum, nothing changes without improvement, and an improvement lowers the cached cut and, on an undirected graph, the true cut by the same amount. |
| KernighanLinC.OptimizeC | Jimp-2-main/algorytm_kl.c:191-232 | At most 50 passes (20 above 5000 vertices). The cached cut ends equal to the true cut, stopping below the cap leaves a local optimum, and on an undirected graph the cut never increases. |
| Perturbation.TargetMoves | GraphPartitioner/src/com/example/graphpartitioner/algorithms/Perturbation.java:32-38 | The move target is at most `n`, and at least 1 when the ratio and `n` are positive. |
| Perturbation.SmartTarget | GraphPartitioner/src/com/example/graphpartitioner/algorithms/Perturbation.java:128-129 | The smart target lies between 1 and the number of boundary vertices. |
| Perturbation.ChangedUpdate | GraphPartitioner/src/com/example/graphpartitioner/algorithms/Perturbation.java:77-78 | One move changes at most one more vertex relative to the source. |
| Perturbation.Shuffle | GraphPartitioner/src/com/example/graphpartitioner/algorithms/Perturbation.java:48-52 | The vertex order is a permutation of `0..n-1`. |
| Perturbation.Attempt | GraphPartitioner/src/com/example/graphpartitioner/algorithms/Perturbation.java:58-78 | An attempt moves the vertex exactly when the drawn part is an allowed target, and then the assignment is the old one with just that vertex in the drawn part. Otherwise nothing changes. Balance is kept. |
| Perturbation.Slot | GraphPartitioner/src/com/example/graphpartitioner/algorithms/Perturbation.java:58 | The wrapped index is always a vertex. |
| Perturbation.Uniform | GraphPartitioner/src/com/example/graphpartitioner/algorithms/Perturbation.java:20-88 | No copy exactly for no vertices or one part. Otherwise it returns a fresh copy (the source is untouched) with at most the target number of moves and at most `10 *` target attempts. At most that many vertices change, balance is kept and the cut is exact. |
| Perturbation.BoundaryVerticesExactly | GraphPartitioner/src/com/example/graphpartitioner/algorithms/Perturbation.java:105-120 | A vertex is listed as boundary if and only if it has a neighbour in another part. |
| Perturbation.CollectBoundary | GraphPartitioner/src/com/example/graphpartitioner/algorithms/Perturbation.java:105-120 | The boundary loop builds exactly the boundary list, in vertex order. |
| Perturbation.CountNeighborParts | GraphPartitioner/src/com/example/graphpartitioner/algorithms/Perturbation.java:144-149 | The map's keys are exactly the parts holding a neighbour, and each value is that part's neighbour count. |
| Perturbation.BestNeighborPart | GraphPartitioner/src/com/example/graphpartitioner/algorithms/Perturbation.java:152-163 | -1 if and only if no neighbour part is an allowed target. Otherwise an allowed neighbour part with the most neighbours. |
| Perturbation.LegalParts | GraphPartitioner/src/com/example/graphpartitioner/algorithms/Perturbation.java:166-177 | A part is in the fallback list if and only if moving there is allowed. |
| Perturbation.ChooseTarget | GraphPartitioner/src/com/example/graphpartitioner/algorithms/Perturbation.java:144-177 | -1 if and only if no part is an allowed target. When an allowed part holds a neighbour, the choice holds the most neighbours among allowed parts. |
| Perturbation.SmartStep | GraphPartitioner/src/com/example/graphpartitioner/algorithms/Perturbation.java:141-183 | A move puts the vertex in an allowed part, one holding the most neighbours among allowed parts when any allowed part holds a neighbour, and changes nothing else. The vertex stays put exactly when no part is allowed. Balance is kept. |
| Perturbation.SmartTraceAppend | GraphPartitioner/src/com/example/graphpartitioner/algorithms/Perturbation.java:139-184 | A trace of neighbour-majority steps stays one when a further such step is appended. |
| Perturbation.SmartMoves | GraphPartitioner/src/com/example/graphpartitioner/algorithms/Perturbation.java:137-184 | The loop over the shuffled boundary makes at most the target number of steps, each a neighbour-majority choice in the state it was made in, and the result is those steps replayed. Only boundary vertices change and balance is kept. |
| Perturbation.Smart | GraphPartitioner/src/com/example/graphpartitioner/algorithms/Perturbation.java:94-192 | A fresh, balanced-if-the-source-was, fully assigned copy with exact cut. With boundary vertices present, the result is a replay of at most the smart target of steps on boundary vertices, each moving its vertex to an allowed part that holds the most neighbours when any allowed part holds a neighbour. |
| Perturbation.AttemptC | Jimp-2-main/algorytm_hybrydowy.c:54-63 | The C move happens if and only if the band check allows it. |
| Perturbation.PerturbC | Jimp-2-main/algorytm_hybrydowy.c:10-73 | Same promises as the Java uniform perturbation: fresh copy, bounded moves and attempts, balance kept, exact cut. |
| Hybrid.AdaptiveRandomTrials | GraphPartitioner/src/com/example/graphpartitioner/algorithms/HybridAlgorithm.java:14-45 | Between 3 and 8 trials: at least 5 below 1% density, at least 6 for more than 10 parts with no good best yet, and exactly 3 for a dense graph, few parts and a good best. Also models Jimp-2-main/algorytm_hybrydowy.c:76-109. |
| Hybrid.SparserGetsMoreTrials | GraphPartitioner/src/com/example/graphpartitioner/algorithms/HybridAlgorithm.java:14-45 | A sparser graph on the same vertices never gets fewer trials. |
| Hybrid.MorePartsMoreTrials | GraphPartitioner/src/com/example/graphpartitioner/algorithms/HybridAlgorithm.java:27-38 | More parts never give fewer trials, and having no best yet never gives fewer trials. |
| Hybrid.CappedTrials | GraphPartitioner/src/com/example/graphpartitioner/algorithms/HybridAlgorithm.java:112-116 | Above 10000 vertices at most 2 trials run. Otherwise the computed number runs. |
| Hybrid.PerturbationRounds | GraphPartitioner/src/com/example/graphpartitioner/algorithms/HybridAlgorithm.java:138-139 | 3 rounds if and only if there are more than 1000 vertices, else 2. |
| Hybrid.RatioPercent | GraphPartitioner/src/com/example/graphpartitioner/algorithms/HybridAlgorithm.java:145 | The ratio is 0.15 exactly in the first round, 0.10 afterwards. |
| Hybrid.Keep | GraphPartitioner/src/com/example/graphpartitioner/algorithms/HybridAlgorithm.java:71-74 | The candidate replaces the best if and only if its cut is strictly smaller. The kept cut is the lowest seen. |
| Hybrid.Evaluate | GraphPartitioner/src/com/example/graphpartitioner/algorithms/HybridAlgorithm.java:65-75 | After refinement, the best is sound and lowest. The recorded cut is the cut of the candidate as refined, and on an undirected graph the refinement's cut is no higher than the start's. |
| Hybrid.ModuloAndSequential | GraphPartitioner/src/com/example/graphpartitioner/algorithms/HybridAlgorithm.java:199-212 | The first two recorded cuts are those of the refined modulo layout and the refined sequential layout. |
| Hybrid.EvaluateC | Jimp-2-main/algorytm_hybrydowy.c:126-140 | After refinement by the C Kernighan-Lin, the best is sound and lowest, and the recorded cut is that of a refinement of the candidate start with no higher cut on an undirected graph. |
| Hybrid.DeterministicStage | GraphPartitioner/src/com/example/graphpartitioner/algorithms/HybridAlgorithm.java:199-213 | Three recorded cuts, those of the refined modulo layout, the sequential layout and a depth-first-shaped layout. The best is sound and lowest among them. |
| Hybrid.RandomStage | GraphPartitioner/src/com/example/graphpartitioner/algorithms/HybridAlgorithm.java:216-228 | One more candidate per trial. The best stays sound and lowest. |
| Hybrid.PerturbationStage | GraphPartitioner/src/com/example/graphpartitioner/algorithms/HybridAlgorithm.java:231-248 | Alternating uniform and smart perturbations of the current best. The best stays sound and lowest. |
| Hybrid.FindBest | GraphPartitioner/src/com/example/graphpartitioner/algorithms/HybridAlgorithm.java:50-256 | No result if and only if the graph is empty, there are no parts or the margin is negative. Otherwise a fresh partition with a correct cached cut and the lowest recorded cut. Its cut is at most each refined deterministic candidate's cut, and on an undirected graph at most the cut of the modulo layout, of the sequential layout and of the depth-first start. |
| Hybrid.DeterministicStageC | Jimp-2-main/algorytm_hybrydowy.c:128-157 | C tries modulo and sequential. The two recorded cuts are those of the refined modulo and sequential layouts, and the best is sound and lowest among them. |
| Hybrid.RandomStageC | Jimp-2-main/algorytm_hybrydowy.c:163-188 | One candidate per trial from the corrected random start. The best stays sound and lowest. |
| Hybrid.PerturbationStageC | Jimp-2-main/algorytm_hybrydowy.c:191-220 | Uniform perturbations of the best. The best stays sound and lowest. |
| Hybrid.FindBestC | Jimp-2-main/algorytm_hybrydowy.c:112-240 | NULL if and only if the inputs are invalid. Otherwise a correct cached cut at most each refined deterministic candidate's cut, and on an undirected graph at most the cut of the modulo layout and of the sequential layout. |
| Text.ParseShow | GraphPartitioner/src/com/example/graphpartitioner/io/GraphLoader.java:18-38 | `Integer.parseInt` reads back every decimal text of a 32-bit integer as that integer. |
| GraphLoader.ParseIntegerList | GraphPartitioner/src/com/example/graphpartitioner/io/GraphLoader.java:18-38 | The loop collects exactly the trimmed pieces that parse as integers, skipping the rest, and yields nothing for a missing or blank line. |
| GraphLoader.IntegerListOfJoin | GraphPartitioner/src/com/example/graphpartitioner/io/GraphLoader.java:18-38 | Parsing 32-bit integers joined by a non-digit delimiter returns exactly those integers. |
| GraphLoader.SectionsSplitKept | GraphPartitioner/src/com/example/graphpartitioner/io/GraphLoader.java:51-67 | The kept lines split into matrix rows then assignment lines. No row contains " - ", and the assignments start at the first line that does. |
| GraphLoader.SplitSections | GraphPartitioner/src/com/example/graphpartitioner/io/GraphLoader.java:51-67 | The line loop produces exactly those two sections. |
| GraphLoader.ParseMatrix | GraphPartitioner/src/com/example/graphpartitioner/io/GraphLoader.java:74-86 | The boolean matrix holds, for each row, exactly the cells reading "1". |
| GraphLoader.ToCsr | GraphPartitioner/src/com/example/graphpartitioner/io/GraphLoader.java:89-108 | The CSR conversion produces exactly the graph defined from the cell table. |
| GraphLoader.MatrixEdges | GraphPartitioner/src/com/example/graphpartitioner/io/GraphLoader.java:89-108 | `j` is a neighbour of row `i` if and only if `j` is a column of the matrix and cell `(i, j)` is set. Neighbours are ascending. |
| GraphLoader.MatrixEdgeCount | GraphPartitioner/src/com/example/graphpartitioner/io/GraphLoader.java:89-108 | The edge count equals the number of set cells above the diagonal. |
| GraphLoader.FinalIsLastMention | GraphPartitioner/src/com/example/graphpartitioner/io/GraphLoader.java:111-145 | A vertex's loaded part is that of the last assignment line naming it, or -1 if none does. |
| GraphLoader.FinalBelowMax | GraphPartitioner/src/com/example/graphpartitioner/io/GraphLoader.java:111-145 | No loaded part exceeds the largest part id seen. |
| GraphLoader.MaxPartIdNamed | GraphPartitioner/src/com/example/graphpartitioner/io/GraphLoader.java:133-144 | A partition is produced if and only if some line names a vertex in range with a part id of at least 0. |
| GraphLoader.ParseAssignments | GraphPartitioner/src/com/example/graphpartitioner/io/GraphLoader.java:111-145 | No partition if and only if no part id is seen. Otherwise the assignments are the last mentions, `partCount` is the largest id plus one, the sizes are consistent, the cut is 0 and the margin is 10. |
| GraphLoader.LoadAdjacencyMatrixText | GraphPartitioner/src/com/example/graphpartitioner/io/GraphLoader.java:44-148 | The whole matrix loader: the graph of the row section, and the assignment section's partition when it names a part. |
| GraphLoader.LoadCsrrgText | GraphPartitioner/src/com/example/graphpartitioner/io/GraphLoader.java:154-193 | The loader equals the CSRRG reading function. A loaded graph has at least one vertex and one row pointer per vertex plus one. |
| GraphLoader.PlaceEntries | GraphPartitioner/src/com/example/graphpartitioner/io/GraphLoader.java:245-260 | Succeeds if and only if every key and value is non-negative. Each vertex then gets its listed part, or 0 when unlisted, and the sizes count them. |
| GraphLoader.LoadSimpleAssignmentText | GraphPartitioner/src/com/example/graphpartitioner/io/GraphLoader.java:199-265 | Refused exactly for a negative vertex or part. Otherwise an edgeless graph of `maxVertex + 1` vertices with the listed parts, whose sizes sum to the vertex count. |
| GraphLoader.BitsLayout | GraphPartitioner/src/com/example/graphpartitioner/io/GraphLoader.java:279-287 | Each byte gives 8 entries, and entry `k` is bit `k % 8` of byte `k / 8`, low bit first. |
| GraphLoader.ByteBitsRoundTrip | GraphPartitioner/src/com/example/graphpartitioner/io/GraphLoader.java:279-287 | A byte's eight bits reassemble into that byte. |
| GraphLoader.LoadSimpleAssignmentBinary | GraphPartitioner/src/com/example/graphpartitioner/io/GraphLoader.java:274-318 | An edgeless graph of `8 *` bytes vertices in 2 parts, with assignments equal to the bits and sizes summing to the vertex count. |
| GraphSaver.SaveAdjacencyMatrixText | GraphPartitioner/src/com/example/graphpartitioner/io/GraphSaver.java:18-62 | The writer emits exactly the matrix text: headers, one bracketed row per vertex and one assignment line per vertex. |
| GraphSaver.RowCells | GraphPartitioner/src/com/example/graphpartitioner/io/GraphSaver.java:44-49 | A written row reads back as exactly its cell digits. |
| GraphSaver.MatrixRowBack | GraphPartitioner/src/com/example/graphpartitioner/io/GraphSaver.java:30-51 | Reloading a written row gives exactly the in-range neighbours of that vertex, in ascending order. |
| GraphSaver.MatrixTextRoundTrip | GraphPartitioner/src/com/example/graphpartitioner/io/GraphSaver.java:18-62 | Loading the saved matrix text splits it back into the rows and assignment lines, and rebuilds a graph with the same neighbour sets. |
| GraphSaver.MatrixTextAssignmentsRoundTrip | GraphPartitioner/src/com/example/graphpartitioner/io/GraphSaver.java:54-60 | Loading the saved assignment lines gives back every vertex's part, and a partition exactly when some part is non-negative. |
| GraphSaver.SaveCsrrgText | GraphPartitioner/src/com/example/graphpartitioner/io/GraphSaver.java:68-176 | The writer emits exactly the CSRRG text: the part count, the grouped vertices, group offsets, the adjacency list, the row pointers and one sub-graph per part. |
| GraphSaver.MembersSpec | GraphPartitioner/src/com/example/graphpartitioner/io/GraphSaver.java:75-85 | A part's group holds exactly its vertices, in ascending order. |
| GraphSaver.GroupsCover | GraphPartitioner/src/com/example/graphpartitioner/io/GraphSaver.java:88-98 | Line 2 lists exactly the vertices assigned to a part below `partCount`. |
| GraphSaver.OffsetsDelimit | GraphPartitioner/src/com/example/graphpartitioner/io/GraphSaver.java:101-107 | The offsets start at 0, never decrease, end at the list length, and cut line 2 exactly into the groups. |
| GraphSaver.LocalIndexSpec | GraphPartitioner/src/com/example/graphpartitioner/io/GraphSaver.java:133-136 | The local index maps exactly the group's vertices to their positions. |
| GraphSaver.SubGraphEdges | GraphPartitioner/src/com/example/graphpartitioner/io/GraphSaver.java:139-153 | A part's sub-graph is well-formed and has local edge `i-e` if and only if the two group vertices are adjacent in the graph. |
| GraphSaver.PartSubGraph | GraphPartitioner/src/com/example/graphpartitioner/io/GraphSaver.java:128-174 | For each part, the written sub-graph is over exactly that part's vertices, with exactly the edges between them. |
| GraphSaver.CsrrgTextRoundTrip | GraphPartitioner/src/com/example/graphpartitioner/io/GraphSaver.java:68-176 | Loading the saved CSRRG text of a non-empty graph with 32-bit values gives back its row pointers and adjacency list, the saver's groups and offsets, and `|adjacency| / 2` edges. |
| GraphSaver.CsrrgEmptyRejected | GraphPartitioner/src/com/example/graphpartitioner/io/GraphSaver.java:120-125 | The text saved for an empty graph is refused by the loader. |
| GraphSaver.SingleRowPointerRejected | GraphPartitioner/src/com/example/graphpartitioner/io/GraphLoader.java:177-179 | A CSRRG text with a single row pointer is refused. |
| GrafC.ParseLine | Jimp-2-main/graf.c:26-88 | NULL if and only if no integer is found. Otherwise the integers that `strtol` reads between ';' and white-space separators, in order. A stretch that is not a number is skipped up to the next ';'. |
| GrafC.CountIntegers | Jimp-2-main/graf.c:37-51 | The first pass counts exactly those integers. |
| GrafC.FillIntegers | Jimp-2-main/graf.c:66-84 | The second pass stores exactly those integers. |
| GrafC.ScanSkip | Jimp-2-main/graf.c:47-50 | Text that is not a number is dropped up to the next ';'. |
| GrafC.ScanJoined | Jimp-2-main/graf.c:26-88 | A ';'-joined list of decimal integers parses back to exactly that list. |
| GrafC.ReadLine | Jimp-2-main/graf.c:91-135 | No line exactly at end of file. Otherwise the characters up to the next newline, with a trailing '\r' removed, and the rest after the newline. |
| GrafC.NextLineOfWritten | Jimp-2-main/graf.c:91-135 | A line written with a newline after it is read back unchanged. |
| GrafC.ReadLines | Jimp-2-main/graf.c:176-223 | The loop keeps the first five non-empty lines, in order, skipping empty ones. |
| GrafC.ReadCsrrgData | Jimp-2-main/graf.c:147-246 | NULL exactly when the file lacks a non-empty line 4 or 5 or has fewer than two row pointers. Otherwise it holds the values of the five lines. |
| GrafC.LoadGraf | Jimp-2-main/graf.c:249-304 | A graph if and only if the CSRRG data loads. It has `|row pointers| - 1 >= 1` vertices, the neighbour list as adjacency, and half the neighbour count as edges. |
| GrafC.SkippedLine | Jimp-2-main/graf.c:176-181 | An empty line is skipped and does not count toward the lines still wanted. |
| GrafC.KeptLine | Jimp-2-main/graf.c:176-183 | A non-empty line without carriage returns or newlines, written with its newline, is the next line read and uses up one of the lines still wanted. |
| GrafC.FiveLinesRead | Jimp-2-main/graf.c:176-183 | Five non-empty clean lines, each written with its newline, are exactly the first five lines read, in order, whatever follows them. |
| GrafC.FourthEmptyRead | Jimp-2-main/graf.c:176-183 | When the fourth written line is empty it is skipped, so the line after it is read as the fourth line. |
| GrafC.CReadsJavaCsrrg | Jimp-2-main/graf.c:147-246 | The C loader reads the Java saver's CSRRG text of a graph with edges and assigned vertices back as exactly its row pointers, adjacency list, groups and offsets. |
| GrafC.EdgelessGraphMisread | Jimp-2-main/graf.c:176-183 | For an edgeless graph the saver's empty fourth line is skipped, so whatever loads takes the row pointers as the neighbour list. |
| UtilsC.IsInteger | utils.c:42-74 | Accepts if and only if the string is non-null and is optional white space, an optional sign, at least one digit, and only white space after. |
| UtilsC.IntegerTextShape | utils.c:42-74 | The scanner's verdict is exactly the "spaces, sign, digits, spaces" shape. |
| UtilsC.NoDigitRejected | utils.c:57-73 | A string without digits is rejected. |
| UtilsC.SpaceInsideRejected | utils.c:60-68 | Digits, white space, then another digit are rejected. |
| UtilsC.IntegerTextStrtol | utils.c:126-160 | An accepted string is read completely by `strtol`, so `atoi` reads its value. |
| UtilsC.ParseArguments | utils.c:77-231 | The argument loop computes the parse. Any parsed result has a positive part count, a margin in 0..100, format "txt" or "bin", and one of the three algorithm names. |
| UtilsC.ArgumentStep | utils.c:103-215 | One switch step equals the step function for that argument. |
| UtilsC.ParseValid | utils.c:86-215 | Whatever the arguments, the parsed options are valid. |
| UtilsC.NoArguments | utils.c:86-99 | With no arguments the defaults are 2 parts, margin 10, "txt", "modulo", no hybrid and no files. |
| UtilsC.BareArguments | utils.c:204-215 | Arguments without '-' fill the input file, then the output file; further ones are ignored. |
| UtilsC.ValueConsumed | utils.c:110-188 | An option that takes a value always consumes the next argument, valid or not. |
| UtilsC.PartsOption | utils.c:126-142 | `-p v` sets the part count exactly when `v` is an integer above 0. Otherwise the default remains. |
| UtilsC.MarginOption | utils.c:144-160 | `-m v` sets the margin exactly when `v` is an integer from 0 to 100. |
| UtilsC.FormatOption | utils.c:162-173 | `-f v` sets the format exactly for "txt" or "bin". |
| UtilsC.AlgorithmOption | utils.c:175-188 | `-a v` sets the algorithm exactly for "modulo", "sekwencyjny" or "losowy". |
| UtilsC.HelpOption | utils.c:195-198 | `-h` ends parsing with the help outcome, whatever follows. |

## Left out

- **Printing, files and the process.** Console output (`System.out`,
  `printf`, `wyswietl_uzycie`, `wyswietl_podzial`) and file handles are
  left out. Files are modelled as their text, split into lines, or as
  bytes. `exit` after `-h` is the `HelpRequested` outcome.
- **Java null arguments and C NULL pointers or allocation failures.** These
  are not modelled: graphs are values and partitions are non-null
  references.
- **Errors are null results.** The initializers throw
  `IllegalArgumentException` for an empty graph or no parts; here they
  return null, as the C versions do. `findBestPartitionHybrid` throws where
  `findBestPartitionHybridSilent` returns null. The two run the same search
  and are both modelled by `Hybrid.FindBest`.
- **Verbose and silent variants are one member each.** They differ only in
  printing: `optimizeWithKernighanLin` and its silent version, and the two
  hybrid searches.
- **Floating point is exact.** Densities and perturbation ratios are exact
  fractions. The Java `(int)` cast is truncation.
- **32-bit overflow.** Integers are unbounded. Wrap-around of C `int`,
  Java `int` and `atoi` is not modelled. The round-trip lemmas require
  32-bit values, because the loaders parse with `Integer.parseInt`.
- **Randomness and hash order.** `Random`, `rand()` and `HashMap`
  iteration order are arbitrary choices. The C perturbation's unbounded
  redraw of a destination part is one choice of a different part.
- **The C writers.** `zapisz_podzial`, `zapisz_podzial_tekstowy` and
  `zapisz_podzial_binarny` (Jimp-2-main/podzial.c:318-689) are I/O-only
  writers and are not part of this model. The formats the C loader reads
  are stated against the Java saver.
- **UI, JNI and `main`.** The Swing UI, the JNI wrapper and `main.c` are
  callers, not part of the core.
- **String encoding.** Strings are sequences of characters. NUL-terminated C
  strings are required to contain no NUL (`CString`). There is no character
  encoding or locale.
- **A matrix cell written as "1.0".** The Java matrix loader splits cells on
  `[\s.]+` (GraphLoader.java:79), so the dot is itself a separator. Its
  "1.0" test (line 83) can never see that text, and the model reads such a
  cell as "1" followed by "0", as the code does.
- **Freeing memory.** `zwolnij_graf`, `zwolnij_podzial` and the other
  `free` calls are not modelled.
- Text.ParseInt: ASCII digits only. `Integer.parseInt` also accepts the
  other Unicode decimal digits (it checks each character with
  `Character.digit`), so a field such as "١٢" or fullwidth "１２" reads as
  12 in Java but is refused here. The loaders built on it
  (`GraphLoader.ParseIntegerList`, `GraphLoader.ParseAssignments`,
  `GraphLoader.LoadCsrrgText`, `GraphLoader.LoadSimpleAssignmentText`)
  inherit this, because the Unicode digit table is not modelled.
- PartitionUtils.CutEdges: its own contract is only a bound. What the
  count means is stated by `PartitionUtils.MoveChangesCutByGain` and
  `PartitionUtils.SinglePartHasNoCut`, and by the initializers, which
  cache it.
- PartitionUtils.NeighborsInPart: its own contract is only a bound. Its
  relation to moves is stated through `Gain` in
  `PartitionUtils.MoveChangesCutByGain`.
- KernighanLin.Pass: requires every vertex to be in a part when there are
  vertices and several parts. Every start the system builds satisfies
  this, and the pass does not handle unassigned vertices.
- Initializers.Dfs: requires every neighbour entry to be a vertex
  (`EntriesInRange`). On an out-of-range neighbour the Java search throws
  at `visited[neighbor]` (PartitionInitializer.java:122); that exception
  path is not modelled.
- Hybrid.DeterministicStage: requires in-range neighbour entries, because
  it runs the depth-first start; the exception that start throws otherwise
  is not modelled.
- Hybrid.DeterministicStage: the depth-first start is pinned down by its
  part sizes (`Initializers.GrownLayout`), not by the exact order in which
  the search reaches vertices, so the bound against it in
  `Hybrid.FindBest` holds for the start actually built but does not name it
  as a function of the graph.
- Hybrid.FindBest: requires in-range neighbour entries, for the depth-first
  start and the smart perturbation; the exceptions the Java search throws
  otherwise are not modelled.
- Hybrid.PerturbationStage: requires in-range neighbour entries, for the
  smart perturbation; the exception it throws otherwise is not modelled.
- Perturbation.ChooseTarget: requires in-range neighbour entries. The Java
  code reads `getAssignment(neighbor)` (Perturbation.java:146) and throws
  on an out-of-range neighbour; that path is not modelled.
- Perturbation.SmartStep: requires in-range neighbour entries, for the same
  read; the exception path is not modelled.
- Perturbation.SmartMoves: requires in-range neighbour entries, for the
  same read; the exception path is not modelled.
- Perturbation.Smart: requires in-range neighbour entries (see
  `Perturbation.ChooseTarget`) and every vertex in a part. For an
  unassigned vertex, `canMoveVertex` reads `partSizes[-1]`
  (PartitionUtils.java:148) and throws; that path is not modelled.
- Perturbation.Uniform: requires every vertex in a part. For an unassigned
  vertex, `canMoveVertex` reads `partSizes[-1]` (PartitionUtils.java:148)
  and throws; that path is not modelled. Every partition the search
  perturbs is fully assigned.
- Perturbation.PerturbC: requires every vertex in a part. For an unassigned
  vertex the C band check reads `rozmiary_czesci[-1]`
  (algorytm_hybrydowy.c:55), which is undefined behaviour and not modelled.
- GraphSaver.SaveAdjacencyMatrixText: requires a well-formed CSR graph. The
  Java writer reads each row through `getNeighbors`, which throws on
  malformed row pointers; that path is not modelled.
- GraphSaver.SaveCsrrgText: requires a well-formed CSR graph. The Java
  writer reads arbitrary arrays, and on malformed input it fails with an
  array index exception, which is not modelled.
- GraphSaver.CsrrgTextRoundTrip: holds for graphs with at least one
  vertex. The text of an empty graph is refused on reload
  (`GraphSaver.CsrrgEmptyRejected`).
- GrafC.LoadGraf: like the C code, it does not check that the loaded row
  pointers and neighbour list form a valid CSR graph.

## Findings

| source | as written | input that shows it | evidently intended | confidence | as-written member | corrected member |
|---|---|---|---|---|---|---|
| Jimp-2-main/podzial.c:215-251 | `inicjalizuj_podzial_losowy` allocates the partition with `malloc` and never sets `przeciete_krawedzie` itself; it relies on `zbalansuj_losowy_podzial`, which returns early for one part (lines 127-129) before its cut update (line 211), and `algorytm_kernighan_lin` also returns early for one part. The hybrid search then compares the uninitialised value (algorytm_hybrydowy.c:180). | any graph with `liczba_czesci = 1`, with the allocation holding a non-zero value in the cut field | the cached cut equals the recomputed cut (0 for one part) | not executed | Initializers.RandomStartC | Initializers.RandomStartCFixed |
