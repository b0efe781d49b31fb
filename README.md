# nwc-pattern-mining, modelled in Dafny

This project models the core of nwc-pattern-mining. The library mines
*non-compliant window co-occurrence* (NWC) patterns from multivariate sensor
readings. Each row of the input table is one reading. A flag column marks
the reading windows that are anomalous. A pattern is a run of
`pattern_length` consecutive values over a subset of the feature columns,
cut out of the table at one start row.

The model covers these parts of the library:

- **The subset lattice.**
  - `LatticeNode` (`LatticeNodes`) is one node.
  - `LatticeGraph` (`LatticeGraphs`) holds every non-empty subset of the `D` dimensions. Depth `t` holds the subsets with `D - t` dimensions. Each node keeps its parent list (immediate supersets) and its child list (immediate subsets).
  - The construction `_init_graph` is modelled as the nested loops it is (`BuildLattice` and its helpers). Their invariants live in `LatticeLists`.
  - The recursive pruning walk `prune_nodes_recursively` is proved to mark exactly the closure of its start node in the chosen direction (`PruneWalks`).
  - The older `LatticeGraph` (`LegacyLatticeGraphs`) exposes `create_node` and `init_graph` as separate calls, and keeps one dict of nodes per depth.
- **The sequence index.** `SequenceMap` (`StateGraphs`) records, for every feature column, the start rows of every run of `L` consecutive values (`init_seq_map`). It answers a pattern's occurrences as the intersection of its columns' start lists (`find_pattern_occurences`).
- **The pattern store.** `EnumeratedPattern` (`CandidatePatterns`) keeps the enumerated patterns with their metrics:
  - occurrence count;
  - join-set count against the anomalous windows, found through 50-row bins;
  - support, cross-K and confidence;
  - a flag per pattern.

  It also has memo lookup, threshold tests and the top-k / threshold queries (`Rankings`). The older store (`LegacyCandidatePatterns`) keeps the patterns in a list and counts against every window.
- **The pruning strategies.**
  - The Apriori walk (`SupportPrunings`, and `LegacySupportPrunings` for the older `prune_patterns`) goes from the singletons up. It prunes every superset of a pattern whose support falls below the threshold.
  - The upper-bound walk (`UBPrunings`) alternates Apriori passes from the bottom with cross-K upper-bound passes from the top. The top-down passes hand pattern counts down the lattice.
- **The driver.** `PatternMiner` (`PatternMiners`) tries, for every anomalous window and every lag, the interval `[w - lag, w - lag + L)`. It hands each valid interval not seen before to the strategy, once. It skips intervals that are out of bounds or that cross an invalid break index (binary search). It reports both the saved enumerations and the total.

Other modelling choices:

- A table is a list of named integer columns (`Frames`).
- A pattern key is the datatype of its sub-table (`Frames.Reconstruct`), in place of the string the library builds.
- Numbers that the library divides are `real`, and Python's true division is written out (`Ratio`).
- Python's negative indexing and slicing are written out (`PyIndex`, `PyPrefix`, `PySlice`, `PyGather`).
- Every `KeyError`, `IndexError`, `ValueError`, `ZeroDivisionError` and explicit `raise` in the modelled code is an `Err` of a `Result`.

Fixtures from the repository's tests are restated as lemmas and small methods:
- `StateGraphTests`;
- `CandidatePatternTests`;
- `LegacyCandidatePatternTests`;
- `LatticeGraphTests`.

## Model

| member | source | states |
|---|---|---|
| LatticeNodes.LatticeNode.constructor | src/nwc_pattern_miner/module/mining/latticenode.py:4-9 | a new node carries its tuple, has no parents or children, is not pruned, and has superpattern count -1 |
| LatticeNodes.LatticeNode.PruneNode | src/nwc_pattern_miner/module/mining/latticenode.py:14-15 | the node is pruned afterwards, and nothing but the flag may change |
| LatticeNodes.LatticeNode.AddParents | src/nwc_pattern_miner/module/mining/latticenode.py:17-21 | the new parent list is the old one followed by the given keys |
| LatticeNodes.LatticeNode.AddChildren | src/nwc_pattern_miner/module/mining/latticenode.py:26-30 | the new child list is the old one followed by the given keys |
| Subsets.ChildCombinationsExact | src/nwc_pattern_miner/module/mining/latticegraph.py:52 | as a set, `combinations(p, len(p) - 1)` of a key is exactly its immediate subsets |
| Subsets.ChildCombinationsDistinct | src/nwc_pattern_miner/module/mining/latticegraph.py:52 | the child combinations of a key are pairwise distinct |
| Subsets.ParentChildInverse | src/nwc_pattern_miner/module/mining/latticegraph.py:58-72 | c is one of p's child combinations exactly when p is an immediate superset of c |
| Subsets.AllKeysSize | src/nwc_pattern_miner/module/mining/latticegraph.py:17 | the lattice over D dimensions has 2^D - 1 keys |
| Subsets.HasParent | src/nwc_pattern_miner/module/mining/latticegraph.py:40-75 | every key below the full tuple has an immediate superset in the lattice |
| Subsets.FullKeyIsRange | src/nwc_pattern_miner/module/mining/latticegraph.py:37 | the only key with all D dimensions is `tuple(range(D))`, the queue's first entry |
| LatticeGraphs.PlaceNode | src/nwc_pattern_miner/module/mining/latticegraph.py:22-26 | `_create_node` stores a fresh, unlinked, unpruned node under the tuple and appends the tuple to its depth's order |
| LatticeGraphs.EnsureNode | src/nwc_pattern_miner/module/mining/latticegraph.py:64-69 | a missing depth is created, and the tuple's node is created only when no node exists for it yet; an existing node and its lists are kept |
| LatticeGraphs.AddChildren | src/nwc_pattern_miner/module/mining/latticegraph.py:58 | only the parent's child list changes, by appending the children in order |
| LatticeGraphs.AddParent | src/nwc_pattern_miner/module/mining/latticegraph.py:72 | only the child's parent list changes, by appending the parent |
| LatticeGraphs.LinkChildren | src/nwc_pattern_miner/module/mining/latticegraph.py:61-72 | the innermost loop creates each child once and appends the queued parent to each child's parent list |
| LatticeGraphs.LinkParent | src/nwc_pattern_miner/module/mining/latticegraph.py:45-72 | one pass of the middle loop creates the parent if needed, gives it its child combinations and queues them |
| LatticeGraphs.LinkLevel | src/nwc_pattern_miner/module/mining/latticegraph.py:41-75 | after one depth, the next depth holds exactly the immediate subsets of that depth's tuples, and each of them lists its parents so far |
| LatticeGraphs.BuildLattice | src/nwc_pattern_miner/module/mining/latticegraph.py:28-75 | `_init_graph` leaves, for D >= 2, exactly the keys of the lattice at depth D - size, each depth duplicate-free, and every node's parent and child lists naming exactly its immediate supersets and subsets; for D <= 1 it leaves only the empty depth 0 |
| LatticeGraphs.LatticeGraph.constructor | src/nwc_pattern_miner/module/mining/latticegraph.py:12-20 | the graph is built with nothing pruned and `num_of_nodes == 2^D - 1` |
| LatticeGraphs.LatticeGraph.NodeCount | src/nwc_pattern_miner/module/mining/latticegraph.py:17 | for D >= 2 the graph holds `num_of_nodes` nodes; for D <= 1 it holds none |
| LatticeGraphs.LatticeGraph.LevelContents | src/nwc_pattern_miner/module/mining/latticegraph.py:40-42 | depth t exists exactly for 0 <= t < D, and lists once each exactly the subsets with D - t dimensions |
| LatticeGraphs.LatticeGraph.ChildParentInverse | src/nwc_pattern_miner/module/mining/latticegraph.py:58-72 | c is in p's child list exactly when p is in c's parent list |
| LatticeGraphs.LatticeGraph.RootAndSingletons | src/nwc_pattern_miner/module/mining/latticegraph.py:37-72 | the full tuple has no parents, and a single dimension has no children |
| LatticeGraphs.LatticeGraph.GetNode | src/nwc_pattern_miner/module/mining/latticegraph.py:77-81 | the lookup succeeds exactly for a lattice key at depth D - size when D >= 2, and then returns the node carrying that key; otherwise it is a KeyError |
| LatticeGraphs.LatticeGraph.NeighbourList | src/nwc_pattern_miner/module/mining/latticegraph.py:23-33 | a node's parent (child) list names exactly its immediate supersets (subsets) |
| LatticeGraphs.LatticeGraph.MarkNode | src/nwc_pattern_miner/module/mining/latticegraph.py:104 | the pruned set grows by the key; nothing else changes |
| LatticeGraphs.LatticeGraph.PruneNodesRecursively | src/nwc_pattern_miner/module/mining/latticegraph.py:89-126 | a missing node is a KeyError and an already-pruned start node returns at once, both changing nothing; an unknown prune type raises after marking the start node; otherwise the pruned set grows by the walk from the key (`Walked`) |
| LatticeGraphs.LatticeGraph.PruneEach | src/nwc_pattern_miner/module/mining/latticegraph.py:122-124 | every neighbour in the list ends up pruned, and the walk from the key stays in progress |
| PruneWalks.PruneDirection | src/nwc_pattern_miner/module/mining/latticegraph.py:8 | 'parents' and 'children' are the two directions, and any other string is none |
| PruneWalks.ClosedReaches | src/nwc_pattern_miner/module/mining/latticegraph.py:110-124 | a set closed under steps in one direction that holds a key holds everything reachable from it in that direction |
| PruneWalks.WalkClosure | src/nwc_pattern_miner/module/mining/latticegraph.py:89-126 | from a closed pruned set, the walk adds exactly the keys reachable from its start: all supersets ('parents') or all subsets ('children'), the start included, and the result is closed again |
| LatticeGraphTests.FixtureCombinations | src/nwc_pattern_miner/tests/mining/test_latticegraph.py:11-24 | the child lists of the three-dimensional lattice come in the order the test prints: (0,1), (0,2), (1,2) under the root, and (0,), (1,) etc. under each pair |
| LatticeGraphTests.KeysOfThree | src/nwc_pattern_miner/tests/mining/test_latticegraph.py:11-24 | the lattice over three dimensions has exactly the seven keys the test lists |
| LatticeGraphTests.ChildrenOfZeroOne | src/nwc_pattern_miner/tests/mining/test_latticegraph.py:26-37 | the keys reachable from (0, 1) through child lists are (0, 1), (0,) and (1,) |
| LatticeGraphTests.ParentsOfZero | src/nwc_pattern_miner/tests/mining/test_latticegraph.py:39-49 | the keys reachable from (0,) through parent lists are (0,), (0, 1), (0, 2) and (0, 1, 2) |
| LatticeGraphTests.PruneChildrenFixture | src/nwc_pattern_miner/tests/mining/test_latticegraph.py:26-37 | pruning (0, 1) toward its children on a fresh lattice prunes exactly (0, 1), (0,) and (1,) |
| LatticeGraphTests.PruneParentsFixture | src/nwc_pattern_miner/tests/mining/test_latticegraph.py:39-49 | pruning (0,) toward its parents on a fresh lattice prunes exactly (0,), (0, 1), (0, 2) and the root, which empties depth 0 |
| LatticeGraphTests.ParentKeysOfZero | src/nwc_pattern_miner/tests/mining/test_latticegraph.py:11-24 | the immediate supersets of (0,) over three dimensions are exactly (0, 1) and (0, 2) |
| LatticeGraphTests.LegacyCreateAtOtherDepth | module/mining/latticegraph.py:13-23 | after `init_graph(3)`, `create_node(0, (0,))` stores a new unlinked node, and `get_node(2, (0,))` still returns the built singleton with parents (0, 1) and (0, 2) |
| LatticeGraphTests.ParentListOfZero | src/nwc_pattern_miner/tests/mining/test_latticegraph.py:11-24 | a list holding exactly the immediate supersets of (0,) over three dimensions holds exactly (0, 1) and (0, 2) |
| LatticeGraphTests.LegacyInitialized | module/mining/latticegraph.py:25-71 | after `init_graph(3)` on a fresh older graph, `get_node(2, (0,))` returns a node whose parents are exactly (0, 1) and (0, 2) |
| LegacyLatticeGraphs.LatticeGraph.constructor | module/mining/latticegraph.py:9-11 | a new graph has only an empty depth 0 |
| LegacyLatticeGraphs.LatticeGraph.GetNode | module/mining/latticegraph.py:13-17 | the lookup succeeds exactly when the depth's dict holds the tuple, returns the node that dict holds, and is a KeyError otherwise |
| LegacyLatticeGraphs.LatticeGraph.CreateNode | module/mining/latticegraph.py:19-23 | a missing depth is a KeyError that changes nothing; otherwise a fresh unlinked node is stored under the tuple in that depth's dict only, and every other lookup, the same tuple at another depth included, is unchanged |
| LegacyLatticeGraphs.LatticeGraph.InitGraph | module/mining/latticegraph.py:25-71 | `init_graph(D)` on a fresh graph fills each depth's dict with the subsets of size D - depth, each node linked to exactly its immediate supersets and subsets |
| LegacyLatticeGraphs.FreshLookup | module/mining/latticegraph.py:9-17 | on a fresh graph every lookup raises KeyError |
| LegacyLatticeGraphs.InitializedLookup | module/mining/latticegraph.py:13-17 | after `init_graph(D)` a lookup succeeds exactly for a lattice key at depth D - size when D >= 2, and returns the node carrying that key |
| LegacyLatticeGraphs.InitializedCount | module/mining/latticegraph.py:25-71 | after `init_graph(D)` there are 2^D - 1 tuples with a node for D >= 2, and for smaller D none, with only the empty depth 0 |
| LegacyLatticeGraphs.InitializedLevels | module/mining/latticegraph.py:36-61 | after `init_graph(D)` depth t exists exactly for 0 <= t < D, and its dict holds, and its order lists once each, exactly the subsets with D - t dimensions |
| LegacyLatticeGraphs.InitializedNeighbours | module/mining/latticegraph.py:48-68 | after `init_graph(D)` the node any lookup returns has exactly its immediate supersets as parents and its immediate subsets as children |
| Frames.PySlice | src/nwc_pattern_miner/module/pruning/support_pruning.py:32 | the slice `s[a:b]` is never longer than s, and with bounds inside 0..len(s) it is the elements from a up to b |
| Frames.PySliceFromEnd | src/nwc_pattern_miner/module/pruning/support_pruning.py:32 | a negative bound down to -len(s) reads as that bound plus len(s) |
| Frames.PySliceClamped | src/nwc_pattern_miner/module/pruning/support_pruning.py:32 | a bound beyond an end is clamped to it, and a start past the end, an end before the start or crossed bounds give an empty slice |
| Frames.Reconstruct | src/nwc_pattern_miner/module/pruning/support_pruning.py:27-33 | the pattern of a node is, for each listed dimension in order, its column's name and its rows `start:end` |
| Wrappers.PyIndexLast | src/nwc_pattern_miner/module/pruning/support_pruning.py:66-82 | index -1, passed for a window just enumerated, reads the entry just appended |
| Wrappers.PyIndexFromEnd | src/nwc_pattern_miner/module/mining/candidatepattern.py:169-180 | a negative index reads where it plus the length reads, and each position is read by exactly two indexes |
| Wrappers.PyPrefix | src/nwc_pattern_miner/module/mining/candidatepattern.py:206-208 | Python's `s[:k]`, with a negative k dropping elements from the end |
| Wrappers.PyGather | src/nwc_pattern_miner/module/mining/candidatepattern.py:219-223 | numpy's gather by an index list: an IndexError when some index is out of range, otherwise the elements in the order asked |
| StateGraphs.Features | module/patterncount/stategraph.py:13-14 | the feature columns are exactly the columns without the flag column's name, in table order |
| StateGraphs.IndexRuns | module/patterncount/stategraph.py:27-33 | the inner loop leaves the map that records every start row of the column under its run |
| StateGraphs.HitsFacts | module/patterncount/stategraph.py:27-33 | the reference start list holds exactly the rows where the run starts, strictly ascending |
| StateGraphs.IndexColumnHits | module/patterncount/stategraph.py:27-33 | indexing a column appends to each run's list exactly the rows where the run starts |
| StateGraphs.ColumnIndexFacts | module/patterncount/stategraph.py:23-33 | built from empty, a column's index holds a run exactly when the run starts somewhere, and then lists those rows in ascending order |
| StateGraphs.ColumnPartition | module/patterncount/stategraph.py:27-33 | every start row is listed under its own run and under no other |
| StateGraphs.IndexedRuns | module/patterncount/stategraph.py:17-33 | after indexing from empty, each feature column lists exactly the rows where each run starts |
| StateGraphs.SequenceMap.constructor | module/patterncount/stategraph.py:10-15 | keeps the table and its length, takes the feature columns, and starts with an empty index |
| StateGraphs.SequenceMap.InitSeqMap | module/patterncount/stategraph.py:17-38 | every feature column gets the index built from what it held before, and every other name keeps what it held |
| StateGraphs.SequenceMap.FindPatternOccurrences | module/patterncount/stategraph.py:40-56 | a column name with no index is a KeyError; a run missing from its column's index gives no occurrence; otherwise the result is, duplicate-free, exactly the rows that are in every column's start list |
| StateGraphs.SequenceMap.FoundWhereMatching | module/patterncount/stategraph.py:40-56 | after one `init_seq_map(L)` on a fresh map, a pattern of length L over feature columns occurs exactly at the rows where each column's run starts |
| StateGraphs.Keep | module/patterncount/stategraph.py:56 | the intersection keeps the members of the first list that are in every other list |
| StateGraphTests.EngineIndex | tests/patterncount/test_stategraph.py:20-35 | each feature column of the engine fixture gets the index the test expects |
| StateGraphTests.EngineIndexNames | tests/patterncount/test_stategraph.py:20-35 | the index holds exactly the three feature columns |
| StateGraphTests.EngineFind | tests/patterncount/test_stategraph.py:37-43 | rows 1..2 of the three feature columns occur only at row 1 |
| Joinsets.FullBounds | src/nwc_pattern_miner/module/mining/candidatepattern.py:110-135 | no more occurrences join than exist, and each joining occurrence joins at most lag + 1 windows |
| Joinsets.RangeHitsPositive | src/nwc_pattern_miner/module/mining/candidatepattern.py:128-130 | an occurrence is counted as joining exactly when one of its lag window's rows is an anomalous window |
| CandidatePatterns.BinsMembers | src/nwc_pattern_miner/module/mining/candidatepattern.py:57-64 | bin k holds exactly the anomalous windows `w` with `w // 50 == k` |
| CandidatePatterns.CreateShortWindows | src/nwc_pattern_miner/module/mining/candidatepattern.py:57-64 | the loop builds the bins of the anomalous windows, in list order |
| CandidatePatterns.BinnedIsFull | src/nwc_pattern_miner/module/mining/candidatepattern.py:66-73 | when lag + 1 <= 50, counting a lag window against its two bins gives the count against the whole window list |
| CandidatePatterns.JoinsetIsFull | src/nwc_pattern_miner/module/mining/candidatepattern.py:110-135 | with lag + 1 <= 50, the binned join-set counts equal the counts against every anomalous window |
| CandidatePatterns.JoinsetLower | src/nwc_pattern_miner/module/mining/candidatepattern.py:110-135 | the unique join-set count is at most the number of occurrences and at most the join-set count |
| CandidatePatterns.JoinsetUpper | src/nwc_pattern_miner/module/mining/candidatepattern.py:110-135 | the join-set count is at most lag + 1 times the unique count |
| CandidatePatterns.CountJoinsets | src/nwc_pattern_miner/module/mining/candidatepattern.py:110-135 | the accumulating loop yields the join-set and unique join-set counts of the occurrences |
| CandidatePatterns.OnboardedAppends | src/nwc_pattern_miner/module/mining/candidatepattern.py:75-101 | onboarding a key raises exactly on an empty occurrence list (division by the count) or zero readings; otherwise it appends one entry with the key, its counts and metrics, and the pattern count goes up by one |
| CandidatePatterns.ConsistentOnboard | src/nwc_pattern_miner/module/mining/candidatepattern.py:75-101 | onboarding a new key with occurrences over non-zero readings keeps every stored entry equal to the formulas of its occurrences |
| CandidatePatterns.EnumeratedPattern.constructor | src/nwc_pattern_miner/module/mining/candidatepattern.py:19-46 | for a non-empty window list the store starts empty, with `crossk_const = readings / len(anomalous_windows)` and the windows binned |
| CandidatePatterns.NewEnumeratedPattern | src/nwc_pattern_miner/module/mining/candidatepattern.py:19-46 | construction raises ZeroDivisionError exactly on an empty window list, and otherwise gives a fresh, consistent, empty store with its arguments |
| CandidatePatterns.EnumeratedPattern.FindPattern | src/nwc_pattern_miner/module/mining/candidatepattern.py:182-190 | -1 exactly when the key was never enumerated; otherwise the index under which the key is stored |
| CandidatePatterns.EnumeratedPattern.EnumeratePattern | src/nwc_pattern_miner/module/mining/candidatepattern.py:75-101 | a stored key changes nothing; a new key is onboarded, and afterwards it is found at the old pattern count |
| CandidatePatterns.EnumeratedPattern.Onboard | src/nwc_pattern_miner/module/mining/candidatepattern.py:87-99 | the fields become the onboarding step applied to the old fields |
| CandidatePatterns.EnumeratedPattern.FillPatternCounts | src/nwc_pattern_miner/module/mining/candidatepattern.py:103-108 | appends the occurrence list and its length |
| CandidatePatterns.EnumeratedPattern.FillPatternJoinsets | src/nwc_pattern_miner/module/mining/candidatepattern.py:110-135 | appends the binned join-set and unique join-set counts of the occurrences |
| CandidatePatterns.EnumeratedPattern.FillPatternMetrics | src/nwc_pattern_miner/module/mining/candidatepattern.py:137-150 | appends support, cross-K and confidence of the last entry; a zero count or zero readings raise ZeroDivisionError |
| CandidatePatterns.EnumeratedPattern.GetMetricValues | src/nwc_pattern_miner/module/mining/candidatepattern.py:152-167 | a metric name outside 'support', 'crossk', 'confidence' raises; otherwise one value per stored pattern |
| CandidatePatterns.EnumeratedPattern.IsAboveThreshold | src/nwc_pattern_miner/module/mining/candidatepattern.py:169-180 | an unknown metric or an index outside Python's range raises; otherwise the answer is whether the value reaches the threshold, written into that pattern's flag only |
| CandidatePatterns.EnumeratedPattern.GetPatternIndexes | src/nwc_pattern_miner/module/mining/candidatepattern.py:192-217 | an unknown metric or filter type raises; otherwise the result holds only flagged, stored indexes, as chosen by the top-k or threshold rule |
| CandidatePatterns.EnumeratedPattern.GetPatterns | src/nwc_pattern_miner/module/mining/candidatepattern.py:219-223 | an IndexError exactly when some index is out of Python's range; otherwise the stored keys in the order asked |
| CandidatePatterns.StoredMetrics | src/nwc_pattern_miner/module/mining/candidatepattern.py:137-150 | each stored entry's support, cross-K and confidence are the formulas applied to its counts |
| CandidatePatterns.StoredBounds | src/nwc_pattern_miner/module/mining/candidatepattern.py:110-150 | unique <= count, unique <= join-set <= (lag + 1) * unique, and 0 <= confidence <= 1 for every stored pattern |
| CandidatePatterns.StoredIsFull | src/nwc_pattern_miner/module/mining/candidatepattern.py:11 | with lag + 1 <= 50 (the bin size), the stored binned counts are the counts against every anomalous window |
| CandidatePatterns.TopKPatterns | src/nwc_pattern_miner/module/mining/candidatepattern.py:206-208 | top-k returns flagged indexes in ranking order (higher value first, lower index on ties), at most k of them, and every flagged index left out ranks after every index returned |
| CandidatePatterns.ThresholdPatterns | src/nwc_pattern_miner/module/mining/candidatepattern.py:210-212 | threshold mode returns exactly the flagged indexes whose value reaches the threshold, ascending |
| CandidatePatterns.PatternsRoundTrip | src/nwc_pattern_miner/module/mining/candidatepattern.py:182-223 | looking stored keys up with `find_pattern` and asking for those indexes with `get_patterns` returns the same keys |
| Rankings.Flagged | src/nwc_pattern_miner/module/mining/candidatepattern.py:203-204 | the positions whose flag is set, ascending |
| Rankings.Ranked | src/nwc_pattern_miner/module/mining/candidatepattern.py:206-207 | the stable descending sort is a permutation of its input |
| Rankings.RankedIsOrdered | src/nwc_pattern_miner/module/mining/candidatepattern.py:206-207 | sorting ascending candidates by value in reverse puts them in ranking order |
| Rankings.RankedUnique | src/nwc_pattern_miner/module/mining/candidatepattern.py:206-207 | two duplicate-free lists in ranking order with the same members are the same list, so the ranking is determined |
| Rankings.AtLeast | src/nwc_pattern_miner/module/mining/candidatepattern.py:210-212 | keeps, in order, exactly the candidates whose value reaches the threshold |
| Rankings.TopK | src/nwc_pattern_miner/module/mining/candidatepattern.py:206-208 | the top-k selection is in ranking order, holds only candidates, at most k of them, and ranks every left-out candidate after every chosen one |
| CandidatePatternTests.ClientMetrics | tests/test_pattern_mining_client.py:11-63 | the client fixture's five patterns have supports 5/9, 2/9, 3/9, 2/9, 3/9, cross-K 2.5, 3, 2.25, 3, 2.25 and confidence 1 |
| CandidatePatternTests.ClientThresholdQuery | tests/test_pattern_mining_client.py:65-81 | cross-K at least 2.5 selects patterns 0, 1 and 3 |
| CandidatePatternTests.ClientTopKQuery | tests/test_pattern_mining_client.py:83-98 | the two best supports are patterns 0 and 2 |
| LegacyCandidatePatterns.IndexOf | module/mining/candidatepattern.py:95-102 | -1 exactly when the key is absent; otherwise the first position holding it |
| LegacyCandidatePatterns.OnboardedAppends | module/mining/candidatepattern.py:33-51 | onboarding raises exactly on an empty occurrence list or zero readings; otherwise it appends one entry with the key, the call's lag, its counts and metrics |
| LegacyCandidatePatterns.ConsistentOnboard | module/mining/candidatepattern.py:33-51 | onboarding a new key keeps every stored entry equal to the formulas of its occurrences at its own lag |
| LegacyCandidatePatterns.CountJoinsets | module/mining/candidatepattern.py:60-78 | the accumulating loop yields the join-set and unique counts against every anomalous window |
| LegacyCandidatePatterns.PickAscending | module/mining/candidatepattern.py:154-159 | asking for ascending stored positions picks the keys there, in that order |
| LegacyCandidatePatterns.EnumeratedPattern.constructor | module/mining/candidatepattern.py:13-31 | for a non-empty window list the store starts empty, with `crossk_const = readings / len(anomalous_windows)` |
| LegacyCandidatePatterns.NewEnumeratedPattern | module/mining/candidatepattern.py:13-31 | construction raises ZeroDivisionError exactly on an empty window list, and otherwise gives a fresh, consistent, empty store with its arguments |
| LegacyCandidatePatterns.EnumeratedPattern.FindPattern | module/mining/candidatepattern.py:95-102 | -1 exactly when the key is absent; otherwise its first position in append order |
| LegacyCandidatePatterns.EnumeratedPattern.EnumeratePattern | module/mining/candidatepattern.py:33-51 | a stored key changes nothing; a new key is onboarded with the lag of the call |
| LegacyCandidatePatterns.EnumeratedPattern.FillPatternCounts | module/mining/candidatepattern.py:53-58 | appends the occurrence list and its length |
| LegacyCandidatePatterns.EnumeratedPattern.FillPatternJoinsets | module/mining/candidatepattern.py:60-78 | appends the join-set counts against every anomalous window |
| LegacyCandidatePatterns.EnumeratedPattern.FillPatternMetrics | module/mining/candidatepattern.py:80-93 | appends support, cross-K and confidence of the last entry; zero divisors raise |
| LegacyCandidatePatterns.EnumeratedPattern.GetMetricValues | module/mining/candidatepattern.py:104-119 | an unknown metric raises; otherwise one value per stored pattern |
| LegacyCandidatePatterns.EnumeratedPattern.IsAboveThreshold | module/mining/candidatepattern.py:121-128 | an unknown metric or an index outside Python's range raises; otherwise whether the value reaches the threshold |
| LegacyCandidatePatterns.EnumeratedPattern.GetPatternIndexes | module/mining/candidatepattern.py:130-152 | an unknown metric or kind raises; otherwise the top-k or threshold rule over all patterns |
| LegacyCandidatePatterns.EnumeratedPattern.GetPatterns | module/mining/candidatepattern.py:154-159 | positions outside the store are ignored; a stored key is returned exactly when its position is asked for, and the result is no longer than the store |
| LegacyCandidatePatterns.StoredBounds | module/mining/candidatepattern.py:60-93 | unique <= count, unique <= join-set <= (lag + 1) * unique, and 0 <= confidence <= 1 |
| LegacyCandidatePatterns.TopKPatterns | module/mining/candidatepattern.py:130-152 | top-k returns indexes in ranking order, at most k, and each index left out ranks after each one returned |
| LegacyCandidatePatterns.ThresholdPatterns | module/mining/candidatepattern.py:130-152 | threshold mode returns exactly the indexes whose value reaches the threshold, ascending |
| LegacyCandidatePatterns.PatternsOrderFree | module/mining/candidatepattern.py:154-159 | the order and repetition of the asked positions do not change the answer |
| LegacyCandidatePatterns.PatternsRoundTrip | module/mining/candidatepattern.py:95-159 | asking for the position `find_pattern` gives for a stored key returns that key |
| LegacyCandidatePatternTests.LegacyMetrics | tests/mining/test_candidatepattern.py:63-69 | the fixture's supports are 5/9, 2/9, 3/9, 2/9, 3/9, its cross-K 2.5, 3, 2.25, 3, 2.25 and its confidences 1 |
| LegacyCandidatePatternTests.LegacyFindFirst | tests/mining/test_candidatepattern.py:71-73 | the first key enumerated is found at 0 |
| LegacyCandidatePatternTests.LegacyTopKQuery | tests/mining/test_candidatepattern.py:75-78 | top-1 by support is pattern 0 |
| LegacyCandidatePatternTests.LegacyThresholdQuery | tests/mining/test_candidatepattern.py:80-83 | cross-K at least 2.7 selects patterns 1 and 3 |
| LegacyCandidatePatternTests.LegacyPatterns | tests/mining/test_candidatepattern.py:93-96 | `get_patterns([0, 2])` returns the first and third keys |
| LegacyCandidatePatternTests.LegacyAboveThreshold | tests/mining/test_candidatepattern.py:98-100 | pattern 0's cross-K reaches 2.2 |
| SupportPrunings.NewKeys | src/nwc_pattern_miner/module/pruning/support_pruning.py:66-76 | the windows the walk enumerated, in visiting order, are a sub-list of the visited windows |
| SupportPrunings.SupportPruning.constructor | src/nwc_pattern_miner/module/pruning/support_pruning.py:15-25 | keeps its arguments; the strategy is consistent exactly when the table is well formed and the store consistent |
| SupportPrunings.SupportPruning.EvaluateNode | src/nwc_pattern_miner/module/pruning/support_pruning.py:62-87 | a stored window keeps the store as it is; a new one is enumerated with its occurrences; the result is the support test of the window's entry, written into its flag |
| SupportPrunings.SupportPruning.Enumerate | src/nwc_pattern_miner/module/pruning/support_pruning.py:66-76 | a window not stored yet is enumerated with the occurrences the sequence index finds for it |
| SupportPrunings.SupportPruning.EvaluateDims | src/nwc_pattern_miner/module/pruning/support_pruning.py:58-87 | a dimension that is not a column is an IndexError that changes nothing; otherwise the node's window is cut out of the table and evaluated |
| SupportPrunings.SupportPruning.PruneFrom | src/nwc_pattern_miner/module/pruning/support_pruning.py:80-87 | a node that fails the test prunes itself and all its supersets (the 'parents' walk) |
| SupportPrunings.SupportPruning.VisitNode | src/nwc_pattern_miner/module/pruning/support_pruning.py:51-87 | a pruned node is skipped with nothing changed; an unpruned one is visited, and pruned with its supersets when it fails |
| SupportPrunings.SupportPruning.WalkLevel | src/nwc_pattern_miner/module/pruning/support_pruning.py:49-87 | after one depth every node of the depth is looked at, and the flag is true exactly when no visit at this depth passed the test. The store keeps its entries and grows by the new windows in visiting order, each appended with the occurrences the sequence index finds for it and flagged by its support test; the pruned set stays closed under supersets |
| SupportPrunings.SupportPruning.WalkDepths | src/nwc_pattern_miner/module/pruning/support_pruning.py:48-90 | the depths are walked from the singletons up, and every key up to the last size walked is looked at. Each size before the last had a visit that passed, and the last is the full size or had none. The store keeps its entries and grows by the new windows in visiting order, each with the occurrences the sequence index finds for it and flagged by its support test. The pruned set is exactly the supersets of the failed visits. Visits go by non-decreasing size, no node twice, never into a superset of a failed visit |
| SupportPrunings.SupportPruning.PruneAndEnumeratePatterns | src/nwc_pattern_miner/module/pruning/support_pruning.py:35-92 | on success the store keeps its entries and grows only by the visits' new windows; each new window is stored with the occurrences `find_pattern_occurences` returns for it, and flagged by its support test. Every visit's window is the node's reconstruction. Visits go by size and avoid supersets of failures. Every key up to the last size walked is visited or a superset of a failed visit. The walk goes past a size only when a visit of it passed. The answer is 2^D - 1 minus the windows enumerated, never negative |
| LegacySupportPrunings.SupportPruning.constructor | module/pruning/support_pruning.py:16-25 | keeps its arguments and builds the template lattice over the dimensions, unpruned |
| LegacySupportPrunings.SupportPruning.EvaluateNode | module/pruning/support_pruning.py:61-85 | a stored window is not kept; a new window is enumerated and kept exactly when it passes the support test |
| LegacySupportPrunings.SupportPruning.EvaluateDims | module/pruning/support_pruning.py:57-85 | a dimension that is not a column is an IndexError that changes nothing; otherwise the node's window is cut out and evaluated |
| LegacySupportPrunings.SupportPruning.VisitNode | module/pruning/support_pruning.py:49-85 | a pruned node is skipped and counted; an unpruned one is visited, and pruned with its supersets when it is not kept |
| LegacySupportPrunings.SupportPruning.WalkDepths | module/pruning/support_pruning.py:48-85 | every depth is walked from the singletons up, each node looked at once. The store keeps its entries and grows by the new windows, each appended with the occurrences the sequence index finds for it; a new window is judged by its support test and a stored one is not kept. The pruned set is exactly the supersets of the visits that were not kept |
| LegacySupportPrunings.SupportPruning.Finished | module/pruning/support_pruning.py:48-87 | once every key is looked at, each key is pruned or visited, and the count plus the windows enumerated is the number of keys |
| LegacySupportPrunings.SupportPruning.PrunePatterns | module/pruning/support_pruning.py:34-87 | the template lattice is left as it was. The store keeps its entries and grows by the visits, a window being new exactly when it was neither stored nor seen earlier in the walk; each new window is stored with the occurrences `find_pattern_occurences` returns for it. The pruned set is exactly the supersets of the visits not kept, and no visit enters one. Every key is pruned or visited. The answer plus the windows enumerated is 2^D - 1 for D >= 2 and 0 otherwise |
| UBPrunings.MaxJointLargest | src/nwc_pattern_miner/module/pruning/ub_pruning.py:110-114 | the maximum over the node's dimensions is the largest recorded singleton count, or -1 when none is recorded |
| UBPrunings.GetJointSingletonCount | src/nwc_pattern_miner/module/pruning/ub_pruning.py:103-122 | the loop returns the largest recorded count among the node's dimensions, -1 when none is recorded |
| UBPrunings.UpperBound | src/nwc_pattern_miner/module/pruning/ub_pruning.py:145-155 | `crossk_const * (leaf / count)`, a ZeroDivisionError on a zero count |
| UBPrunings.RaisedTwice | src/nwc_pattern_miner/module/pruning/ub_pruning.py:213-222 | handing a count down twice is handing it down once, and a larger count subsumes a smaller one |
| UBPrunings.MaxValue | src/nwc_pattern_miner/module/pruning/ub_pruning.py:202-210 | `max` of the recorded counts is one of them and no smaller than any; an empty dict raises ValueError |
| UBPrunings.UnsetNeverBounds | src/nwc_pattern_miner/module/pruning/ub_pruning.py:145-155 | a node whose superpattern count was never set (-1) is never pruned by the upper bound |
| UBPrunings.UBPruning.constructor | src/nwc_pattern_miner/module/pruning/ub_pruning.py:20-34 | keeps its arguments with no singleton count recorded |
| UBPrunings.UBPruning.Propagate | src/nwc_pattern_miner/module/pruning/ub_pruning.py:213-222 | every child's superpattern count becomes the larger of its own and the handed-down count |
| UBPrunings.UBPruning.AprioriNode | src/nwc_pattern_miner/module/pruning/ub_pruning.py:51-99 | a visited singleton has its stored join-set count recorded, and a node that fails the support test is pruned with its supersets. No superpattern count changes |
| UBPrunings.UBPruning.AprioriPass | src/nwc_pattern_miner/module/pruning/ub_pruning.py:44-101 | after a depth the answer is true exactly when every node of the depth is pruned. The looks added are the depth's nodes that were unpruned, in dict order, all Apriori looks. The trace is kept: a look prunes exactly when its window fails the support test; the store keeps its entries and grows by the new windows with the occurrences the sequence index finds for them. Every visited singleton has its count recorded. No superpattern count changes |
| UBPrunings.UBPruning.ExpandStep | src/nwc_pattern_miner/module/pruning/ub_pruning.py:184-199 | a new window is enumerated, its cross-K and then its support flag are tested, the flag equals the support test, and its pattern count is returned |
| UBPrunings.UBPruning.RootStop | src/nwc_pattern_miner/module/pruning/ub_pruning.py:202-210 | at the root the bound from the largest recorded count decides whether the walk stops |
| UBPrunings.UBPruning.HandDown | src/nwc_pattern_miner/module/pruning/ub_pruning.py:213-222 | the larger of the node's pattern count and its superpattern count becomes the floor of each child's superpattern count |
| UBPrunings.UBPruning.UpperExpand | src/nwc_pattern_miner/module/pruning/ub_pruning.py:158-222 | a stored window answers at once (stopping only at the root, pruning below it); a new one is enumerated, tested and handed down |
| UBPrunings.UBPruning.BoundPrune | src/nwc_pattern_miner/module/pruning/ub_pruning.py:145-155 | below the root, the node is pruned exactly when its upper bound is positive and below the threshold |
| UBPrunings.UBPruning.UpperPass | src/nwc_pattern_miner/module/pruning/ub_pruning.py:124-224 | one upper-bound pass over a depth looks at the depth's unpruned nodes in dict order, none by an Apriori look. Each look obeys its rule: below the root it is a bound look that prunes exactly when 0 < bound < threshold, with the bound from the largest recorded singleton count and its node's superpattern count as the pass began. A pass hands down only to the next size, so its own counts stay as they were while it runs, and the counts after it are those it began with, handed down by each of its looks in order. The store grows by the windows counted, each with the index's occurrences. A stop comes only at depth 0, after a look at the full tuple that found its window stored, or fresh with a bound below the threshold |
| UBPrunings.UBPruning.Walk | src/nwc_pattern_miner/module/pruning/ub_pruning.py:235-258 | the trace is kept over the whole walk. The pruned set is exactly the supersets of the looks that pruned, and no node is looked at twice or inside such a superset. The store is logged look by look, with each new window's occurrences from the sequence index. Every look obeys its rule: an Apriori look prunes exactly when it fails the support test; below the root an upper-bound look is a bound look exactly when 0 < bound < threshold, with its largest singleton count from the recorded counts. On exit every node of the depths walked from both ends is looked at or pruned. Every Apriori size before the last kept a node unpruned. The ends have crossed, or the last pass stopped: an Apriori pass that pruned its whole size, or the last look being a root whose window was stored or fresh with a bound below the threshold. The answer is what the store grew by, and every singleton's count is recorded. The lattice's superpattern counts are the walk's starting counts handed down by every look so far, in order, and each upper-bound look below the root took its node's count from the counts the looks before it had handed down. The looks so far split into passes that alternate, from the first: an Apriori pass at depth D-1, an upper-bound pass at depth 0, an Apriori pass at depth D-2, an upper-bound pass at depth 1, and so on; each pass looks at the nodes of its depth unpruned when it began, in dict order, and only by its own kind of look, one pass per move of an end |
| UBPrunings.UBPruning.PruneAndEnumeratePatterns | src/nwc_pattern_miner/module/pruning/ub_pruning.py:226-260 | on success the store keeps its entries, and each new window is stored with the occurrences `find_pattern_occurences` returns for it. The answer is 2^D - 1 minus the windows the looks enumerated, never negative. Over the lattice's keys, the trace with each look's support or bound rule, the coverage of the walked depths, and the stop rule with its reason (an Apriori size pruned whole, or the root's bound) hold as for `Walk`. Every singleton's count is recorded when D >= 2. Each upper-bound look below the root took its node's superpattern count from the fresh lattice's counts (all -1) handed down by every earlier look, in order. The looks so far split into passes that alternate, from the first: an Apriori pass at depth D-1, an upper-bound pass at depth 0, an Apriori pass at depth D-2, an upper-bound pass at depth 1, and so on; each pass looks at the nodes of its depth unpruned when it began, in dict order, and only by its own kind of look (dict order being that of the lattice's depth lists, which hold each depth's keys once). So the looks run in order of rank: an Apriori look at size s has rank 2(s-1) and an upper-bound look at size s has rank 2(D-s)+1 |
| UBPrunings.PassDone | src/nwc_pattern_miner/module/pruning/ub_pruning.py:57-61 | after a pass every node of its depth is looked at or pruned, and the pass looked only at nodes of that depth |
| UBPrunings.ExactStep | src/nwc_pattern_miner/module/pruning/ub_pruning.py:92-97 | pruning exactly the supersets of a look that prunes keeps the pruned set equal to the supersets of the pruning looks |
| UBPrunings.TraversalStep | src/nwc_pattern_miner/module/pruning/ub_pruning.py:57-61 | a look at an unpruned lattice node not looked at before keeps every look distinct from, and outside the supersets pruned by, the earlier ones |
| UBPrunings.LoggedStep | src/nwc_pattern_miner/module/pruning/ub_pruning.py:72-79 | a look that evaluated its window, or one that left the store alone, extends the log: the store's entries kept, new windows appended in order, each tested window flagged with its support test |
| UBPrunings.SteppedGrew | src/nwc_pattern_miner/module/pruning/ub_pruning.py:184-190 | the store grows by one pattern for a look that enumerated a new window and by none for any other |
| UBPrunings.RootOnly | src/nwc_pattern_miner/module/pruning/ub_pruning.py:171-174 | depth 0 lists at most one node, the full tuple |
| UBPrunings.DeeperKept | src/nwc_pattern_miner/module/pruning/ub_pruning.py:92-97 | a pass whose looks all have one size leaves the pruned set as it was at every smaller size |
| UBPrunings.GoingBottom | src/nwc_pattern_miner/module/pruning/ub_pruning.py:243-249 | an Apriori pass keeps the stop rule: every earlier size still has an unpruned node, and the pass answers true when its own size is all pruned |
| UBPrunings.GoingTop | src/nwc_pattern_miner/module/pruning/ub_pruning.py:252-257 | an upper-bound pass above the Apriori depths leaves the stop rule as it was |
| UBPrunings.ReachedStep | src/nwc_pattern_miner/module/pruning/ub_pruning.py:57-61 | a pass that looked at exactly its depth's unpruned nodes adds that depth to the walked ones, at the end it works from |
| UBPrunings.WalkBottomStep | src/nwc_pattern_miner/module/pruning/ub_pruning.py:246-250 | an Apriori pass moves the bottom end up, adds its windows to the total, and keeps the nodes walked among the lattice's keys |
| UBPrunings.WalkTopStep | src/nwc_pattern_miner/module/pruning/ub_pruning.py:253-258 | an upper-bound pass moves the top end down, adds its windows to the total, and keeps the nodes walked among the lattice's keys |
| UBPrunings.LevelFull | src/nwc_pattern_miner/module/pruning/ub_pruning.py:99-101 | a depth whose every node is pruned leaves every node of its size pruned |
| UBPrunings.BottomUpDone | src/nwc_pattern_miner/module/pruning/ub_pruning.py:246-250 | after the Apriori pass, with the bottom end moved up, the walk's state, the walked depths, the recorded singleton counts, the stop rule and its reason all carry over |
| UBPrunings.UBPruning.TraceStep | src/nwc_pattern_miner/module/pruning/ub_pruning.py:57-99 | a look at an unpruned node not looked at before, which pruned as its rule says and stepped the store, extends the trace |
| UBPrunings.UBPruning.AprioriStepDone | src/nwc_pattern_miner/module/pruning/ub_pruning.py:57-99 | after the j-th node of an Apriori pass the pass state and the trace move one node on; a node pruned at the start adds no look |
| UBPrunings.UBPruning.AprioriVisit | src/nwc_pattern_miner/module/pruning/ub_pruning.py:57-99 | a pruned node is skipped with nothing changed; a dimension that is not a column is an IndexError; otherwise the node's window is looked up or enumerated, and a failed support test prunes the node and its supersets. No superpattern count changes |
| UBPrunings.UBPruning.AprioriStep | src/nwc_pattern_miner/module/pruning/ub_pruning.py:57-99 | one node of the Apriori loop moves the pass state on by that node: the node is looked at once if it was unpruned and skipped otherwise, and the answer so far is whether every node up to it is pruned. The trace, with each look's support rule and the store's growth by the index's occurrences, is kept. No superpattern count changes |
| UBPrunings.UBPruning.AprioriLoop | src/nwc_pattern_miner/module/pruning/ub_pruning.py:53-101 | the loop over the depth's nodes looks, in order, at exactly the nodes unpruned when it began, each by an Apriori look that prunes exactly when its window fails the support test. The answer says whether every node is pruned, and the store grows by the new windows with the index's occurrences. No superpattern count changes |
| UBPrunings.UBPruning.UpperVisit | src/nwc_pattern_miner/module/pruning/ub_pruning.py:144-222 | below the root a zero count is a ZeroDivisionError, and a bound strictly between 0 and the threshold prunes the node and its supersets without a lookup. Otherwise the node's look obeys its rule: it is a bound look exactly when 0 < bound < threshold, with the bound from the largest recorded singleton count among its dimensions and the node's superpattern count; a stored window prunes below the root and stops at it; a fresh root stops exactly when the bound from the largest recorded count over its pattern count is below the threshold. The superpattern counts become those handed down by the look, and the store steps by the window's occurrences from the sequence index |
| UBPrunings.UBPruning.UpperNode | src/nwc_pattern_miner/module/pruning/ub_pruning.py:138-222 | a pruned node is skipped with nothing changed. An unpruned one is visited as `UpperVisit` states: the look is pruned by the bound exactly when 0 < bound < threshold below the root, its bound comes from the largest recorded singleton count and its node's superpattern count, and a fresh root stops exactly when its bound is below the threshold |
| UBPrunings.UBPruning.UpperStep | src/nwc_pattern_miner/module/pruning/ub_pruning.py:138-222 | one node of the upper-bound loop moves the pass state and the trace on by that node. Each look obeys its rule: below the root it is a bound look exactly when 0 < bound < threshold, and a fresh root stops exactly when its bound is below the threshold. The superpattern counts are the ones handed down by the pass's looks so far, each look's bound taken from them. A stop comes only at depth 0, after a look at the root, and is the last look |
| UBPrunings.UBPruning.TopDown | src/nwc_pattern_miner/module/pruning/ub_pruning.py:253-258 | the upper-bound pass at the top end moves it down by one and adds its windows to the total. It keeps the trace, including each look's bound rule and the store's growth by the index's occurrences. It keeps the walked depths and the stop rule. A stop is the root's and is the last look. Every upper-bound look took its largest singleton count from the recorded counts. The lattice's superpattern counts are the walk's starting counts handed down by every look so far, in order, and each upper-bound look below the root took its node's count from the counts the looks before it had handed down. Its looks extend the earlier ones by the depth's nodes unpruned when it began, and the passes so far stay in the alternating order, this one the upper-bound pass at its depth |
| UBPrunings.UBPruning.WalkTop | src/nwc_pattern_miner/module/pruning/ub_pruning.py:252-258 | the top-down half of a turn runs a pass only when the ends have not crossed and nothing stopped. It keeps the walk's state, the recorded counts, the trace with each look's bound rule, the coverage, and the stop rule. A stop is an Apriori size pruned whole, or the last look being the root's. The lattice's superpattern counts are the walk's starting counts handed down by every look so far, in order, and each upper-bound look below the root took its node's count from the counts the looks before it had handed down. The passes so far stay in the alternating order, with one pass for each move of either end |
| UBPrunings.UBPruning.WalkTurn | src/nwc_pattern_miner/module/pruning/ub_pruning.py:243-258 | one turn of the while loop moves the bottom end up by one and the top end down by at most one. It keeps the walk's state, the recorded counts, the trace with each look's bound rule, the coverage, and the stop rule. A stop is an Apriori size pruned whole, or the last look being the root's. The lattice's superpattern counts are the walk's starting counts handed down by every look so far, in order, and each upper-bound look below the root took its node's count from the counts the looks before it had handed down. The passes so far stay in the alternating order, one pass for each move of either end |
| UBPrunings.UBPruning.BottomUp | src/nwc_pattern_miner/module/pruning/ub_pruning.py:243-250 | the Apriori pass at the bottom end moves it up by one and adds its windows to the total. Its looks are all Apriori looks, added after the earlier ones, and no superpattern count changes. It keeps the walk's state, the recorded counts, the trace, the coverage and the stop rule, whose stop is its size pruned whole. On success its looks extend the earlier ones by the depth's nodes unpruned when it began, and the passes so far stay in the alternating order, this one the Apriori pass at its depth |
| UBPrunings.UBPruning.WalkFresh | src/nwc_pattern_miner/module/pruning/ub_pruning.py:235-258 | the walk over a fresh lattice: the store grows by what the looks enumerated, at most the 2^D - 1 nodes, and everything `PruneAndEnumeratePatterns` states holds of it, with the looks in the alternating pass order and so in order of rank |
| UBPrunings.PassesNext | src/nwc_pattern_miner/module/pruning/ub_pruning.py:243-258 | a pass whose looks are the unpruned nodes of the next depth in the alternation (Apriori passes at depth D-1-t, upper-bound passes at depth t), all of its kind, extends the alternating split of the looks by one pass |
| UBPrunings.PassKept | src/nwc_pattern_miner/module/pruning/ub_pruning.py:243-258 | a later pass leaves every earlier pass of the split as it was |
| UBPrunings.EndsOrdered | src/nwc_pattern_miner/module/pruning/ub_pruning.py:243-258 | the passes of the split end in order |
| UBPrunings.PassContaining | src/nwc_pattern_miner/module/pruning/ub_pruning.py:243-258 | every look of the walk lies in a pass of the split at or after any pass that starts at or before it |
| UBPrunings.RankOfPass | src/nwc_pattern_miner/module/pruning/ub_pruning.py:243-258 | a look of the k-th pass has rank k: the k-th pass is the Apriori pass at size k/2 + 1 when k is even and the upper-bound pass at size D - (k-1)/2 when k is odd |
| UBPrunings.PassesRanked | src/nwc_pattern_miner/module/pruning/ub_pruning.py:243-258 | when the looks split into alternating passes, their ranks are below the number of passes and never decrease along the walk |
| UBPrunings.HandedAt | src/nwc_pattern_miner/module/pruning/ub_pruning.py:146-149 | across the walk, the i-th look, when it is an upper-bound look below the root, read its node's superpattern count from the starting counts handed down by the i looks before it |
| UBPrunings.HandedPass | src/nwc_pattern_miner/module/pruning/ub_pruning.py:212-222 | an upper-bound pass over one size carries the walk's hand-down on: its looks read the counts as the pass began, which are the counts after every earlier look, and the pass leaves the counts handed down by its own looks |
| UBPrunings.HandedBottom | src/nwc_pattern_miner/module/pruning/ub_pruning.py:243-250 | an Apriori pass hands nothing down, so the walk's hand-down carries over it unchanged |
| UBPrunings.AfterLooksSplit | src/nwc_pattern_miner/module/pruning/ub_pruning.py:212-222 | handing down the looks of the walk so far and then those of the next pass is handing down all of them |
| UBPrunings.SameSizeKept | src/nwc_pattern_miner/module/pruning/ub_pruning.py:217-222 | looks at nodes of one size hand down only to their children, so the counts of their own size stay |
| UBPrunings.SupportKept | src/nwc_pattern_miner/module/pruning/ub_pruning.py:44-101 | Apriori looks leave every superpattern count as it was |
| PatternMiners.BinarySearch | src/nwc_pattern_miner/module/patternminer.py:78-83 | -1 or an index holding x; on a sorted list, -1 exactly when x is absent, and otherwise the first index holding x |
| PatternMiners.TriesAt | src/nwc_pattern_miner/module/patternminer.py:39-43 | the k-th try for window w is the interval `[w - (lag - k), w - (lag - k) + L)` |
| PatternMiners.IntervalsAt | src/nwc_pattern_miner/module/patternminer.py:38-43 | tries come window by window in list order, each window's lags from `lag` down to 0 |
| PatternMiners.HandedSound | src/nwc_pattern_miner/module/patternminer.py:45-54 | every interval handed to the strategy was tried, is admissible, and was not visited at the start |
| PatternMiners.HandedOnce | src/nwc_pattern_miner/module/patternminer.py:45-54 | no interval is handed twice |
| PatternMiners.HandedComplete | src/nwc_pattern_miner/module/patternminer.py:45-54 | every admissible try not visited at the start is handed |
| PatternMiners.MinedExactly | src/nwc_pattern_miner/module/patternminer.py:30-59 | the intervals handed are duplicate-free, and an interval is handed exactly when it is tried, admissible and not visited before |
| PatternMiners.SumBound | src/nwc_pattern_miner/module/patternminer.py:53-57 | when every strategy answer lies in 0..m - 1, the saved total lies in 0..(number of calls) * (m - 1) |
| PatternMiners.Prune | src/nwc_pattern_miner/module/patternminer.py:53-54 | either strategy's answer lies in `0..2^D - 1` |
| PatternMiners.PatternMiner.constructor | src/nwc_pattern_miner/module/patternminer.py:13-28 | lag, reading count and windows come from the store, and nothing is visited yet |
| PatternMiners.PatternMiner.IsValidSeq | src/nwc_pattern_miner/module/patternminer.py:61-90 | on a sorted break list, true exactly when the interval is inside the readings, not visited, and no break index lies strictly inside it |
| PatternMiners.PatternMiner.Try | src/nwc_pattern_miner/module/patternminer.py:45-54 | a valid interval is added to the visited set and handed to the strategy; an invalid one changes nothing |
| PatternMiners.PatternMiner.MineWindow | src/nwc_pattern_miner/module/patternminer.py:39-54 | the inner loop hands exactly the valid tries of the window, in order |
| PatternMiners.PatternMiner.Mine | src/nwc_pattern_miner/module/patternminer.py:30-59 | the calls are exactly the valid tries in order, each added to the visited set; the answer is the saved enumerations and `valid_seq_count * (2^D - 1)`, with 0 <= saved <= total |

## Left out

- The printing of results and progress, the `tqdm` bars, `sys.getsizeof` and the `print_fun` logging. They produce output only.
- StateGraphs.Keep: `find_pattern_occurences` returns `list(set(...).intersection(...))`, whose order Python leaves to set iteration. The model fixes it to the order of the first run's list. No contract here depends on that order; only `get_pattern_metrics`' `x[0]`, which is not modelled, would see it.
- `__str__`, `_get_graph_as_dict` and `beautify` of the lattice, and `__str__` and `get_pattern_metrics` of both stores. These only format data for display; the metrics they read are proved in `StoredMetrics`.
- `get_graph` of the lattice is not a member: the strategies iterate its per-depth dicts through it, and the model reads the lattice's `levels` (each depth's keys in dict order) and `nodes` directly.
- The pattern mining client, the utilities (`stringify_dataframe`, data loading) and the command-line entry point. They are not part of this model.
- LegacyCandidatePatterns.EnumeratedPattern.FillPatternMetrics: the older `fill_pattern_metrics` stores `round(..., 4)` of each metric, and its threshold and top-k queries compare those rounded values, so near a four-decimal boundary the source and the model can answer differently (a support of 0.49996 passes a threshold of 0.5 in the source and fails here). The rounding is dropped with the rest of floating point, and the metrics are kept exact.
- The `'min'` branch of `_get_joint_singleton_count`. The strategy only ever asks for `'max'`.
- module/mining/latticenode.py (the older node) is not part of this model. The older graph uses the current `LatticeNode`, whose interface it calls in the same way.
- Pattern keys are a datatype of column names and values. The library uses a string built from the sub-table, which is assumed to be injective.
- Numbers are `real` and exact. Floating-point round-off in support, cross-K and confidence is not modelled.
- `copy.deepcopy` of the template lattice in the older `prune_patterns` is modelled as building a fresh lattice over the same dimensions, which is what a copy of the untouched template holds. `LegacySupportPrunings.SupportPruning.PrunePatterns` proves the template is left unchanged.
- CandidatePatterns.EnumeratedPattern.constructor: requires a non-empty anomalous-window list, because a Dafny constructor cannot end in an error. The ZeroDivisionError Python raises on an empty list is modelled by `CandidatePatterns.NewEnumeratedPattern`, which calls the constructor only on a non-empty list.
- LegacyCandidatePatterns.EnumeratedPattern.constructor: requires a non-empty anomalous-window list for the same reason. `LegacyCandidatePatterns.NewEnumeratedPattern` models the raise.
- LegacyLatticeGraphs.LatticeGraph.InitGraph: requires a fresh graph, because calling `init_graph` twice (which creates nodes over existing ones) is not modelled.
- LatticeGraphs.LatticeGraph.NeighbourList: parent and child lists are stated set-wise. The order of the parent lists is not stated; the order of the child lists is proved only for the three-dimensional fixture (`LatticeGraphTests.FixtureCombinations`).
- LatticeGraphs.LatticeGraph.PruneNodesRecursively: the count of pruned nodes it returns is not modelled. The count is added to itself at each recursive call (line 123), so only the pruned set is stated.
- LatticeNodes.LatticeNode.PruneNode: idempotence is stated through the frame, because only `isPruned` may change.
- PatternMiners.PatternMiner.IsValidSeq: the if-and-only-if is stated for a sorted break list only, because `bisect_left` needs one. Unsorted lists are covered only by the one-way implication.
- PatternMiners.PatternMiner.Mine: requires a sorted break list, for the same reason.
- PatternMiners.PatternMiner.Try: requires a sorted break list, because its validity test is stated through `IsValidSeq`'s if-and-only-if, which needs one.
- PatternMiners.PatternMiner.Step: requires a sorted break list, for the same reason as `Try`.
- PatternMiners.PatternMiner.MineWindow: requires a sorted break list, for the same reason as `Try`.
- PatternMiners.PatternMiner.Mine: when the strategy fails part way, the calls made are stated as a prefix of the valid tries, and the rest is not modelled.
- The pruning-strategy fixtures of src/nwc_pattern_miner/tests/pruning/test_support_pruning.py:35-50 and src/nwc_pattern_miner/tests/pruning/test_ub_pruning.py:38-53, and the mining fixture of tests/test_patternminer.py:37-50, are not restated. Their expected counts depend on a whole mining run over a fixture table. The general contracts of the strategies state which nodes a walk visits and prunes, and in which order (for the upper-bound strategy, the alternating passes and their dict order within a depth), but they do not compute those counts for the fixture tables.
- The older lattice test at tests/mining/test_latticegraph.py:6-24 compares printed text. Its content is covered set-wise by `LegacyLatticeGraphs.InitializedNeighbours` and `InitializedLevels`.
- The older support pruning is modelled against the current lattice and store. Its calls on them (`get_graph`, `is_node_pruned`, `prune_nodes_recursively`, `find_pattern`, `enumerate_pattern`, `is_above_threshold`) behave the same.
