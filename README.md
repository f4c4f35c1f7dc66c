# Risky-path engine of the cloud-security graph backend

This project models the part of the backend that turns a log of cloud events
into an attack-path report:

- **build_graph**: collects the entities named by the log, indexes them,
  derives one directed edge per log row, codes the entity types, and
  aggregates per-node features;
- **to_networkx**: converts the indexed graph into a directed simple graph
  (a `DiGraph` whose adjacency lists keep insertion order);
- **score_path**: scores a path by the anomaly scores of its nodes;
- **analyze_paths**: picks start and end candidates, enumerates every simple
  directed path of bounded length between them, scores the paths, and sorts
  the findings;
- **result assembly** in `run_full_pipeline`: builds the node, edge and
  risky-path tables for the frontend, keeping the ten riskiest paths.

Modules, one per source file:

| module | file | what it holds |
|---|---|---|
| `SeqUtil` | `seq_util.dfy` | Option/Result, duplicate-freedom, first-seen deduplication (`drop_duplicates`, `unique`), substring test, `str.join` |
| `BuildGraph` | `build_graph.dfy` | events, entity table, index maps, edge index, type codes, the per-node feature loop, `Build` |
| `GraphConverter` | `graph_converter.dfy` | class `DiGraph` with `AddNode`/`AddEdge`, `ToNetworkx`, the edge set and the adjacency dictionary |
| `PathScoring` | `path_scoring.dfy` | `ScorePath` and its set-based characterisation |
| `AnalyzePaths` | `analyze_paths.dfy` | role predicates, candidates, the depth-first search, findings, the stable sort, `AnalyzePaths` |
| `Process` | `process.dfy` | node, edge and path tables, `AssembleResults`, `RunPipeline` |

Numbers are exact `real`s. The anomaly table is an input sequence of
`(node_index, anomaly_score, prediction)` records. A path score is
`Finite(v)` or `PosInf`, the empty path's sentinel.

The imperative parts keep the source's form:
- the per-node feature loop of build_graph;
- the two loops of to_networkx over a `DiGraph` object;
- the pair loops of analyze_paths;
- the table-building loops of the pipeline.

Each of these is a method proved against a specification function. What the
source promises is proved as lemmas about those functions.

`ToNetworkx` builds a `DiGraph` whose successor lists keep the order of each
edge's first insertion, as networkx's adjacency dictionary does. The search
`PathsFrom` tries the successors in that order. It skips nodes already on the
path and stops at the target, as `all_simple_paths` does. `SimplePathsSpec`
proves that the search yields exactly the simple paths within the cutoff,
each once. `AdjacencyRoutes` proves that these are exactly the routes over
the edge set of the edge index, so the adjacency order affects only the
order of discovery.

Where the specification and the code differ, the model follows the code:

- An id logged with two different types yields two entity rows. `id_to_idx`
  then keeps the later index, `idx_to_id` has a gap, and the lookup at
  build_graph.py line 124 raises. The model returns
  `Failure(MissingIndex(i))` for the first missing index. `Build` fails
  exactly when some id carries two types.
- The node record's anomaly fields come from `.loc[i]` on the table indexed
  by `node_index`. The model takes the first row naming `i`.
- The anomaly detector returns its table sorted by score, so row k need not
  name node k. The lemmas about the detector's table assume only that each
  node is named by one row.

## Model

| member | source | states |
|---|---|---|
| SeqUtil.Dedup | backend/malaphor_mvp/data_processing/build_graph.py:104 | `drop_duplicates`: the result has no repeats, holds exactly the input's elements, and is no longer than the input |
| SeqUtil.DedupFirstSeen | backend/malaphor_mvp/data_processing/build_graph.py:104 | deduplication keeps first-seen order: earlier in the result means first seen earlier in the input |
| SeqUtil.DedupPrefix | backend/malaphor_mvp/data_processing/build_graph.py:104 | deduplicating a prefix of the rows gives a prefix of the entity table |
| SeqUtil.IndexOf | backend/malaphor_mvp/data_processing/build_graph.py:140 | the position of the first occurrence: in range, holds x, and x does not occur before it |
| SeqUtil.NoDupCount | backend/malaphor_mvp/path_analysis/analyze_paths.py:53-60 | in a duplicate-free list every element occurs exactly once |
| SeqUtil.ContainsOccurs | backend/malaphor_mvp/path_analysis/analyze_paths.py:30-31 | Python's `sub in s` holds exactly when sub occurs at some position of s |
| SeqUtil.FirstAt | backend/malaphor_mvp/path_analysis/analyze_paths.py:30-31 | when `sub in s` holds, sub occurs at the returned position and at no earlier one |
| SeqUtil.JoinEnds | backend/malaphor_mvp/process.py:137 | `sep.join(parts)` is empty for no parts; otherwise it starts with the first part, followed by the separator when there are more, and ends with the last |
| SeqUtil.JoinLength | backend/malaphor_mvp/process.py:137 | `" -> ".join(parts)` is as long as the parts plus one separator between each two |
| BuildGraph.FeatureVectorMean | backend/malaphor_mvp/data_processing/build_graph.py:129-140 | a feature row has three entries: the type code, summed feature1, and the mean of feature2 (0 when nothing was counted, otherwise times the count it gives the sum) |
| BuildGraph.SourceRows | backend/malaphor_mvp/data_processing/build_graph.py:102 | one (source id, source type) pair per row, in row order |
| BuildGraph.TargetRows | backend/malaphor_mvp/data_processing/build_graph.py:103 | one (target id, target type) pair per row, in row order |
| BuildGraph.EntityRowsLayout | backend/malaphor_mvp/data_processing/build_graph.py:102-104 | the concatenated table has two pairs per log row: row k's source pair at k and its target pair at n + k |
| BuildGraph.Entities | backend/malaphor_mvp/data_processing/build_graph.py:104 | the entity table has no repeated pair and holds both end pairs of every log row |
| BuildGraph.EntitiesFromLog | backend/malaphor_mvp/data_processing/build_graph.py:102-104 | every pair of the entity table is the source or target pair of some log row |
| BuildGraph.EntityIds | backend/malaphor_mvp/data_processing/build_graph.py:107 | the id column of the entity table, position by position |
| BuildGraph.IndexMap | backend/malaphor_mvp/data_processing/build_graph.py:107 | `id_to_idx` holds every id, and each index it records points back at that id |
| BuildGraph.IndexMapLast | backend/malaphor_mvp/data_processing/build_graph.py:107 | a repeated id keeps its last index: the id does not occur after the recorded position |
| BuildGraph.InverseIndex | backend/malaphor_mvp/data_processing/build_graph.py:108 | `idx_to_id` maps each index it holds to the id at that position |
| BuildGraph.IndexBijection | backend/malaphor_mvp/data_processing/build_graph.py:107-108 | for distinct ids, every position is indexed, and `idx_to_id[id_to_idx[x]] == x` |
| BuildGraph.InverseIndexDense | backend/malaphor_mvp/data_processing/build_graph.py:104-124 | `idx_to_id` covers every position exactly when no id repeats in the entity table |
| BuildGraph.EntityIdsDistinct | backend/malaphor_mvp/data_processing/build_graph.py:104-107 | entity ids are distinct exactly when every id is logged with one type |
| BuildGraph.DenseIffOneType | backend/malaphor_mvp/data_processing/build_graph.py:104-124 | the per-node loop finds an id for every index exactly when no id has two types |
| BuildGraph.EndpointsAreEntities | backend/malaphor_mvp/data_processing/build_graph.py:102-113 | both ids of every row are in the entity table, so both lookups succeed |
| BuildGraph.EdgeIndex | backend/malaphor_mvp/data_processing/build_graph.py:112-114 | one (source index, target index) column per row, in row order |
| BuildGraph.EntityTypes | backend/malaphor_mvp/data_processing/build_graph.py:118 | the type column of the entity table, position by position |
| BuildGraph.UniqueTypes | backend/malaphor_mvp/data_processing/build_graph.py:118 | every entity's type is in the type vocabulary |
| BuildGraph.Incoming | backend/malaphor_mvp/data_processing/build_graph.py:125 | every returned row is a log row targeting the id, and every log row targeting the id is returned |
| BuildGraph.Outgoing | backend/malaphor_mvp/data_processing/build_graph.py:126 | every returned row is a log row leaving the id, and every log row leaving the id is returned |
| BuildGraph.IncomingConcat | backend/malaphor_mvp/data_processing/build_graph.py:125 | filtering a split log filters each part and keeps log order |
| BuildGraph.OutgoingConcat | backend/malaphor_mvp/data_processing/build_graph.py:126 | filtering a split log filters each part and keeps log order |
| BuildGraph.IncidentAggregates | backend/malaphor_mvp/data_processing/build_graph.py:125-138 | the branchy accumulation of feature2 and its count yields the sums over incoming plus outgoing rows |
| BuildGraph.NodeFeatureOf | backend/malaphor_mvp/data_processing/build_graph.py:140 | the node's row takes the type code of the first entity row with its id, then the incident aggregates |
| BuildGraph.AggregateFeatures | backend/malaphor_mvp/data_processing/build_graph.py:122-143 | fails at the first index with no id; otherwise every index has an id and row i is the feature row of idx_to_id[i] |
| BuildGraph.AssembledIndexed | backend/malaphor_mvp/data_processing/build_graph.py:104-114 | the built graph's index maps cover the log and its edges are one per row |
| BuildGraph.AssembledTypes | backend/malaphor_mvp/data_processing/build_graph.py:118-140 | each node's type code is the position of its type in the vocabulary |
| BuildGraph.AssembledSums | backend/malaphor_mvp/data_processing/build_graph.py:125-138 | each node's feature1 sum, feature2 sum and count are those of its incident rows |
| BuildGraph.Build | backend/malaphor_mvp/data_processing/build_graph.py:92-157 | build_graph succeeds exactly when every id has one type, and then returns a well-formed graph built from the log |
| BuildGraph.IncidentFeature1Snoc | backend/malaphor_mvp/data_processing/build_graph.py:125-128 | one more row adds its feature1 once for each end that is the id |
| BuildGraph.IncidentFeature2Snoc | backend/malaphor_mvp/data_processing/build_graph.py:125-138 | one more row adds its feature2 to the sum, and one to the count, once for each end that is the id |
| BuildGraph.SelfLoopCountedTwice | backend/malaphor_mvp/data_processing/build_graph.py:125-128 | a self-loop row is counted twice, as incoming and as outgoing |
| BuildGraph.Feature1Handshake | backend/malaphor_mvp/data_processing/build_graph.py:125-128 | feature1 summed over all nodes is twice the log's total feature1 |
| BuildGraph.SumFeature2Bounds | backend/malaphor_mvp/data_processing/build_graph.py:132-135 | a feature2 sum lies between count times the least and count times the greatest value |
| BuildGraph.MeanFeature2Bounds | backend/malaphor_mvp/data_processing/build_graph.py:129-138 | a node's mean feature2 lies between the log's least and greatest feature2 |
| BuildGraph.MeanBounds | backend/malaphor_mvp/data_processing/build_graph.py:137-138 | the division by the count keeps a bounded total's mean within the bounds |
| GraphConverter.DiGraph.constructor | backend/malaphor_mvp/utils/graph_converter.py:10 | a new DiGraph is empty |
| GraphConverter.DiGraph.AddNode | backend/malaphor_mvp/utils/graph_converter.py:16 | `add_node` sets the node's attributes, keeps its successors, and keeps the graph simple |
| GraphConverter.DiGraph.AddEdge | backend/malaphor_mvp/utils/graph_converter.py:28 | `add_edge` adds missing endpoints without attributes and appends the target to the source's successors unless it is already there |
| GraphConverter.WithNode | backend/malaphor_mvp/utils/graph_converter.py:28 | the node dictionary gains the endpoint and keeps every existing entry |
| GraphConverter.WithList | backend/malaphor_mvp/utils/graph_converter.py:28 | the adjacency dictionary gains the endpoint and keeps every existing list |
| GraphConverter.Linked | backend/malaphor_mvp/utils/graph_converter.py:28 | only the source's list changes, and it then holds the target |
| GraphConverter.LinkKeepsSimple | backend/malaphor_mvp/utils/graph_converter.py:28 | adding an edge keeps every successor list free of repeats and every successor a node |
| GraphConverter.ToNetworkx | backend/malaphor_mvp/utils/graph_converter.py:10-31 | the nodes are the indices and the endpoints, index i carries the i-th id and feature row, and each node's successors are its targets in first-insertion order |
| GraphConverter.AddNodes | backend/malaphor_mvp/utils/graph_converter.py:13-16 | after the node loop the nodes are exactly 0..n-1 with their attributes and no successors |
| GraphConverter.AddEdges | backend/malaphor_mvp/utils/graph_converter.py:19-28 | after the edge loop each node's successors are those of the whole edge index |
| GraphConverter.NodeStep | backend/malaphor_mvp/utils/graph_converter.py:27-28 | one more column keeps the indexed nodes' attributes and adds its endpoints without attributes |
| GraphConverter.LinkStep | backend/malaphor_mvp/utils/graph_converter.py:27-28 | one more column turns the successor lists of the first k columns into those of the first k + 1 |
| GraphConverter.NotAnEndpoint | backend/malaphor_mvp/utils/graph_converter.py:27-28 | a node no column names has no successors |
| GraphConverter.SuccessorsAreEdges | backend/malaphor_mvp/utils/graph_converter.py:27-28 | v is a successor of u exactly when (u, v) is in the edge set |
| GraphConverter.EdgeSetMembership | backend/malaphor_mvp/utils/graph_converter.py:19-28 | (s, d) is an edge exactly when some column of the edge index is (s, d) |
| GraphConverter.DirectionKept | backend/malaphor_mvp/utils/graph_converter.py:27-28 | an edge does not imply its reverse |
| GraphConverter.EdgeCountBound | backend/malaphor_mvp/utils/graph_converter.py:10-28 | there are at most as many edges as columns |
| GraphConverter.ParallelEdgesCollapse | backend/malaphor_mvp/utils/graph_converter.py:10-28 | example: two equal columns give a single edge |
| GraphConverter.NoNewNodes | backend/malaphor_mvp/utils/graph_converter.py:13-28 | when every endpoint is below n, the edges add no node beyond 0..n-1 |
| GraphConverter.Adjacency | backend/malaphor_mvp/utils/graph_converter.py:10-28 | the adjacency dictionary of 0..n-1: every index a node, each list its successors, no repeats, no foreign nodes |
| GraphConverter.AdjacencyEdges | backend/malaphor_mvp/utils/graph_converter.py:27-28 | an adjacency edge is exactly an edge-set edge, and both its ends are below n |
| PathScoring.ScoreLe | backend/malaphor_mvp/path_analysis/analyze_paths.py:65 | the sort key's order: +inf is above everything, numbers compare by value |
| PathScoring.ScoreLeTotalOrder | backend/malaphor_mvp/path_analysis/analyze_paths.py:65 | that order is reflexive, total, transitive and antisymmetric, with +inf its only maximum |
| PathScoring.RowsOnPath | backend/malaphor_mvp/path_analysis/path_scoring.py:31 | `isin` selects only table rows whose node is on the path |
| PathScoring.ScorePath | backend/malaphor_mvp/path_analysis/path_scoring.py:20-41 | the score is +inf exactly for the empty path |
| PathScoring.RowsOnPathSum | backend/malaphor_mvp/path_analysis/path_scoring.py:31-41 | the sum of the selected rows is the score of the path's node set |
| PathScoring.ScoreIsSetScore | backend/malaphor_mvp/path_analysis/path_scoring.py:31-41 | a non-empty path scores the set score of its nodes, including 0 when no row matches |
| PathScoring.ScoreOrderFree | backend/malaphor_mvp/path_analysis/path_scoring.py:31-41 | paths with the same node set score the same: order does not matter |
| PathScoring.RepeatNotCounted | backend/malaphor_mvp/path_analysis/path_scoring.py:31 | a repeated node is not counted twice |
| PathScoring.NoRowsScoreZero | backend/malaphor_mvp/path_analysis/path_scoring.py:33-35 | a non-empty path none of whose nodes has a row scores 0 |
| PathScoring.UnscoredNodeAddsZero | backend/malaphor_mvp/path_analysis/path_scoring.py:31-41 | a node without a row adds nothing |
| PathScoring.NoRowsInSet | backend/malaphor_mvp/path_analysis/path_scoring.py:31-41 | rows of nodes outside the set add nothing |
| PathScoring.SetScoreUnion | backend/malaphor_mvp/path_analysis/path_scoring.py:41 | the score of disjoint node sets adds up |
| PathScoring.SetScoreOfDistinct | backend/malaphor_mvp/path_analysis/path_scoring.py:41 | the set score of distinct nodes is the sum of their individual scores |
| PathScoring.ScoreIsSumOverDistinctNodes | backend/malaphor_mvp/path_analysis/path_scoring.py:31-41 | a path scores the sum over its distinct nodes of each node's score |
| PathScoring.NodeScoreFromTable | backend/malaphor_mvp/path_analysis/path_scoring.py:31-41 | a node named by exactly one row, wherever the score sort put that row, scores that row's score |
| PathScoring.ThreeNodeExample | backend/malaphor_mvp/path_analysis/path_scoring.py:31-41 | example: nodes scored -0.1, -0.5 and 0.2 give the path -0.4 |
| AnalyzePaths.RolesByOccurrence | backend/malaphor_mvp/path_analysis/analyze_paths.py:30-31 | a node is a start exactly when "user" occurs in its type or "vm_z" in its id, and an end exactly when "db" or "sg" occurs in its type or "s3" in its id |
| AnalyzePaths.Candidates | backend/malaphor_mvp/path_analysis/analyze_paths.py:30-34 | the candidates are exactly the indices with the role, in ascending order |
| AnalyzePaths.IncreasingNoDup | backend/malaphor_mvp/path_analysis/analyze_paths.py:33-34 | the candidate lists have no repeats |
| AnalyzePaths.PathsFrom | backend/malaphor_mvp/path_analysis/analyze_paths.py:53 | the depth-first search yields only paths of graph nodes |
| AnalyzePaths.PathsVia | backend/malaphor_mvp/path_analysis/analyze_paths.py:53 | the search through the remaining successors yields only paths of graph nodes |
| AnalyzePaths.Through | backend/malaphor_mvp/path_analysis/analyze_paths.py:53 | the search through one successor yields only paths of graph nodes |
| AnalyzePaths.SimplePaths | backend/malaphor_mvp/path_analysis/analyze_paths.py:53 | `all_simple_paths` yields only paths of graph nodes |
| AnalyzePaths.PathsFromSpec | backend/malaphor_mvp/path_analysis/analyze_paths.py:53 | the search yields exactly the simple extensions to the target within the budget, each once |
| AnalyzePaths.PathsViaSpec | backend/malaphor_mvp/path_analysis/analyze_paths.py:53 | from position k on, the search yields exactly the extensions whose next node is listed from k on, each once |
| AnalyzePaths.ThroughSpec | backend/malaphor_mvp/path_analysis/analyze_paths.py:53 | through successor w, the search yields exactly the extensions whose next node is w, each once |
| AnalyzePaths.ExtendsToTarget | backend/malaphor_mvp/path_analysis/analyze_paths.py:53 | reaching the target ends the path: that step is its only extension through the target |
| AnalyzePaths.StepEquivalence | backend/malaphor_mvp/path_analysis/analyze_paths.py:53 | extending p + [w] is extending p with w next |
| AnalyzePaths.SimplePathsSpec | backend/malaphor_mvp/path_analysis/analyze_paths.py:53 | the paths are exactly the simple paths from source to target with at most cutoff edges, each once; none when cutoff < 1 |
| AnalyzePaths.AdjacencyRoutes | backend/malaphor_mvp/path_analysis/analyze_paths.py:26-53 | over the converted graph, the simple paths are exactly the routes over the edge index's edge set |
| AnalyzePaths.AdjacencyRoute | backend/malaphor_mvp/path_analysis/analyze_paths.py:26-53 | the same for one path |
| AnalyzePaths.ConvertedAdjacency | backend/malaphor_mvp/path_analysis/analyze_paths.py:26 | the converted graph's successor lists are the adjacency of 0..n-1 |
| AnalyzePaths.FindingOfPath | backend/malaphor_mvp/path_analysis/analyze_paths.py:55-60 | a finding holds the path, each node's id in path order, and a score that is +inf exactly for the empty path and otherwise the sum of its distinct nodes' scores |
| AnalyzePaths.IdsOfDistinct | backend/malaphor_mvp/path_analysis/analyze_paths.py:58 | a path without repeated nodes gets ids without repeats |
| AnalyzePaths.Records | backend/malaphor_mvp/path_analysis/analyze_paths.py:53-60 | each finding is one of the paths, with score_path's score and the ids mapped through idx_to_id |
| AnalyzePaths.PathsOfRecords | backend/malaphor_mvp/path_analysis/analyze_paths.py:53-60 | the findings hold the paths in enumeration order |
| AnalyzePaths.RecordPaths | backend/malaphor_mvp/path_analysis/analyze_paths.py:53-60 | the loop over one pair's paths appends exactly their findings |
| AnalyzePaths.StartRecords | backend/malaphor_mvp/path_analysis/analyze_paths.py:45-62 | the loop over the ends for one start appends exactly that start's findings, skipping the end equal to the start |
| AnalyzePaths.AllRecords | backend/malaphor_mvp/path_analysis/analyze_paths.py:44-62 | the loop over the starts appends exactly the findings of all pairs |
| AnalyzePaths.AnalyzePaths | backend/malaphor_mvp/path_analysis/analyze_paths.py:9-68 | analyze_paths returns the discovered findings sorted by score |
| AnalyzePaths.Insert | backend/malaphor_mvp/path_analysis/analyze_paths.py:65 | inserting adds exactly the new finding |
| AnalyzePaths.SortByScore | backend/malaphor_mvp/path_analysis/analyze_paths.py:65 | the sort is a permutation of the findings |
| AnalyzePaths.InsertSorted | backend/malaphor_mvp/path_analysis/analyze_paths.py:65 | inserting into a sorted list keeps it sorted |
| AnalyzePaths.SortSorted | backend/malaphor_mvp/path_analysis/analyze_paths.py:65 | the result is in ascending score order, +inf last |
| AnalyzePaths.InsertStable | backend/malaphor_mvp/path_analysis/analyze_paths.py:65 | inserting puts the new finding after those with an equal score |
| AnalyzePaths.SortStable | backend/malaphor_mvp/path_analysis/analyze_paths.py:65 | the sort is stable: each score's findings keep discovery order |
| AnalyzePaths.PathsOfPermutation | backend/malaphor_mvp/path_analysis/analyze_paths.py:65 | permuting the findings permutes their paths |
| AnalyzePaths.PairTailCount | backend/malaphor_mvp/path_analysis/analyze_paths.py:46-60 | one pair's findings hold each simple path between them once, and none when start equals end |
| AnalyzePaths.PairCount | backend/malaphor_mvp/path_analysis/analyze_paths.py:45-60 | one start's findings hold each simple path to a different end once, and nothing else |
| AnalyzePaths.StartCount | backend/malaphor_mvp/path_analysis/analyze_paths.py:44-60 | all pairs' findings hold each simple path from a start to a different end once, and nothing else |
| AnalyzePaths.DiscoveredCount | backend/malaphor_mvp/path_analysis/analyze_paths.py:30-60 | every risky route is discovered exactly once, and no other path is |
| AnalyzePaths.ShortLimitFindsNothing | backend/malaphor_mvp/path_analysis/analyze_paths.py:53 | a limit below two nodes finds nothing, and the empty result is returned normally |
| AnalyzePaths.PairSound | backend/malaphor_mvp/path_analysis/analyze_paths.py:45-60 | every finding of one start is a risky route with its own score and ids |
| AnalyzePaths.StartSound | backend/malaphor_mvp/path_analysis/analyze_paths.py:44-60 | every finding of the starts is a risky route with its own score and ids |
| AnalyzePaths.DiscoveredSound | backend/malaphor_mvp/path_analysis/analyze_paths.py:30-60 | every discovered finding is a simple path of at most max_path_length nodes from a start to a different end, scored and named as score_path and idx_to_id say |
| AnalyzePaths.AnalysisResult | backend/malaphor_mvp/path_analysis/analyze_paths.py:30-65 | the result is sorted, stable, sound, and holds every risky route exactly once |
| Process.NodeRecordOf | backend/malaphor_mvp/process.py:95-111 | node i's record carries its id as id and label, its own type, its feature row and its index, and a score exactly when it has a prediction |
| Process.ScoredNode | backend/malaphor_mvp/process.py:101-108 | a scored node carries the score and prediction of the first row naming it |
| Process.AnomalyRow | backend/malaphor_mvp/process.py:93-101 | no row exactly when no record names the node; otherwise the first record naming it |
| Process.NodeTable | backend/malaphor_mvp/process.py:95-111 | one node record per index, in index order |
| Process.DetectorTableRow | backend/malaphor_mvp/process.py:93-101 | a row that is the only one naming its node is that node's row, wherever the score sort put it |
| Process.DetectorTableScores | backend/malaphor_mvp/process.py:101-108 | a node named by exactly one row gets that row's score and prediction |
| Process.UnscoredNode | backend/malaphor_mvp/process.py:101-108 | score and prediction are None exactly when no row names the node, and together |
| Process.NodeIdsDistinct | backend/malaphor_mvp/process.py:96-104 | node records have distinct ids |
| Process.EdgeTable | backend/malaphor_mvp/process.py:114-121 | one edge record per log row, in row order; parallel edges are kept |
| Process.EdgeEndsAreNodes | backend/malaphor_mvp/process.py:116-120 | both ends of every edge record are node ids |
| Process.TypedLabel | backend/malaphor_mvp/process.py:132 | the label starts with the id, followed by " (", the type and ")" |
| Process.TypedLabels | backend/malaphor_mvp/process.py:129-132 | one label per zipped pair, stopping at the shorter list, each naming that id and the type of that index |
| Process.PathWithTypes | backend/malaphor_mvp/process.py:128-137 | the labels "id (type)" of the zipped ids and indices, joined with " -> " |
| Process.FindingLabels | backend/malaphor_mvp/process.py:129-132 | for a finding there is one label per node, naming its own id and type |
| Process.PathRecordOf | backend/malaphor_mvp/process.py:134-138 | a path record keeps the finding's score and ids |
| Process.RenderedEnds | backend/malaphor_mvp/process.py:128-137 | the rendered path starts with its first node's label and ends with its last node's |
| Process.PathTable | backend/malaphor_mvp/process.py:124-138 | one path record per finding, in order |
| Process.AssembleResults | backend/malaphor_mvp/process.py:141-145 | all node records, all edge records, and the first min(10, n) path records |
| Process.TopPathsRiskiest | backend/malaphor_mvp/process.py:144 | the returned paths are sorted, and none scores above a path left out |
| Process.ReturnedPathSizes | backend/malaphor_mvp/process.py:79-84 | every path handed back has between two and max_path_length (4) nodes, since each comes from a sound finding |
| Process.AssembledPipeline | backend/malaphor_mvp/process.py:141-145 | assembling the sorted findings gives exactly the pipeline's results for the graph |
| Process.ResultsOfLog | backend/malaphor_mvp/process.py:91-121 | for the graph built from the log, one edge record per log row and one node record per entity, with distinct ids |
| Process.Report | backend/malaphor_mvp/process.py:80-145 | the results are the pipeline's for the graph: every node record, every edge record, and the first 10 sorted findings rendered, sorted, each of 2 to 4 nodes |
| Process.RunPipeline | backend/malaphor_mvp/process.py:79-145 | succeeds exactly when every id has one type; then the results are those of the graph built from the log: every node record, one edge record per row, and the first 10 findings sorted by score, each of 2 to 4 nodes |

## Left out

- Reading the CSV file, regenerating missing data, creating directories, and all printing. The log is an input sequence of events.
- GraphSAGE training and the isolation forest. Their output, the anomaly table, is an input.
- The frontend, the Flask app, the CLI driver main.py, and `print_risky_paths`.
- Float32 tensors and their rounding. Features and scores are exact reals.
- BuildGraph.AsVector: the mean of feature2 is kept as a sum and a count, and is divided when the row is read. The value equals the source's.
- Process.AnomalyRow: a table naming a node twice makes `.loc[i]` return several rows. The model takes the first.
- PathScoring.ScorePath: the graph argument, which the source never reads, is dropped.
- AnalyzePaths.SortByScore: Python's in-place `list.sort` is modelled by its result, a stable insertion sort on values.
- AnalyzePaths.AnalyzePaths: the `NetworkXNoPath` handler is not modelled, because `all_simple_paths` does not raise it for two nodes of the graph.
- `float(score)` in the path records keeps the `Score` value, so +inf stays `PosInf`.
- `idx_to_id` is read as `ids[i]`. `IndexBijection` proves the two equal once ids are distinct.
