/** Result assembly of the pipeline run: a node table that joins each node's
    id, type and features with its anomaly row, an edge table with one record
    per log row, and the riskiest paths rendered as "id (type)" chains. */
module Process {
  import opened SeqUtil
  import opened BuildGraph
  import opened PathScoring
  import opened AnalyzePaths

  /** One node as handed to the frontend; the anomaly fields are absent when
      the table has no row for the node. */
  datatype NodeRecord = NodeRecord(
    id: string,
    displayLabel: string,
    nodeType: string,
    anomalyScore: Option<real>,
    prediction: Option<int>,
    features: seq<real>,
    nodeIndex: nat)

  /** One log row as an edge of the frontend graph. */
  datatype EdgeRecord = EdgeRecord(source: string, target: string, relationshipType: string)

  /** One risky path as handed to the frontend. */
  datatype PathRecord = PathRecord(score: Score, pathIds: seq<string>, pathWithTypes: string)

  datatype Results = Results(nodes: seq<NodeRecord>, edges: seq<EdgeRecord>, riskyPaths: seq<PathRecord>)

  /** How many risky paths are returned. */
  const TopPaths: nat := 10

  /** The path-length limit the pipeline passes to the analysis. */
  const MaxPathLength: int := 4

  function Min(a: int, b: int): int {
    if a <= b then a else b
  }

  // ---------------------------------------------------------------------------
  // Nodes

  /** The anomaly row of node i after indexing the table by node index: the
      first row naming i, or none. */
  function AnomalyRow(table: seq<AnomalyRecord>, i: nat): (r: Option<AnomalyRecord>)
    ensures r.None? <==> forall k | 0 <= k < |table| :: table[k].nodeIndex != i
    ensures r.Some? ==> exists k | 0 <= k < |table| ::
      table[k] == r.value && r.value.nodeIndex == i && forall j | 0 <= j < k :: table[j].nodeIndex != i
  {
    if table == [] then None
    else if table[0].nodeIndex == i then Some(table[0])
    else
      var rest := AnomalyRow(table[1..], i);
      assert forall k | 0 < k < |table| :: table[1..][k - 1] == table[k];
      rest
  }

  /** The record of node i: its id as id and label, its type name, its
      anomaly row's score and prediction, its feature vector and its index. */
  function NodeRecordOf(g: Graph, table: seq<AnomalyRecord>, i: nat): (r: NodeRecord)
    requires WellFormed(g) && i < |g.ids|
    ensures r.id == g.ids[i] && r.displayLabel == g.ids[i] && r.nodeIndex == i
    ensures r.nodeType == NodeType(g, i) && r.features == AsVector(g.x[i])
    ensures r.anomalyScore.Some? <==> r.prediction.Some?
  {
    var row := AnomalyRow(table, i);
    NodeRecord(
      g.ids[i], g.ids[i], NodeType(g, i),
      if row.Some? then Some(row.value.anomalyScore) else None,
      if row.Some? then Some(row.value.prediction) else None,
      AsVector(g.x[i]), i)
  }

  /** The loop over node indices 0 .. num_nodes - 1. */
  method NodeTable(g: Graph, table: seq<AnomalyRecord>) returns (nodes: seq<NodeRecord>)
    requires WellFormed(g)
    ensures |nodes| == |g.ids|
    ensures forall i | 0 <= i < |nodes| :: nodes[i] == NodeRecordOf(g, table, i)
  {
    nodes := [];
    var i := 0;
    while i < |g.ids|
      invariant i <= |g.ids| && |nodes| == i
      invariant forall j | 0 <= j < i :: nodes[j] == NodeRecordOf(g, table, j)
    {
      var originalId := g.ids[i];
      var originalType := g.types[g.x[i].typeCode];
      var row := AnomalyRow(table, i);
      var score := if row.Some? then Some(row.value.anomalyScore) else None;
      var prediction := if row.Some? then Some(row.value.prediction) else None;
      nodes := nodes + [NodeRecord(originalId, originalId, originalType, score, prediction, AsVector(g.x[i]), i)];
      i := i + 1;
    }
  }

  /** Row k, when it is the only row naming its node, is that node's row,
      wherever the table's sort put it. */
  lemma DetectorTableRow(table: seq<AnomalyRecord>, k: nat)
    requires OnlyRowFor(table, k)
    ensures AnomalyRow(table, table[k].nodeIndex) == Some(table[k])
  {
  }

  /** A node named by exactly one row gets that row's score and prediction. */
  lemma DetectorTableScores(g: Graph, table: seq<AnomalyRecord>, k: nat)
    requires WellFormed(g) && OnlyRowFor(table, k) && table[k].nodeIndex < |g.ids|
    ensures NodeRecordOf(g, table, table[k].nodeIndex).anomalyScore == Some(table[k].anomalyScore)
    ensures NodeRecordOf(g, table, table[k].nodeIndex).prediction == Some(table[k].prediction)
  {
    DetectorTableRow(table, k);
  }

  /** A node without a row, and only such a node, has neither score nor
      prediction. */
  lemma UnscoredNode(g: Graph, table: seq<AnomalyRecord>, i: nat)
    requires WellFormed(g) && i < |g.ids|
    ensures NodeRecordOf(g, table, i).anomalyScore.None? <==> forall k | 0 <= k < |table| :: table[k].nodeIndex != i
    ensures NodeRecordOf(g, table, i).anomalyScore.None? <==> NodeRecordOf(g, table, i).prediction.None?
  {
  }

  /** A scored node carries the score and prediction of the first row that
      names it, as `.loc` on the index does. */
  lemma ScoredNode(g: Graph, table: seq<AnomalyRecord>, i: nat)
    requires WellFormed(g) && i < |g.ids| && NodeRecordOf(g, table, i).anomalyScore.Some?
    ensures exists k | 0 <= k < |table| ::
      table[k].nodeIndex == i && (forall j | 0 <= j < k :: table[j].nodeIndex != i) &&
      NodeRecordOf(g, table, i).anomalyScore == Some(table[k].anomalyScore) &&
      NodeRecordOf(g, table, i).prediction == Some(table[k].prediction)
  {
  }

  /** Node records have distinct ids, so they can serve as graph node ids. */
  lemma NodeIdsDistinct(g: Graph, table: seq<AnomalyRecord>, i: nat, j: nat)
    requires WellFormed(g) && i < |g.ids| && j < |g.ids| && i != j
    ensures NodeRecordOf(g, table, i).id != NodeRecordOf(g, table, j).id
  {
  }

  // ---------------------------------------------------------------------------
  // Edges

  function EdgeRecordOf(e: Event): EdgeRecord {
    EdgeRecord(e.sourceId, e.targetId, e.relationshipType)
  }

  /** The loop over the log rows: one edge record per row, in row order, so
      parallel edges are kept. */
  method EdgeTable(events: seq<Event>) returns (edges: seq<EdgeRecord>)
    ensures |edges| == |events|
    ensures forall k | 0 <= k < |events| :: edges[k] == EdgeRecordOf(events[k])
  {
    edges := [];
    var k := 0;
    while k < |events|
      invariant k <= |events| && |edges| == k
      invariant forall j | 0 <= j < k :: edges[j] == EdgeRecordOf(events[j])
    {
      var row := events[k];
      edges := edges + [EdgeRecord(row.sourceId, row.targetId, row.relationshipType)];
      k := k + 1;
    }
  }

  /** For the graph built from the log, both ends of every edge record are
      ids of node records. */
  lemma EdgeEndsAreNodes(g: Graph, events: seq<Event>, table: seq<AnomalyRecord>, k: nat)
    requires WellFormed(g) && BuiltFrom(g, events) && k < |events|
    ensures exists i | 0 <= i < |g.ids| :: NodeRecordOf(g, table, i).id == EdgeRecordOf(events[k]).source
    ensures exists i | 0 <= i < |g.ids| :: NodeRecordOf(g, table, i).id == EdgeRecordOf(events[k]).target
  {
    var s := g.idToIdx[events[k].sourceId];
    var t := g.idToIdx[events[k].targetId];
    assert NodeRecordOf(g, table, s).id == events[k].sourceId;
    assert NodeRecordOf(g, table, t).id == events[k].targetId;
  }

  // ---------------------------------------------------------------------------
  // Risky paths

  /** `f"{node_id} ({node_type_str})"`. */
  function TypedLabel(id: string, nodeType: string): (text: string)
    ensures id <= text && text[|id|..] == " (" + nodeType + ")"
  {
    id + " (" + nodeType + ")"
  }

  /** One label per pair of the two lists zipped together (zip stops at the
      shorter one). */
  function TypedLabels(g: Graph, pathIds: seq<string>, pathIndices: seq<nat>): (labels: seq<string>)
    requires WellFormed(g) && InRange(pathIndices, |g.ids|)
    ensures |labels| == Min(|pathIds|, |pathIndices|)
    ensures forall k | 0 <= k < |labels| :: labels[k] == TypedLabel(pathIds[k], NodeType(g, pathIndices[k]))
  {
    seq(Min(|pathIds|, |pathIndices|), k requires 0 <= k < Min(|pathIds|, |pathIndices|) =>
      TypedLabel(pathIds[k], NodeType(g, pathIndices[k])))
  }

  /** The loop that builds `path_with_types`, then joins it with " -> ". */
  method PathWithTypes(g: Graph, pathIds: seq<string>, pathIndices: seq<nat>) returns (text: string)
    requires WellFormed(g) && InRange(pathIndices, |g.ids|)
    ensures text == Join(TypedLabels(g, pathIds, pathIndices), " -> ")
  {
    var labels: seq<string> := [];
    var m := Min(|pathIds|, |pathIndices|);
    var k := 0;
    while k < m
      invariant k <= m && |labels| == k
      invariant forall j | 0 <= j < k :: labels[j] == TypedLabel(pathIds[j], NodeType(g, pathIndices[j]))
    {
      var nodeTypeStr := g.types[g.x[pathIndices[k]].typeCode];
      labels := labels + [pathIds[k] + " (" + nodeTypeStr + ")"];
      k := k + 1;
    }
    assert labels == TypedLabels(g, pathIds, pathIndices);
    text := Join(labels, " -> ");
  }

  /** For a discovered finding, the k-th label names the k-th node of the
      path by its own id and type, and there is one label per node. */
  lemma FindingLabels(g: Graph, table: seq<AnomalyRecord>, f: RiskyPath, k: nat)
    requires WellFormed(g) && SoundFinding(g, table, MaxPathLength, f) && k < |f.pathIndices|
    ensures |TypedLabels(g, f.pathIds, f.pathIndices)| == |f.pathIndices|
    ensures TypedLabels(g, f.pathIds, f.pathIndices)[k] ==
      TypedLabel(g.ids[f.pathIndices[k]], NodeType(g, f.pathIndices[k]))
  {
  }

  /** A finding as a path record: its score and ids, and its typed labels
      joined by " -> ". */
  function PathRecordOf(g: Graph, f: RiskyPath): (r: PathRecord)
    requires WellFormed(g) && InRange(f.pathIndices, |g.ids|)
    ensures r.score == f.score && r.pathIds == f.pathIds
  {
    PathRecord(f.score, f.pathIds, Join(TypedLabels(g, f.pathIds, f.pathIndices), " -> "))
  }

  /** The rendered path starts with its first node's "id (type)" label and
      ends with its last node's. */
  lemma RenderedEnds(g: Graph, f: RiskyPath)
    requires WellFormed(g) && InRange(f.pathIndices, |g.ids|)
    requires |f.pathIds| == |f.pathIndices| && f.pathIds != []
    ensures TypedLabel(f.pathIds[0], NodeType(g, f.pathIndices[0])) <= PathRecordOf(g, f).pathWithTypes
    ensures EndsWith(PathRecordOf(g, f).pathWithTypes,
                     TypedLabel(f.pathIds[|f.pathIds| - 1], NodeType(g, f.pathIndices[|f.pathIds| - 1])))
  {
    JoinEnds(TypedLabels(g, f.pathIds, f.pathIndices), " -> ");
  }

  /** The loop over the sorted findings. */
  method PathTable(g: Graph, risky: seq<RiskyPath>) returns (records: seq<PathRecord>)
    requires WellFormed(g) && forall f | f in risky :: InRange(f.pathIndices, |g.ids|)
    ensures |records| == |risky|
    ensures forall k | 0 <= k < |risky| :: records[k] == PathRecordOf(g, risky[k])
  {
    records := [];
    var k := 0;
    while k < |risky|
      invariant k <= |risky| && |records| == k
      invariant forall j | 0 <= j < k :: records[j] == PathRecordOf(g, risky[j])
    {
      var f := risky[k];
      assert f in risky;
      var text := PathWithTypes(g, f.pathIds, f.pathIndices);
      assert PathRecord(f.score, f.pathIds, text) == PathRecordOf(g, f);
      records := records + [PathRecord(f.score, f.pathIds, text)];
      k := k + 1;
    }
  }

  // ---------------------------------------------------------------------------
  // The assembled results

  /** The results dictionary: all node records, all edge records, and the
      first TopPaths path records. */
  method AssembleResults(g: Graph, table: seq<AnomalyRecord>, risky: seq<RiskyPath>) returns (res: Results)
    requires WellFormed(g) && forall f | f in risky :: InRange(f.pathIndices, |g.ids|)
    ensures |res.nodes| == |g.ids|
    ensures forall i | 0 <= i < |g.ids| :: res.nodes[i] == NodeRecordOf(g, table, i)
    ensures |res.edges| == |g.events|
    ensures forall k | 0 <= k < |g.events| :: res.edges[k] == EdgeRecordOf(g.events[k])
    ensures |res.riskyPaths| == Min(TopPaths, |risky|)
    ensures forall k | 0 <= k < |res.riskyPaths| :: res.riskyPaths[k] == PathRecordOf(g, risky[k])
  {
    var nodes := NodeTable(g, table);
    var edges := EdgeTable(g.events);
    var paths := PathTable(g, risky);
    res := Results(nodes, edges, paths[..Min(TopPaths, |paths|)]);
  }

  /** When the findings are sorted by score, the returned paths are sorted
      too and none left out scores below a returned one. */
  lemma TopPathsRiskiest(g: Graph, risky: seq<RiskyPath>, out: seq<PathRecord>)
    requires WellFormed(g) && forall f | f in risky :: InRange(f.pathIndices, |g.ids|)
    requires SortedByScore(risky)
    requires |out| == Min(TopPaths, |risky|)
    requires forall k | 0 <= k < |out| :: out[k] == PathRecordOf(g, risky[k])
    ensures forall i, j | 0 <= i < j < |out| :: ScoreLe(out[i].score, out[j].score)
    ensures forall i, j | 0 <= i < |out| <= j < |risky| :: ScoreLe(out[i].score, risky[j].score)
  {
  }

  /** Every returned path has between two and MaxPathLength nodes. */
  lemma ReturnedPathSizes(g: Graph, table: seq<AnomalyRecord>, risky: seq<RiskyPath>, out: seq<PathRecord>)
    requires WellFormed(g) && forall f | f in risky :: SoundFinding(g, table, MaxPathLength, f)
    requires |out| <= |risky|
    requires forall k | 0 <= k < |out| :: out[k].pathIds == risky[k].pathIds
    ensures forall k | 0 <= k < |out| :: 2 <= |out[k].pathIds| <= MaxPathLength
  {
    forall k | 0 <= k < |out|
      ensures 2 <= |out[k].pathIds| <= MaxPathLength
    {
      assert SoundFinding(g, table, MaxPathLength, risky[k]);
    }
  }

  /** The results run_full_pipeline hands back for the graph g: the record of
      every node, one edge record per log row, and the first TopPaths of the
      findings sorted by score, each rendered with its node types. */
  ghost predicate PipelineResults(g: Graph, table: seq<AnomalyRecord>, res: Results)
    requires WellFormed(g)
  {
    var risky := SortByScore(Discovered(g, table, MaxPathLength));
    |res.nodes| == |g.ids| &&
    (forall i | 0 <= i < |g.ids| :: res.nodes[i] == NodeRecordOf(g, table, i)) &&
    |res.edges| == |g.events| &&
    (forall k | 0 <= k < |g.events| :: res.edges[k] == EdgeRecordOf(g.events[k])) &&
    |res.riskyPaths| == Min(TopPaths, |risky|) &&
    forall k | 0 <= k < |res.riskyPaths| ::
      InRange(risky[k].pathIndices, |g.ids|) && res.riskyPaths[k] == PathRecordOf(g, risky[k])
  }

  /** The assembly of the sorted findings is what the pipeline hands back. */
  lemma AssembledPipeline(g: Graph, table: seq<AnomalyRecord>, risky: seq<RiskyPath>, res: Results)
    requires WellFormed(g) && forall f | f in risky :: InRange(f.pathIndices, |g.ids|)
    requires risky == SortByScore(Discovered(g, table, MaxPathLength))
    requires |res.nodes| == |g.ids| && forall i | 0 <= i < |g.ids| :: res.nodes[i] == NodeRecordOf(g, table, i)
    requires |res.edges| == |g.events| && forall k | 0 <= k < |g.events| :: res.edges[k] == EdgeRecordOf(g.events[k])
    requires |res.riskyPaths| == Min(TopPaths, |risky|)
    requires forall k | 0 <= k < |res.riskyPaths| :: res.riskyPaths[k] == PathRecordOf(g, risky[k])
    ensures PipelineResults(g, table, res)
  {
    assert forall k | 0 <= k < |res.riskyPaths| :: risky[k] in risky;
  }

  /** For the graph built from the log, the pipeline's results hold one edge
      record per log row and one record per entity, with distinct ids. */
  lemma ResultsOfLog(g: Graph, events: seq<Event>, table: seq<AnomalyRecord>, res: Results)
    requires WellFormed(g) && BuiltFrom(g, events) && PipelineResults(g, table, res)
    ensures |res.edges| == |events| && forall k | 0 <= k < |events| :: res.edges[k] == EdgeRecordOf(events[k])
    ensures |res.nodes| == |Entities(events)|
    ensures forall i, j | 0 <= i < j < |res.nodes| :: res.nodes[i].id != res.nodes[j].id
  {
    forall i, j | 0 <= i < j < |res.nodes|
      ensures res.nodes[i].id != res.nodes[j].id
    {
      assert res.nodes[i].id == g.ids[i] && res.nodes[j].id == g.ids[j];
    }
  }

  /** The pipeline after build_graph: analyse the graph, then assemble the
      results. */
  method Report(g: Graph, table: seq<AnomalyRecord>) returns (res: Results)
    requires WellFormed(g)
    ensures PipelineResults(g, table, res)
    ensures |res.riskyPaths| <= TopPaths
    ensures forall i, j | 0 <= i < j < |res.riskyPaths| :: ScoreLe(res.riskyPaths[i].score, res.riskyPaths[j].score)
    ensures forall k | 0 <= k < |res.riskyPaths| :: 2 <= |res.riskyPaths[k].pathIds| <= MaxPathLength
  {
    var risky := AnalyzePaths.AnalyzePaths(g, table, MaxPathLength);
    AnalysisResult(g, table, MaxPathLength);
    forall f | f in risky
      ensures InRange(f.pathIndices, |g.ids|)
    {
      assert SoundFinding(g, table, MaxPathLength, f);
    }
    res := AssembleResults(g, table, risky);
    TopPathsRiskiest(g, risky, res.riskyPaths);
    ReturnedPathSizes(g, table, risky, res.riskyPaths);
    AssembledPipeline(g, table, risky, res);
  }

  /** run_full_pipeline after training and detection: build the graph, find
      the risky paths of at most MaxPathLength nodes, assemble the results.
      The anomaly table is an input. */
  method RunPipeline(events: seq<Event>, table: seq<AnomalyRecord>) returns (r: Result<Results, BuildError>)
    ensures r.Success? <==> OneTypePerId(EntityRows(events))
    ensures r.Success? ==> exists g :: WellFormed(g) && BuiltFrom(g, events) && PipelineResults(g, table, r.value)
    ensures r.Success? ==> |r.value.edges| == |events|
    ensures r.Success? ==> forall k | 0 <= k < |events| :: r.value.edges[k] == EdgeRecordOf(events[k])
    ensures r.Success? ==> |r.value.nodes| == |Entities(events)|
    ensures r.Success? ==> forall i, j | 0 <= i < j < |r.value.nodes| :: r.value.nodes[i].id != r.value.nodes[j].id
    ensures r.Success? ==> |r.value.riskyPaths| <= TopPaths
    ensures r.Success? ==> forall i, j | 0 <= i < j < |r.value.riskyPaths| ::
      ScoreLe(r.value.riskyPaths[i].score, r.value.riskyPaths[j].score)
    ensures r.Success? ==> forall k | 0 <= k < |r.value.riskyPaths| ::
      2 <= |r.value.riskyPaths[k].pathIds| <= MaxPathLength
  {
    var built := Build(events);
    if built.Failure? {
      return Failure(built.error);
    }
    var g := built.value;
    var res := Report(g, table);
    ResultsOfLog(g, events, table, res);
    r := Success(res);
  }
}
