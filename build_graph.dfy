/** Graph construction from an event log: the entity index (id <-> node index),
    the type vocabulary, the edge index (one column per event row) and the
    per-node feature vectors [type code, sum of feature1, mean of feature2]. */
module BuildGraph {
  import opened SeqUtil

  /** One row of the event log. */
  datatype Event = Event(
    sourceId: string, sourceType: string,
    targetId: string, targetType: string,
    relationshipType: string, timestamp: int,
    feature1: real, feature2: real)

  /** One (id, type) row of the entity table. */
  datatype Entity = Entity(id: string, entityType: string)

  /** A node's features: its type code, its summed feature1, and the two
      accumulators of its feature2 mean (the summed feature2 and the number
      of rows summed). */
  datatype NodeFeature = NodeFeature(typeCode: nat, sumFeature1: real, sumFeature2: real, countFeature2: nat)

  /** The mean, or 0 when nothing was summed. */
  function MeanOf(total: real, count: nat): real {
    if count > 0 then total / count as real else 0.0
  }

  /** The tensor row [type code, summed feature1, mean feature2]. */
  function AsVector(f: NodeFeature): seq<real> {
    [f.typeCode as real, f.sumFeature1, MeanOf(f.sumFeature2, f.countFeature2)]
  }

  /** The row has three entries; its last one is the mean of feature2: times
      the count it gives back the sum, and it is 0 when nothing was summed. */
  lemma FeatureVectorMean(f: NodeFeature)
    ensures |AsVector(f)| == 3 && AsVector(f)[0] == f.typeCode as real && AsVector(f)[1] == f.sumFeature1
    ensures f.countFeature2 == 0 ==> AsVector(f)[2] == 0.0
    ensures f.countFeature2 > 0 ==> AsVector(f)[2] * f.countFeature2 as real == f.sumFeature2
  {
  }

  /** The lookup `idx_to_id[idx]` found no entry for `idx`. */
  datatype BuildError = MissingIndex(idx: nat)

  /** Everything build_graph hands on: the entity table, the index maps, the
      edge index, the type vocabulary, the feature rows and the event rows. */
  datatype Graph = Graph(
    entities: seq<Entity>,
    ids: seq<string>,
    idToIdx: map<string, nat>,
    edges: seq<(nat, nat)>,
    types: seq<string>,
    typeToInt: map<string, nat>,
    x: seq<NodeFeature>,
    events: seq<Event>)

  // ---------------------------------------------------------------------------
  // Entity index

  /** The (source id, source type) pair of each row. */
  function SourceRows(events: seq<Event>): (rows: seq<Entity>)
    ensures |rows| == |events|
    ensures forall k | 0 <= k < |events| :: rows[k] == Entity(events[k].sourceId, events[k].sourceType)
  {
    seq(|events|, k requires 0 <= k < |events| => Entity(events[k].sourceId, events[k].sourceType))
  }

  /** The (target id, target type) pair of each row. */
  function TargetRows(events: seq<Event>): (rows: seq<Entity>)
    ensures |rows| == |events|
    ensures forall k | 0 <= k < |events| :: rows[k] == Entity(events[k].targetId, events[k].targetType)
  {
    seq(|events|, k requires 0 <= k < |events| => Entity(events[k].targetId, events[k].targetType))
  }

  /** The source pairs followed by the target pairs (`pd.concat`). */
  function EntityRows(events: seq<Event>): seq<Entity> {
    SourceRows(events) + TargetRows(events)
  }

  /** In the concatenated table, log row k's source pair sits at k and its
      target pair at n + k, and nothing else is there. */
  lemma EntityRowsLayout(events: seq<Event>)
    ensures |EntityRows(events)| == 2 * |events|
    ensures forall k | 0 <= k < |events| ::
      EntityRows(events)[k] == Entity(events[k].sourceId, events[k].sourceType) &&
      EntityRows(events)[|events| + k] == Entity(events[k].targetId, events[k].targetType)
  {
  }

  /** The entity table: distinct (id, type) pairs in first-seen order,
      holding both end pairs of every row. */
  function Entities(events: seq<Event>): (entities: seq<Entity>)
    ensures NoDup(entities)
    ensures forall k | 0 <= k < |events| ::
      Entity(events[k].sourceId, events[k].sourceType) in entities &&
      Entity(events[k].targetId, events[k].targetType) in entities
  {
    var rows := EntityRows(events);
    EntityRowsLayout(events);
    forall k | 0 <= k < |events|
      ensures Entity(events[k].sourceId, events[k].sourceType) in rows
      ensures Entity(events[k].targetId, events[k].targetType) in rows
    {
      assert rows[k] in rows && rows[|events| + k] in rows;
    }
    Dedup(rows)
  }

  /** Every pair of the entity table is an end pair of some row. */
  lemma EntitiesFromLog(events: seq<Event>, e: Entity)
    requires e in Entities(events)
    ensures exists k | 0 <= k < |events| ::
      e == Entity(events[k].sourceId, events[k].sourceType) || e == Entity(events[k].targetId, events[k].targetType)
  {
    var src, tgt := SourceRows(events), TargetRows(events);
    assert e in src + tgt;
    var k :| 0 <= k < |events| && (src[k] == e || tgt[k] == e);
    assert e == Entity(events[k].sourceId, events[k].sourceType) || e == Entity(events[k].targetId, events[k].targetType);
  }

  function EntityIds(entities: seq<Entity>): (ids: seq<string>)
    ensures |ids| == |entities|
    ensures forall i | 0 <= i < |entities| :: ids[i] == entities[i].id
  {
    seq(|entities|, i requires 0 <= i < |entities| => entities[i].id)
  }

  /** Every id the log mentions carries a single type. */
  ghost predicate OneTypePerId(rows: seq<Entity>) {
    forall i, j | 0 <= i < |rows| && 0 <= j < |rows| ::
      rows[i].id == rows[j].id ==> rows[i].entityType == rows[j].entityType
  }

  /** `{x: i for i, x in enumerate(s)}`: a later occurrence overwrites an
      earlier one, so each element maps to its LAST position. */
  function IndexMap<T(==)>(s: seq<T>): (m: map<T, nat>)
    ensures forall x | x in s :: x in m
    ensures forall x | x in m :: m[x] < |s| && s[m[x]] == x
  {
    if s == [] then map[]
    else IndexMap(s[..|s| - 1])[s[|s| - 1] := |s| - 1]
  }

  /** The position IndexMap records is the last occurrence. */
  lemma {:induction false} IndexMapLast<T>(s: seq<T>)
    ensures forall x | x in IndexMap(s) :: x !in s[IndexMap(s)[x] + 1..]
  {
    if s != [] {
      var init := s[..|s| - 1];
      IndexMapLast(init);
      forall x | x in IndexMap(s)
        ensures x !in s[IndexMap(s)[x] + 1..]
      {
        if x != s[|s| - 1] {
          var k := IndexMap(init)[x];
          assert s[k + 1..] == init[k + 1..] + [s[|s| - 1]];
        }
      }
    }
  }

  /** `{i: x for x, i in index_map.items()}`: the inverse of IndexMap. */
  function InverseIndex<T(==)>(s: seq<T>): (inv: map<nat, T>)
    ensures forall i | i in inv :: i < |s| && inv[i] == s[i]
  {
    var m := IndexMap(s);
    map x | x in m :: m[x] := x
  }

  /** For a duplicate-free sequence the two maps are mutually inverse
      bijections between its elements and [0, |s|). */
  lemma IndexBijection<T>(s: seq<T>)
    requires NoDup(s)
    ensures forall i | 0 <= i < |s| :: s[i] in IndexMap(s) && IndexMap(s)[s[i]] == i
    ensures forall i | 0 <= i < |s| :: i in InverseIndex(s) && InverseIndex(s)[i] == s[i]
    ensures forall x | x in s :: InverseIndex(s)[IndexMap(s)[x]] == x
  {
    var m := IndexMap(s);
    forall i | 0 <= i < |s|
      ensures i in InverseIndex(s)
    {
      assert s[i] in m && m[s[i]] == i;
    }
  }

  /** The inverse map covers every position exactly when no element repeats:
      a repeated element leaves its earlier position without an entry. */
  lemma {:induction false} InverseIndexDense<T>(s: seq<T>)
    ensures (forall i | 0 <= i < |s| :: i in InverseIndex(s)) <==> NoDup(s)
  {
    if NoDup(s) {
      IndexBijection(s);
    } else {
      var i, j :| 0 <= i < j < |s| && s[i] == s[j];
      var m := IndexMap(s);
      IndexMapLast(s);
      assert s[i] in s[i + 1..] by { assert s[i + 1..][j - i - 1] == s[j]; }
      forall x | x in m
        ensures m[x] != i
      {
        assert x !in s[m[x] + 1..];
      }
      assert i !in InverseIndex(s);
    }
  }

  /** Deduplicating (id, type) pairs gives distinct ids exactly when every id
      carries one type. */
  lemma EntityIdsDistinct(rows: seq<Entity>)
    ensures NoDup(EntityIds(Dedup(rows))) <==> OneTypePerId(rows)
  {
    var d := Dedup(rows);
    if OneTypePerId(rows) {
      forall i, j | 0 <= i < j < |d|
        ensures d[i].id != d[j].id
      {
        var a := IndexOf(rows, d[i]);
        var b := IndexOf(rows, d[j]);
        assert d[i] != d[j];
      }
    } else {
      var i, j :| 0 <= i < |rows| && 0 <= j < |rows| &&
        rows[i].id == rows[j].id && rows[i].entityType != rows[j].entityType;
      assert rows[i] in d && rows[j] in d;
      var a := IndexOf(d, rows[i]);
      var b := IndexOf(d, rows[j]);
      assert a != b && EntityIds(d)[a] == EntityIds(d)[b];
    }
  }

  // ---------------------------------------------------------------------------
  // Edge index and type vocabulary

  /** One (source index, target index) column per event row, in row order. */
  function EdgeIndex(events: seq<Event>, idToIdx: map<string, nat>): (edges: seq<(nat, nat)>)
    requires forall k | 0 <= k < |events| :: events[k].sourceId in idToIdx && events[k].targetId in idToIdx
    ensures |edges| == |events|
    ensures forall k | 0 <= k < |events| ::
      edges[k] == (idToIdx[events[k].sourceId], idToIdx[events[k].targetId])
  {
    seq(|events|, k requires 0 <= k < |events| => (idToIdx[events[k].sourceId], idToIdx[events[k].targetId]))
  }

  function EntityTypes(entities: seq<Entity>): (ts: seq<string>)
    ensures |ts| == |entities|
    ensures forall i | 0 <= i < |entities| :: ts[i] == entities[i].entityType
  {
    seq(|entities|, i requires 0 <= i < |entities| => entities[i].entityType)
  }

  // ---------------------------------------------------------------------------
  // Feature aggregation

  /** The rows whose target is `id` (incoming edges). */
  function Incoming(events: seq<Event>, id: string): (r: seq<Event>)
    ensures forall e | e in r :: e in events && e.targetId == id
    ensures forall k | 0 <= k < |events| && events[k].targetId == id :: events[k] in r
  {
    if events == [] then []
    else
      var init := events[..|events| - 1];
      var last := events[|events| - 1];
      assert forall k | 0 <= k < |init| :: init[k] == events[k];
      Incoming(init, id) + (if last.targetId == id then [last] else [])
  }

  /** The rows whose source is `id` (outgoing edges). */
  function Outgoing(events: seq<Event>, id: string): (r: seq<Event>)
    ensures forall e | e in r :: e in events && e.sourceId == id
    ensures forall k | 0 <= k < |events| && events[k].sourceId == id :: events[k] in r
  {
    if events == [] then []
    else
      var init := events[..|events| - 1];
      var last := events[|events| - 1];
      assert forall k | 0 <= k < |init| :: init[k] == events[k];
      Outgoing(init, id) + (if last.sourceId == id then [last] else [])
  }

  function SumFeature1(rows: seq<Event>): real {
    if rows == [] then 0.0 else SumFeature1(rows[..|rows| - 1]) + rows[|rows| - 1].feature1
  }

  function SumFeature2(rows: seq<Event>): real {
    if rows == [] then 0.0 else SumFeature2(rows[..|rows| - 1]) + rows[|rows| - 1].feature2
  }

  /** feature1 summed over the incoming rows plus the outgoing rows. */
  function IncidentFeature1(events: seq<Event>, id: string): real {
    SumFeature1(Incoming(events, id)) + SumFeature1(Outgoing(events, id))
  }

  /** Number of incoming plus outgoing rows. */
  function IncidentCount(events: seq<Event>, id: string): nat {
    |Incoming(events, id)| + |Outgoing(events, id)|
  }

  /** feature2 summed over the incoming rows plus the outgoing rows. */
  function IncidentFeature2(events: seq<Event>, id: string): real {
    SumFeature2(Incoming(events, id)) + SumFeature2(Outgoing(events, id))
  }

  /** The type of the first entity row with this id (`.loc[...].iloc[0]`). */
  function FirstType(entities: seq<Entity>, id: string): string
    requires id in EntityIds(entities)
  {
    entities[IndexOf(EntityIds(entities), id)].entityType
  }

  /** The feature vector the source computes for the entity `id`. */
  function FeatureOf(events: seq<Event>, entities: seq<Entity>, typeToInt: map<string, nat>, id: string): NodeFeature
    requires id in EntityIds(entities)
    requires FirstType(entities, id) in typeToInt
  {
    NodeFeature(typeToInt[FirstType(entities, id)], IncidentFeature1(events, id),
                IncidentFeature2(events, id), IncidentCount(events, id))
  }

  /** `x` lists, by node index, the feature vector of the id at each index. */
  ghost predicate FeatureRows(events: seq<Event>, entities: seq<Entity>, idxToId: map<nat, string>,
                              typeToInt: map<string, nat>, x: seq<NodeFeature>)
  {
    |x| == |entities| &&
    forall i | 0 <= i < |entities| ::
      i in idxToId && idxToId[i] in EntityIds(entities) && FirstType(entities, idxToId[i]) in typeToInt &&
      x[i] == FeatureOf(events, entities, typeToInt, idxToId[i])
  }

  /** Entry `i` of the per-node loop's dictionary holds the feature vector of
      the id at index `i`. */
  ghost predicate StoredAt(events: seq<Event>, entities: seq<Entity>, idxToId: map<nat, string>,
                           typeToInt: map<string, nat>, aggregated: map<nat, NodeFeature>, i: nat)
  {
    i in idxToId && idxToId[i] in EntityIds(entities) && FirstType(entities, idxToId[i]) in typeToInt &&
    i in aggregated && aggregated[i] == FeatureOf(events, entities, typeToInt, idxToId[i])
  }

  /** The body of the per-node loop: scan the incoming and outgoing rows of
      `entityId`, sum feature1, and accumulate feature2 and its row count
      step by step. */
  method IncidentAggregates(events: seq<Event>, entityId: string)
    returns (sumFeature1: real, avgFeature2: real, totalCount: nat)
    ensures sumFeature1 == IncidentFeature1(events, entityId)
    ensures avgFeature2 == IncidentFeature2(events, entityId)
    ensures totalCount == IncidentCount(events, entityId)
  {
    var incoming := Incoming(events, entityId);
    var outgoing := Outgoing(events, entityId);
    sumFeature1 := SumFeature1(incoming) + SumFeature1(outgoing);
    avgFeature2 := 0.0;
    totalCount := 0;
    if incoming != [] {
      avgFeature2 := avgFeature2 + SumFeature2(incoming);
      totalCount := totalCount + |incoming|;
    }
    if outgoing != [] {
      avgFeature2 := avgFeature2 + SumFeature2(outgoing);
      totalCount := totalCount + |outgoing|;
    }
  }

  /** One node's feature vector: the type code of the first entity row with
      this id, then the incident aggregates. */
  method NodeFeatureOf(events: seq<Event>, entities: seq<Entity>, typeToInt: map<string, nat>, entityId: string)
    returns (feature: NodeFeature)
    requires entityId in EntityIds(entities)
    requires forall k | 0 <= k < |entities| :: entities[k].entityType in typeToInt
    ensures FirstType(entities, entityId) in typeToInt
    ensures feature == FeatureOf(events, entities, typeToInt, entityId)
  {
    var sumFeature1, avgFeature2, totalCount := IncidentAggregates(events, entityId);
    var k := IndexOf(EntityIds(entities), entityId);
    feature := NodeFeature(typeToInt[entities[k].entityType], sumFeature1, avgFeature2, totalCount);
  }

  /** The per-node loop: for each index in order, look up its id, scan the
      incoming and outgoing rows, accumulate feature2 and its count step by
      step, and store the feature vector; then list the vectors by index. A
      position with no id fails with the source's KeyError. */
  method AggregateFeatures(events: seq<Event>, entities: seq<Entity>,
                           idxToId: map<nat, string>, typeToInt: map<string, nat>)
    returns (r: Result<seq<NodeFeature>, BuildError>)
    requires forall i | i in idxToId :: idxToId[i] in EntityIds(entities)
    requires forall k | 0 <= k < |entities| :: entities[k].entityType in typeToInt
    ensures r.Failure? ==>
      r.error.idx < |entities| && r.error.idx !in idxToId &&
      forall i | 0 <= i < r.error.idx :: i in idxToId
    ensures r.Success? ==>
      (forall i | 0 <= i < |entities| :: i in idxToId) &&
      FeatureRows(events, entities, idxToId, typeToInt, r.value)
  {
    var n := |entities|;
    var aggregated: map<nat, NodeFeature> := map[];
    var idx := 0;
    while idx < n
      invariant 0 <= idx <= n
      invariant forall i | 0 <= i < idx :: i in idxToId && i in aggregated
      invariant forall i | 0 <= i < idx :: StoredAt(events, entities, idxToId, typeToInt, aggregated, i)
    {
      if idx !in idxToId {
        return Failure(MissingIndex(idx));
      }
      var feature := NodeFeatureOf(events, entities, typeToInt, idxToId[idx]);
      StoredExtend(events, entities, idxToId, typeToInt, aggregated, idx, feature, aggregated[idx := feature]);
      aggregated := aggregated[idx := feature];
      idx := idx + 1;
    }
    var x := seq(n, i requires 0 <= i < n => aggregated[i]);
    StoredRows(events, entities, idxToId, typeToInt, aggregated, x);
    r := Success(x);
  }

  lemma StoredExtend(events: seq<Event>, entities: seq<Entity>, idxToId: map<nat, string>,
                     typeToInt: map<string, nat>, aggregated: map<nat, NodeFeature>, idx: nat,
                     feature: NodeFeature, next: map<nat, NodeFeature>)
    requires forall i | 0 <= i < idx :: StoredAt(events, entities, idxToId, typeToInt, aggregated, i)
    requires idx in idxToId && idxToId[idx] in EntityIds(entities) && FirstType(entities, idxToId[idx]) in typeToInt
    requires feature == FeatureOf(events, entities, typeToInt, idxToId[idx])
    requires next == aggregated[idx := feature]
    ensures forall i | 0 <= i <= idx :: StoredAt(events, entities, idxToId, typeToInt, next, i)
  {
    forall i | 0 <= i <= idx
      ensures StoredAt(events, entities, idxToId, typeToInt, next, i)
    {
      if i < idx {
        assert StoredAt(events, entities, idxToId, typeToInt, aggregated, i);
      }
    }
  }

  lemma StoredRows(events: seq<Event>, entities: seq<Entity>, idxToId: map<nat, string>,
                   typeToInt: map<string, nat>, aggregated: map<nat, NodeFeature>, x: seq<NodeFeature>)
    requires |x| == |entities|
    requires forall i | 0 <= i < |entities| :: i in aggregated && x[i] == aggregated[i]
    requires forall i | 0 <= i < |entities| :: StoredAt(events, entities, idxToId, typeToInt, aggregated, i)
    ensures FeatureRows(events, entities, idxToId, typeToInt, x)
  {
    forall i | 0 <= i < |entities|
      ensures i in idxToId && idxToId[i] in EntityIds(entities) && FirstType(entities, idxToId[i]) in typeToInt
      ensures x[i] == FeatureOf(events, entities, typeToInt, idxToId[i])
    {
      assert StoredAt(events, entities, idxToId, typeToInt, aggregated, i);
    }
  }

  // ---------------------------------------------------------------------------
  // The whole builder

  /** The invariants every built graph keeps, which later stages rely on. */
  ghost predicate WellFormed(g: Graph) {
    var n := |g.entities|;
    |g.ids| == n && |g.x| == n &&
    (forall i | 0 <= i < n :: g.ids[i] == g.entities[i].id) &&
    NoDup(g.ids) &&
    (forall i | 0 <= i < n :: g.x[i].typeCode < |g.types|) &&
    (forall k | 0 <= k < |g.edges| :: g.edges[k].0 < n && g.edges[k].1 < n) &&
    |g.edges| == |g.events|
  }

  /** `g` is exactly what build_graph returns for `events`. */
  ghost predicate BuiltFrom(g: Graph, events: seq<Event>)
    requires WellFormed(g)
  {
    IndexedFrom(g, events) && EdgesFrom(g, events) && TypesCoded(g) &&
    Feature1From(g, events) && Feature2From(g, events)
  }

  /** The entity index: the entity table of the log, and every id of the log
      has an index below n that maps back to it. */
  ghost predicate IndexedFrom(g: Graph, events: seq<Event>)
    requires WellFormed(g)
  {
    var n := |g.entities|;
    g.events == events &&
    g.entities == Entities(events) &&
    (forall k | 0 <= k < |events| ::
      events[k].sourceId in g.idToIdx && g.idToIdx[events[k].sourceId] < n &&
      g.ids[g.idToIdx[events[k].sourceId]] == events[k].sourceId &&
      events[k].targetId in g.idToIdx && g.idToIdx[events[k].targetId] < n &&
      g.ids[g.idToIdx[events[k].targetId]] == events[k].targetId) &&
    (forall i | 0 <= i < n :: g.ids[i] in g.idToIdx && g.idToIdx[g.ids[i]] == i)
  }

  /** One edge per row, in row order. */
  ghost predicate EdgesFrom(g: Graph, events: seq<Event>)
    requires WellFormed(g)
  {
    |events| == |g.edges| &&
    forall k | 0 <= k < |events| ::
      events[k].sourceId in g.idToIdx && events[k].targetId in g.idToIdx &&
      g.edges[k] == (g.idToIdx[events[k].sourceId], g.idToIdx[events[k].targetId])
  }

  /** The type vocabulary in first-seen order, each type coded by its
      position, and each node's feature[0] the code of its own type. */
  ghost predicate TypesCoded(g: Graph)
    requires WellFormed(g)
  {
    g.types == UniqueTypes(g.entities) &&
    (forall t | t in g.types :: t in g.typeToInt && g.typeToInt[t] < |g.types| && g.types[g.typeToInt[t]] == t) &&
    forall i | 0 <= i < |g.entities| :: g.types[g.x[i].typeCode] == g.entities[i].entityType
  }

  /** Each node's feature[1]: feature1 summed over its incident rows. */
  ghost predicate Feature1From(g: Graph, events: seq<Event>)
    requires WellFormed(g)
  {
    forall i | 0 <= i < |g.entities| :: g.x[i].sumFeature1 == IncidentFeature1(events, g.ids[i])
  }

  /** Each node's feature[2] accumulators: feature2 summed over its incident
      rows and the number of those rows. */
  ghost predicate Feature2From(g: Graph, events: seq<Event>)
    requires WellFormed(g)
  {
    forall i | 0 <= i < |g.entities| ::
      g.x[i].sumFeature2 == IncidentFeature2(events, g.ids[i]) &&
      g.x[i].countFeature2 == IncidentCount(events, g.ids[i])
  }

  lemma EndpointsAreEntities(events: seq<Event>)
    ensures forall k | 0 <= k < |events| ::
      events[k].sourceId in EntityIds(Entities(events)) && events[k].targetId in EntityIds(Entities(events))
  {
    var ents := Entities(events);
    forall k | 0 <= k < |events|
      ensures events[k].sourceId in EntityIds(ents) && events[k].targetId in EntityIds(ents)
    {
      var a := IndexOf(ents, Entity(events[k].sourceId, events[k].sourceType));
      var b := IndexOf(ents, Entity(events[k].targetId, events[k].targetType));
      assert EntityIds(ents)[a] == events[k].sourceId;
      assert EntityIds(ents)[b] == events[k].targetId;
    }
  }

  /** The type vocabulary: entity types, deduplicated in first-seen order. */
  function UniqueTypes(entities: seq<Entity>): (types: seq<string>)
    ensures forall k | 0 <= k < |entities| :: entities[k].entityType in types
  {
    var ts := EntityTypes(entities);
    assert forall k | 0 <= k < |entities| :: ts[k] in ts;
    Dedup(ts)
  }

  /** The graph record build_graph returns, from the feature rows the loop
      produced. */
  function Assemble(events: seq<Event>, x: seq<NodeFeature>): Graph {
    var entities := Entities(events);
    var ids := EntityIds(entities);
    var types := UniqueTypes(entities);
    EndpointsAreEntities(events);
    Graph(entities, ids, IndexMap(ids), EdgeIndex(events, IndexMap(ids)), types, IndexMap(types), x, events)
  }

  /** The feature rows the per-node loop yields for a log whose ids carry one
      type each. */
  ghost predicate LoopFeatures(events: seq<Event>, x: seq<NodeFeature>) {
    var entities := Entities(events);
    FeatureRows(events, entities, InverseIndex(EntityIds(entities)), IndexMap(UniqueTypes(entities)), x)
  }

  lemma AssembledWellFormed(events: seq<Event>, x: seq<NodeFeature>)
    requires OneTypePerId(EntityRows(events))
    requires LoopFeatures(events, x)
    ensures WellFormed(Assemble(events, x))
  {
    var g := Assemble(events, x);
    EntityIdsDistinct(EntityRows(events));
    AssembledEdgesInRange(events, x);
    AssembledCodesInRange(events, x);
    assert |g.ids| == |g.entities| && |g.x| == |g.entities|;
    assert forall i | 0 <= i < |g.entities| :: g.ids[i] == g.entities[i].id;
  }

  lemma AssembledEdgesInRange(events: seq<Event>, x: seq<NodeFeature>)
    ensures var g := Assemble(events, x);
      forall k | 0 <= k < |g.edges| :: g.edges[k].0 < |g.entities| && g.edges[k].1 < |g.entities|
  {
    EndpointsAreEntities(events);
  }

  lemma AssembledCodesInRange(events: seq<Event>, x: seq<NodeFeature>)
    requires LoopFeatures(events, x)
    ensures var g := Assemble(events, x); forall i | 0 <= i < |g.entities| :: g.x[i].typeCode < |g.types|
  {
    var g := Assemble(events, x);
    forall i | 0 <= i < |g.entities|
      ensures g.x[i].typeCode < |g.types|
    {
      var id := InverseIndex(g.ids)[i];
      assert FirstType(g.entities, id) in g.types;
    }
  }

  lemma AssembledIndexed(events: seq<Event>, x: seq<NodeFeature>)
    requires OneTypePerId(EntityRows(events))
    requires WellFormed(Assemble(events, x))
    ensures IndexedFrom(Assemble(events, x), events) && EdgesFrom(Assemble(events, x), events)
  {
    var g := Assemble(events, x);
    EntityIdsDistinct(EntityRows(events));
    IndexBijection(g.ids);
    AssembledEndpoints(events, x);
  }

  lemma AssembledEndpoints(events: seq<Event>, x: seq<NodeFeature>)
    ensures var g := Assemble(events, x);
      forall k | 0 <= k < |events| ::
        events[k].sourceId in g.idToIdx && g.idToIdx[events[k].sourceId] < |g.ids| &&
        g.ids[g.idToIdx[events[k].sourceId]] == events[k].sourceId &&
        events[k].targetId in g.idToIdx && g.idToIdx[events[k].targetId] < |g.ids| &&
        g.ids[g.idToIdx[events[k].targetId]] == events[k].targetId
  {
    EndpointsAreEntities(events);
  }

  lemma AssembledTypes(events: seq<Event>, x: seq<NodeFeature>)
    requires OneTypePerId(EntityRows(events))
    requires LoopFeatures(events, x)
    requires WellFormed(Assemble(events, x))
    ensures TypesCoded(Assemble(events, x))
  {
    var g := Assemble(events, x);
    EntityIdsDistinct(EntityRows(events));
    IndexBijection(g.ids);
    IndexBijection(g.types);
    forall i | 0 <= i < |g.entities|
      ensures g.types[g.x[i].typeCode] == g.entities[i].entityType
    {
      assert InverseIndex(g.ids)[i] == g.ids[i];
      assert IndexOf(g.ids, g.ids[i]) == i;
      assert g.entities[i].entityType in g.types;
    }
  }

  lemma AssembledSums(events: seq<Event>, x: seq<NodeFeature>)
    requires OneTypePerId(EntityRows(events))
    requires LoopFeatures(events, x)
    requires WellFormed(Assemble(events, x))
    ensures Feature1From(Assemble(events, x), events) && Feature2From(Assemble(events, x), events)
  {
    var g := Assemble(events, x);
    forall i | 0 <= i < |g.entities|
      ensures g.x[i] == FeatureOf(events, g.entities, g.typeToInt, g.ids[i])
    {
      assert InverseIndex(g.ids)[i] == g.ids[i];
    }
  }

  /** build_graph: fails exactly when some id appears with two types, and
      otherwise returns the graph that BuiltFrom describes. */
  method Build(events: seq<Event>) returns (r: Result<Graph, BuildError>)
    ensures r.Success? <==> OneTypePerId(EntityRows(events))
    ensures r.Success? ==> WellFormed(r.value) && BuiltFrom(r.value, events)
  {
    var entities := Entities(events);
    var entityIds := EntityIds(entities);
    var idToIdx := IndexMap(entityIds);
    var idxToId := InverseIndex(entityIds);

    EndpointsAreEntities(events);
    var edges := EdgeIndex(events, idToIdx);

    var types := UniqueTypes(entities);
    var typeToInt := IndexMap(types);

    LoopInputs(events);
    var features := AggregateFeatures(events, entities, idxToId, typeToInt);
    if features.Failure? {
      DenseIffOneType(events);
      assert !OneTypePerId(EntityRows(events));
      return Failure(features.error);
    }
    DenseIffOneType(events);
    assert OneTypePerId(EntityRows(events));
    r := Success(Graph(entities, entityIds, idToIdx, edges, types, typeToInt, features.value, events));
    AssembledBuilt(events, features.value, r.value);
  }

  /** What the per-node loop requires of the maps build_graph hands it. */
  lemma LoopInputs(events: seq<Event>)
    ensures var entities := Entities(events);
      var idxToId := InverseIndex(EntityIds(entities));
      (forall i | i in idxToId :: idxToId[i] in EntityIds(entities)) &&
      (forall k | 0 <= k < |entities| :: entities[k].entityType in IndexMap(UniqueTypes(entities)))
  {
  }

  /** Every position below n has an id exactly when no id has two types. */
  lemma DenseIffOneType(events: seq<Event>)
    ensures (forall i | 0 <= i < |Entities(events)| :: i in InverseIndex(EntityIds(Entities(events))))
            <==> OneTypePerId(EntityRows(events))
  {
    InverseIndexDense(EntityIds(Entities(events)));
    EntityIdsDistinct(EntityRows(events));
  }

  lemma AssembledBuilt(events: seq<Event>, x: seq<NodeFeature>, g: Graph)
    requires OneTypePerId(EntityRows(events))
    requires LoopFeatures(events, x)
    requires g == Assemble(events, x)
    ensures WellFormed(g) && BuiltFrom(g, events)
  {
    AssembledWellFormed(events, x);
    AssembledIndexed(events, x);
    AssembledTypes(events, x);
    AssembledSums(events, x);
  }

  // ---------------------------------------------------------------------------
  // Properties of the aggregated features

  lemma IncidentFeature1Snoc(events: seq<Event>, e: Event, id: string)
    ensures IncidentFeature1(events + [e], id) ==
      IncidentFeature1(events, id)
      + (if e.targetId == id then e.feature1 else 0.0)
      + (if e.sourceId == id then e.feature1 else 0.0)
  {
    var all := events + [e];
    assert all[..|all| - 1] == events;
    var inc, out := Incoming(events, id), Outgoing(events, id);
    if e.targetId == id {
      assert Incoming(all, id) == inc + [e];
      assert (inc + [e])[..|inc|] == inc;
    } else {
      assert Incoming(all, id) == inc;
    }
    if e.sourceId == id {
      assert Outgoing(all, id) == out + [e];
      assert (out + [e])[..|out|] == out;
    } else {
      assert Outgoing(all, id) == out;
    }
  }

  /** Selecting the incoming rows of a split log selects them from each part,
      keeping log order. */
  lemma {:induction false} IncomingConcat(a: seq<Event>, b: seq<Event>, id: string)
    ensures Incoming(a + b, id) == Incoming(a, id) + Incoming(b, id)
  {
    if b != [] {
      var b' := b[..|b| - 1];
      assert (a + b)[..|a + b| - 1] == a + b';
      assert (a + b)[|a + b| - 1] == b[|b| - 1];
      IncomingConcat(a, b', id);
    } else {
      assert a + b == a;
    }
  }

  /** Selecting the outgoing rows of a split log selects them from each part,
      keeping log order. */
  lemma {:induction false} OutgoingConcat(a: seq<Event>, b: seq<Event>, id: string)
    ensures Outgoing(a + b, id) == Outgoing(a, id) + Outgoing(b, id)
  {
    if b != [] {
      var b' := b[..|b| - 1];
      assert (a + b)[..|a + b| - 1] == a + b';
      assert (a + b)[|a + b| - 1] == b[|b| - 1];
      OutgoingConcat(a, b', id);
    } else {
      assert a + b == a;
    }
  }

  lemma {:induction false} SumFeature2Concat(a: seq<Event>, b: seq<Event>)
    ensures SumFeature2(a + b) == SumFeature2(a) + SumFeature2(b)
  {
    if b != [] {
      var b' := b[..|b| - 1];
      assert (a + b)[..|a + b| - 1] == a + b';
      assert (a + b)[|a + b| - 1] == b[|b| - 1];
      SumFeature2Concat(a, b');
    } else {
      assert a + b == a;
    }
  }

  /** One more row adds its feature2 and one to the count once for each end
      that is the id. */
  lemma IncidentFeature2Snoc(events: seq<Event>, e: Event, id: string)
    ensures IncidentFeature2(events + [e], id) ==
      IncidentFeature2(events, id)
      + (if e.targetId == id then e.feature2 else 0.0)
      + (if e.sourceId == id then e.feature2 else 0.0)
    ensures IncidentCount(events + [e], id) ==
      IncidentCount(events, id) + (if e.targetId == id then 1 else 0) + (if e.sourceId == id then 1 else 0)
  {
    IncomingConcat(events, [e], id);
    OutgoingConcat(events, [e], id);
    assert [e][..0] == [];
    SumFeature2Concat(Incoming(events, id), Incoming([e], id));
    SumFeature2Concat(Outgoing(events, id), Outgoing([e], id));
  }

  /** A self-loop row counts twice: once as incoming, once as outgoing. */
  lemma SelfLoopCountedTwice(events: seq<Event>, e: Event)
    requires e.sourceId == e.targetId
    ensures IncidentFeature1(events + [e], e.sourceId) == IncidentFeature1(events, e.sourceId) + 2.0 * e.feature1
    ensures IncidentCount(events + [e], e.sourceId) == IncidentCount(events, e.sourceId) + 2
  {
    IncidentFeature1Snoc(events, e, e.sourceId);
    assert (events + [e])[..|events|] == events;
  }

  function TotalFeature1(events: seq<Event>): real {
    if events == [] then 0.0 else TotalFeature1(events[..|events| - 1]) + events[|events| - 1].feature1
  }

  /** Sum over the listed ids of their summed feature1. */
  function NodeFeature1Total(events: seq<Event>, ids: seq<string>): real {
    if ids == [] then 0.0 else NodeFeature1Total(events, ids[..|ids| - 1]) + IncidentFeature1(events, ids[|ids| - 1])
  }

  function Indicator(ids: seq<string>, v: string, c: real): real {
    if ids == [] then 0.0 else Indicator(ids[..|ids| - 1], v, c) + (if ids[|ids| - 1] == v then c else 0.0)
  }

  lemma {:induction false} IndicatorOnce(ids: seq<string>, v: string, c: real)
    requires NoDup(ids) && v in ids
    ensures Indicator(ids, v, c) == c
  {
    var init := ids[..|ids| - 1];
    if ids[|ids| - 1] == v {
      IndicatorAbsent(init, v, c);
    } else {
      assert v in init;
      IndicatorOnce(init, v, c);
    }
  }

  lemma {:induction false} IndicatorAbsent(ids: seq<string>, v: string, c: real)
    requires v !in ids
    ensures Indicator(ids, v, c) == 0.0
  {
    if ids != [] {
      IndicatorAbsent(ids[..|ids| - 1], v, c);
    }
  }

  lemma {:induction false} NodeTotalSnoc(events: seq<Event>, e: Event, ids: seq<string>)
    ensures NodeFeature1Total(events + [e], ids) ==
      NodeFeature1Total(events, ids) + Indicator(ids, e.targetId, e.feature1) + Indicator(ids, e.sourceId, e.feature1)
  {
    if ids != [] {
      NodeTotalSnoc(events, e, ids[..|ids| - 1]);
      IncidentFeature1Snoc(events, e, ids[|ids| - 1]);
    }
  }

  /** Summing feature[1] over all nodes counts every row's feature1 twice,
      once at its source and once at its target. */
  lemma {:induction false} Feature1Handshake(events: seq<Event>, ids: seq<string>)
    requires NoDup(ids)
    requires forall k | 0 <= k < |events| :: events[k].sourceId in ids && events[k].targetId in ids
    ensures NodeFeature1Total(events, ids) == 2.0 * TotalFeature1(events)
  {
    if events == [] {
      NodeTotalEmpty(ids);
    } else {
      var init := events[..|events| - 1];
      var e := events[|events| - 1];
      assert events == init + [e];
      Feature1Handshake(init, ids);
      NodeTotalSnoc(init, e, ids);
      IndicatorOnce(ids, e.targetId, e.feature1);
      IndicatorOnce(ids, e.sourceId, e.feature1);
    }
  }

  lemma {:induction false} NodeTotalEmpty(ids: seq<string>)
    ensures NodeFeature1Total([], ids) == 0.0
  {
    if ids != [] {
      NodeTotalEmpty(ids[..|ids| - 1]);
    }
  }

  /** `n` copies of `c` added up. */
  function Times(n: nat, c: real): real {
    if n == 0 then 0.0 else Times(n - 1, c) + c
  }

  lemma {:induction false} TimesAdd(na: nat, nb: nat, c: real)
    ensures Times(na + nb, c) == Times(na, c) + Times(nb, c)
    decreases nb
  {
    if nb > 0 {
      TimesAdd(na, nb - 1, c);
    }
  }

  lemma {:induction false} TimesMul(n: nat, c: real)
    ensures Times(n, c) == n as real * c
  {
    if n > 0 {
      TimesMul(n - 1, c);
      assert n as real * c == (n - 1) as real * c + c;
    }
  }

  lemma {:induction false} SumFeature2Bounds(rows: seq<Event>, lo: real, hi: real)
    requires forall e | e in rows :: lo <= e.feature2 <= hi
    ensures Times(|rows|, lo) <= SumFeature2(rows) <= Times(|rows|, hi)
  {
    if rows != [] {
      SumFeature2Bounds(rows[..|rows| - 1], lo, hi);
    }
  }

  /** The mean feature2 lies between the smallest and the largest feature2 of
      the node's incident rows. */
  lemma MeanFeature2Bounds(events: seq<Event>, id: string, lo: real, hi: real)
    requires forall e | e in events :: lo <= e.feature2 <= hi
    requires IncidentCount(events, id) > 0
    ensures lo <= MeanOf(IncidentFeature2(events, id), IncidentCount(events, id)) <= hi
  {
    var inc, out := Incoming(events, id), Outgoing(events, id);
    SumFeature2Bounds(inc, lo, hi);
    SumFeature2Bounds(out, lo, hi);
    TimesAdd(|inc|, |out|, lo);
    TimesAdd(|inc|, |out|, hi);
    MeanBounds(SumFeature2(inc) + SumFeature2(out), |inc| + |out|, lo, hi);
  }

  /** A total of `n` values within [lo, hi] has its mean within [lo, hi]. */
  lemma MeanBounds(total: real, n: nat, lo: real, hi: real)
    requires n > 0 && Times(n, lo) <= total <= Times(n, hi)
    ensures lo <= MeanOf(total, n) <= hi
  {
    TimesMul(n, lo);
    TimesMul(n, hi);
    var c := n as real;
    var m := total / c;
    assert m * c == total;
    assert lo * c <= total by { assert lo * c == c * lo; }
    assert total <= hi * c by { assert hi * c == c * hi; }
    CancelPositive(lo, m, c);
    CancelPositive(m, hi, c);
  }

  lemma CancelPositive(a: real, b: real, c: real)
    requires c > 0.0 && a * c <= b * c
    ensures a <= b
  {
    assert (b - a) * c >= 0.0;
  }
}
