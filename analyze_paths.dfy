/** Risky-path analysis: pick start and end candidates by substring tests on
    ids and types, enumerate every simple directed path of bounded length
    between each start and each different end, score each path, and sort the
    findings by score, keeping discovery order among equal scores. */
module AnalyzePaths {
  import opened SeqUtil
  import opened BuildGraph
  import opened GraphConverter
  import opened PathScoring

  // ---------------------------------------------------------------------------
  // Roles

  datatype Role = Start | End

  /** Users, or the compromised-looking VM, are where an attack starts. */
  predicate IsStart(id: string, nodeType: string) {
    Contains(nodeType, "user") || Contains(id, "vm_z")
  }

  /** Databases, S3 buckets and security groups are what an attack reaches. */
  predicate IsEnd(id: string, nodeType: string) {
    Contains(nodeType, "db") || Contains(id, "s3") || Contains(nodeType, "sg")
  }

  /** `unique_types[int(x[i, 0])]`: the type name of node i. */
  function NodeType(g: Graph, i: nat): string
    requires WellFormed(g) && i < |g.ids|
  {
    g.types[g.x[i].typeCode]
  }

  predicate HasRole(g: Graph, i: nat, role: Role)
    requires WellFormed(g) && i < |g.ids|
  {
    match role
    case Start => IsStart(g.ids[i], NodeType(g, i))
    case End => IsEnd(g.ids[i], NodeType(g, i))
  }

  predicate Increasing(s: seq<nat>) {
    forall i, j | 0 <= i < j < |s| :: s[i] < s[j]
  }

  /** The candidate list comprehension over the nodes below k, in index
      order: exactly the nodes with the role, each once, ascending. */
  function Candidates(g: Graph, role: Role, k: nat): (r: seq<nat>)
    requires WellFormed(g) && k <= |g.ids|
    ensures forall i | 0 <= i < |r| :: r[i] < k && HasRole(g, r[i], role)
    ensures forall v: nat | v < k && HasRole(g, v, role) :: v in r
    ensures Increasing(r)
  {
    if k == 0 then []
    else
      var below := Candidates(g, role, k - 1);
      assert forall i | 0 <= i < |below| :: below[i] in below && below[i] < k - 1;
      below + (if HasRole(g, k - 1, role) then [k - 1] else [])
  }

  lemma IncreasingNoDup(s: seq<nat>)
    requires Increasing(s)
    ensures NoDup(s)
  {
  }

  // ---------------------------------------------------------------------------
  // Simple-path enumeration

  function Last(p: seq<nat>): nat
    requires p != []
  {
    p[|p| - 1]
  }

  predicate InRange(q: seq<nat>, n: nat) {
    forall i | 0 <= i < |q| :: q[i] < n
  }

  /** Every node of q is a node of the graph. */
  predicate AllIn(q: seq<nat>, adj: map<nat, seq<nat>>) {
    forall i | 0 <= i < |q| :: q[i] in adj
  }

  /** The paths that extend `path` to `target` with at most `budget` more
      edges, never revisiting a node: a depth-first search that tries the
      successors of the last node in adjacency order and stops at the
      target. */
  function PathsFrom(adj: map<nat, seq<nat>>, path: seq<nat>, target: nat, budget: nat): (r: seq<seq<nat>>)
    requires SimpleAdjacency(adj) && path != [] && AllIn(path, adj)
    ensures forall q | q in r :: AllIn(q, adj)
    decreases budget, |adj[Last(path)]| + 1
  {
    if budget == 0 then [] else PathsVia(adj, path, target, budget, 0)
  }

  /** The same, through the successors from position k of the last node's
      list on. */
  function PathsVia(adj: map<nat, seq<nat>>, path: seq<nat>, target: nat, budget: nat, k: nat): (r: seq<seq<nat>>)
    requires SimpleAdjacency(adj) && path != [] && AllIn(path, adj) && 0 < budget
    requires k <= |adj[Last(path)]|
    ensures forall q | q in r :: AllIn(q, adj)
    decreases budget, |adj[Last(path)]| - k
  {
    if k == |adj[Last(path)]| then []
    else
      var w := adj[Last(path)][k];
      assert w in adj[Last(path)];
      Through(adj, path, target, budget, w) + PathsVia(adj, path, target, budget, k + 1)
  }

  /** The same, through the successor w alone: a node already on the path is
      skipped, and the target ends the path. */
  function Through(adj: map<nat, seq<nat>>, path: seq<nat>, target: nat, budget: nat, w: nat): (r: seq<seq<nat>>)
    requires SimpleAdjacency(adj) && path != [] && AllIn(path, adj) && 0 < budget && w in adj
    ensures forall q | q in r :: AllIn(q, adj)
    decreases budget, 0
  {
    if w in path then []
    else if w == target then [path + [w]]
    else PathsFrom(adj, path + [w], target, budget - 1)
  }

  /** `nx.all_simple_paths(G, source, target, cutoff)`: nothing when the
      cutoff is below 1. */
  function SimplePaths(adj: map<nat, seq<nat>>, source: nat, target: nat, cutoff: int): (r: seq<seq<nat>>)
    requires SimpleAdjacency(adj) && source in adj
    ensures forall q | q in r :: AllIn(q, adj)
  {
    if cutoff < 1 then [] else PathsFrom(adj, [source], target, cutoff)
  }

  /** A simple directed path from `source` to `target` with at most `cutoff`
      edges along the adjacency lists. */
  ghost predicate IsSimplePath(adj: map<nat, seq<nat>>, q: seq<nat>, source: nat, target: nat, cutoff: int) {
    2 <= |q| && |q| - 1 <= cutoff && q[0] == source && q[|q| - 1] == target &&
    NoDup(q) && q[0] in adj &&
    forall i | 0 < i < |q| :: Edge(adj, q[i - 1], q[i])
  }

  /** `q` continues the simple path `p` along edges to `t`, adding between 1
      and `budget` nodes. */
  ghost predicate ExtendsTo(adj: map<nat, seq<nat>>, p: seq<nat>, t: nat, budget: nat, q: seq<nat>)
    requires p != []
  {
    |p| < |q| <= |p| + budget && q[..|p|] == p && q[|q| - 1] == t && NoDup(q) &&
    forall i | |p| <= i < |q| :: Edge(adj, q[i - 1], q[i])
  }

  /** The search yields exactly the extensions of `path`, each once. */
  lemma {:induction false} PathsFromSpec(adj: map<nat, seq<nat>>, p: seq<nat>, t: nat, budget: nat)
    requires SimpleAdjacency(adj) && p != [] && AllIn(p, adj) && NoDup(p)
    ensures forall q :: q in PathsFrom(adj, p, t, budget) <==> ExtendsTo(adj, p, t, budget, q)
    ensures NoDup(PathsFrom(adj, p, t, budget))
    decreases budget, |adj[Last(p)]| + 1, 0
  {
    if budget == 0 {
      forall q | ExtendsTo(adj, p, t, budget, q)
        ensures false
      {
      }
    } else {
      PathsViaSpec(adj, p, t, budget, 0);
      forall q | ExtendsTo(adj, p, t, budget, q)
        ensures q[|p|] in adj[Last(p)][0..]
      {
        assert Edge(adj, q[|p| - 1], q[|p|]);
      }
    }
  }

  /** Through position k on, the search yields the extensions whose next node
      is listed from position k on. */
  lemma {:induction false} PathsViaSpec(adj: map<nat, seq<nat>>, p: seq<nat>, t: nat, budget: nat, k: nat)
    requires SimpleAdjacency(adj) && p != [] && AllIn(p, adj) && NoDup(p) && 0 < budget
    requires k <= |adj[Last(p)]|
    ensures forall q :: q in PathsVia(adj, p, t, budget, k) <==>
      ExtendsTo(adj, p, t, budget, q) && q[|p|] in adj[Last(p)][k..]
    ensures NoDup(PathsVia(adj, p, t, budget, k))
    decreases budget, |adj[Last(p)]| - k, 1
  {
    var list := adj[Last(p)];
    if k < |list| {
      var w := list[k];
      PathsViaSpec(adj, p, t, budget, k + 1);
      ThroughSpec(adj, p, t, budget, w);
      var here := Through(adj, p, t, budget, w);
      var rest := PathsVia(adj, p, t, budget, k + 1);
      assert list[k..] == [w] + list[k + 1..];
      assert w !in list[k + 1..] by {
        forall j | k + 1 <= j < |list|
          ensures list[j] != w
        {
        }
      }
      NoDupConcat(here, rest);
    }
  }

  /** The paths found through the successor w are the extensions whose next
      node is w. */
  lemma {:induction false} ThroughSpec(adj: map<nat, seq<nat>>, p: seq<nat>, t: nat, budget: nat, w: nat)
    requires SimpleAdjacency(adj) && p != [] && AllIn(p, adj) && NoDup(p) && 0 < budget
    requires Edge(adj, Last(p), w)
    ensures NoDup(Through(adj, p, t, budget, w))
    ensures forall q :: q in Through(adj, p, t, budget, w) <==> ExtendsTo(adj, p, t, budget, q) && q[|p|] == w
    decreases budget, 0
  {
    if w !in p {
      var p' := p + [w];
      assert NoDup(p');
      if w == t {
        ExtendsToTarget(adj, p, t, budget);
      } else {
        PathsFromSpec(adj, p', t, budget - 1);
        forall q
          ensures ExtendsTo(adj, p', t, budget - 1, q) <==> ExtendsTo(adj, p, t, budget, q) && q[|p|] == w
        {
          StepEquivalence(adj, p, t, budget, w, q);
        }
      }
    } else {
      forall q | ExtendsTo(adj, p, t, budget, q) && q[|p|] == w
        ensures false
      {
      }
    }
  }

  /** Reaching the target after `p` in one step is the only extension whose
      next node is the target. */
  lemma ExtendsToTarget(adj: map<nat, seq<nat>>, p: seq<nat>, t: nat, budget: nat)
    requires p != [] && NoDup(p) && 0 < budget
    requires Edge(adj, Last(p), t) && t !in p
    ensures forall q :: q == p + [t] <==> ExtendsTo(adj, p, t, budget, q) && q[|p|] == t
  {
    var q0 := p + [t];
    assert q0[..|p|] == p;
    assert NoDup(q0);
    forall q | ExtendsTo(adj, p, t, budget, q) && q[|p|] == t
      ensures q == q0
    {
      assert q == q[..|p|] + [q[|p|]];
    }
  }

  /** Extending `p + [w]` is extending `p` with w as the next node. */
  lemma StepEquivalence(adj: map<nat, seq<nat>>, p: seq<nat>, t: nat, budget: nat, w: nat, q: seq<nat>)
    requires p != [] && 0 < budget && w != t && Edge(adj, Last(p), w)
    ensures ExtendsTo(adj, p + [w], t, budget - 1, q) <==> ExtendsTo(adj, p, t, budget, q) && q[|p|] == w
  {
    var p' := p + [w];
    if ExtendsTo(adj, p', t, budget - 1, q) {
      assert q[..|p|] == q[..|p'|][..|p|];
      assert q[|p|] == q[..|p'|][|p|];
    }
    if ExtendsTo(adj, p, t, budget, q) && q[|p|] == w {
      assert q[..|p'|] == q[..|p|] + [q[|p|]];
      assert |q| != |p'|;
    }
  }

  /** all_simple_paths yields exactly the simple paths from source to target
      with at most `cutoff` edges, each once. */
  lemma SimplePathsSpec(adj: map<nat, seq<nat>>, source: nat, target: nat, cutoff: int)
    requires SimpleAdjacency(adj) && source in adj
    ensures forall q :: q in SimplePaths(adj, source, target, cutoff) <==> IsSimplePath(adj, q, source, target, cutoff)
    ensures NoDup(SimplePaths(adj, source, target, cutoff))
  {
    if cutoff >= 1 {
      PathsFromSpec(adj, [source], target, cutoff);
      forall q
        ensures ExtendsTo(adj, [source], target, cutoff, q) <==> IsSimplePath(adj, q, source, target, cutoff)
      {
        if IsSimplePath(adj, q, source, target, cutoff) {
          assert q[..1] == [source];
        }
      }
    }
  }

  /** Reference definition over the edge set: a simple directed path from
      `source` to `target` with at most `cutoff` edges over the nodes
      [0, n). */
  ghost predicate IsRoute(edges: set<(nat, nat)>, n: nat, q: seq<nat>, source: nat, target: nat, cutoff: int) {
    2 <= |q| && |q| - 1 <= cutoff && q[0] == source && q[|q| - 1] == target &&
    NoDup(q) && InRange(q, n) &&
    forall i | 0 < i < |q| :: (q[i - 1], q[i]) in edges
  }

  /** Along the converted graph's adjacency lists, the simple paths are the
      routes over the edge index's edge set: adjacency order changes only
      the order in which they are found. */
  lemma AdjacencyRoutes(edgeList: seq<(nat, nat)>, n: nat, source: nat, target: nat, cutoff: int)
    requires forall k | 0 <= k < |edgeList| :: edgeList[k].0 < n && edgeList[k].1 < n
    ensures forall q :: IsSimplePath(Adjacency(edgeList, n), q, source, target, cutoff) <==>
      IsRoute(EdgeSet(edgeList), n, q, source, target, cutoff)
  {
    forall q
      ensures IsSimplePath(Adjacency(edgeList, n), q, source, target, cutoff) <==>
        IsRoute(EdgeSet(edgeList), n, q, source, target, cutoff)
    {
      AdjacencyRoute(edgeList, n, q, source, target, cutoff);
    }
  }

  lemma AdjacencyRoute(edgeList: seq<(nat, nat)>, n: nat, q: seq<nat>, source: nat, target: nat, cutoff: int)
    requires forall k | 0 <= k < |edgeList| :: edgeList[k].0 < n && edgeList[k].1 < n
    ensures IsSimplePath(Adjacency(edgeList, n), q, source, target, cutoff) <==>
      IsRoute(EdgeSet(edgeList), n, q, source, target, cutoff)
  {
    if 2 <= |q| {
      var adj := Adjacency(edgeList, n);
      RouteEdges(edgeList, n, adj, q);
      if IsSimplePath(adj, q, source, target, cutoff) {
        RouteNodes(edgeList, n, q);
      }
    }
  }

  /** Each step of q is an adjacency edge exactly when it is an edge of the
      edge set. */
  lemma RouteEdges(edgeList: seq<(nat, nat)>, n: nat, adj: map<nat, seq<nat>>, q: seq<nat>)
    requires forall k | 0 <= k < |edgeList| :: edgeList[k].0 < n && edgeList[k].1 < n
    requires adj == Adjacency(edgeList, n)
    ensures forall i | 0 < i < |q| :: Edge(adj, q[i - 1], q[i]) <==> (q[i - 1], q[i]) in EdgeSet(edgeList)
  {
    forall i | 0 < i < |q|
      ensures Edge(adj, q[i - 1], q[i]) <==> (q[i - 1], q[i]) in EdgeSet(edgeList)
    {
      AdjacencyEdges(edgeList, n, q[i - 1], q[i]);
    }
  }

  /** A walk along edges of the edge set from a node of [0, n) stays in
      [0, n). */
  lemma RouteNodes(edgeList: seq<(nat, nat)>, n: nat, q: seq<nat>)
    requires forall k | 0 <= k < |edgeList| :: edgeList[k].0 < n && edgeList[k].1 < n
    requires q != [] && q[0] < n
    requires forall i | 0 < i < |q| :: (q[i - 1], q[i]) in EdgeSet(edgeList)
    ensures InRange(q, n)
  {
    forall i | 0 < i < |q|
      ensures q[i] < n
    {
      AdjacencyEdges(edgeList, n, q[i - 1], q[i]);
    }
  }

  // ---------------------------------------------------------------------------
  // Findings

  /** One finding: the path's score, the entity ids along it and its node
      indices. */
  datatype RiskyPath = RiskyPath(score: Score, pathIds: seq<string>, pathIndices: seq<nat>)

  /** A node starts an attack exactly when "user" occurs in its type or
      "vm_z" in its id, and ends one exactly when "db" or "sg" occurs in its
      type or "s3" in its id. */
  lemma RolesByOccurrence(id: string, nodeType: string)
    ensures IsStart(id, nodeType) <==>
      (exists k: nat :: OccursAt(nodeType, "user", k)) || (exists k: nat :: OccursAt(id, "vm_z", k))
    ensures IsEnd(id, nodeType) <==>
      (exists k: nat :: OccursAt(nodeType, "db", k)) || (exists k: nat :: OccursAt(id, "s3", k)) ||
      (exists k: nat :: OccursAt(nodeType, "sg", k))
  {
    ContainsOccurs(nodeType, "user");
    ContainsOccurs(id, "vm_z");
    ContainsOccurs(nodeType, "db");
    ContainsOccurs(id, "s3");
    ContainsOccurs(nodeType, "sg");
  }

  /** `[idx_to_id[idx] for idx in path]`, with node i's id at ids[i]. */
  function IdsOf(ids: seq<string>, p: seq<nat>): seq<string>
    requires InRange(p, |ids|)
  {
    seq(|p|, i requires 0 <= i < |p| => ids[p[i]])
  }

  /** Distinct nodes of a path have distinct ids, since the ids are distinct. */
  lemma IdsOfDistinct(ids: seq<string>, p: seq<nat>)
    requires InRange(p, |ids|) && NoDup(ids) && NoDup(p)
    ensures NoDup(IdsOf(ids, p))
  {
  }

  /** The `(score, path_ids, path)` triple of one path; FindingOfPath states
      what each part holds. */
  function Finding(ids: seq<string>, table: seq<AnomalyRecord>, p: seq<nat>): RiskyPath
    requires InRange(p, |ids|)
  {
    RiskyPath(ScorePath(p, table), IdsOf(ids, p), p)
  }

  /** A finding holds the path, the id of each of its nodes, and a score
      that is +inf exactly for the empty path and otherwise the sum of its
      distinct nodes' scores. */
  lemma FindingOfPath(ids: seq<string>, table: seq<AnomalyRecord>, p: seq<nat>)
    requires InRange(p, |ids|)
    ensures Finding(ids, table, p).pathIndices == p
    ensures |Finding(ids, table, p).pathIds| == |p|
    ensures forall i | 0 <= i < |p| :: Finding(ids, table, p).pathIds[i] == ids[p[i]]
    ensures Finding(ids, table, p).score.PosInf? <==> p == []
    ensures p != [] ==> Finding(ids, table, p).score == Finite(NodeScoreSum(table, Dedup(p)))
  {
    if p != [] {
      ScoreIsSumOverDistinctNodes(p, table);
    }
  }

  /** One finding per path, in enumeration order. */
  function Records(ids: seq<string>, table: seq<AnomalyRecord>, paths: seq<seq<nat>>): (r: seq<RiskyPath>)
    requires forall q | q in paths :: InRange(q, |ids|)
    ensures forall f | f in r :: f.pathIndices in paths && f == Finding(ids, table, f.pathIndices)
  {
    if paths == [] then []
    else Records(ids, table, paths[..|paths| - 1]) + [Finding(ids, table, paths[|paths| - 1])]
  }

  /** The graph's adjacency lists name only the nodes [0, |ids|). */
  predicate Indexed(ids: seq<string>, adj: map<nat, seq<nat>>) {
    SimpleAdjacency(adj) && forall u | u in adj :: u < |ids|
  }

  /** The paths between one pair, as their findings. */
  function PairRecords(ids: seq<string>, adj: map<nat, seq<nat>>, table: seq<AnomalyRecord>, maxPathLength: int, s: nat, e: nat): seq<RiskyPath>
    requires Indexed(ids, adj) && s in adj
  {
    var paths := SimplePaths(adj, s, e, maxPathLength - 1);
    assert forall q | q in paths :: InRange(q, |ids|);
    Records(ids, table, paths)
  }

  /** The findings for one start `s` and the ends in `ends`, skipping the end
      equal to `s`; the paths may have up to maxPathLength nodes. */
  function PairFindings(ids: seq<string>, adj: map<nat, seq<nat>>, table: seq<AnomalyRecord>, maxPathLength: int, s: nat, ends: seq<nat>): seq<RiskyPath>
    requires Indexed(ids, adj) && s in adj
  {
    if ends == [] then []
    else
      var e := ends[|ends| - 1];
      PairFindings(ids, adj, table, maxPathLength, s, ends[..|ends| - 1]) +
      (if s == e then [] else PairRecords(ids, adj, table, maxPathLength, s, e))
  }

  function StartFindings(ids: seq<string>, adj: map<nat, seq<nat>>, table: seq<AnomalyRecord>, maxPathLength: int, starts: seq<nat>, ends: seq<nat>): seq<RiskyPath>
    requires Indexed(ids, adj) && AllIn(starts, adj)
  {
    if starts == [] then []
    else
      StartFindings(ids, adj, table, maxPathLength, starts[..|starts| - 1], ends) +
      PairFindings(ids, adj, table, maxPathLength, starts[|starts| - 1], ends)
  }

  /** Reference definition of what the search discovers, before sorting:
      starts in index order, and for each start the ends in index order. */
  function Discovered(g: Graph, table: seq<AnomalyRecord>, maxPathLength: int): seq<RiskyPath>
    requires WellFormed(g)
  {
    StartFindings(g.ids, Adjacency(g.edges, |g.ids|), table, maxPathLength,
      Candidates(g, Start, |g.ids|), Candidates(g, End, |g.ids|))
  }

  // ---------------------------------------------------------------------------
  // Sorting by score

  /** Inserts `f` after every element whose score is at most its own. */
  function Insert(f: RiskyPath, s: seq<RiskyPath>): (r: seq<RiskyPath>)
    ensures multiset(r) == multiset(s) + multiset{f}
  {
    if s == [] then [f]
    else if ScoreLe(s[|s| - 1].score, f.score) then s + [f]
    else
      assert s == s[..|s| - 1] + [s[|s| - 1]];
      Insert(f, s[..|s| - 1]) + [s[|s| - 1]]
  }

  /** `risky_paths.sort(key=lambda x: x['score'])`: a stable sort, here by
      insertion; the result is a permutation of the input. */
  function SortByScore(l: seq<RiskyPath>): (r: seq<RiskyPath>)
    ensures multiset(r) == multiset(l)
  {
    if l == [] then []
    else
      assert l == l[..|l| - 1] + [l[|l| - 1]];
      Insert(l[|l| - 1], SortByScore(l[..|l| - 1]))
  }

  predicate SortedByScore(s: seq<RiskyPath>) {
    forall i, j | 0 <= i < j < |s| :: ScoreLe(s[i].score, s[j].score)
  }

  lemma {:induction false} InsertSorted(f: RiskyPath, s: seq<RiskyPath>)
    requires SortedByScore(s)
    ensures SortedByScore(Insert(f, s))
  {
    if s != [] && !ScoreLe(s[|s| - 1].score, f.score) {
      var init := s[..|s| - 1];
      var last := s[|s| - 1];
      InsertSorted(f, init);
      var t := Insert(f, init);
      forall x | x in t
        ensures ScoreLe(x.score, last.score)
      {
        assert x in multiset(t);
        if x != f {
          assert x in init;
        }
      }
      assert forall i | 0 <= i < |t| :: t[i] in t;
    }
  }

  /** The result is in ascending score order. */
  lemma {:induction false} SortSorted(l: seq<RiskyPath>)
    ensures SortedByScore(SortByScore(l))
  {
    if l != [] {
      SortSorted(l[..|l| - 1]);
      InsertSorted(l[|l| - 1], SortByScore(l[..|l| - 1]));
    }
  }

  /** The findings with score v, in order. */
  function WithScore(s: seq<RiskyPath>, v: Score): seq<RiskyPath> {
    if s == [] then []
    else WithScore(s[..|s| - 1], v) + (if s[|s| - 1].score == v then [s[|s| - 1]] else [])
  }

  lemma {:induction false} WithScoreConcat(a: seq<RiskyPath>, b: seq<RiskyPath>, v: Score)
    ensures WithScore(a + b, v) == WithScore(a, v) + WithScore(b, v)
  {
    if b == [] {
      assert a + b == a;
    } else {
      assert (a + b)[..|a + b| - 1] == a + b[..|b| - 1];
      WithScoreConcat(a, b[..|b| - 1], v);
    }
  }

  lemma WithScoreSnoc(s: seq<RiskyPath>, x: RiskyPath, v: Score)
    ensures WithScore(s + [x], v) == WithScore(s, v) + (if x.score == v then [x] else [])
  {
    assert (s + [x])[..|s|] == s;
  }

  lemma {:induction false} InsertStable(f: RiskyPath, s: seq<RiskyPath>, v: Score)
    ensures WithScore(Insert(f, s), v) == WithScore(s, v) + (if f.score == v then [f] else [])
  {
    if s == [] {
      WithScoreSnoc([], f, v);
    } else if ScoreLe(s[|s| - 1].score, f.score) {
      WithScoreSnoc(s, f, v);
    } else {
      InsertStable(f, s[..|s| - 1], v);
      PassOver(f, s[..|s| - 1], s[|s| - 1], v);
      assert s == s[..|s| - 1] + [s[|s| - 1]];
    }
  }

  /** Moving `f` in front of an element with a different score keeps every
      score's subsequence. */
  lemma PassOver(f: RiskyPath, init: seq<RiskyPath>, last: RiskyPath, v: Score)
    requires last.score != f.score
    requires WithScore(Insert(f, init), v) == WithScore(init, v) + (if f.score == v then [f] else [])
    ensures WithScore(Insert(f, init) + [last], v) == WithScore(init + [last], v) + (if f.score == v then [f] else [])
  {
    WithScoreSnoc(Insert(f, init), last, v);
    WithScoreSnoc(init, last, v);
  }

  /** Stability: among findings with equal scores, the sorted list keeps
      discovery order. */
  lemma {:induction false} SortStable(l: seq<RiskyPath>, v: Score)
    ensures WithScore(SortByScore(l), v) == WithScore(l, v)
  {
    if l != [] {
      SortStable(l[..|l| - 1], v);
      InsertStable(l[|l| - 1], SortByScore(l[..|l| - 1]), v);
    }
  }

  lemma RecordsStep(ids: seq<string>, table: seq<AnomalyRecord>, paths: seq<seq<nat>>, k: nat)
    requires k < |paths| && forall q | q in paths :: InRange(q, |ids|)
    ensures Records(ids, table, paths[..k + 1]) == Records(ids, table, paths[..k]) + [Finding(ids, table, paths[k])]
  {
    assert paths[..k + 1][..k] == paths[..k];
  }

  lemma PairStep(ids: seq<string>, adj: map<nat, seq<nat>>, table: seq<AnomalyRecord>, maxPathLength: int, s: nat, ends: seq<nat>, k: nat)
    requires Indexed(ids, adj) && s in adj && k < |ends|
    ensures PairFindings(ids, adj, table, maxPathLength, s, ends[..k + 1]) ==
      PairFindings(ids, adj, table, maxPathLength, s, ends[..k]) +
      (if s == ends[k] then [] else PairRecords(ids, adj, table, maxPathLength, s, ends[k]))
  {
    assert ends[..k + 1][..k] == ends[..k];
  }

  lemma StartStep(ids: seq<string>, adj: map<nat, seq<nat>>, table: seq<AnomalyRecord>, maxPathLength: int, starts: seq<nat>, ends: seq<nat>, k: nat)
    requires Indexed(ids, adj) && AllIn(starts, adj) && k < |starts|
    ensures StartFindings(ids, adj, table, maxPathLength, starts[..k + 1], ends) ==
      StartFindings(ids, adj, table, maxPathLength, starts[..k], ends) + PairFindings(ids, adj, table, maxPathLength, starts[k], ends)
  {
    assert starts[..k + 1][..k] == starts[..k];
  }

  // ---------------------------------------------------------------------------
  // The analysis

  /** The body of the loop over one pair's paths: score each path, look up
      its ids and append the finding. */
  method RecordPaths(ids: seq<string>, table: seq<AnomalyRecord>, paths: seq<seq<nat>>) returns (found: seq<RiskyPath>)
    requires forall q | q in paths :: InRange(q, |ids|)
    ensures found == Records(ids, table, paths)
  {
    found := [];
    var k := 0;
    while k < |paths|
      invariant k <= |paths|
      invariant found == Records(ids, table, paths[..k])
    {
      var p := paths[k];
      var score := ScorePath(p, table);
      var pathIds := IdsOf(ids, p);
      RecordsStep(ids, table, paths, k);
      found := found + [RiskyPath(score, pathIds, p)];
      k := k + 1;
    }
    assert paths[..k] == paths;
  }

  /** The loop over the ends for one start `s`. */
  method StartRecords(ids: seq<string>, adj: map<nat, seq<nat>>, table: seq<AnomalyRecord>, maxPathLength: int, s: nat, ends: seq<nat>)
    returns (found: seq<RiskyPath>)
    requires Indexed(ids, adj) && s in adj
    ensures found == PairFindings(ids, adj, table, maxPathLength, s, ends)
  {
    found := [];
    var ei := 0;
    while ei < |ends|
      invariant ei <= |ends|
      invariant found == PairFindings(ids, adj, table, maxPathLength, s, ends[..ei])
    {
      var e := ends[ei];
      if s != e {
        var paths := SimplePaths(adj, s, e, maxPathLength - 1);
        var pairFound := RecordPaths(ids, table, paths);
        assert pairFound == PairRecords(ids, adj, table, maxPathLength, s, e);
        found := found + pairFound;
      } else {
        assert found + [] == found;
      }
      PairStep(ids, adj, table, maxPathLength, s, ends, ei);
      ei := ei + 1;
    }
    assert ends[..ei] == ends;
  }

  /** analyze_paths: converts the graph, collects start and end candidates,
      enumerates the simple paths of at most maxPathLength nodes between
      every start and every different end, scores them and sorts the
      findings by score. The table may name nodes the graph lacks. */
  method AnalyzePaths(g: Graph, table: seq<AnomalyRecord>, maxPathLength: int) returns (risky: seq<RiskyPath>)
    requires WellFormed(g)
    ensures risky == SortByScore(Discovered(g, table, maxPathLength))
  {
    var nx := ToNetworkx(g.x, g.ids, g.edges);
    var n := |g.ids|;
    var adj := nx.succ;
    NoNewNodes(g.edges, n);
    ConvertedAdjacency(adj, g.edges, n);
    var starts := Candidates(g, Start, n);
    var ends := Candidates(g, End, n);
    var found := AllRecords(g.ids, adj, table, maxPathLength, starts, ends);
    risky := SortByScore(found);
  }

  /** The loop over the starts. */
  method AllRecords(ids: seq<string>, adj: map<nat, seq<nat>>, table: seq<AnomalyRecord>, maxPathLength: int, starts: seq<nat>, ends: seq<nat>)
    returns (found: seq<RiskyPath>)
    requires Indexed(ids, adj) && AllIn(starts, adj)
    ensures found == StartFindings(ids, adj, table, maxPathLength, starts, ends)
  {
    found := [];
    var si := 0;
    while si < |starts|
      invariant si <= |starts|
      invariant found == StartFindings(ids, adj, table, maxPathLength, starts[..si], ends)
    {
      var startFound := StartRecords(ids, adj, table, maxPathLength, starts[si], ends);
      found := found + startFound;
      StartStep(ids, adj, table, maxPathLength, starts, ends, si);
      si := si + 1;
    }
    assert starts[..si] == starts;
  }

  /** When every endpoint lies in [0, n), the dictionary to_networkx builds
      is the adjacency of [0, n). */
  lemma ConvertedAdjacency(succ: map<nat, seq<nat>>, edgeList: seq<(nat, nat)>, n: nat)
    requires forall k | 0 <= k < |edgeList| :: edgeList[k].0 < n && edgeList[k].1 < n
    requires succ.Keys == Below(n)
    requires forall u | u in succ :: succ[u] == Successors(edgeList, u)
    ensures succ == Adjacency(edgeList, n)
  {
  }

  // ---------------------------------------------------------------------------
  // What the analysis finds

  /** The node paths of a list of findings. */
  function PathsOf(fs: seq<RiskyPath>): seq<seq<nat>> {
    seq(|fs|, i requires 0 <= i < |fs| => fs[i].pathIndices)
  }

  /** A route worth reporting: a simple path of at most maxPathLength nodes
      from a start candidate to a different end candidate, over the edges of
      the graph's edge index. */
  ghost predicate RiskyRoute(g: Graph, maxPathLength: int, q: seq<nat>)
    requires WellFormed(g)
  {
    2 <= |q| && IsRoute(EdgeSet(g.edges), |g.ids|, q, q[0], q[|q| - 1], maxPathLength - 1) &&
    q[0] != q[|q| - 1] && HasRole(g, q[0], Start) && HasRole(g, q[|q| - 1], End)
  }

  /** A finding is a risky route with its own score and ids. */
  ghost predicate SoundFinding(g: Graph, table: seq<AnomalyRecord>, maxPathLength: int, f: RiskyPath)
    requires WellFormed(g)
  {
    RiskyRoute(g, maxPathLength, f.pathIndices) && f == Finding(g.ids, table, f.pathIndices)
  }

  lemma PathsOfConcat(a: seq<RiskyPath>, b: seq<RiskyPath>)
    ensures PathsOf(a + b) == PathsOf(a) + PathsOf(b)
  {
  }

  lemma {:induction false} PathsOfRecords(ids: seq<string>, table: seq<AnomalyRecord>, paths: seq<seq<nat>>)
    requires forall q | q in paths :: InRange(q, |ids|)
    ensures PathsOf(Records(ids, table, paths)) == paths
  {
    if paths != [] {
      var init := paths[..|paths| - 1];
      PathsOfRecords(ids, table, init);
      PathsOfConcat(Records(ids, table, init), [Finding(ids, table, paths[|paths| - 1])]);
      assert paths == init + [paths[|paths| - 1]];
    }
  }

  /** For one start, each simple path to one of the ends (other than the
      start itself) is found exactly once, and nothing else is. */
  lemma {:induction false} PairCount(ids: seq<string>, adj: map<nat, seq<nat>>, table: seq<AnomalyRecord>, maxPathLength: int, s: nat, ends: seq<nat>, q: seq<nat>)
    requires Indexed(ids, adj) && s in adj && NoDup(ends)
    ensures multiset(PathsOf(PairFindings(ids, adj, table, maxPathLength, s, ends)))[q] ==
      if 2 <= |q| && q[|q| - 1] in ends && q[|q| - 1] != s &&
         IsSimplePath(adj, q, s, q[|q| - 1], maxPathLength - 1) then 1 else 0
  {
    if ends != [] {
      var init := ends[..|ends| - 1];
      var e := ends[|ends| - 1];
      assert ends == init + [e];
      assert NoDup(init);
      PairCount(ids, adj, table, maxPathLength, s, init, q);
      var tail := if s == e then [] else PairRecords(ids, adj, table, maxPathLength, s, e);
      PathsOfConcat(PairFindings(ids, adj, table, maxPathLength, s, init), tail);
      PairTailCount(ids, adj, table, maxPathLength, s, e, q);
    }
  }

  /** The findings for one pair hold each simple path between them once. */
  lemma PairTailCount(ids: seq<string>, adj: map<nat, seq<nat>>, table: seq<AnomalyRecord>, maxPathLength: int, s: nat, e: nat, q: seq<nat>)
    requires Indexed(ids, adj) && s in adj
    ensures var tail := if s == e then [] else PairRecords(ids, adj, table, maxPathLength, s, e);
      multiset(PathsOf(tail))[q] ==
        if s != e && IsSimplePath(adj, q, s, e, maxPathLength - 1) then 1 else 0
  {
    if s != e {
      var paths := SimplePaths(adj, s, e, maxPathLength - 1);
      PathsOfRecords(ids, table, paths);
      SimplePathsSpec(adj, s, e, maxPathLength - 1);
      NoDupCount(paths, q);
    }
  }

  /** Over all starts: each simple path from a start to a different end is
      found exactly once. */
  lemma {:induction false} StartCount(ids: seq<string>, adj: map<nat, seq<nat>>, table: seq<AnomalyRecord>, maxPathLength: int, starts: seq<nat>, ends: seq<nat>, q: seq<nat>)
    requires Indexed(ids, adj) && AllIn(starts, adj) && NoDup(starts) && NoDup(ends)
    ensures multiset(PathsOf(StartFindings(ids, adj, table, maxPathLength, starts, ends)))[q] ==
      if 2 <= |q| && q[0] in starts && q[|q| - 1] in ends && q[0] != q[|q| - 1] &&
         IsSimplePath(adj, q, q[0], q[|q| - 1], maxPathLength - 1) then 1 else 0
  {
    if starts != [] {
      var init := starts[..|starts| - 1];
      var s := starts[|starts| - 1];
      assert starts == init + [s];
      assert NoDup(init);
      StartCount(ids, adj, table, maxPathLength, init, ends, q);
      PairCount(ids, adj, table, maxPathLength, s, ends, q);
      PathsOfConcat(StartFindings(ids, adj, table, maxPathLength, init, ends), PairFindings(ids, adj, table, maxPathLength, s, ends));
    }
  }

  /** Completeness without repetition: every risky route is discovered
      exactly once, and no other path is. */
  lemma DiscoveredCount(g: Graph, table: seq<AnomalyRecord>, maxPathLength: int, q: seq<nat>)
    requires WellFormed(g)
    ensures multiset(PathsOf(Discovered(g, table, maxPathLength)))[q] == if RiskyRoute(g, maxPathLength, q) then 1 else 0
  {
    var n := |g.ids|;
    var adj := Adjacency(g.edges, n);
    var starts := Candidates(g, Start, n);
    var ends := Candidates(g, End, n);
    IncreasingNoDup(starts);
    IncreasingNoDup(ends);
    StartCount(g.ids, adj, table, maxPathLength, starts, ends, q);
    if 2 <= |q| {
      AdjacencyRoutes(g.edges, n, q[0], q[|q| - 1], maxPathLength - 1);
      if IsRoute(EdgeSet(g.edges), n, q, q[0], q[|q| - 1], maxPathLength - 1) {
        assert q[0] < n && q[|q| - 1] < n;
      }
    }
  }

  /** A limit below two nodes finds nothing. */
  lemma ShortLimitFindsNothing(g: Graph, table: seq<AnomalyRecord>, maxPathLength: int)
    requires WellFormed(g) && maxPathLength <= 1
    ensures Discovered(g, table, maxPathLength) == []
  {
    var d := Discovered(g, table, maxPathLength);
    if d != [] {
      assert PathsOf(d)[0] == d[0].pathIndices;
      DiscoveredCount(g, table, maxPathLength, d[0].pathIndices);
      assert false;
    }
  }

  /** Every finding for one start is a risky route from it, with the route's
      own score and ids. */
  lemma {:induction false} PairSound(g: Graph, table: seq<AnomalyRecord>, maxPathLength: int, s: nat, ends: seq<nat>)
    requires WellFormed(g) && s < |g.ids| && HasRole(g, s, Start)
    requires forall i | 0 <= i < |ends| :: ends[i] < |g.ids| && HasRole(g, ends[i], End)
    ensures forall f | f in PairFindings(g.ids, Adjacency(g.edges, |g.ids|), table, maxPathLength, s, ends) ::
      SoundFinding(g, table, maxPathLength, f)
  {
    if ends != [] {
      var e := ends[|ends| - 1];
      PairSound(g, table, maxPathLength, s, ends[..|ends| - 1]);
      if s != e {
        SimplePathsSpec(Adjacency(g.edges, |g.ids|), s, e, maxPathLength - 1);
        AdjacencyRoutes(g.edges, |g.ids|, s, e, maxPathLength - 1);
      }
    }
  }

  lemma {:induction false} StartSound(g: Graph, table: seq<AnomalyRecord>, maxPathLength: int, starts: seq<nat>, ends: seq<nat>)
    requires WellFormed(g) && InRange(starts, |g.ids|)
    requires forall i | 0 <= i < |starts| :: HasRole(g, starts[i], Start)
    requires forall i | 0 <= i < |ends| :: ends[i] < |g.ids| && HasRole(g, ends[i], End)
    ensures forall f | f in StartFindings(g.ids, Adjacency(g.edges, |g.ids|), table, maxPathLength, starts, ends) ::
      SoundFinding(g, table, maxPathLength, f)
  {
    if starts != [] {
      StartSound(g, table, maxPathLength, starts[..|starts| - 1], ends);
      PairSound(g, table, maxPathLength, starts[|starts| - 1], ends);
    }
  }

  /** Soundness: every discovered finding is a risky route, scored and named
      as score_path and the id index say. */
  lemma DiscoveredSound(g: Graph, table: seq<AnomalyRecord>, maxPathLength: int)
    requires WellFormed(g)
    ensures forall f | f in Discovered(g, table, maxPathLength) :: SoundFinding(g, table, maxPathLength, f)
  {
    StartSound(g, table, maxPathLength, Candidates(g, Start, |g.ids|), Candidates(g, End, |g.ids|));
  }

  /** Equal multisets of findings have equal multisets of paths. */
  lemma {:induction false} PathsOfPermutation(a: seq<RiskyPath>, b: seq<RiskyPath>)
    requires multiset(a) == multiset(b)
    ensures multiset(PathsOf(a)) == multiset(PathsOf(b))
  {
    if a == [] {
      assert |b| == |multiset(b)| == 0;
    } else {
      var init := a[..|a| - 1];
      var x := a[|a| - 1];
      assert a == init + [x];
      assert x in multiset(b);
      var k :| 0 <= k < |b| && b[k] == x;
      var rest := b[..k] + b[k + 1..];
      RemoveAt(b, k);
      Cancel(multiset(init), multiset(rest), x);
      PathsOfPermutation(init, rest);
      PathsOfConcat(init, [x]);
    }
  }

  /** Taking out the k-th finding takes out its path. */
  lemma RemoveAt(b: seq<RiskyPath>, k: nat)
    requires k < |b|
    ensures multiset(b) == multiset(b[..k] + b[k + 1..]) + multiset{b[k]}
    ensures multiset(PathsOf(b)) == multiset(PathsOf(b[..k] + b[k + 1..])) + multiset{b[k].pathIndices}
  {
    assert b == b[..k] + [b[k]] + b[k + 1..];
    PathsOfConcat(b[..k] + [b[k]], b[k + 1..]);
    PathsOfConcat(b[..k], [b[k]]);
    PathsOfConcat(b[..k], b[k + 1..]);
  }

  lemma Cancel<T>(m: multiset<T>, m': multiset<T>, x: T)
    requires m + multiset{x} == m' + multiset{x}
    ensures m == m'
  {
    forall y
      ensures m[y] == m'[y]
    {
      assert (m + multiset{x})[y] == (m' + multiset{x})[y];
    }
  }

  /** What analyze_paths returns: sorted by score, stable, every finding a
      scored risky route, and every risky route reported exactly once. */
  lemma AnalysisResult(g: Graph, table: seq<AnomalyRecord>, maxPathLength: int)
    requires WellFormed(g)
    ensures var d := Discovered(g, table, maxPathLength);
      var r := SortByScore(d);
      SortedByScore(r) &&
      (forall f | f in r :: SoundFinding(g, table, maxPathLength, f)) &&
      (forall q :: multiset(PathsOf(r))[q] == if RiskyRoute(g, maxPathLength, q) then 1 else 0) &&
      (forall v :: WithScore(r, v) == WithScore(d, v))
  {
    var d := Discovered(g, table, maxPathLength);
    var r := SortByScore(d);
    SortSorted(d);
    DiscoveredSound(g, table, maxPathLength);
    forall f | f in r
      ensures SoundFinding(g, table, maxPathLength, f)
    {
      assert f in multiset(r);
    }
    PathsOfPermutation(r, d);
    forall q
      ensures multiset(PathsOf(r))[q] == if RiskyRoute(g, maxPathLength, q) then 1 else 0
    {
      DiscoveredCount(g, table, maxPathLength, q);
    }
    forall v
      ensures WithScore(r, v) == WithScore(d, v)
    {
      SortStable(d, v);
    }
  }
}
