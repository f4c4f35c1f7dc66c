/** Conversion of the built graph into a directed simple graph: one node per
    index carrying the entity id and its feature row, and one edge per
    distinct (source, target) column of the edge index. Each node's
    successors are kept in the order their first edge was added, as a
    DiGraph's adjacency dictionary keeps them. */
module GraphConverter {
  import opened SeqUtil
  import opened BuildGraph

  /** The attribute dictionary of a node: nodes added by `add_edge` alone
      carry none. */
  datatype NodeAttrs = NoAttrs | Attrs(originalId: string, features: seq<real>)

  /** The nodes [0, n). */
  function Below(n: nat): (r: set<nat>)
    ensures forall v: nat :: v in r <==> v < n
  {
    if n == 0 then {} else Below(n - 1) + {n - 1}
  }

  /** The distinct columns of an edge index. */
  function EdgeSet(edgeList: seq<(nat, nat)>): set<(nat, nat)> {
    if edgeList == [] then {}
    else EdgeSet(edgeList[..|edgeList| - 1]) + {edgeList[|edgeList| - 1]}
  }

  /** Every node an edge index names, at either end. */
  function Endpoints(edgeList: seq<(nat, nat)>): set<nat> {
    if edgeList == [] then {}
    else
      var e := edgeList[|edgeList| - 1];
      Endpoints(edgeList[..|edgeList| - 1]) + {e.0, e.1}
  }

  /** The targets of the columns whose source is u, in column order. */
  function Targets(edgeList: seq<(nat, nat)>, u: nat): seq<nat> {
    if edgeList == [] then []
    else
      var e := edgeList[|edgeList| - 1];
      Targets(edgeList[..|edgeList| - 1], u) + (if e.0 == u then [e.1] else [])
  }

  /** The successors of u, each once, in the order of the first column that
      names them. */
  function Successors(edgeList: seq<(nat, nat)>, u: nat): seq<nat> {
    Dedup(Targets(edgeList, u))
  }

  /** v is listed among the successors of u. */
  predicate Edge(adj: map<nat, seq<nat>>, u: nat, v: nat) {
    u in adj && v in adj[u]
  }

  /** An adjacency dictionary without parallel edges: no successor listed
      twice, and every successor itself a node. */
  predicate SimpleAdjacency(adj: map<nat, seq<nat>>) {
    forall u | u in adj :: NoDup(adj[u]) && forall v | v in adj[u] :: v in adj
  }

  /** A directed graph without parallel edges, as networkx's DiGraph keeps
      it: a node dictionary and an edge set. */
  class DiGraph {
    var nodes: map<nat, NodeAttrs>
    /** The adjacency dictionary: the successors of each node, in insertion
        order. */
    var succ: map<nat, seq<nat>>

    /** Every node has a successor list, with no repeats and only nodes in
        it. */
    ghost predicate Valid()
      reads this
    {
      succ.Keys == nodes.Keys && SimpleAdjacency(succ)
    }

    constructor ()
      ensures Valid() && nodes == map[] && succ == map[]
    {
      nodes := map[];
      succ := map[];
    }

    /** `add_node(i, original_id=..., features=...)`: both attributes are set,
        so a node already present ends up with exactly these; its successors
        stay. */
    method AddNode(i: nat, originalId: string, features: seq<real>)
      modifies this
      requires Valid()
      ensures Valid()
      ensures nodes == old(nodes)[i := Attrs(originalId, features)]
      ensures succ == WithList(old(succ), i)
    {
      nodes := nodes[i := Attrs(originalId, features)];
      succ := WithList(succ, i);
    }

    /** `add_edge(u, v)`: adds a missing endpoint without attributes and with
        no successors, keeps a present one as it is, and appends v to u's
        successors unless it is already there. */
    method AddEdge(u: nat, v: nat)
      modifies this
      requires Valid()
      ensures Valid()
      ensures nodes == WithNode(WithNode(old(nodes), u), v)
      ensures succ == Linked(WithList(WithList(old(succ), u), v), u, v)
    {
      var ns := WithNode(WithNode(nodes, u), v);
      var ss := WithList(WithList(succ, u), v);
      LinkKeepsSimple(succ, u, v);
      nodes, succ := ns, Linked(ss, u, v);
    }
  }

  /** The node dictionary with w present, as NoAttrs if it was missing. */
  function WithNode(m: map<nat, NodeAttrs>, w: nat): (r: map<nat, NodeAttrs>)
    ensures r.Keys == m.Keys + {w}
    ensures forall x | x in m :: r[x] == m[x]
  {
    if w in m then m else m[w := NoAttrs]
  }

  /** The adjacency dictionary with w present, with no successors if it was
      missing. */
  function WithList(m: map<nat, seq<nat>>, w: nat): (r: map<nat, seq<nat>>)
    ensures r.Keys == m.Keys + {w}
    ensures forall x | x in m :: r[x] == m[x]
  {
    if w in m then m else m[w := []]
  }

  /** Adding an edge keeps an adjacency dictionary simple. */
  lemma LinkKeepsSimple(succ: map<nat, seq<nat>>, u: nat, v: nat)
    requires SimpleAdjacency(succ)
    ensures SimpleAdjacency(Linked(WithList(WithList(succ, u), v), u, v))
  {
    var ss := WithList(WithList(succ, u), v);
    assert SimpleAdjacency(ss);
  }

  /** u's successors with v appended unless already there. */
  function Linked(m: map<nat, seq<nat>>, u: nat, v: nat): (r: map<nat, seq<nat>>)
    requires u in m
    ensures r.Keys == m.Keys
    ensures forall x | x in m && x != u :: r[x] == m[x]
    ensures v in r[u]
  {
    if v in m[u] then m else m[u := m[u] + [v]]
  }

  /** to_networkx: node i gets the i-th id and the i-th feature row, then
      every column of the edge index is added as an edge. */
  method ToNetworkx(x: seq<NodeFeature>, nodeIds: seq<string>, edgeList: seq<(nat, nat)>)
    returns (g: DiGraph)
    requires |nodeIds| <= |x|
    ensures fresh(g) && g.Valid()
    ensures g.nodes.Keys == Below(|nodeIds|) + Endpoints(edgeList)
    ensures forall i | 0 <= i < |nodeIds| :: g.nodes[i] == Attrs(nodeIds[i], AsVector(x[i]))
    ensures forall v | v in g.nodes && v >= |nodeIds| :: g.nodes[v] == NoAttrs
    ensures forall u | u in g.succ :: g.succ[u] == Successors(edgeList, u)
  {
    g := new DiGraph();
    AddNodes(g, x, nodeIds);
    assert Endpoints(edgeList[..0]) == {};
    AddEdges(g, x, nodeIds, edgeList);
  }

  /** The first loop of to_networkx: node i with the i-th id and feature row. */
  method AddNodes(g: DiGraph, x: seq<NodeFeature>, nodeIds: seq<string>)
    modifies g
    requires |nodeIds| <= |x|
    requires g.Valid() && g.nodes == map[] && g.succ == map[]
    ensures g.Valid()
    ensures NodesFrom(g.nodes, x, nodeIds, [])
    ensures forall u | u in g.succ :: g.succ[u] == []
  {
    var i := 0;
    while i < |nodeIds|
      modifies g
      invariant 0 <= i <= |nodeIds|
      invariant g.Valid()
      invariant NodesUpTo(g.nodes, x, nodeIds, i)
      invariant NoSuccessors(g.succ)
    {
      AddNodeStep(g.nodes, g.succ, x, nodeIds, i);
      g.AddNode(i, nodeIds[i], AsVector(x[i]));
      i := i + 1;
    }
    NodesUpToAll(g.nodes, x, nodeIds);
  }

  /** The node dictionary after the first i nodes were added. */
  ghost predicate NodesUpTo(m: map<nat, NodeAttrs>, x: seq<NodeFeature>, nodeIds: seq<string>, i: nat)
    requires i <= |nodeIds| <= |x|
  {
    m.Keys == Below(i) && forall j | 0 <= j < i :: m[j] == Attrs(nodeIds[j], AsVector(x[j]))
  }

  ghost predicate NoSuccessors(m: map<nat, seq<nat>>) {
    forall u | u in m :: m[u] == []
  }

  lemma AddNodeStep(nodes: map<nat, NodeAttrs>, succ: map<nat, seq<nat>>, x: seq<NodeFeature>, nodeIds: seq<string>, i: nat)
    requires i < |nodeIds| <= |x|
    requires NodesUpTo(nodes, x, nodeIds, i) && NoSuccessors(succ)
    ensures NodesUpTo(nodes[i := Attrs(nodeIds[i], AsVector(x[i]))], x, nodeIds, i + 1)
    ensures NoSuccessors(WithList(succ, i))
  {
  }

  lemma NodesUpToAll(m: map<nat, NodeAttrs>, x: seq<NodeFeature>, nodeIds: seq<string>)
    requires |nodeIds| <= |x|
    requires NodesUpTo(m, x, nodeIds, |nodeIds|)
    ensures NodesFrom(m, x, nodeIds, [])
  {
  }

  /** The second loop of to_networkx: every column, in order, as an edge. */
  method AddEdges(g: DiGraph, x: seq<NodeFeature>, nodeIds: seq<string>, edgeList: seq<(nat, nat)>)
    modifies g
    requires |nodeIds| <= |x|
    requires g.Valid()
    requires NodesFrom(g.nodes, x, nodeIds, edgeList[..0])
    requires forall u | u in g.succ :: g.succ[u] == []
    ensures g.Valid()
    ensures NodesFrom(g.nodes, x, nodeIds, edgeList)
    ensures forall u | u in g.succ :: g.succ[u] == Successors(edgeList, u)
  {
    var k := 0;
    while k < |edgeList|
      modifies g
      invariant 0 <= k <= |edgeList|
      invariant g.Valid()
      invariant NodesFrom(g.nodes, x, nodeIds, edgeList[..k])
      invariant forall u | u in g.succ :: g.succ[u] == Successors(edgeList[..k], u)
    {
      var (src, dest) := edgeList[k];
      LinkStep(g.succ, edgeList, k);
      NodeStep(g.nodes, x, nodeIds, edgeList, k);
      g.AddEdge(src, dest);
      k := k + 1;
    }
    assert edgeList[..k] == edgeList;
  }

  /** The node dictionary after the first columns of the edge index: the
      indexed nodes with their attributes, the other endpoints without. */
  ghost predicate NodesFrom(m: map<nat, NodeAttrs>, x: seq<NodeFeature>, nodeIds: seq<string>, prefix: seq<(nat, nat)>)
    requires |nodeIds| <= |x|
  {
    m.Keys == Below(|nodeIds|) + Endpoints(prefix) &&
    (forall j | 0 <= j < |nodeIds| :: m[j] == Attrs(nodeIds[j], AsVector(x[j]))) &&
    (forall v | v in m && v >= |nodeIds| :: m[v] == NoAttrs)
  }

  lemma NodeStep(m: map<nat, NodeAttrs>, x: seq<NodeFeature>, nodeIds: seq<string>, edgeList: seq<(nat, nat)>, k: nat)
    requires |nodeIds| <= |x| && k < |edgeList|
    requires NodesFrom(m, x, nodeIds, edgeList[..k])
    ensures NodesFrom(WithNode(WithNode(m, edgeList[k].0), edgeList[k].1), x, nodeIds, edgeList[..k + 1])
  {
    ColumnsSnoc(edgeList, k);
  }

  lemma ColumnsSnoc(edgeList: seq<(nat, nat)>, k: nat)
    requires k < |edgeList|
    ensures Endpoints(edgeList[..k + 1]) == Endpoints(edgeList[..k]) + {edgeList[k].0, edgeList[k].1}
    ensures EdgeSet(edgeList[..k + 1]) == EdgeSet(edgeList[..k]) + {edgeList[k]}
    ensures forall u :: Successors(edgeList[..k + 1], u) == Appended(Successors(edgeList[..k], u), edgeList[k], u)
  {
    assert edgeList[..k + 1][..k] == edgeList[..k];
    forall u
      ensures Successors(edgeList[..k + 1], u) == Appended(Successors(edgeList[..k], u), edgeList[k], u)
    {
      var t := Targets(edgeList[..k], u);
      if edgeList[k].0 == u {
        assert Targets(edgeList[..k + 1], u) == t + [edgeList[k].1];
        assert (t + [edgeList[k].1])[..|t|] == t;
      } else {
        assert Targets(edgeList[..k + 1], u) == t;
      }
    }
  }

  /** Adding column k to adjacency lists that hold the first k columns gives
      lists that hold the first k + 1. */
  lemma LinkStep(before: map<nat, seq<nat>>, edgeList: seq<(nat, nat)>, k: nat)
    requires k < |edgeList|
    requires forall u | u in before :: before[u] == Successors(edgeList[..k], u)
    requires Endpoints(edgeList[..k]) <= before.Keys
    ensures var e := edgeList[k];
      var after := Linked(WithList(WithList(before, e.0), e.1), e.0, e.1);
      forall u | u in after :: after[u] == Successors(edgeList[..k + 1], u)
  {
    var e := edgeList[k];
    var after := Linked(WithList(WithList(before, e.0), e.1), e.0, e.1);
    forall u | u in after
      ensures after[u] == Successors(edgeList[..k + 1], u)
    {
      LinkStepAt(before, edgeList, k, u);
    }
  }

  lemma LinkStepAt(before: map<nat, seq<nat>>, edgeList: seq<(nat, nat)>, k: nat, u: nat)
    requires k < |edgeList|
    requires forall u | u in before :: before[u] == Successors(edgeList[..k], u)
    requires Endpoints(edgeList[..k]) <= before.Keys
    requires u in before || u == edgeList[k].0 || u == edgeList[k].1
    ensures var e := edgeList[k];
      Linked(WithList(WithList(before, e.0), e.1), e.0, e.1)[u] == Successors(edgeList[..k + 1], u)
  {
    var e := edgeList[k];
    var lists := WithList(WithList(before, e.0), e.1);
    ColumnsSnoc(edgeList, k);
    var s := Successors(edgeList[..k], u);
    if u !in before {
      NotAnEndpoint(edgeList[..k], u);
      assert lists[u] == [];
    }
    assert lists[u] == s;
    assert Successors(edgeList[..k + 1], u) == Appended(s, e, u);
  }

  /** The successor list of u after one more column e. */
  function Appended(s: seq<nat>, e: (nat, nat), u: nat): seq<nat> {
    if e.0 == u && e.1 !in s then s + [e.1] else s
  }

  /** A node no column names has no successors. */
  lemma {:induction false} NotAnEndpoint(edgeList: seq<(nat, nat)>, u: nat)
    requires u !in Endpoints(edgeList)
    ensures Successors(edgeList, u) == []
  {
    if edgeList != [] {
      NotAnEndpoint(edgeList[..|edgeList| - 1], u);
    }
  }

  lemma {:induction false} TargetsAreEdges(edgeList: seq<(nat, nat)>, u: nat, v: nat)
    ensures v in Targets(edgeList, u) <==> (u, v) in EdgeSet(edgeList)
  {
    if edgeList != [] {
      TargetsAreEdges(edgeList[..|edgeList| - 1], u, v);
    }
  }

  /** v follows u in u's successor list exactly when (u, v) is an edge:
      the adjacency lists hold the edge set, direction kept. */
  lemma SuccessorsAreEdges(edgeList: seq<(nat, nat)>, u: nat, v: nat)
    ensures v in Successors(edgeList, u) <==> (u, v) in EdgeSet(edgeList)
  {
    TargetsAreEdges(edgeList, u, v);
  }

  /** An edge is present exactly when some column of the edge index is that
      (source, target) pair; direction is kept. */
  lemma {:induction false} EdgeSetMembership(edgeList: seq<(nat, nat)>, s: nat, d: nat)
    ensures (s, d) in EdgeSet(edgeList) <==> exists k :: 0 <= k < |edgeList| && edgeList[k] == (s, d)
  {
    if edgeList != [] {
      var init := edgeList[..|edgeList| - 1];
      EdgeSetMembership(init, s, d);
      if (s, d) in EdgeSet(init) {
        var k :| 0 <= k < |init| && init[k] == (s, d);
        assert edgeList[k] == (s, d);
      }
      if exists k :: 0 <= k < |edgeList| && edgeList[k] == (s, d) {
        var k :| 0 <= k < |edgeList| && edgeList[k] == (s, d);
        if k < |init| {
          assert init[k] == (s, d);
        }
      }
    }
  }

  /** A single column (u, v) with u != v does not give the reverse edge. */
  lemma DirectionKept(u: nat, v: nat)
    requires u != v
    ensures (u, v) in EdgeSet([(u, v)]) && (v, u) !in EdgeSet([(u, v)])
  {
    assert [(u, v)][..0] == [];
  }

  /** Parallel columns collapse: there are at most as many edges as
      columns. */
  lemma {:induction false} EdgeCountBound(edgeList: seq<(nat, nat)>)
    ensures |EdgeSet(edgeList)| <= |edgeList|
  {
    if edgeList != [] {
      EdgeCountBound(edgeList[..|edgeList| - 1]);
    }
  }

  /** Two equal columns give one edge. */
  lemma ParallelEdgesCollapse(u: nat, v: nat)
    ensures EdgeSet([(u, v), (u, v)]) == {(u, v)}
  {
    assert [(u, v), (u, v)][..1] == [(u, v)];
    assert [(u, v)][..0] == [];
    assert EdgeSet([(u, v)]) == {(u, v)};
  }

  /** The adjacency dictionary to_networkx builds over the nodes [0, n) when
      every endpoint of the edge index lies in [0, n). */
  function Adjacency(edgeList: seq<(nat, nat)>, n: nat): (adj: map<nat, seq<nat>>)
    requires forall k | 0 <= k < |edgeList| :: edgeList[k].0 < n && edgeList[k].1 < n
    ensures forall u: nat :: u in adj <==> u < n
    ensures forall u | u in adj :: adj[u] == Successors(edgeList, u)
    ensures SimpleAdjacency(adj)
  {
    SuccessorsBelow(edgeList, n);
    map u | u in Below(n) :: Successors(edgeList, u)
  }

  /** Every column's target lies in [0, n), so every successor does. */
  lemma {:induction false} SuccessorsBelow(edgeList: seq<(nat, nat)>, n: nat)
    requires forall k | 0 <= k < |edgeList| :: edgeList[k].0 < n && edgeList[k].1 < n
    ensures forall u, v | v in Targets(edgeList, u) :: v < n
  {
    if edgeList != [] {
      SuccessorsBelow(edgeList[..|edgeList| - 1], n);
    }
  }

  /** The adjacency dictionary holds exactly the edge set, direction kept. */
  lemma AdjacencyEdges(edgeList: seq<(nat, nat)>, n: nat, u: nat, v: nat)
    requires forall k | 0 <= k < |edgeList| :: edgeList[k].0 < n && edgeList[k].1 < n
    ensures Edge(Adjacency(edgeList, n), u, v) <==> (u, v) in EdgeSet(edgeList)
    ensures (u, v) in EdgeSet(edgeList) ==> u < n && v < n
  {
    SuccessorsAreEdges(edgeList, u, v);
    EdgeSetMembership(edgeList, u, v);
  }

  /** When every endpoint lies in [0, n), adding the edges brings no new
      nodes: the node set is exactly [0, n). */
  lemma {:induction false} NoNewNodes(edgeList: seq<(nat, nat)>, n: nat)
    requires forall k | 0 <= k < |edgeList| :: edgeList[k].0 < n && edgeList[k].1 < n
    ensures Below(n) + Endpoints(edgeList) == Below(n)
  {
    if edgeList != [] {
      NoNewNodes(edgeList[..|edgeList| - 1], n);
    }
  }
}
