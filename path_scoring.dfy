/** Scoring of one path: the sum of the anomaly scores of the table rows whose
    node index is on the path; lower is riskier. An empty path scores +inf. */
module PathScoring {
  import opened SeqUtil

  /** A path score: a real number, or the +inf sentinel of an empty path. */
  datatype Score = Finite(value: real) | PosInf

  /** The order Python's sort uses on scores: +inf is above every number,
      and numbers compare by value. */
  function ScoreLe(a: Score, b: Score): (le: bool)
    ensures b.PosInf? ==> le
    ensures a.PosInf? ==> (le <==> b.PosInf?)
    ensures a.Finite? && b.Finite? ==> (le <==> a.value <= b.value)
  {
    b.PosInf? || (a.Finite? && a.value <= b.value)
  }

  /** ScoreLe is a total preorder, so sorting by it is well defined, and +inf
      is its only maximum. */
  lemma ScoreLeTotalOrder(a: Score, b: Score, c: Score)
    ensures ScoreLe(a, a)
    ensures ScoreLe(a, b) || ScoreLe(b, a)
    ensures ScoreLe(a, b) && ScoreLe(b, c) ==> ScoreLe(a, c)
    ensures ScoreLe(a, b) && ScoreLe(b, a) ==> a == b
    ensures (forall s :: ScoreLe(s, a)) <==> a.PosInf?
  {
    if !a.PosInf? {
      assert !ScoreLe(PosInf, a);
    }
  }

  /** One row of the anomaly table: the node, its isolation-forest decision
      value and its prediction (-1 for an outlier). */
  datatype AnomalyRecord = AnomalyRecord(nodeIndex: nat, anomalyScore: real, prediction: int)

  /** The nodes of a path, as a set. */
  function Elems(path: seq<nat>): (r: set<nat>)
    ensures forall v | v in path :: v in r
    ensures forall v | v in r :: v in path
  {
    set v | v in path
  }

  /** `table[table['node_index'].isin(path)]`: the rows whose node is on the
      path, in table order. */
  function RowsOnPath(table: seq<AnomalyRecord>, path: seq<nat>): (rows: seq<AnomalyRecord>)
    ensures forall r | r in rows :: r in table && r.nodeIndex in path
  {
    if table == [] then []
    else
      var last := table[|table| - 1];
      RowsOnPath(table[..|table| - 1], path) + (if last.nodeIndex in path then [last] else [])
  }

  /** `rows['anomaly_score'].sum()`. */
  function SumScores(rows: seq<AnomalyRecord>): real {
    if rows == [] then 0.0 else SumScores(rows[..|rows| - 1]) + rows[|rows| - 1].anomalyScore
  }

  /** score_path: +inf for an empty path; 0 when no row matches; otherwise
      the sum of the matching rows' scores. */
  function ScorePath(path: seq<nat>, table: seq<AnomalyRecord>): (s: Score)
    ensures s.PosInf? <==> path == []
  {
    if path == [] then PosInf
    else
      var selected := RowsOnPath(table, path);
      if selected == [] then Finite(0.0) else Finite(SumScores(selected))
  }

  /** Reference definition: the anomaly scores of the rows whose node lies in
      a given set, added up over the table. */
  function SetScore(table: seq<AnomalyRecord>, nodes: set<nat>): real {
    if table == [] then 0.0
    else
      var last := table[|table| - 1];
      SetScore(table[..|table| - 1], nodes) + (if last.nodeIndex in nodes then last.anomalyScore else 0.0)
  }

  lemma {:induction false} RowsOnPathSum(table: seq<AnomalyRecord>, path: seq<nat>)
    ensures SumScores(RowsOnPath(table, path)) == SetScore(table, Elems(path))
  {
    if table != [] {
      var init := table[..|table| - 1];
      var last := table[|table| - 1];
      RowsOnPathSum(init, path);
      var r := RowsOnPath(init, path);
      if last.nodeIndex in path {
        assert (r + [last])[..|r|] == r;
      } else {
        assert r + [] == r;
      }
    }
  }

  /** The score of a non-empty path is the score of its node set: selection is
      by membership. */
  lemma ScoreIsSetScore(path: seq<nat>, table: seq<AnomalyRecord>)
    requires path != []
    ensures ScorePath(path, table) == Finite(SetScore(table, Elems(path)))
  {
    RowsOnPathSum(table, path);
  }

  /** Reordering or repeating nodes leaves the score unchanged: only the set
      of nodes matters. */
  lemma ScoreOrderFree(p: seq<nat>, q: seq<nat>, table: seq<AnomalyRecord>)
    requires Elems(p) == Elems(q)
    ensures ScorePath(p, table) == ScorePath(q, table)
  {
    assert p == [] <==> q == [] by {
      if p != [] { assert p[0] in Elems(q); }
      if q != [] { assert q[0] in Elems(p); }
    }
    if p != [] {
      ScoreIsSetScore(p, table);
      ScoreIsSetScore(q, table);
    }
  }

  /** A node repeated on the path is not counted twice. */
  lemma RepeatNotCounted(p: seq<nat>, v: nat, table: seq<AnomalyRecord>)
    requires v in p
    ensures ScorePath(p + [v], table) == ScorePath(p, table)
  {
    assert Elems(p + [v]) == Elems(p);
    ScoreOrderFree(p + [v], p, table);
  }

  /** If no row names any node of a non-empty path, its score is 0. */
  lemma NoRowsScoreZero(p: seq<nat>, table: seq<AnomalyRecord>)
    requires p != []
    requires forall r | r in table :: r.nodeIndex !in p
    ensures ScorePath(p, table) == Finite(0.0)
  {
    ScoreIsSetScore(p, table);
    NoRowsInSet(table, Elems(p));
  }

  /** The score over a union of disjoint node sets is the sum of the scores. */
  lemma {:induction false} SetScoreUnion(table: seq<AnomalyRecord>, a: set<nat>, b: set<nat>)
    requires a !! b
    ensures SetScore(table, a + b) == SetScore(table, a) + SetScore(table, b)
  {
    if table != [] {
      SetScoreUnion(table[..|table| - 1], a, b);
    }
  }

  /** A node without a row adds nothing to a path's score. */
  lemma UnscoredNodeAddsZero(p: seq<nat>, v: nat, table: seq<AnomalyRecord>)
    requires p != []
    requires forall r | r in table :: r.nodeIndex != v
    ensures ScorePath(p + [v], table) == ScorePath(p, table)
  {
    ScoreIsSetScore(p + [v], table);
    ScoreIsSetScore(p, table);
    if v in p {
      assert Elems(p + [v]) == Elems(p);
    } else {
      assert Elems(p + [v]) == Elems(p) + {v};
      SetScoreUnion(table, Elems(p), {v});
      NoRowsInSet(table, {v});
    }
  }

  /** Rows of nodes outside the set contribute nothing. */
  lemma {:induction false} NoRowsInSet(table: seq<AnomalyRecord>, nodes: set<nat>)
    requires forall r | r in table :: r.nodeIndex !in nodes
    ensures SetScore(table, nodes) == 0.0
  {
    if table != [] {
      assert table[|table| - 1] in table;
      NoRowsInSet(table[..|table| - 1], nodes);
    }
  }

  /** The summed score of each node of `d`, one term per entry. */
  function NodeScoreSum(table: seq<AnomalyRecord>, d: seq<nat>): real {
    if d == [] then 0.0 else NodeScoreSum(table, d[..|d| - 1]) + SetScore(table, {d[|d| - 1]})
  }

  lemma {:induction false} SetScoreOfDistinct(table: seq<AnomalyRecord>, d: seq<nat>)
    requires NoDup(d)
    ensures SetScore(table, Elems(d)) == NodeScoreSum(table, d)
  {
    if d == [] {
      assert Elems(d) == {};
      SetScoreEmpty(table);
    } else {
      var init := d[..|d| - 1];
      var v := d[|d| - 1];
      assert NoDup(init);
      SetScoreOfDistinct(table, init);
      assert Elems(d) == Elems(init) + {v};
      SetScoreUnion(table, Elems(init), {v});
    }
  }

  lemma {:induction false} SetScoreEmpty(table: seq<AnomalyRecord>)
    ensures SetScore(table, {}) == 0.0
  {
    if table != [] {
      SetScoreEmpty(table[..|table| - 1]);
    }
  }

  /** A non-empty path scores the sum, over its distinct nodes in first-seen
      order, of each node's own score: every node counts exactly once. */
  lemma ScoreIsSumOverDistinctNodes(p: seq<nat>, table: seq<AnomalyRecord>)
    requires p != []
    ensures ScorePath(p, table) == Finite(NodeScoreSum(table, Dedup(p)))
  {
    ScoreIsSetScore(p, table);
    assert Elems(Dedup(p)) == Elems(p);
    SetScoreOfDistinct(table, Dedup(p));
  }

  /** Row k is the only row naming its node. The anomaly detector's table has
      one row per node, sorted by score, so every row satisfies this. */
  predicate OnlyRowFor(table: seq<AnomalyRecord>, k: nat) {
    k < |table| && forall j | 0 <= j < |table| && j != k :: table[j].nodeIndex != table[k].nodeIndex
  }

  /** A node named by exactly one row, wherever that row sits in the table,
      scores that row's score. */
  lemma {:induction false} NodeScoreFromTable(table: seq<AnomalyRecord>, k: nat)
    requires OnlyRowFor(table, k)
    ensures SetScore(table, {table[k].nodeIndex}) == table[k].anomalyScore
  {
    var v := table[k].nodeIndex;
    var init := table[..|table| - 1];
    if k == |table| - 1 {
      assert forall r | r in init :: r.nodeIndex !in {v} by {
        forall r | r in init
          ensures r.nodeIndex != v
        {
          var j :| 0 <= j < |init| && init[j] == r;
          assert table[j] == r;
        }
      }
      NoRowsInSet(init, {v});
    } else {
      assert init[k] == table[k];
      assert forall j | 0 <= j < |init| && j != k :: init[j] == table[j];
      NodeScoreFromTable(init, k);
    }
  }

  /** Three nodes scored -0.1, -0.5 and 0.2 give the path through them -0.4. */
  lemma ThreeNodeExample()
    ensures ScorePath([0, 1, 2], [AnomalyRecord(0, -0.1, 1), AnomalyRecord(1, -0.5, -1), AnomalyRecord(2, 0.2, 1)])
            == Finite(-0.4)
  {
    var table := [AnomalyRecord(0, -0.1, 1), AnomalyRecord(1, -0.5, -1), AnomalyRecord(2, 0.2, 1)];
    assert table[..2] == [AnomalyRecord(0, -0.1, 1), AnomalyRecord(1, -0.5, -1)];
    assert table[..2][..1] == [AnomalyRecord(0, -0.1, 1)];
    assert table[..2][..1][..0] == [];
    var nodes := Elems([0, 1, 2]);
    assert 0 in nodes && 1 in nodes && 2 in nodes;
    assert SetScore(table[..2][..1], nodes) == -0.1;
    assert SetScore(table[..2], nodes) == -0.6;
    assert SetScore(table, nodes) == -0.4;
    ScoreIsSetScore([0, 1, 2], table);
  }
}
