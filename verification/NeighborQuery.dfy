// The neighbour traversal of the code-graph store.
module NeighborQuery {
  import opened SplitJoin
  import opened RecursiveCte
  import opened Walks

  datatype EdgeRow = EdgeRow(src: string, dst: string, relation: string, score: real, tier: string)

  datatype Direction = Out | In

  // ($3='' OR relation = ANY(string_to_array($3, ',')))
  predicate Allowed(relStr: string, relation: string) {
    relStr == "" || relation in Split(relStr, ',')
  }

  // The filter allows exactly the listed relations, and all of them when none is listed, if and only if no
  // listed name has a comma and the list is not the one empty name, which reads as no filter.
  lemma AllowedIsListed(relations: seq<string>)
    ensures (forall r :: Allowed(Join(relations, ','), r) <==> relations == [] || r in relations) <==>
      (forall r :: r in relations ==> ',' !in r) && relations != [""]
  {
    forall r
      ensures relations != [] && (forall x :: x in relations ==> ',' !in x) ==>
        (r in Split(Join(relations, ','), ',') <==> r in relations)
    {
      SplitOfJoin(relations, ',');
    }
    if relations == [""] {
      assert Allowed(Join(relations, ','), "calls") && "calls" !in relations;
    } else if |relations| > 1 {
      assert ',' in Join(relations, ',') by {
        assert Join(relations, ',')[|relations[0]|] == ',';
      }
    }
    if r :| r in relations && ',' in r {
      assert r !in Split(Join(relations, ','), ',');
    }
  }

  function PlainEdges(rows: set<EdgeRow>, relStr: string): Graph {
    set e | e in rows && Allowed(relStr, e.relation) :: (e.src, e.dst)
  }

  // The confidence variant adds a score threshold and an optional tier.
  function ConfidentEdges(rows: set<EdgeRow>, relStr: string, minScore: real, tier: string): Graph {
    set e | e in rows && Allowed(relStr, e.relation) && e.score >= minScore && (tier == "" || e.tier == tier)
      :: (e.src, e.dst)
  }

  // The graph Neighbors walks: which query runs depends on the filter, its direction on dir.
  function WalkedEdges(rows: set<EdgeRow>, relStr: string, dir: Direction, minScore: real, tier: string): Graph {
    var g := if minScore > 0.0 || tier != "" then ConfidentEdges(rows, relStr, minScore, tier)
      else PlainEdges(rows, relStr);
    if dir == In then Reverse(g) else g
  }

  type WalkRow = (string, int)

  // The recursive term on one row of the working table.
  ghost function WalkStep(g: Graph, depth: int): WalkRow -> set<WalkRow> {
    (r: WalkRow) => set e | e in g && e.0 == r.0 && r.1 < depth :: (e.1, r.1 + 1)
  }

  ghost function WalkTable(g: Graph, start: string, depth: nat): set<WalkRow> {
    Iterate(WalkStep(g, depth), {(start, 0)}, {(start, 0)}, depth + 1)
  }

  lemma {:induction false} WalkLevel(g: Graph, start: string, depth: nat, k: nat)
    requires k <= depth
    ensures Level(WalkStep(g, depth), {(start, 0)}, k) == set v | v in Reach(g, start, k) :: (v, k)
    decreases k
  {
    if k > 0 {
      WalkLevel(g, start, depth, k - 1);
      var prev := Level(WalkStep(g, depth), {(start, 0)}, k - 1);
      forall v | v in Reach(g, start, k)
        ensures (v, k) in Level(WalkStep(g, depth), {(start, 0)}, k)
      {
        var e :| e in g && e.0 in Reach(g, start, k - 1) && e.1 == v;
        var r: WalkRow := (e.0, k - 1);
        assert r in prev && (e.1, r.1 + 1) in WalkStep(g, depth)(r);
      }
    }
  }

  // The table holds exactly the (vertex, length) pairs of the walks up to the depth.
  lemma WalkTableIsReach(g: Graph, start: string, depth: nat)
    ensures forall v, d :: (v, d) in WalkTable(g, start, depth) <==> 0 <= d <= depth && v in Reach(g, start, d)
  {
    var step, base := WalkStep(g, depth), {(start, 0)};
    var rank := (r: WalkRow) => r.1;
    assert Ranked(step, base, rank, 0, depth);
    EvaluatesToLevels(step, base, rank, 0, depth, depth + 1);
    forall v: string, d: int
      ensures (v, d) in WalkTable(g, start, depth) <==> 0 <= d <= depth && v in Reach(g, start, d)
    {
      if (v, d) in WalkTable(g, start, depth) {
        var k: nat :| (v, d) in Level(step, base, k);
        LevelRank(step, base, rank, 0, depth, k);
        WalkLevel(g, start, depth, k);
      }
      if 0 <= d <= depth && v in Reach(g, start, d) {
        WalkLevel(g, start, depth, d);
      }
    }
  }

  ghost predicate Found(table: set<WalkRow>, id: string) {
    exists d :: (id, d) in table && d > 0
  }

  // SELECT DISTINCT ON (en.id) ... JOIN code_entities ... WHERE depth > 0 ORDER BY en.id, depth:
  // each stored id found at a positive depth, once, with the row that sorts first.
  ghost function NeighborRows(g: Graph, stored: set<string>, start: string, depth: nat): map<string, int> {
    map id | id in stored && Found(WalkTable(g, start, depth), id)
      :: FirstDepth(WalkTable(g, start, depth), id, 1, depth)
  }

  ghost function FirstDepth(table: set<WalkRow>, id: string, d: int, depth: nat): int
    decreases depth - d
  {
    if (id, d) in table || d >= depth then d else FirstDepth(table, id, d + 1, depth)
  }

  lemma {:induction false} FirstDepthLeast(table: set<WalkRow>, id: string, d: int, depth: nat, e: int)
    requires d <= e <= depth && (id, e) in table
    ensures d <= FirstDepth(table, id, d, depth) <= e
    ensures (id, FirstDepth(table, id, d, depth)) in table
    decreases depth - d
  {
    if (id, d) !in table {
      FirstDepthLeast(table, id, d + 1, depth, e);
    }
  }

  ghost predicate HasWalk(g: Graph, s: string, t: string, edges: int) {
    exists p :: Joins(g, p, s, t) && |p| - 1 == edges
  }

  lemma HasWalkIsReach(g: Graph, s: string, t: string, k: nat)
    ensures HasWalk(g, s, t, k) <==> t in Reach(g, s, k)
  {
    if t in Reach(g, s, k) {
      var p := ReachWalk(g, s, t, k);
    }
    if p :| Joins(g, p, s, t) && |p| - 1 == k {
      WalkReach(g, p, k);
    }
  }

  // Before its LIMIT, the query returns exactly the stored entities some walk of 1 to `depth`
  // allowed edges reaches, each with the length of its shortest such walk.
  lemma NeighborsExact(g: Graph, stored: set<string>, start: string, depth: nat, id: string)
    ensures id in NeighborRows(g, stored, start, depth) <==>
      id in stored && exists k :: 1 <= k <= depth && HasWalk(g, start, id, k)
    ensures id in NeighborRows(g, stored, start, depth) ==>
      var d := NeighborRows(g, stored, start, depth)[id];
      && 1 <= d <= depth && HasWalk(g, start, id, d)
      && forall k :: 1 <= k && HasWalk(g, start, id, k) ==> d <= k
  {
    var table := WalkTable(g, start, depth);
    WalkTableIsReach(g, start, depth);
    forall k: nat
      ensures HasWalk(g, start, id, k) <==> id in Reach(g, start, k)
    {
      HasWalkIsReach(g, start, id, k);
    }
    if Found(table, id) {
      var e :| (id, e) in table && e > 0;
      FirstDepthLeast(table, id, 1, depth, e);
      forall k | 1 <= k && HasWalk(g, start, id, k)
        ensures FirstDepth(table, id, 1, depth) <= k
      {
        if k <= depth { FirstDepthLeast(table, id, 1, depth, k); }
      }
    }
    if k :| 1 <= k <= depth && HasWalk(g, start, id, k) {
      assert (id, k) in table;
    }
  }

  lemma ReverseTwice(g: Graph)
    ensures Reverse(Reverse(g)) == g
  {
    forall e | e in g
      ensures e in Reverse(Reverse(g))
    {
      assert (e.1, e.0) in Reverse(g);
    }
  }

  lemma WalkReversed(g: Graph, s: string, t: string, k: int)
    ensures HasWalk(g, s, t, k) <==> HasWalk(Reverse(g), t, s, k)
  {
    if p :| Joins(g, p, s, t) && |p| - 1 == k {
      WalkBackwards(g, p, s, t);
    }
    if p :| Joins(Reverse(g), p, t, s) && |p| - 1 == k {
      WalkBackwards(Reverse(g), p, t, s);
      ReverseTwice(g);
    }
  }

  // "in" is the mirror of "out": among stored entities, v finds u going in at depth d exactly when u
  // finds v going out at depth d.
  lemma InMirrorsOut(rows: set<EdgeRow>, relStr: string, minScore: real, tier: string,
                     stored: set<string>, u: string, v: string, depth: nat, d: int)
    requires u in stored && v in stored
    ensures
      var out := NeighborRows(WalkedEdges(rows, relStr, Out, minScore, tier), stored, u, depth);
      var back := NeighborRows(WalkedEdges(rows, relStr, In, minScore, tier), stored, v, depth);
      (u in back && back[u] == d) <==> (v in out && out[v] == d)
  {
    var g := WalkedEdges(rows, relStr, Out, minScore, tier);
    NeighborsExact(g, stored, u, depth, v);
    NeighborsExact(Reverse(g), stored, v, depth, u);
    forall k
      ensures HasWalk(g, u, v, k) <==> HasWalk(Reverse(g), v, u, k)
    {
      WalkReversed(g, u, v, k);
    }
  }

  // ---------- over the stored edges ----------

  // A walk along stored edges in their own direction, each of an allowed relation and, when a filter is set, of
  // at least the least score and of the tier, if one is named.
  ghost predicate RowWalk(rows: set<EdgeRow>, relStr: string, minScore: real, tier: string, w: seq<string>) {
    w != [] && forall i :: 0 <= i < |w| - 1 ==> Linked(rows, relStr, minScore, tier, w[i], w[i + 1])
  }

  ghost predicate Linked(rows: set<EdgeRow>, relStr: string, minScore: real, tier: string, a: string, b: string) {
    exists e :: e in rows && e.src == a && e.dst == b && Allowed(relStr, e.relation) &&
      (minScore > 0.0 || tier != "" ==> e.score >= minScore && (tier == "" || e.tier == tier))
  }

  // What direction and filter select: "out" follows an edge from its source to its target, "in" the other way.
  lemma WalkedEdgesAre(rows: set<EdgeRow>, relStr: string, minScore: real, tier: string, a: string, b: string)
    ensures (a, b) in WalkedEdges(rows, relStr, Out, minScore, tier) <==>
      exists e :: e in rows && e.src == a && e.dst == b && Allowed(relStr, e.relation) &&
        (minScore > 0.0 || tier != "" ==> e.score >= minScore && (tier == "" || e.tier == tier))
    ensures (b, a) in WalkedEdges(rows, relStr, In, minScore, tier) <==>
      (a, b) in WalkedEdges(rows, relStr, Out, minScore, tier)
  {}

  lemma RowWalkIsWalk(rows: set<EdgeRow>, relStr: string, minScore: real, tier: string, w: seq<string>)
    ensures RowWalk(rows, relStr, minScore, tier, w) <==> IsWalk(WalkedEdges(rows, relStr, Out, minScore, tier), w)
  {
    var g := WalkedEdges(rows, relStr, Out, minScore, tier);
    forall i | 0 <= i < |w| - 1
      ensures (w[i], w[i + 1]) in g <==> Linked(rows, relStr, minScore, tier, w[i], w[i + 1])
    {}
  }

  ghost predicate RowsReach(rows: set<EdgeRow>, relStr: string, minScore: real, tier: string, s: string, t: string,
      edges: int) {
    exists w :: RowWalk(rows, relStr, minScore, tier, w) && w[0] == s && w[|w| - 1] == t && |w| - 1 == edges
  }

  lemma RowsReachIsWalk(rows: set<EdgeRow>, relStr: string, minScore: real, tier: string, s: string, t: string, k: int)
    ensures RowsReach(rows, relStr, minScore, tier, s, t, k) <==>
      HasWalk(WalkedEdges(rows, relStr, Out, minScore, tier), s, t, k)
    ensures RowsReach(rows, relStr, minScore, tier, s, t, k) <==>
      HasWalk(WalkedEdges(rows, relStr, In, minScore, tier), t, s, k)
  {
    var g := WalkedEdges(rows, relStr, Out, minScore, tier);
    if w :| RowWalk(rows, relStr, minScore, tier, w) && w[0] == s && w[|w| - 1] == t && |w| - 1 == k {
      RowWalkIsWalk(rows, relStr, minScore, tier, w);
      assert Joins(g, w, s, t);
    }
    if w :| Joins(g, w, s, t) && |w| - 1 == k {
      RowWalkIsWalk(rows, relStr, minScore, tier, w);
    }
    WalkReversed(g, s, t, k);
    assert WalkedEdges(rows, relStr, In, minScore, tier) == Reverse(g);
  }

  // In terms of the stored edges: "out" finds exactly the stored entities at the end of a filtered walk of 1 to
  // depth edges from the start, and the depth is the length of the shortest such walk.
  lemma OutNeighbors(rows: set<EdgeRow>, relStr: string, minScore: real, tier: string, stored: set<string>,
                     start: string, depth: nat, id: string)
    ensures id in NeighborRows(WalkedEdges(rows, relStr, Out, minScore, tier), stored, start, depth) <==>
      id in stored && exists k :: 1 <= k <= depth && RowsReach(rows, relStr, minScore, tier, start, id, k)
    ensures id in NeighborRows(WalkedEdges(rows, relStr, Out, minScore, tier), stored, start, depth) ==>
      var d := NeighborRows(WalkedEdges(rows, relStr, Out, minScore, tier), stored, start, depth)[id];
      && RowsReach(rows, relStr, minScore, tier, start, id, d)
      && forall k :: 1 <= k && RowsReach(rows, relStr, minScore, tier, start, id, k) ==> d <= k
  {
    NeighborsExact(WalkedEdges(rows, relStr, Out, minScore, tier), stored, start, depth, id);
    forall k
      ensures RowsReach(rows, relStr, minScore, tier, start, id, k) <==>
        HasWalk(WalkedEdges(rows, relStr, Out, minScore, tier), start, id, k)
    {
      RowsReachIsWalk(rows, relStr, minScore, tier, start, id, k);
    }
  }

  // And "in" those at the beginning of such a walk to the start.
  lemma InNeighbors(rows: set<EdgeRow>, relStr: string, minScore: real, tier: string, stored: set<string>,
                    start: string, depth: nat, id: string)
    ensures id in NeighborRows(WalkedEdges(rows, relStr, In, minScore, tier), stored, start, depth) <==>
      id in stored && exists k :: 1 <= k <= depth && RowsReach(rows, relStr, minScore, tier, id, start, k)
    ensures id in NeighborRows(WalkedEdges(rows, relStr, In, minScore, tier), stored, start, depth) ==>
      var d := NeighborRows(WalkedEdges(rows, relStr, In, minScore, tier), stored, start, depth)[id];
      && RowsReach(rows, relStr, minScore, tier, id, start, d)
      && forall k :: 1 <= k && RowsReach(rows, relStr, minScore, tier, id, start, k) ==> d <= k
  {
    NeighborsExact(WalkedEdges(rows, relStr, In, minScore, tier), stored, start, depth, id);
    forall k
      ensures RowsReach(rows, relStr, minScore, tier, id, start, k) <==>
        HasWalk(WalkedEdges(rows, relStr, In, minScore, tier), start, id, k)
    {
      RowsReachIsWalk(rows, relStr, minScore, tier, id, start, k);
    }
  }

  // The confidence variant with a zero filter and the plain query agree on every graph whose scores are not
  // negative, in both directions.
  lemma ZeroFilterNeighbors(rows: set<EdgeRow>, relStr: string, stored: set<string>, start: string, depth: nat)
    requires forall e :: e in rows ==> e.score >= 0.0
    ensures NeighborRows(ConfidentEdges(rows, relStr, 0.0, ""), stored, start, depth)
         == NeighborRows(PlainEdges(rows, relStr), stored, start, depth)
    ensures NeighborRows(Reverse(ConfidentEdges(rows, relStr, 0.0, "")), stored, start, depth)
         == NeighborRows(Reverse(PlainEdges(rows, relStr)), stored, start, depth)
  {
    assert ConfidentEdges(rows, relStr, 0.0, "") == PlainEdges(rows, relStr);
  }
}
