// The import-cycle count of the code-graph store.
module ImportCycleQuery {
  import opened RecursiveCte
  import opened Walks
  import NeighborQuery

  const MAX_DEPTH: nat := 20

  datatype CycleRow = CycleRow(start: string, cur: string, depth: int)

  // Every import edge that is not a self-import starts a row.
  ghost function CycleBase(g: Graph): set<CycleRow> {
    set e | e in g && e.0 != e.1 :: CycleRow(e.0, e.1, 1)
  }

  // A row goes on along any import edge, self-imports included, until it is back at its start.
  ghost function CycleStep(g: Graph): CycleRow -> set<CycleRow> {
    (r: CycleRow) => set e | e in g && e.0 == r.cur && r.depth < MAX_DEPTH && r.cur != r.start
      :: CycleRow(r.start, e.1, r.depth + 1)
  }

  ghost function CycleTable(g: Graph): set<CycleRow> {
    Iterate(CycleStep(g), CycleBase(g), CycleBase(g), MAX_DEPTH)
  }

  // SELECT count(DISTINCT start_id) ... WHERE cur_id = start_id
  ghost function ImportCycles(g: Graph): nat {
    |CycleStarts(g)|
  }

  ghost function CycleStarts(g: Graph): set<string> {
    set r | r in CycleTable(g) && r.cur == r.start :: r.start
  }

  // A directed cycle through distinct nodes, listed from s.
  ghost predicate IsCycle(g: Graph, c: seq<string>, s: string) {
    && 2 <= |c| <= MAX_DEPTH && c[0] == s && Distinct(c) && IsWalk(g, c) && (c[|c| - 1], s) in g
  }

  // A walk that leaves s by a real edge and does not come back before its end.
  ghost predicate Leaves(g: Graph, w: seq<string>, s: string) {
    && |w| >= 2 && IsWalk(g, w) && w[0] == s && w[1] != s
    && forall i :: 1 <= i < |w| - 1 ==> w[i] != s
  }

  lemma {:induction false} LevelWalk(g: Graph, r: CycleRow, k: nat) returns (w: seq<string>)
    requires r in Level(CycleStep(g), CycleBase(g), k)
    ensures Leaves(g, w, r.start) && |w| == k + 2 && w[|w| - 1] == r.cur && r.depth == k + 1 &&
      (k > 0 ==> r.depth <= MAX_DEPTH)
    decreases k
  {
    if k == 0 {
      w := [r.start, r.cur];
    } else {
      var q :| q in Level(CycleStep(g), CycleBase(g), k - 1) && r in CycleStep(g)(q);
      var v := LevelWalk(g, q, k - 1);
      w := v + [r.cur];
    }
  }

  lemma {:induction false} WalkLevel(g: Graph, w: seq<string>, s: string)
    requires Leaves(g, w, s) && |w| - 1 <= MAX_DEPTH
    ensures CycleRow(s, w[|w| - 1], |w| - 1) in Level(CycleStep(g), CycleBase(g), |w| - 2)
    decreases |w|
  {
    if |w| == 2 {
      var e := (w[0], w[1]);
      assert e in g;
    } else {
      var v := w[..|w| - 1];
      WalkLevel(g, v, s);
      var q := CycleRow(s, v[|v| - 1], |v| - 1);
      var e := (v[|v| - 1], w[|w| - 1]);
      assert e == (w[|w| - 2], w[|w| - 1]) && e in g;
      assert CycleRow(q.start, e.1, q.depth + 1) in CycleStep(g)(q);
    }
  }

  lemma TableIsLevels(g: Graph)
    ensures forall r :: r in CycleTable(g) <==> Derived(CycleStep(g), CycleBase(g), r)
  {
    var rank := (r: CycleRow) => r.depth;
    assert Ranked(CycleStep(g), CycleBase(g), rank, 1, MAX_DEPTH);
    EvaluatesToLevels(CycleStep(g), CycleBase(g), rank, 1, MAX_DEPTH, MAX_DEPTH);
  }

  // A returning walk, however it wanders and loops on the way, contains a simple cycle through its start.
  lemma ReturnGivesCycle(g: Graph, w: seq<string>, s: string) returns (c: seq<string>)
    requires Leaves(g, w, s) && w[|w| - 1] == s && |w| - 1 <= MAX_DEPTH
    ensures IsCycle(g, c, s)
  {
    var inner := w[1..|w| - 1];
    assert |w| >= 3;
    var last := inner[|inner| - 1];
    forall i | 0 <= i < |inner| - 1
      ensures (inner[i], inner[i + 1]) in g
    {
      assert (w[i + 1], w[i + 2]) in g;
    }
    var q := Simplify(g, inner, w[1], last);
    assert s !in inner;
    c := [s] + q;
    assert (w[0], w[1]) in g && (w[|w| - 2], w[|w| - 1]) in g;
  }

  lemma CycleGivesRow(g: Graph, c: seq<string>, s: string)
    requires IsCycle(g, c, s)
    ensures CycleRow(s, s, |c|) in CycleTable(g)
  {
    var w := c + [s];
    assert Leaves(g, w, s);
    WalkLevel(g, w, s);
    TableIsLevels(g);
    assert Derived(CycleStep(g), CycleBase(g), CycleRow(s, s, |c|));
  }

  // A node is counted if and only if it lies on a simple directed import cycle of 2 to 20 nodes.
  lemma CountedIffOnCycle(g: Graph, s: string)
    ensures s in CycleStarts(g) <==> exists c :: IsCycle(g, c, s)
  {
    if s in CycleStarts(g) {
      var r :| r in CycleTable(g) && r.cur == r.start == s;
      TableIsLevels(g);
      var k: nat :| r in Level(CycleStep(g), CycleBase(g), k);
      var w := LevelWalk(g, r, k);
      var c := ReturnGivesCycle(g, w, s);
    }
    if c :| IsCycle(g, c, s) {
      CycleGivesRow(g, c, s);
    }
  }

  ghost predicate OnCycle(g: Graph, s: string) {
    exists c :: IsCycle(g, c, s)
  }

  ghost function NodesOnCycles(g: Graph): set<string> {
    set e | e in g && OnCycle(g, e.0) :: e.0
  }

  // So the reported number is the number of nodes on such cycles.
  lemma CountIsExact(g: Graph)
    ensures ImportCycles(g) == |NodesOnCycles(g)|
  {
    forall s
      ensures s in NodesOnCycles(g) <==> s in CycleStarts(g)
    {
      CountedIffOnCycle(g, s);
      if c :| IsCycle(g, c, s) {
        assert (c[0], c[1]) in g;
      }
    }
    assert NodesOnCycles(g) == CycleStarts(g);
  }

  // ---------- over the stored edges ----------

  ghost function ImportGraph(rows: set<NeighborQuery.EdgeRow>): Graph {
    set e | e in rows && e.relation == "imports" :: (e.src, e.dst)
  }

  ghost predicate Imports(rows: set<NeighborQuery.EdgeRow>, a: string, b: string) {
    exists e :: e in rows && e.src == a && e.dst == b && e.relation == "imports"
  }

  // From s through distinct nodes back to s, every step an import.
  ghost predicate ImportCycle(rows: set<NeighborQuery.EdgeRow>, c: seq<string>, s: string) {
    && 2 <= |c| <= 20 && c[0] == s && Distinct(c)
    && (forall i :: 0 <= i < |c| - 1 ==> Imports(rows, c[i], c[i + 1])) && Imports(rows, c[|c| - 1], s)
  }

  // Over stored edges: only imports matter, and a node is counted if and only if it lies on an import cycle of 2 to
  // 20 distinct nodes.
  lemma CountedOverRows(rows: set<NeighborQuery.EdgeRow>, s: string)
    ensures s in CycleStarts(ImportGraph(rows)) <==> exists c :: ImportCycle(rows, c, s)
  {
    var g := ImportGraph(rows);
    forall a, b
      ensures Imports(rows, a, b) <==> (a, b) in g
    {}
    forall c
      ensures ImportCycle(rows, c, s) <==> IsCycle(g, c, s)
    {
      CycleOverRows(rows, g, c, s);
    }
    CountedIffOnCycle(g, s);
  }

  lemma CycleOverRows(rows: set<NeighborQuery.EdgeRow>, g: Graph, c: seq<string>, s: string)
    requires forall a, b :: Imports(rows, a, b) <==> (a, b) in g
    ensures ImportCycle(rows, c, s) <==> IsCycle(g, c, s)
  {
    hide Imports;
  }
}
