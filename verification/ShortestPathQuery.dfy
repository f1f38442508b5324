// The shortest-path query of the code-graph store.
module ShortestPathQuery {
  import opened SplitJoin
  import opened RecursiveCte
  import opened Walks
  import NeighborQuery

  type Path = seq<string>

  function Last(p: Path): string
    requires p != []
  {
    p[|p| - 1]
  }

  // The recursive term on one row: extend a path that has not arrived by an edge to a vertex it
  // has not visited, below the depth cap.
  ghost function PathStep(g: Graph, target: string, maxDepth: int): Path -> set<Path> {
    (p: Path) =>
      set e | e in g && p != [] && e.0 == Last(p) && |p| - 1 < maxDepth && e.1 !in p && Last(p) != target :: p + [e.1]
  }

  ghost function PathTable(g: Graph, start: string, target: string, maxDepth: nat): set<Path> {
    Iterate(PathStep(g, target, maxDepth), {[start]}, {[start]}, maxDepth + 1)
  }

  // ... WHERE id = target ORDER BY depth LIMIT 1: any arrived row of least depth.
  ghost predicate Picked(g: Graph, start: string, target: string, maxDepth: nat, p: Path) {
    && p in PathTable(g, start, target, maxDepth) && p != [] && Last(p) == target
    && forall q :: q in PathTable(g, start, target, maxDepth) && q != [] && Last(q) == target ==> |p| <= |q|
  }

  ghost predicate Enumerated(g: Graph, start: string, target: string, maxDepth: nat, p: Path) {
    && p != [] && |p| - 1 <= maxDepth && IsWalk(g, p) && p[0] == start && Distinct(p)
    && forall i :: 0 <= i < |p| - 1 ==> p[i] != target
  }

  lemma {:induction false} LevelIsEnumerated(g: Graph, start: string, target: string, maxDepth: nat, p: Path, k: nat)
    requires p in Level(PathStep(g, target, maxDepth), {[start]}, k)
    ensures Enumerated(g, start, target, maxDepth, p) && |p| == k + 1
    decreases k
  {
    if k > 0 {
      var prev := Level(PathStep(g, target, maxDepth), {[start]}, k - 1);
      var q :| q in prev && p in PathStep(g, target, maxDepth)(q);
      LevelIsEnumerated(g, start, target, maxDepth, q, k - 1);
      assert p == q + [Last(p)];
    }
  }

  lemma {:induction false} EnumeratedIsLevel(g: Graph, start: string, target: string, maxDepth: nat, p: Path)
    requires Enumerated(g, start, target, maxDepth, p)
    ensures p in Level(PathStep(g, target, maxDepth), {[start]}, |p| - 1)
    decreases |p|
  {
    if |p| == 1 {
      assert p == [start];
    } else {
      var q := p[..|p| - 1];
      EnumeratedIsLevel(g, start, target, maxDepth, q);
      assert p == q + [Last(p)] && (Last(q), Last(p)) in g;
      var e := (Last(q), Last(p));
      assert e.1 !in q;
      assert q + [e.1] in PathStep(g, target, maxDepth)(q);
    }
  }

  // The recursion enumerates exactly the simple paths that do not pass through the target.
  lemma TableIsEnumerated(g: Graph, start: string, target: string, maxDepth: nat, p: Path)
    ensures p in PathTable(g, start, target, maxDepth) <==> Enumerated(g, start, target, maxDepth, p)
  {
    var step, base := PathStep(g, target, maxDepth), {[start]};
    var rank := (q: Path) => |q| - 1;
    assert Ranked(step, base, rank, 0, maxDepth);
    EvaluatesToLevels(step, base, rank, 0, maxDepth, maxDepth + 1);
    if p in PathTable(g, start, target, maxDepth) {
      var k: nat :| p in Level(step, base, k);
      LevelIsEnumerated(g, start, target, maxDepth, p, k);
    }
    if Enumerated(g, start, target, maxDepth, p) {
      EnumeratedIsLevel(g, start, target, maxDepth, p);
      assert Derived(step, base, p);
    }
  }

  // The simple form of any short walk is a row that has arrived.
  lemma WalkGivesRow(g: Graph, start: string, target: string, maxDepth: nat, w: Path) returns (p: Path)
    requires Joins(g, w, start, target) && |w| - 1 <= maxDepth
    ensures p in PathTable(g, start, target, maxDepth) && p != [] && Last(p) == target && |p| <= |w|
  {
    p := Simplify(g, w, start, target);
    TableIsEnumerated(g, start, target, maxDepth, p);
  }

  // Some row is picked if and only if a walk over allowed relations with at most maxDepth edges exists.
  lemma PickedIffReachable(g: Graph, start: string, target: string, maxDepth: nat)
    ensures (exists p :: Picked(g, start, target, maxDepth, p)) <==>
            (exists w :: Joins(g, w, start, target) && |w| - 1 <= maxDepth)
  {
    if p :| Picked(g, start, target, maxDepth, p) {
      TableIsEnumerated(g, start, target, maxDepth, p);
      assert Joins(g, p, start, target);
    }
    if w :| Joins(g, w, start, target) && |w| - 1 <= maxDepth {
      var p := WalkGivesRow(g, start, target, maxDepth, w);
      var q := LeastRow(g, start, target, maxDepth, p);
    }
  }

  lemma {:induction false} LeastRow(g: Graph, start: string, target: string, maxDepth: nat, p: Path) returns (q: Path)
    requires p in PathTable(g, start, target, maxDepth) && p != [] && Last(p) == target
    ensures Picked(g, start, target, maxDepth, q)
    decreases |p|
  {
    if Picked(g, start, target, maxDepth, p) {
      q := p;
    } else {
      var r :| r in PathTable(g, start, target, maxDepth) && r != [] && Last(r) == target && |r| < |p|;
      q := LeastRow(g, start, target, maxDepth, r);
    }
  }

  // The picked row is a walk from start to target, and no walk of any length is shorter.
  lemma PickedIsShortest(g: Graph, start: string, target: string, maxDepth: nat, p: Path, w: Path)
    requires Picked(g, start, target, maxDepth, p) && Joins(g, w, start, target)
    ensures Joins(g, p, start, target) && |p| - 1 <= maxDepth && |p| <= |w|
  {
    TableIsEnumerated(g, start, target, maxDepth, p);
    if |w| - 1 <= maxDepth {
      var r := WalkGivesRow(g, start, target, maxDepth, w);
    }
  }

  // ---------- over the stored edges ----------

  // Over stored edges: a row is found if and only if a walk of at most maxDepth edges of allowed relations
  // leads from the start to the target, and it is such a walk, as short as any.
  lemma PathOverRows(rows: set<NeighborQuery.EdgeRow>, relStr: string, start: string, target: string, maxDepth: nat)
    ensures var g := NeighborQuery.PlainEdges(rows, relStr);
      && ((exists p :: Picked(g, start, target, maxDepth, p)) <==>
           exists w :: RowsJoin(rows, relStr, start, target, w) && |w| - 1 <= maxDepth)
      && (forall p :: Picked(g, start, target, maxDepth, p) ==> RowsJoin(rows, relStr, start, target, p))
      && (forall p, w :: Picked(g, start, target, maxDepth, p) && RowsJoin(rows, relStr, start, target, w)
            ==> |p| <= |w|)
  {
    var g := NeighborQuery.PlainEdges(rows, relStr);
    forall w
      ensures RowsJoin(rows, relStr, start, target, w) <==> Joins(g, w, start, target)
    {
      NeighborQuery.RowWalkIsWalk(rows, relStr, 0.0, "", w);
    }
    PickedIffReachable(g, start, target, maxDepth);
    forall p | Picked(g, start, target, maxDepth, p)
      ensures Joins(g, p, start, target)
    {
      TableIsEnumerated(g, start, target, maxDepth, p);
    }
    forall p, w | Picked(g, start, target, maxDepth, p) && Joins(g, w, start, target)
      ensures |p| <= |w|
    {
      PickedIsShortest(g, start, target, maxDepth, p, w);
    }
  }

  ghost predicate RowsJoin(rows: set<NeighborQuery.EdgeRow>, relStr: string, s: string, t: string, w: Path) {
    NeighborQuery.RowWalk(rows, relStr, 0.0, "", w) && w[0] == s && Last(w) == t
  }

  // ---------- from the picked row to entities ----------

  datatype Entity = Entity(id: string, name: string)

  ghost predicate Keyed(entities: map<string, Entity>) {
    forall id :: id in entities ==> entities[id].id == id
  }

  // The row travels as one '|'-separated string; its pieces are looked up, and a
  // missing one empties the answer.
  function Resolve(entities: map<string, Entity>, p: Path): seq<Entity> {
    var ids := Split(Join(p, '|'), '|');
    if forall id :: id in ids ==> id in entities then seq(|ids|, i requires 0 <= i < |ids| => entities[ids[i]]) else []
  }

  ghost predicate IsChain(chain: seq<Entity>, p: Path) {
    |chain| == |p| && forall i :: 0 <= i < |p| ==> chain[i].id == p[i]
  }

  // The answer is the picked chain if and only if every id on it is stored and none contains '|'.
  lemma ResolvedIffStored(entities: map<string, Entity>, p: Path)
    requires Keyed(entities) && p != []
    ensures IsChain(Resolve(entities, p), p) <==> forall id :: id in p ==> id in entities && '|' !in id
  {
    SplitOfJoin(p, '|');
    var ids := Split(Join(p, '|'), '|');
    if IsChain(Resolve(entities, p), p) {
      assert forall id :: id in ids ==> id in entities;
      assert |ids| == |p| && forall i :: 0 <= i < |p| ==> ids[i] == entities[ids[i]].id == p[i];
      assert ids == p;
    }
  }

  // Some piece of some id on the chain is not stored.
  ghost predicate PieceMissing(entities: map<string, Entity>, p: Path) {
    exists i, piece :: 0 <= i < |p| && piece in Split(p[i], '|') && piece !in entities
  }

  // The answer is empty if and only if some piece of some id on the chain is not stored.
  lemma EmptyIff(entities: map<string, Entity>, p: Path)
    requires p != []
    ensures Resolve(entities, p) == [] <==> PieceMissing(entities, p)
  {
    var ids := Split(Join(p, '|'), '|');
    forall piece
      ensures piece in ids <==> exists i :: 0 <= i < |p| && piece in Split(p[i], '|')
    {
      PiecesOfJoin(p, '|', piece);
    }
    if i, piece :| 0 <= i < |p| && piece in Split(p[i], '|') && piece !in entities {
      assert piece in ids;
    }
  }

  // So for ids without '|' it is empty exactly when some id is not stored.
  lemma OrphanEmpties(entities: map<string, Entity>, p: Path)
    requires p != [] && forall id :: id in p ==> '|' !in id
    ensures Resolve(entities, p) == [] <==> exists id :: id in p && id !in entities
  {
    SplitOfJoin(p, '|');
  }

  // The promise "the chain, or nothing" is kept if and only if no id on the chain has a '|', or some
  // piece of an id is not stored.
  lemma ChainOrEmptyIff(entities: map<string, Entity>, p: Path)
    requires Keyed(entities) && p != []
    ensures (IsChain(Resolve(entities, p), p) || Resolve(entities, p) == []) <==>
      ((forall id :: id in p ==> '|' !in id) || PieceMissing(entities, p))
  {
    EmptyIff(entities, p);
    ResolvedIffStored(entities, p);
    if forall id :: id in p ==> '|' !in id {
      OrphanEmpties(entities, p);
    }
  }

  // And it can fail: with '|' in an id and its pieces stored, the pieces are the answer.
  lemma SeparatorInId(a: Entity, b: Entity)
    requires '|' !in a.id && '|' !in b.id && a.id != b.id
    ensures var p := [a.id + ['|'] + b.id];
      Resolve(map[a.id := a, b.id := b], p) == [a, b] && !IsChain([a, b], p)
  {
    SplitHead(a.id, b.id, '|');
    SplitPlain(b.id, '|');
    assert Split(Join([a.id + ['|'] + b.id], '|'), '|') == [a.id, b.id];
  }
}
