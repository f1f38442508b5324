// Recursive queries and walks in a directed graph.
module RecursiveCte {

  // The rows one evaluation of the recursive term yields from the working table.
  ghost function Expand<Row(!new)>(step: Row -> set<Row>, work: set<Row>): set<Row> {
    set r, x | r in work && x in step(r) :: x
  }

  // WITH RECURSIVE ... UNION: evaluate the recursive term on the working table, drop
  // what is already in the result, and repeat until nothing new appears.
  ghost function Iterate<Row(!new)>(step: Row -> set<Row>, work: set<Row>, result: set<Row>, rounds: nat): set<Row>
    decreases rounds
  {
    if work == {} || rounds == 0 then result
    else
      var unseen := Expand(step, work) - result;
      Iterate(step, unseen, result + unseen, rounds - 1)
  }

  // The rows derived by exactly k uses of the recursive term.
  ghost function Level<Row(!new)>(step: Row -> set<Row>, base: set<Row>, k: nat): set<Row>
    decreases k
  {
    if k == 0 then base else Expand(step, Level(step, base, k - 1))
  }

  ghost function Levels<Row(!new)>(step: Row -> set<Row>, base: set<Row>, k: nat): set<Row>
    decreases k
  {
    if k == 0 then base else Levels(step, base, k - 1) + Level(step, base, k)
  }

  // Every row carries its depth, the recursive term adds one, and stops at the cap.
  ghost predicate Ranked<Row(!new)>(step: Row -> set<Row>, base: set<Row>, rank: Row -> int, first: int, cap: int) {
    && (forall r :: r in base ==> rank(r) == first)
    && (forall r, x :: x in step(r) ==> rank(x) == rank(r) + 1 && rank(r) < cap)
  }

  lemma {:induction false} LevelRank<Row(!new)>(step: Row -> set<Row>, base: set<Row>, rank: Row -> int, first: int,
      cap: int, k: nat)
    requires Ranked(step, base, rank, first, cap)
    ensures forall r :: r in Level(step, base, k) ==> rank(r) == first + k
    ensures k > 0 && first + k > cap ==> Level(step, base, k) == {}
    decreases k
  {
    if k > 0 {
      LevelRank(step, base, rank, first, cap, k - 1);
    }
  }

  lemma {:induction false} InLevels<Row(!new)>(step: Row -> set<Row>, base: set<Row>, r: Row, j: nat, k: nat)
    requires j <= k && r in Level(step, base, j)
    ensures r in Levels(step, base, k)
    decreases k
  {
    if j < k {
      InLevels(step, base, r, j, k - 1);
    }
  }

  lemma {:induction false} LevelsIn<Row(!new)>(step: Row -> set<Row>, base: set<Row>, r: Row, k: nat) returns (j: nat)
    requires r in Levels(step, base, k)
    ensures j <= k && r in Level(step, base, j)
    decreases k
  {
    if r in Level(step, base, k) {
      j := k;
    } else {
      j := LevelsIn(step, base, r, k - 1);
    }
  }

  lemma {:induction false} LevelStops<Row(!new)>(step: Row -> set<Row>, base: set<Row>, k: nat, n: nat)
    requires Level(step, base, k) == {} && k <= n
    ensures Level(step, base, n) == {}
    decreases n
  {
    if k < n {
      LevelStops(step, base, k, n - 1);
    }
  }

  // After k rounds the working table is level k and the result is every level up to k; the loop
  // ends at a level n past which there is nothing.
  lemma {:induction false} IterateLevels<Row(!new)>(
      step: Row -> set<Row>, base: set<Row>, rank: Row -> int, first: int, cap: int, k: nat, rounds: nat)
        returns (n: nat)
    requires Ranked(step, base, rank, first, cap) && first + k + rounds > cap
    ensures Level(step, base, n + 1) == {}
    ensures Iterate(step, Level(step, base, k), Levels(step, base, k), rounds) == Levels(step, base, n)
    decreases rounds
  {
    hide Expand, Ranked;
    n := k;
    if Level(step, base, k) == {} {
      LevelStops(step, base, k, k + 1);
    } else if rounds == 0 {
      LevelRank(step, base, rank, first, cap, k + 1);
    } else {
      NextIsUnseen(step, base, rank, first, cap, k);
      IterateRound(step, base, k, rounds);
      hide Iterate, Level, Levels;
      n := IterateLevels(step, base, rank, first, cap, k + 1, rounds - 1);
    }
  }

  lemma IterateRound<Row(!new)>(step: Row -> set<Row>, base: set<Row>, k: nat, rounds: nat)
    requires rounds > 0 && Level(step, base, k) != {}
    requires Expand(step, Level(step, base, k)) - Levels(step, base, k) == Level(step, base, k + 1)
    ensures Iterate(step, Level(step, base, k), Levels(step, base, k), rounds)
         == Iterate(step, Level(step, base, k + 1), Levels(step, base, k + 1), rounds - 1)
  {}

  // Ranks rise with the levels, so nothing on the next level has been seen before.
  lemma NextIsUnseen<Row(!new)>(
      step: Row -> set<Row>, base: set<Row>, rank: Row -> int, first: int, cap: int, k: nat)
    requires Ranked(step, base, rank, first, cap)
    ensures Expand(step, Level(step, base, k)) - Levels(step, base, k) == Level(step, base, k + 1)
  {
    LevelRank(step, base, rank, first, cap, k + 1);
    forall r | r in Expand(step, Level(step, base, k))
      ensures r !in Levels(step, base, k)
    {
      if r in Levels(step, base, k) {
        var j := LevelsIn(step, base, r, k);
        LevelRank(step, base, rank, first, cap, j);
        assert false;
      }
    }
  }

  ghost predicate Derived<Row(!new)>(step: Row -> set<Row>, base: set<Row>, r: Row) {
    exists k: nat :: r in Level(step, base, k)
  }

  // With depths capped the query terminates, and its result is exactly the rows of some level:
  // running it for more rounds changes nothing.
  lemma EvaluatesToLevels<Row(!new)>(
      step: Row -> set<Row>, base: set<Row>, rank: Row -> int, first: int, cap: int, rounds: nat)
    requires Ranked(step, base, rank, first, cap) && first + rounds > cap
    ensures forall r :: r in Iterate(step, base, base, rounds) <==> Derived(step, base, r)
  {
    var n := IterateLevels(step, base, rank, first, cap, 0, rounds);
    assert Level(step, base, 0) == base == Levels(step, base, 0);
    forall r | r in Levels(step, base, n)
      ensures Derived(step, base, r)
    {
      var j := LevelsIn(step, base, r, n);
    }
    forall r | Derived(step, base, r)
      ensures r in Levels(step, base, n)
    {
      var k: nat :| r in Level(step, base, k);
      if k > n {
        LevelStops(step, base, n + 1, k);
      }
      InLevels(step, base, r, k, n);
    }
  }
}

module Walks {

  type Graph = set<(string, string)>

  // A walk is the sequence of its vertices; it has one edge less than vertices.
  predicate IsWalk(g: Graph, p: seq<string>) {
    p != [] && forall i :: 0 <= i < |p| - 1 ==> (p[i], p[i + 1]) in g
  }

  predicate Joins(g: Graph, p: seq<string>, s: string, t: string) {
    IsWalk(g, p) && p[0] == s && p[|p| - 1] == t
  }

  ghost predicate Distinct(p: seq<string>) {
    forall i, j :: 0 <= i < j < |p| ==> p[i] != p[j]
  }

  // Vertices reached from s by a walk of exactly k edges.
  ghost function Reach(g: Graph, s: string, k: nat): set<string>
    decreases k
  {
    if k == 0 then {s} else set e | e in g && e.0 in Reach(g, s, k - 1) :: e.1
  }

  lemma {:induction false} ReachWalk(g: Graph, s: string, t: string, k: nat) returns (p: seq<string>)
    requires t in Reach(g, s, k)
    ensures Joins(g, p, s, t) && |p| == k + 1
    decreases k
  {
    if k == 0 {
      p := [s];
    } else {
      var e :| e in g && e.0 in Reach(g, s, k - 1) && e.1 == t;
      var q := ReachWalk(g, s, e.0, k - 1);
      p := q + [t];
    }
  }

  lemma {:induction false} WalkReach(g: Graph, p: seq<string>, k: nat)
    requires IsWalk(g, p) && k < |p|
    ensures p[k] in Reach(g, p[0], k)
    decreases k
  {
    if k > 0 {
      WalkReach(g, p, k - 1);
      var e := (p[k - 1], p[k]);
      assert e in g && e.0 in Reach(g, p[0], k - 1);
    }
  }

  function Reverse(g: Graph): Graph {
    set e | e in g :: (e.1, e.0)
  }

  function Backwards(p: seq<string>): seq<string> {
    seq(|p|, i requires 0 <= i < |p| => p[|p| - 1 - i])
  }

  lemma WalkBackwards(g: Graph, p: seq<string>, s: string, t: string)
    requires Joins(g, p, s, t)
    ensures Joins(Reverse(g), Backwards(p), t, s)
  {
    var q := Backwards(p);
    forall i | 0 <= i < |q| - 1
      ensures (q[i], q[i + 1]) in Reverse(g)
    {
      var e := (p[|p| - 2 - i], p[|p| - 1 - i]);
      assert e in g;
    }
  }

  // Cutting out a loop leaves a shorter walk between the same ends.
  lemma CutLoop(g: Graph, p: seq<string>, s: string, t: string, i: nat, j: nat)
    requires Joins(g, p, s, t) && i < j < |p| && p[i] == p[j]
    ensures Joins(g, p[..i] + p[j..], s, t)
  {
    var q := p[..i] + p[j..];
    forall k | 0 <= k < |q| - 1
      ensures (q[k], q[k + 1]) in g
    {
      if k + 1 < i {
        assert q[k] == p[k] && q[k + 1] == p[k + 1];
      } else if k + 1 == i {
        assert q[k] == p[k] && q[k + 1] == p[j] == p[i];
      } else {
        assert q[k] == p[k - i + j] && q[k + 1] == p[k + 1 - i + j];
      }
    }
  }

  // Every walk contains a simple one between the same ends, no longer and through no other vertex.
  lemma {:induction false} Simplify(g: Graph, p: seq<string>, s: string, t: string) returns (q: seq<string>)
    requires Joins(g, p, s, t)
    ensures Joins(g, q, s, t) && Distinct(q) && |q| <= |p|
    ensures forall x :: x in q ==> x in p
    decreases |p|
  {
    if Distinct(p) {
      q := p;
    } else {
      var i, j :| 0 <= i < j < |p| && p[i] == p[j];
      CutLoop(g, p, s, t, i, j);
      q := Simplify(g, p[..i] + p[j..], s, t);
    }
  }
}
