// The undirected graph behind the analytics, its edge count, and the cohesion of a community.
module Cohesion {

  datatype Edge = Edge(from: string, to: string)

  // Neighbours by node.
  type Adjacency = map<nat, set<nat>>

  function Neighbours(adj: Adjacency, u: nat): set<nat> {
    if u in adj then adj[u] else {}
  }

  ghost predicate Undirected(adj: Adjacency) {
    forall u, v :: v in Neighbours(adj, u) ==> u != v && u in Neighbours(adj, v)
  }

  function Pair(u: nat, v: nat): (nat, nat) {
    if u < v then (u, v) else (v, u)
  }

  // The distinct unordered pairs of linked nodes among these.
  function Links(adj: Adjacency, nodes: set<nat>): set<(nat, nat)> {
    set u, v | u in nodes && v in nodes && u < v && v in Neighbours(adj, u) :: (u, v)
  }

  // All unordered pairs.
  function Pairs(nodes: set<nat>): set<(nat, nat)> {
    set u, v | u in nodes && v in nodes && u < v :: (u, v)
  }

  lemma SameUndirected(a: Adjacency, b: Adjacency)
    requires Undirected(a) && forall v :: Neighbours(b, v) == Neighbours(a, v)
    ensures Undirected(b)
  {
    forall u, v | v in Neighbours(b, u)
      ensures u != v && u in Neighbours(b, v)
    {
      assert v in Neighbours(a, u);
    }
  }

  // b is a with u and v linked.
  ghost predicate IsLinked(a: Adjacency, b: Adjacency, u: nat, v: nat) {
    forall w :: Neighbours(b, w) == Neighbours(a, w) + (if w == u then {v} else {}) + (if w == v then {u} else {})
  }

  lemma LinkedUndirected(a: Adjacency, b: Adjacency, u: nat, v: nat)
    requires Undirected(a) && u != v && IsLinked(a, b, u, v)
    ensures Undirected(b)
  {
    forall x, y | y in Neighbours(b, x)
      ensures x != y && x in Neighbours(b, y)
    {
      if y in Neighbours(a, x) {
        assert x in Neighbours(a, y);
      }
    }
  }

  class UndirectedGraph {
    var adj: Adjacency

    ghost predicate Valid()
      reads this
    {
      Undirected(adj)
    }

    constructor ()
      ensures Valid() && adj == map[]
    {
      adj := map[];
    }

    method AddNode(u: nat)
      requires Valid() && u !in adj
      modifies this
      ensures Valid() && adj.Keys == old(adj).Keys + {u}
      ensures forall v :: Neighbours(adj, v) == Neighbours(old(adj), v)
    {
      ghost var before := adj;
      adj := adj[u := {}];
      forall v
        ensures Neighbours(adj, v) == Neighbours(before, v)
      {}
      SameUndirected(before, adj);
    }

    method HasEdgeBetween(u: nat, v: nat) returns (linked: bool)
      ensures linked <==> v in Neighbours(adj, u)
    {
      linked := v in Neighbours(adj, u);
    }

    method SetEdge(u: nat, v: nat)
      requires Valid() && u != v
      modifies this
      ensures Valid()
      ensures IsLinked(old(adj), adj, u, v)
      ensures adj.Keys == old(adj).Keys + {u, v}
    {
      ghost var before := adj;
      adj := adj[u := Neighbours(adj, u) + {v}];
      adj := adj[v := Neighbours(adj, v) + {u}];
      forall w
        ensures Neighbours(adj, w) ==
          Neighbours(before, w) + (if w == u then {v} else {}) + (if w == v then {u} else {})
      {}
      LinkedUndirected(before, adj, u, v);
    }
  }

  // ---------- building the graph ----------

  predicate Counts(node: map<string, nat>, e: Edge) {
    e.from in node && e.to in node && node[e.from] != node[e.to]
  }

  // The distinct unordered pairs that the edges between known, different nodes name.
  function NamedPairs(node: map<string, nat>, edges: seq<Edge>): set<(nat, nat)> {
    set i | 0 <= i < |edges| && Counts(node, edges[i]) :: Pair(node[edges[i].from], node[edges[i].to])
  }

  // Every id has the number of its last position, so different ids have different nodes.
  ghost predicate Numbers(ids: seq<string>, node: map<string, nat>) {
    && (forall id :: id in node <==> id in ids)
    && (forall id :: id in node ==> node[id] < |ids| && ids[node[id]] == id)
    && (forall id :: id in node ==> forall i :: node[id] < i < |ids| ==> ids[i] != id)
  }

  // Two edges name the same pair if and only if they join the same two ids, in either direction.
  lemma SamePairIff(ids: seq<string>, node: map<string, nat>, e: Edge, f: Edge)
    requires Numbers(ids, node) && Counts(node, e) && Counts(node, f)
    ensures Pair(node[e.from], node[e.to]) == Pair(node[f.from], node[f.to]) <==>
      (e.from == f.from && e.to == f.to) || (e.from == f.to && e.to == f.from)
  {
    assert forall a, b :: a in node && b in node && node[a] == node[b] ==> ids[node[a]] == a == b;
  }

  lemma NamedMore(node: map<string, nat>, edges: seq<Edge>, i: nat)
    requires i < |edges|
    ensures NamedPairs(node, edges[..i + 1]) == NamedPairs(node, edges[..i]) + NewPairs(node, edges[i])
  {
    var shorter, longer := edges[..i], edges[..i + 1];
    forall p | p in NamedPairs(node, shorter)
      ensures p in NamedPairs(node, longer)
    {
      var j :| 0 <= j < i && Counts(node, shorter[j]) && p == Pair(node[shorter[j].from], node[shorter[j].to]);
      assert longer[j] == shorter[j];
    }
    forall p | p in NamedPairs(node, longer)
      ensures p in NamedPairs(node, shorter) ||
        (Counts(node, edges[i]) && p == Pair(node[edges[i].from], node[edges[i].to]))
    {
      var j :| 0 <= j < i + 1 && Counts(node, longer[j]) && p == Pair(node[longer[j].from], node[longer[j].to]);
      if j < i {
        assert shorter[j] == longer[j];
      }
    }
    if Counts(node, edges[i]) {
      assert longer[i] == edges[i];
    }
  }

  // The graph links exactly these pairs.
  ghost predicate Holds(adj: Adjacency, pairs: set<(nat, nat)>) {
    && (forall u, v :: v in Neighbours(adj, u) <==> u != v && Pair(u, v) in pairs)
    && (forall p :: p in pairs ==> p.0 < p.1)
  }

  lemma HoldsMore(a: Adjacency, b: Adjacency, pairs: set<(nat, nat)>, u: nat, v: nat)
    requires Holds(a, pairs) && u != v && IsLinked(a, b, u, v)
    ensures Holds(b, pairs + {Pair(u, v)})
  {}

  // Unknown endpoints, self-loops and repeats are dropped, so the edge count is the number of distinct
  // unordered pairs of different known ids that the edges name, and the graph links exactly those.
  method BuildGraph(ids: seq<string>, edges: seq<Edge>)
    returns (g: UndirectedGraph, node: map<string, nat>, edgeCount: nat)
    ensures fresh(g) && g.Valid() && Numbers(ids, node)
    ensures forall u: nat :: u < |ids| ==> u in g.adj
    ensures forall a, b :: a in ids && b in ids ==>
      (node[b] in Neighbours(g.adj, node[a]) <==> a != b && Named(edges, a, b))
    ensures edgeCount == |Links(g.adj, node.Values)|
  {
    g := new UndirectedGraph();
    node := AddNodes(g, ids);
    edgeCount := AddEdges(g, node, edges);
    forall a, b | a in ids && b in ids
      ensures node[b] in Neighbours(g.adj, node[a]) <==> a != b && Named(edges, a, b)
    {
      LinkedIff(g.adj, ids, node, edges, a, b);
    }
    LinksAreNamed(g.adj, ids, node, edges);
  }

  // Some edge joins these ids, in one direction or the other.
  ghost predicate Named(edges: seq<Edge>, a: string, b: string) {
    exists e :: e in edges && ((e.from == a && e.to == b) || (e.from == b && e.to == a))
  }

  lemma LinkedIff(adj: Adjacency, ids: seq<string>, node: map<string, nat>, edges: seq<Edge>, a: string, b: string)
    requires Numbers(ids, node) && Holds(adj, NamedPairs(node, edges)) && a in ids && b in ids
    ensures node[b] in Neighbours(adj, node[a]) <==> a != b && Named(edges, a, b)
  {
    if a != b && Named(edges, a, b) {
      var e :| e in edges && ((e.from == a && e.to == b) || (e.from == b && e.to == a));
      var i :| 0 <= i < |edges| && edges[i] == e;
      assert Counts(node, edges[i]) && Pair(node[edges[i].from], node[edges[i].to]) == Pair(node[a], node[b]);
    }
  }

  // The linked pairs of nodes are the named ones, all of them within the numbers given out.
  lemma LinksAreNamed(adj: Adjacency, ids: seq<string>, node: map<string, nat>, edges: seq<Edge>)
    requires Numbers(ids, node) && Holds(adj, NamedPairs(node, edges))
    ensures Links(adj, node.Values) == NamedPairs(node, edges)
  {
    forall p | p in NamedPairs(node, edges)
      ensures p in Links(adj, node.Values)
    {
      assert p == Pair(p.0, p.1) && p.1 in Neighbours(adj, p.0);
    }
  }

  method AddNodes(g: UndirectedGraph, ids: seq<string>) returns (node: map<string, nat>)
    requires g.Valid() && g.adj == map[]
    modifies g
    ensures g.Valid() && Numbers(ids, node)
    ensures forall u: nat :: u in g.adj <==> u < |ids|
    ensures forall u :: Neighbours(g.adj, u) == {}
  {
    node := map[];
    for i := 0 to |ids|
      invariant g.Valid() && forall u: nat :: u in g.adj <==> u < i
      invariant forall u :: Neighbours(g.adj, u) == {}
      invariant Numbers(ids[..i], node)
    {
      assert ids[..i + 1] == ids[..i] + [ids[i]];
      node := node[ids[i] := i];
      g.AddNode(i);
    }
    assert ids[..|ids|] == ids;
  }

  method AddEdges(g: UndirectedGraph, node: map<string, nat>, edges: seq<Edge>) returns (edgeCount: nat)
    requires g.Valid() && forall u :: Neighbours(g.adj, u) == {}
    modifies g
    ensures g.Valid() && old(g.adj).Keys <= g.adj.Keys
    ensures Holds(g.adj, NamedPairs(node, edges)) && edgeCount == |NamedPairs(node, edges)|
  {
    edgeCount := 0;
    ghost var pairs: set<(nat, nat)> := {};
    for i := 0 to |edges|
      invariant g.Valid() && old(g.adj).Keys <= g.adj.Keys
      invariant pairs == NamedPairs(node, edges[..i])
      invariant Holds(g.adj, pairs) && edgeCount == |pairs|
    {
      NamedMore(node, edges, i);
      var added := AddEdge(g, node, edges[i], pairs);
      if added {
        edgeCount := edgeCount + 1;
      }
      pairs := NamedPairs(node, edges[..i + 1]);
    }
    assert edges[..|edges|] == edges;
  }

  function NewPairs(node: map<string, nat>, e: Edge): set<(nat, nat)> {
    if Counts(node, e) then {Pair(node[e.from], node[e.to])} else {}
  }

  // The body of the edge loop.
  method AddEdge(g: UndirectedGraph, node: map<string, nat>, e: Edge, ghost pairs: set<(nat, nat)>)
    returns (added: bool)
    requires g.Valid() && Holds(g.adj, pairs)
    modifies g
    ensures g.Valid() && Holds(g.adj, pairs + NewPairs(node, e)) && old(g.adj).Keys <= g.adj.Keys
    ensures |pairs + NewPairs(node, e)| == |pairs| + if added then 1 else 0
  {
    if e.from !in node || e.to !in node || node[e.from] == node[e.to] {
      assert pairs + NewPairs(node, e) == pairs;
      return false;
    }
    var fn, tn := node[e.from], node[e.to];
    var linked := g.HasEdgeBetween(fn, tn);
    if linked {
      assert pairs + NewPairs(node, e) == pairs;
      return false;
    }
    ghost var before := g.adj;
    g.SetEdge(fn, tn);
    HoldsMore(before, g.adj, pairs, fn, tn);
    added := true;
  }

  // ---------- cohesion ----------

  function ToSet(list: seq<nat>): set<nat> {
    set u | u in list
  }

  ghost predicate Distinct(list: seq<nat>) {
    forall i, j :: 0 <= i < j < |list| ==> list[i] != list[j]
  }

  // The degrees of these nodes within a set, summed.
  function DegreeSum(adj: Adjacency, list: seq<nat>, within: set<nat>): nat {
    if list == [] then 0
    else DegreeSum(adj, list[..|list| - 1], within) + |Neighbours(adj, list[|list| - 1]) * within|
  }

  lemma AddOne(a: set<nat>, b: set<nat>, x: nat)
    requires x !in b
    ensures |a * (b + {x})| == |a * b| + if x in a then 1 else 0
  {
    if x in a {
      assert a * (b + {x}) == a * b + {x};
    } else {
      assert a * (b + {x}) == a * b;
    }
  }

  lemma LastApart(list: seq<nat>)
    requires list != [] && Distinct(list)
    ensures var (init, x) := (list[..|list| - 1], list[|list| - 1]);
      Distinct(init) && x !in ToSet(init) && ToSet(list) == ToSet(init) + {x}
  {
    assert list == list[..|list| - 1] + [list[|list| - 1]];
  }

  // One more node in the set adds one for each listed neighbour of it.
  lemma {:induction false} DegreeSumGrows(adj: Adjacency, list: seq<nat>, within: set<nat>, x: nat)
    requires Undirected(adj) && Distinct(list) && x !in within
    ensures DegreeSum(adj, list, within + {x}) == DegreeSum(adj, list, within) + |Neighbours(adj, x) * ToSet(list)|
    decreases |list|
  {
    if list == [] {
      assert Neighbours(adj, x) * ToSet(list) == {};
    } else {
      var init, m := list[..|list| - 1], list[|list| - 1];
      LastApart(list);
      DegreeSumGrows(adj, init, within, x);
      AddOne(Neighbours(adj, m), within, x);
      AddOne(Neighbours(adj, x), ToSet(init), m);
      assert x in Neighbours(adj, m) <==> m in Neighbours(adj, x);
    }
  }

  lemma {:induction false} PairsOfOne(x: nat, others: set<nat>)
    requires x !in others
    ensures |set v | v in others :: Pair(x, v)| == |others|
    decreases |others|
  {
    if others == {} {
      assert (set v | v in others :: Pair(x, v)) == {};
    } else {
      var v :| v in others;
      PairsOfOne(x, others - {v});
      var fewer := set w | w in others - {v} :: Pair(x, w);
      assert (set w | w in others :: Pair(x, w)) == fewer + {Pair(x, v)};
      assert Pair(x, v) !in fewer;
    }
  }

  // The links of one node to others.
  function LinksOf(adj: Adjacency, nodes: set<nat>, x: nat): set<(nat, nat)> {
    set v | v in Neighbours(adj, x) * nodes :: Pair(x, v)
  }

  lemma LinkOfNew(adj: Adjacency, nodes: set<nat>, x: nat, p: (nat, nat))
    requires Undirected(adj) && x !in nodes
    ensures p in Links(adj, nodes + {x}) <==> p in Links(adj, nodes) || p in LinksOf(adj, nodes, x)
    ensures !(p in Links(adj, nodes) && p in LinksOf(adj, nodes, x))
  {
    if p in Links(adj, nodes + {x}) && p.0 == x {
      assert p == Pair(x, p.1) && p.1 in Neighbours(adj, x) * nodes;
    } else if p in Links(adj, nodes + {x}) && p.1 == x {
      assert p == Pair(x, p.0) && p.0 in Neighbours(adj, x) * nodes;
    }
  }

  lemma LinksGrow(adj: Adjacency, nodes: set<nat>, x: nat)
    requires Undirected(adj) && x !in nodes
    ensures |Links(adj, nodes + {x})| == |Links(adj, nodes)| + |Neighbours(adj, x) * nodes|
  {
    PairsOfOne(x, Neighbours(adj, x) * nodes);
    forall p
      ensures p in Links(adj, nodes + {x}) <==> p in Links(adj, nodes) || p in LinksOf(adj, nodes, x)
      ensures !(p in Links(adj, nodes) && p in LinksOf(adj, nodes, x))
    {
      LinkOfNew(adj, nodes, x, p);
    }
    hide Links, Neighbours, Pair, Undirected;
    assert Links(adj, nodes + {x}) == Links(adj, nodes) + LinksOf(adj, nodes, x);
  }

  // The handshake: the degrees within a set of nodes add up to twice the links inside it.
  lemma {:induction false} Handshake(adj: Adjacency, list: seq<nat>)
    requires Undirected(adj) && Distinct(list)
    ensures DegreeSum(adj, list, ToSet(list)) == 2 * |Links(adj, ToSet(list))|
    decreases |list|
  {
    if list == [] {
      assert Links(adj, ToSet(list)) == {};
    } else {
      var init, x := list[..|list| - 1], list[|list| - 1];
      LastApart(list);
      Handshake(adj, init);
      DegreeSumGrows(adj, init, ToSet(init), x);
      LinksGrow(adj, ToSet(init), x);
      AddOne(Neighbours(adj, x), ToSet(init), x);
    }
  }

  // In the complete graph every node is linked to all others, so n nodes have n(n-1)/2 pairs.
  function Complete(nodes: set<nat>): Adjacency {
    map u | u in nodes :: nodes - {u}
  }

  lemma {:induction false} CompleteDegrees(nodes: set<nat>, list: seq<nat>)
    requires forall u :: u in list ==> u in nodes
    ensures DegreeSum(Complete(nodes), list, nodes) == |list| * (|nodes| - 1)
    decreases |list|
  {
    if list != [] {
      var init, x := list[..|list| - 1], list[|list| - 1];
      CompleteDegrees(nodes, init);
      assert Neighbours(Complete(nodes), x) * nodes == nodes - {x};
      assert |nodes - {x}| == |nodes| - 1;
    }
  }

  lemma {:induction false} SetSize(list: seq<nat>)
    requires Distinct(list)
    ensures |ToSet(list)| == |list|
    decreases |list|
  {
    if list != [] {
      var init, x := list[..|list| - 1], list[|list| - 1];
      SetSize(init);
      LastApart(list);
    }
  }

  lemma PairCount(list: seq<nat>)
    requires Distinct(list)
    ensures 2 * |Pairs(ToSet(list))| == |list| * (|list| - 1)
  {
    var nodes := ToSet(list);
    SetSize(list);
    CompleteDegrees(nodes, list);
    Handshake(Complete(nodes), list);
    assert Links(Complete(nodes), nodes) == Pairs(nodes);
  }

  // Linked pairs over all pairs.
  function Density(adj: Adjacency, nodes: set<nat>): real {
    if |Pairs(nodes)| == 0 then 0.0 else |Links(adj, nodes)| as real / |Pairs(nodes)| as real
  }

  lemma DensityBounds(adj: Adjacency, nodes: set<nat>)
    ensures 0.0 <= Density(adj, nodes) <= 1.0
    ensures |Pairs(nodes)| > 0 ==> (Density(adj, nodes) == 1.0 <==> Links(adj, nodes) == Pairs(nodes))
    ensures |Pairs(nodes)| > 0 ==> (Density(adj, nodes) == 0.0 <==> Links(adj, nodes) == {})
  {
    var links, pairs := Links(adj, nodes), Pairs(nodes);
    assert links <= pairs;
    SubsetSize(links, pairs);
    if |pairs| > 0 {
      Ratio(|links|, |pairs|);
    }
  }

  lemma SubsetSize(a: set<(nat, nat)>, b: set<(nat, nat)>)
    requires a <= b
    ensures |a| <= |b| && (|a| == |b| <==> a == b)
  {
    assert b == a + (b - a);
  }

  lemma Ratio(m: nat, n: nat)
    requires 0 < n && m <= n
    ensures 0.0 <= m as real / n as real <= 1.0
    ensures m as real / n as real == 1.0 <==> m == n
    ensures m as real / n as real == 0.0 <==> m == 0
  {
    var q := m as real / n as real;
    assert q * (n as real) == m as real;
  }

  // Sums the members' degrees inside the community and halves; the halving is exact, and the result is the
  // share of member pairs that are linked.
  method ComputeCohesion(g: UndirectedGraph, members: seq<nat>) returns (c: real)
    requires g.Valid() && Distinct(members)
    ensures c == Density(g.adj, ToSet(members))
    ensures 0.0 <= c <= 1.0
  {
    var n := |members|;
    DensityBounds(g.adj, ToSet(members));
    if n < 2 {
      FewMembers(g.adj, members);
      return 0.0;
    }
    var memberSet: set<nat> := {};
    for i := 0 to |members|
      invariant memberSet == ToSet(members[..i])
    {
      assert members[..i + 1] == members[..i] + [members[i]];
      memberSet := memberSet + {members[i]};
    }
    assert members[..|members|] == members;
    var internal := InternalDegrees(g, members, memberSet);
    DensityFromDegrees(g.adj, members, internal);
    internal := internal / 2;
    var possible := (n * (n - 1)) as real / 2.0;
    c := internal as real / possible;
  }

  lemma FewMembers(adj: Adjacency, members: seq<nat>)
    requires Distinct(members) && |members| < 2
    ensures Density(adj, ToSet(members)) == 0.0
  {
    PairCount(members);
    assert |members| * (|members| - 1) == 0;
  }

  lemma DensityFromDegrees(adj: Adjacency, members: seq<nat>, internal: nat)
    requires Undirected(adj) && Distinct(members) && |members| >= 2
    requires internal == DegreeSum(adj, members, ToSet(members))
    ensures internal % 2 == 0 && (|members| * (|members| - 1)) as real / 2.0 != 0.0
    ensures (internal / 2) as real / ((|members| * (|members| - 1)) as real / 2.0) == Density(adj, ToSet(members))
  {
    Handshake(adj, members);
    PairCount(members);
    AtLeastTwo(|members|);
    ghost var possible, links, pairs := |members| * (|members| - 1), |Links(adj, ToSet(members))|,
      |Pairs(ToSet(members))|;
    Quotient(internal, possible, links, pairs);
  }

  lemma Quotient(internal: nat, possible: nat, links: nat, pairs: nat)
    requires internal == 2 * links && possible == 2 * pairs && pairs > 0
    ensures internal % 2 == 0 && possible as real / 2.0 != 0.0
    ensures (internal / 2) as real / (possible as real / 2.0) == links as real / pairs as real
  {
    HalfOf(possible, pairs);
  }

  method InternalDegrees(g: UndirectedGraph, members: seq<nat>, memberSet: set<nat>) returns (internal: nat)
    ensures internal == DegreeSum(g.adj, members, memberSet)
  {
    internal := 0;
    for i := 0 to |members|
      invariant internal == DegreeSum(g.adj, members[..i], memberSet)
    {
      assert members[..i + 1][..i] == members[..i];
      var d := CountWithin(Neighbours(g.adj, members[i]), memberSet);
      internal := internal + d;
    }
    assert members[..|members|] == members;
  }

  lemma HalfOf(m: int, p: int)
    requires m == 2 * p
    ensures m as real / 2.0 == p as real
  {}

  lemma AtLeastTwo(n: nat)
    requires n >= 2
    ensures n * (n - 1) >= 2
  {
    assert n * (n - 1) == (n - 2) * (n + 1) + 2;
  }

  // The inner loop: neighbours in no particular order, counting those inside.
  method CountWithin(neighbours: set<nat>, memberSet: set<nat>) returns (count: nat)
    ensures count == |neighbours * memberSet|
  {
    count := 0;
    var left := neighbours;
    while left != {}
      invariant left <= neighbours
      invariant count == |(neighbours - left) * memberSet|
      decreases left
    {
      var v :| v in left;
      ghost var before := (neighbours - left) * memberSet;
      left := left - {v};
      if v in memberSet {
        assert (neighbours - left) * memberSet == before + {v};
        count := count + 1;
      } else {
        assert (neighbours - left) * memberSet == before;
      }
    }
    assert neighbours - left == neighbours;
  }
}
