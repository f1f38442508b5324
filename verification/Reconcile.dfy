// The code-graph store's write path: a push replaces what its files own for its extractor.
module Upserts {
  import opened Options

  // INSERT ... ON CONFLICT (key) DO UPDATE for a sequence of rows, in order.
  function Upsert<K, V>(m: map<K, V>, rows: seq<(K, V)>): map<K, V> {
    if rows == [] then m
    else Upsert(m, rows[..|rows| - 1])[rows[|rows| - 1].0 := rows[|rows| - 1].1]
  }

  // The last row with the given key.
  function Final<K(==), V>(rows: seq<(K, V)>, k: K): Option<V> {
    if rows == [] then None
    else if rows[|rows| - 1].0 == k then Some(rows[|rows| - 1].1)
    else Final(rows[..|rows| - 1], k)
  }

  ghost predicate Keyed<K, V>(rows: seq<(K, V)>, k: K) {
    exists i :: 0 <= i < |rows| && rows[i].0 == k
  }

  // The last row of each key wins, and other keys are untouched.
  lemma {:induction false} UpsertFinal<K, V>(m: map<K, V>, rows: seq<(K, V)>, k: K)
    ensures Final(rows, k).Some? <==> Keyed(rows, k)
    ensures Final(rows, k).Some? ==> k in Upsert(m, rows) && Upsert(m, rows)[k] == Final(rows, k).value
    ensures Final(rows, k).None? ==> (k in Upsert(m, rows) <==> k in m) && (k in m ==> Upsert(m, rows)[k] == m[k])
  {
    if rows != [] {
      var n := |rows| - 1;
      UpsertFinal(m, rows[..n], k);
      if Keyed(rows[..n], k) {
        var i :| 0 <= i < n && rows[..n][i].0 == k;
        assert rows[i].0 == k;
      }
      if rows[n].0 != k && Keyed(rows, k) {
        var i :| 0 <= i < |rows| && rows[i].0 == k;
        assert rows[..n][i].0 == k;
      }
    }
  }

  // Deleting the rows somebody owns.
  function ClearBy<K, V>(m: map<K, V>, owned: (K, V) -> bool): map<K, V> {
    map k | k in m && !owned(k, m[k]) :: m[k]
  }

  // Clearing and upserting the same rows again changes nothing.
  lemma ReplaceTwice<K(!new), V>(m: map<K, V>, owned: (K, V) -> bool, rows: seq<(K, V)>)
    ensures Upsert(ClearBy(Upsert(ClearBy(m, owned), rows), owned), rows) == Upsert(ClearBy(m, owned), rows)
  {
    var once := Upsert(ClearBy(m, owned), rows);
    var twice := Upsert(ClearBy(once, owned), rows);
    forall k
      ensures k in twice <==> k in once
      ensures k in once ==> twice[k] == once[k]
    {
      UpsertFinal(ClearBy(m, owned), rows, k);
      UpsertFinal(ClearBy(once, owned), rows, k);
    }
  }

  lemma {:induction false} FinalIn<K, V>(rows: seq<(K, V)>, k: K)
    requires Final(rows, k).Some?
    ensures exists i :: 0 <= i < |rows| && rows[i] == (k, Final(rows, k).value)
  {
    var n := |rows| - 1;
    if rows[n].0 == k {
      assert rows[n] == (k, Final(rows, k).value);
    } else {
      FinalIn(rows[..n], k);
      var i :| 0 <= i < n && rows[..n][i] == (k, Final(rows[..n], k).value);
      assert rows[i] == (k, Final(rows, k).value);
    }
  }
}

module Reconcile {
  import opened Options
  import opened Upserts

  const AST := "ast"

  datatype Entity = Entity(id: string, name: string, kind: string, description: string, file: string,
      props: map<string, string>)
  datatype Edge = Edge(src: string, dst: string, relation: string, file: string, score: real, tier: string,
      props: map<string, string>)
  datatype Symbol = Symbol(symbol: string, lang: string, kind: string, role: string, entityID: string, file: string)
  datatype Hyperedge = Hyperedge(id: string, title: string, relation: string, score: real, file: string,
      members: seq<string>, props: map<string, string>)

  datatype Push = Push(repo: string, extractor: string, files: seq<string>, entities: seq<Entity>, edges: seq<Edge>,
                       symbols: seq<Symbol>, hyperedges: seq<Hyperedge>, fileSHAs: map<string, string>)

  // Table rows; the keys are those of the ON CONFLICT clauses.
  datatype EntityRow = EntityRow(name: string, kind: string, description: string, file: string,
                                 props: map<string, string>, extractor: string)
  datatype EdgeKey = EdgeKey(repo: string, src: string, dst: string, relation: string, extractor: string)
  datatype EdgeRow = EdgeRow(file: string, props: map<string, string>, score: real, tier: string)
  datatype SymbolKey = SymbolKey(repo: string, symbol: string, role: string, entityID: string)
  datatype SymbolRow = SymbolRow(lang: string, kind: string, file: string)
  datatype HyperRow = HyperRow(title: string, relation: string, score: real, file: string, props: map<string, string>,
      extractor: string)
  datatype AnalyticsRow = AnalyticsRow(dirty: bool, reconciledAt: int)

  datatype Tables = Tables(
    entities: map<(string, string), EntityRow>,
    edges: map<EdgeKey, EdgeRow>,
    symbols: map<SymbolKey, SymbolRow>,
    hyperedges: map<(string, string), HyperRow>,
    members: set<(string, string, string)>,
    shas: map<(string, string), string>,
    analytics: map<string, AnalyticsRow>)

  function ExtractorOf(p: Push): string {
    if p.extractor == "" then AST else p.extractor
  }

  function TierFor(score: real): string {
    if score >= 1.0 then "EXTRACTED" else if score <= 0.3 then "AMBIGUOUS" else "INFERRED"
  }

  // An edge without score and tier counts as extracted; a missing tier follows from the score.
  function EdgeRowOf(e: Edge): EdgeRow {
    if e.score == 0.0 && e.tier == "" then EdgeRow(e.file, e.props, 1.0, "EXTRACTED")
    else EdgeRow(e.file, e.props, e.score, if e.tier == "" then TierFor(e.score) else e.tier)
  }

  function EdgeRows(p: Push): seq<(EdgeKey, EdgeRow)> {
    seq(|p.edges|, i requires 0 <= i < |p.edges| =>
      (EdgeKey(p.repo, p.edges[i].src, p.edges[i].dst, p.edges[i].relation, ExtractorOf(p)), EdgeRowOf(p.edges[i])))
  }

  function EntityRows(p: Push): seq<((string, string), EntityRow)> {
    seq(|p.entities|, i requires 0 <= i < |p.entities| =>
      var e := p.entities[i];
      ((p.repo, e.id), EntityRow(e.name, e.kind, e.description, e.file, e.props, ExtractorOf(p))))
  }

  function SymbolRows(p: Push): seq<(SymbolKey, SymbolRow)> {
    seq(|p.symbols|, i requires 0 <= i < |p.symbols| =>
      var s := p.symbols[i];
      (SymbolKey(p.repo, s.symbol, s.role, s.entityID), SymbolRow(s.lang, s.kind, s.file)))
  }

  function HyperRows(p: Push): seq<((string, string), HyperRow)> {
    seq(|p.hyperedges|, i requires 0 <= i < |p.hyperedges| =>
      var h := p.hyperedges[i];
      ((p.repo, h.id),
        HyperRow(h.title, h.relation, if h.score == 0.0 then 1.0 else h.score, h.file, h.props, ExtractorOf(p))))
  }

  function MembersOf(repo: string, h: Hyperedge): set<(string, string, string)> {
    set m | m in h.members :: (repo, h.id, m)
  }

  function PushedMembers(repo: string, hs: seq<Hyperedge>): set<(string, string, string)> {
    set i, m | 0 <= i < |hs| && m in hs[i].members :: (repo, hs[i].id, m)
  }

  // ---------- what the files of a push own ----------

  predicate OwnsEdge(repo: string, ext: string, files: seq<string>, k: EdgeKey, r: EdgeRow) {
    k.repo == repo && k.extractor == ext && r.file in files
  }

  predicate OwnsEntity(repo: string, ext: string, files: seq<string>, k: (string, string), r: EntityRow) {
    k.0 == repo && r.extractor == ext && r.file in files
  }

  predicate OwnsSymbol(repo: string, ext: string, files: seq<string>, k: SymbolKey, r: SymbolRow) {
    ext == AST && k.repo == repo && r.file in files
  }

  predicate OwnsHyper(repo: string, ext: string, files: seq<string>, k: (string, string), r: HyperRow) {
    k.0 == repo && r.extractor == ext && r.file in files
  }

  function ClearEntities(m: map<(string, string), EntityRow>, repo: string, ext: string, files: seq<string>)
    : map<(string, string), EntityRow>
  {
    map k | k in m && !OwnsEntity(repo, ext, files, k, m[k]) :: m[k]
  }

  function ClearEdges(m: map<EdgeKey, EdgeRow>, repo: string, ext: string, files: seq<string>): map<EdgeKey, EdgeRow> {
    map k | k in m && !OwnsEdge(repo, ext, files, k, m[k]) :: m[k]
  }

  function ClearSymbols(m: map<SymbolKey, SymbolRow>, repo: string, ext: string, files: seq<string>)
    : map<SymbolKey, SymbolRow>
  {
    map k | k in m && !OwnsSymbol(repo, ext, files, k, m[k]) :: m[k]
  }

  function ClearHypers(m: map<(string, string), HyperRow>, repo: string, ext: string, files: seq<string>)
    : map<(string, string), HyperRow>
  {
    map k | k in m && !OwnsHyper(repo, ext, files, k, m[k]) :: m[k]
  }

  // The members of an owned hyperedge go with it.
  predicate OwnedMember(hypers: map<(string, string), HyperRow>, repo: string, ext: string, files: seq<string>,
      m: (string, string, string)) {
    (m.0, m.1) in hypers && OwnsHyper(repo, ext, files, (m.0, m.1), hypers[(m.0, m.1)])
  }

  function ClearMembers(ms: set<(string, string, string)>, hypers: map<(string, string), HyperRow>,
                        repo: string, ext: string, files: seq<string>): set<(string, string, string)> {
    set m | m in ms && !OwnedMember(hypers, repo, ext, files, m)
  }

  // The tables without what the files own for the extractor.
  function Cleared(t: Tables, repo: string, ext: string, files: seq<string>): Tables {
    t.(entities := ClearEntities(t.entities, repo, ext, files),
       edges := ClearEdges(t.edges, repo, ext, files),
       symbols := ClearSymbols(t.symbols, repo, ext, files),
       hyperedges := ClearHypers(t.hyperedges, repo, ext, files),
       members := ClearMembers(t.members, t.hyperedges, repo, ext, files))
  }

  function SHARows(repo: string, fileSHAs: map<string, string>): map<(string, string), string> {
    map f | f in fileSHAs :: (repo, f) := fileSHAs[f]
  }

  // The tables after the rows of a push were written at time now.
  function Inserted(c: Tables, p: Push, now: int): Tables {
    Tables(
      Upsert(c.entities, EntityRows(p)),
      Upsert(c.edges, EdgeRows(p)),
      Upsert(c.symbols, SymbolRows(p)),
      Upsert(c.hyperedges, HyperRows(p)),
      c.members + PushedMembers(p.repo, p.hyperedges),
      c.shas + SHARows(p.repo, p.fileSHAs),
      c.analytics[p.repo := AnalyticsRow(true, now)])
  }

  // The tables after a push committed at time now.
  function Reconciled(t: Tables, p: Push, now: int): Tables {
    Inserted(Cleared(t, p.repo, ExtractorOf(p), p.files), p, now)
  }

  // Push's scope check: everything with an owning file is owned by a pushed file.
  ghost predicate Accepted(p: Push) {
    && p.repo != "" && p.files != []
    && (forall i :: 0 <= i < |p.entities| ==> p.entities[i].file == "" || p.entities[i].file in p.files)
    && (forall i :: 0 <= i < |p.edges| ==> p.edges[i].file in p.files)
    && (forall i :: 0 <= i < |p.symbols| ==>
          p.symbols[i].file in p.files && (p.symbols[i].role == "provides" || p.symbols[i].role == "requires"))
  }

  // The table once all pushed hashes but those of `todo` are in.
  function SHAsExcept(shas: map<(string, string), string>, repo: string, fileSHAs: map<string, string>,
      todo: set<string>)
    : map<(string, string), string>
  {
    shas + map f | f in fileSHAs && f !in todo :: (repo, f) := fileSHAs[f]
  }

  lemma SHAsBegin(shas: map<(string, string), string>, repo: string, fileSHAs: map<string, string>)
    ensures SHAsExcept(shas, repo, fileSHAs, fileSHAs.Keys) == shas
  {}

  lemma SHAsEnd(shas: map<(string, string), string>, repo: string, fileSHAs: map<string, string>)
    ensures SHAsExcept(shas, repo, fileSHAs, {}) == shas + SHARows(repo, fileSHAs)
  {}

  lemma SHAsStep(shas: map<(string, string), string>, repo: string, fileSHAs: map<string, string>, todo: set<string>,
      f: string)
    requires f in fileSHAs && f in todo
    ensures SHAsExcept(shas, repo, fileSHAs, todo - {f}) ==
      SHAsExcept(shas, repo, fileSHAs, todo)[(repo, f) := fileSHAs[f]]
  {}

  class GraphStore {
    var entities: map<(string, string), EntityRow>
    var edges: map<EdgeKey, EdgeRow>
    var symbols: map<SymbolKey, SymbolRow>
    var hyperedges: map<(string, string), HyperRow>
    var members: set<(string, string, string)>
    var shas: map<(string, string), string>
    var analytics: map<string, AnalyticsRow>

    ghost function Contents(): Tables
      reads this
    {
      Tables(entities, edges, symbols, hyperedges, members, shas, analytics)
    }

    // The deletes of one reconciled file.
    method DeleteFile(repo: string, ext: string, f: string)
      modifies this
      ensures Contents() == Cleared(old(Contents()), repo, ext, [f])
    {
      hide ClearEdges, ClearEntities, ClearSymbols, ClearHypers, ClearMembers;
      DeleteEdgesOf(repo, ext, f);
      DeleteEntitiesOf(repo, ext, f);
      DeleteSymbolsOf(repo, ext, f);
      DeleteHyperedgesOf(repo, ext, f);
    }

    method DeleteEdgesOf(repo: string, ext: string, f: string)
      modifies this`edges
      ensures edges == ClearEdges(old(edges), repo, ext, [f])
    {
      edges := map k | k in edges && !(k.repo == repo && edges[k].file == f && k.extractor == ext) :: edges[k];
    }

    method DeleteEntitiesOf(repo: string, ext: string, f: string)
      modifies this`entities
      ensures entities == ClearEntities(old(entities), repo, ext, [f])
    {
      entities := map k | k in entities &&
        !(k.0 == repo && entities[k].file == f && entities[k].extractor == ext) :: entities[k];
    }

    // Only the AST extractor writes symbols, so only its pushes delete them.
    method DeleteSymbolsOf(repo: string, ext: string, f: string)
      modifies this`symbols
      ensures symbols == ClearSymbols(old(symbols), repo, ext, [f])
    {
      if ext == AST {
        symbols := map k | k in symbols && !(k.repo == repo && symbols[k].file == f) :: symbols[k];
      }
    }

    method DeleteHyperedgesOf(repo: string, ext: string, f: string)
      modifies this`members, this`hyperedges
      ensures members == ClearMembers(old(members), old(hyperedges), repo, ext, [f])
      ensures hyperedges == ClearHypers(old(hyperedges), repo, ext, [f])
    {
      var owned := set k | k in hyperedges && k.0 == repo && hyperedges[k].file == f &&
        hyperedges[k].extractor == ext :: k.1;
      assert forall id :: id in owned <==>
        (repo, id) in hyperedges && OwnsHyper(repo, ext, [f], (repo, id), hyperedges[(repo, id)]);
      members := set m | m in members && !(m.0 == repo && m.1 in owned);
      hyperedges := map k | k in hyperedges &&
        !(k.0 == repo && hyperedges[k].file == f && hyperedges[k].extractor == ext) :: hyperedges[k];
    }

    method InsertEntitiesAndEdges(p: Push, ext: string)
      requires ext == ExtractorOf(p)
      modifies this`entities, this`edges
      ensures entities == Upsert(old(entities), EntityRows(p))
      ensures edges == Upsert(old(edges), EdgeRows(p))
    {
      for i := 0 to |p.entities|
        invariant edges == old(edges) && entities == Upsert(old(entities), EntityRows(p)[..i])
      {
        var e := p.entities[i];
        entities := entities[(p.repo, e.id) := EntityRow(e.name, e.kind, e.description, e.file, e.props, ext)];
        assert EntityRows(p)[..i + 1][..i] == EntityRows(p)[..i];
      }
      assert EntityRows(p)[..|p.entities|] == EntityRows(p);
      for i := 0 to |p.edges|
        invariant entities == Upsert(old(entities), EntityRows(p))
        invariant edges == Upsert(old(edges), EdgeRows(p)[..i])
      {
        var e := p.edges[i];
        var score, tier := e.score, e.tier;
        if score == 0.0 && tier == "" {
          score, tier := 1.0, "EXTRACTED";
        } else if tier == "" {
          tier := TierFor(score);
        }
        edges := edges[EdgeKey(p.repo, e.src, e.dst, e.relation, ext) := EdgeRow(e.file, e.props, score, tier)];
        assert EdgeRows(p)[..i + 1][..i] == EdgeRows(p)[..i];
      }
      assert EdgeRows(p)[..|p.edges|] == EdgeRows(p);
    }

    method InsertSymbolsAndHyperedges(p: Push, ext: string)
      requires ext == ExtractorOf(p)
      modifies this`symbols, this`hyperedges, this`members
      ensures symbols == Upsert(old(symbols), SymbolRows(p))
      ensures hyperedges == Upsert(old(hyperedges), HyperRows(p))
      ensures members == old(members) + PushedMembers(p.repo, p.hyperedges)
    {
      for i := 0 to |p.symbols|
        invariant hyperedges == old(hyperedges) && members == old(members)
        invariant symbols == Upsert(old(symbols), SymbolRows(p)[..i])
      {
        var s := p.symbols[i];
        symbols := symbols[SymbolKey(p.repo, s.symbol, s.role, s.entityID) := SymbolRow(s.lang, s.kind, s.file)];
        assert SymbolRows(p)[..i + 1][..i] == SymbolRows(p)[..i];
      }
      assert SymbolRows(p)[..|p.symbols|] == SymbolRows(p);
      for i := 0 to |p.hyperedges|
        invariant symbols == Upsert(old(symbols), SymbolRows(p))
        invariant hyperedges == Upsert(old(hyperedges), HyperRows(p)[..i])
        invariant members == old(members) + PushedMembers(p.repo, p.hyperedges[..i])
      {
        var h := p.hyperedges[i];
        var score := if h.score == 0.0 then 1.0 else h.score;
        hyperedges := hyperedges[(p.repo, h.id) := HyperRow(h.title, h.relation, score, h.file, h.props, ext)];
        members := members + MembersOf(p.repo, h);
        assert HyperRows(p)[..i + 1][..i] == HyperRows(p)[..i];
        MembersSnoc(p.repo, p.hyperedges, i);
      }
      assert HyperRows(p)[..|p.hyperedges|] == HyperRows(p);
      assert p.hyperedges[..|p.hyperedges|] == p.hyperedges;
    }

    method DeleteFiles(p: Push, ext: string)
      modifies this
      ensures Contents() == Cleared(old(Contents()), p.repo, ext, p.files)
    {
      ClearedNone(Contents(), p.repo, ext);
      for i := 0 to |p.files|
        invariant Contents() == Cleared(old(Contents()), p.repo, ext, p.files[..i])
      {
        DeleteFile(p.repo, ext, p.files[i]);
        ClearedSnoc(old(Contents()), p.repo, ext, p.files[..i], p.files[i]);
        assert p.files[..i + 1] == p.files[..i] + [p.files[i]];
      }
      assert p.files[..|p.files|] == p.files;
    }

    method UpsertSHAs(repo: string, fileSHAs: map<string, string>)
      modifies this`shas
      ensures shas == old(shas) + SHARows(repo, fileSHAs)
    {
      var todo := fileSHAs.Keys;
      ghost var was := shas;
      SHAsBegin(was, repo, fileSHAs);
      hide SHAsExcept;
      while todo != {}
        invariant todo <= fileSHAs.Keys && shas == SHAsExcept(was, repo, fileSHAs, todo)
        decreases |todo|
      {
        var f :| f in todo;
        SHAsStep(was, repo, fileSHAs, todo, f);
        todo := todo - {f};
        shas := shas[(repo, f) := fileSHAs[f]];
      }
      SHAsEnd(was, repo, fileSHAs);
    }

    method InsertAll(p: Push, ext: string, now: int)
      requires ext == ExtractorOf(p)
      modifies this
      ensures Contents() == Inserted(old(Contents()), p, now)
    {
      hide Upsert, EntityRows, EdgeRows, SymbolRows, HyperRows, SHARows, PushedMembers;
      InsertEntitiesAndEdges(p, ext);
      InsertSymbolsAndHyperedges(p, ext);
      UpsertSHAs(p.repo, p.fileSHAs);
      analytics := analytics[p.repo := AnalyticsRow(true, now)];
    }

    // One transaction: delete what the files own, insert the push, mark the repo's analytics dirty.
    method Reconcile(p: Push, now: int)
      modifies this
      ensures Contents() == Reconciled(old(Contents()), p, now)
    {
      var ext := if p.extractor == "" then AST else p.extractor;
      DeleteFiles(p, ext);
      InsertAll(p, ext, now);
    }
  }

  lemma MembersSnoc(repo: string, hs: seq<Hyperedge>, i: nat)
    requires i < |hs|
    ensures PushedMembers(repo, hs[..i + 1]) == PushedMembers(repo, hs[..i]) + MembersOf(repo, hs[i])
  {
    forall m | m in PushedMembers(repo, hs[..i]) + MembersOf(repo, hs[i])
      ensures m in PushedMembers(repo, hs[..i + 1])
    {
      if m in MembersOf(repo, hs[i]) {
        assert hs[..i + 1][i] == hs[i];
      } else {
        var j, x :| 0 <= j < i && x in hs[..i][j].members && m == (repo, hs[..i][j].id, x);
        assert hs[..i + 1][j] == hs[j];
      }
    }
  }

  lemma ClearedNone(t: Tables, repo: string, ext: string)
    ensures Cleared(t, repo, ext, []) == t
  {
    assert ClearEntities(t.entities, repo, ext, []) == t.entities;
    assert ClearEdges(t.edges, repo, ext, []) == t.edges;
    assert ClearSymbols(t.symbols, repo, ext, []) == t.symbols;
    assert ClearHypers(t.hyperedges, repo, ext, []) == t.hyperedges;
    assert ClearMembers(t.members, t.hyperedges, repo, ext, []) == t.members;
  }

  // Clearing file after file is clearing them all.
  lemma ClearedSnoc(t: Tables, repo: string, ext: string, files: seq<string>, f: string)
    ensures Cleared(Cleared(t, repo, ext, files), repo, ext, [f]) == Cleared(t, repo, ext, files + [f])
  {
    assert ClearEntities(ClearEntities(t.entities, repo, ext, files), repo, ext, [f]) ==
      ClearEntities(t.entities, repo, ext, files + [f]);
    assert ClearEdges(ClearEdges(t.edges, repo, ext, files), repo, ext, [f]) ==
      ClearEdges(t.edges, repo, ext, files + [f]);
    assert ClearSymbols(ClearSymbols(t.symbols, repo, ext, files), repo, ext, [f]) ==
      ClearSymbols(t.symbols, repo, ext, files + [f]);
    assert ClearHypers(ClearHypers(t.hyperedges, repo, ext, files), repo, ext, [f]) ==
      ClearHypers(t.hyperedges, repo, ext, files + [f]);
    ClearMembersSnoc(t.members, t.hyperedges, repo, ext, files, f);
  }

  lemma ClearMembersSnoc(ms: set<(string, string, string)>, hypers: map<(string, string), HyperRow>,
                         repo: string, ext: string, files: seq<string>, f: string)
    ensures ClearMembers(ClearMembers(ms, hypers, repo, ext, files), ClearHypers(hypers, repo, ext, files), repo, ext,
      [f])
         == ClearMembers(ms, hypers, repo, ext, files + [f])
  {
    forall m | m in ms
      ensures OwnedMember(hypers, repo, ext, files + [f], m) <==>
        OwnedMember(hypers, repo, ext, files, m) ||
          OwnedMember(ClearHypers(hypers, repo, ext, files), repo, ext, [f], m)
    {}
  }

  // Push: check the scope of everything the push carries, then reconcile. The loop over files builds
  // the set the checks look files up in.
  method PushGraph(store: GraphStore, p: Push, now: int) returns (accepted: bool)
    modifies store
    ensures accepted <==> Accepted(p)
    ensures store.Contents() == if accepted then Reconciled(old(store.Contents()), p, now) else old(store.Contents())
  {
    hide Reconciled;
    if p.repo == "" || |p.files| == 0 {
      return false;
    }
    var files: set<string> := {};
    for i := 0 to |p.files|
      invariant files == set f | f in p.files[..i]
    {
      assert p.files[..i + 1] == p.files[..i] + [p.files[i]];
      files := files + {p.files[i]};
    }
    assert p.files[..|p.files|] == p.files;
    for i := 0 to |p.entities|
      invariant forall k :: 0 <= k < i ==> p.entities[k].file == "" || p.entities[k].file in p.files
    {
      if p.entities[i].file != "" && p.entities[i].file !in files {
        return false;
      }
    }
    for i := 0 to |p.edges|
      invariant forall k :: 0 <= k < i ==> p.edges[k].file in p.files
    {
      if p.edges[i].file !in files {
        return false;
      }
    }
    for i := 0 to |p.symbols|
      invariant forall k :: 0 <= k < i ==>
        p.symbols[k].file in p.files && (p.symbols[k].role == "provides" || p.symbols[k].role == "requires")
    {
      if p.symbols[i].file !in files || (p.symbols[i].role != "provides" && p.symbols[i].role != "requires") {
        return false;
      }
    }
    store.Reconcile(p, now);
    accepted := true;
  }

  // ---------- what a push leaves behind ----------

  // The last edge of a push with the given key, normalised.
  function PushedEdge(p: Push, k: EdgeKey): Option<EdgeRow> {
    Final(EdgeRows(p), k)
  }

  lemma PushedEdgeOwned(p: Push, k: EdgeKey)
    requires Accepted(p) && PushedEdge(p, k).Some?
    ensures OwnsEdge(p.repo, ExtractorOf(p), p.files, k, PushedEdge(p, k).value)
  {
    FinalIn(EdgeRows(p), k);
    var i :| 0 <= i < |EdgeRows(p)| && EdgeRows(p)[i] == (k, PushedEdge(p, k).value);
    assert p.edges[i].file in p.files;
  }

  // After an accepted push, the edges its files own for its repo and extractor are exactly
  // the pushed ones, normalised, the last of each key winning.
  lemma OwnedEdgesArePushed(t: Tables, p: Push, now: int, k: EdgeKey)
    requires Accepted(p)
    ensures var after := Reconciled(t, p, now).edges;
      (k in after && OwnsEdge(p.repo, ExtractorOf(p), p.files, k, after[k])) <==> PushedEdge(p, k).Some?
    ensures PushedEdge(p, k).Some? ==> Reconciled(t, p, now).edges[k] == PushedEdge(p, k).value
  {
    UpsertFinal(ClearEdges(t.edges, p.repo, ExtractorOf(p), p.files), EdgeRows(p), k);
    if PushedEdge(p, k).Some? {
      PushedEdgeOwned(p, k);
    }
  }

  // Every edge that is neither pushed nor owned by the pushed files is as it was.
  lemma OtherEdgesUnchanged(t: Tables, p: Push, now: int, k: EdgeKey)
    requires PushedEdge(p, k).None?
    requires k in t.edges ==> !OwnsEdge(p.repo, ExtractorOf(p), p.files, k, t.edges[k])
    ensures k in Reconciled(t, p, now).edges <==> k in t.edges
    ensures k in t.edges ==> Reconciled(t, p, now).edges[k] == t.edges[k]
  {
    UpsertFinal(ClearEdges(t.edges, p.repo, ExtractorOf(p), p.files), EdgeRows(p), k);
  }

  // In particular, edges of other repos and of other extractors are never touched: both are in the edge key.
  lemma OtherScopesUnchanged(t: Tables, p: Push, now: int, k: EdgeKey)
    requires k.repo != p.repo || k.extractor != ExtractorOf(p)
    ensures k in Reconciled(t, p, now).edges <==> k in t.edges
    ensures k in t.edges ==> Reconciled(t, p, now).edges[k] == t.edges[k]
  {
    UpsertFinal(ClearEdges(t.edges, p.repo, ExtractorOf(p), p.files), EdgeRows(p), k);
    assert !Keyed(EdgeRows(p), k);
  }

  // Entity and hyperedge keys have no extractor, so a row of another extractor survives unless its id is
  // pushed, and then it becomes the pushed row, extractor included.
  lemma ForeignEntityTakenIff(t: Tables, p: Push, now: int, k: (string, string))
    requires k in t.entities && k.0 == p.repo && t.entities[k].extractor != ExtractorOf(p)
    ensures var after := Reconciled(t, p, now).entities;
      && k in after
      && (after[k].extractor == ExtractorOf(p) <==> exists i :: 0 <= i < |p.entities| && p.entities[i].id == k.1)
      && (after[k].extractor != ExtractorOf(p) ==> after[k] == t.entities[k])
      && (after[k].extractor == ExtractorOf(p) ==> Final(EntityRows(p), k) == Some(after[k]))
  {
    UpsertFinal(ClearEntities(t.entities, p.repo, ExtractorOf(p), p.files), EntityRows(p), k);
    if Final(EntityRows(p), k).Some? {
      FinalIn(EntityRows(p), k);
    }
    if i :| 0 <= i < |p.entities| && p.entities[i].id == k.1 {
      assert EntityRows(p)[i].0 == k;
    }
  }

  lemma ForeignHyperedgeTakenIff(t: Tables, p: Push, now: int, k: (string, string))
    requires k in t.hyperedges && k.0 == p.repo && t.hyperedges[k].extractor != ExtractorOf(p)
    ensures var after := Reconciled(t, p, now).hyperedges;
      && k in after
      && (after[k].extractor == ExtractorOf(p) <==> exists i :: 0 <= i < |p.hyperedges| && p.hyperedges[i].id == k.1)
      && (after[k].extractor != ExtractorOf(p) ==> after[k] == t.hyperedges[k])
      && (after[k].extractor == ExtractorOf(p) ==> Final(HyperRows(p), k) == Some(after[k]))
  {
    UpsertFinal(ClearHypers(t.hyperedges, p.repo, ExtractorOf(p), p.files), HyperRows(p), k);
    if Final(HyperRows(p), k).Some? {
      FinalIn(HyperRows(p), k);
    }
    if i :| 0 <= i < |p.hyperedges| && p.hyperedges[i].id == k.1 {
      assert HyperRows(p)[i].0 == k;
    }
  }

  // ---------- the tables after a push, row by row ----------

  lemma {:induction false} FinalIs<K, V>(rows: seq<(K, V)>, k: K, i: nat)
    requires i < |rows| && rows[i].0 == k && forall j :: i < j < |rows| ==> rows[j].0 != k
    ensures Final(rows, k) == Some(rows[i].1)
    decreases |rows|
  {
    if i < |rows| - 1 {
      FinalIs(rows[..|rows| - 1], k, i);
    }
  }

  // The last pushed entity with an id is the row of that id, column by column.
  lemma PushedEntityAfter(t: Tables, p: Push, now: int, i: nat)
    requires i < |p.entities|
    requires forall j :: i < j < |p.entities| ==> p.entities[j].id != p.entities[i].id
    ensures var after, ext := Reconciled(t, p, now).entities, if p.extractor == "" then "ast" else p.extractor;
      var e := p.entities[i];
      var k := (p.repo, e.id);
      k in after && after[k] == EntityRow(e.name, e.kind, e.description, e.file, e.props, ext)
  {
    var k := EntityRows(p)[i].0;
    UpsertFinal(ClearEntities(t.entities, p.repo, ExtractorOf(p), p.files), EntityRows(p), k);
    FinalIs(EntityRows(p), k, i);
  }

  // Every other entity row is as it was, except that the rows pushed files own for the extractor are gone.
  lemma OtherEntityAfter(t: Tables, p: Push, now: int, k: (string, string))
    requires k.0 == p.repo ==> forall i :: 0 <= i < |p.entities| ==> p.entities[i].id != k.1
    ensures var after, ext := Reconciled(t, p, now).entities, if p.extractor == "" then "ast" else p.extractor;
      && (k in after <==> (k in t.entities &&
           !(k.0 == p.repo && t.entities[k].extractor == ext && t.entities[k].file in p.files)))
      && (k in after ==> after[k] == t.entities[k])
  {
    UpsertFinal(ClearEntities(t.entities, p.repo, ExtractorOf(p), p.files), EntityRows(p), k);
    assert !Keyed(EntityRows(p), k);
  }

  // So the entities that pushed files own for the extractor are all pushed ones: what a file no longer has is gone.
  lemma OwnedEntitiesArePushed(t: Tables, p: Push, now: int, k: (string, string))
    requires k in Reconciled(t, p, now).entities && k.0 == p.repo
    requires Reconciled(t, p, now).entities[k].extractor == (if p.extractor == "" then "ast" else p.extractor)
    requires Reconciled(t, p, now).entities[k].file in p.files
    ensures exists i :: 0 <= i < |p.entities| && p.entities[i].id == k.1
  {
    if forall i :: 0 <= i < |p.entities| ==> p.entities[i].id != k.1 {
      OtherEntityAfter(t, p, now, k);
    }
  }

  // The last pushed edge with a key is the row of that key. Without score and tier it is EXTRACTED with score 1;
  // without a tier alone it is EXTRACTED from 1 on, AMBIGUOUS up to 0.3, and INFERRED in between.
  lemma PushedEdgeAfter(t: Tables, p: Push, now: int, i: nat)
    requires i < |p.edges|
    requires forall j :: i < j < |p.edges| ==>
      !(p.edges[j].src == p.edges[i].src && p.edges[j].dst == p.edges[i].dst &&
        p.edges[j].relation == p.edges[i].relation)
    ensures var after, ext := Reconciled(t, p, now).edges, if p.extractor == "" then "ast" else p.extractor;
      var e := p.edges[i];
      var k := EdgeKey(p.repo, e.src, e.dst, e.relation, ext);
      && k in after && after[k].file == e.file && after[k].props == e.props
      && after[k].score == (if e.score == 0.0 && e.tier == "" then 1.0 else e.score)
      && (e.tier != "" ==> after[k].tier == e.tier)
      && (e.tier == "" && (e.score == 0.0 || e.score >= 1.0) ==> after[k].tier == "EXTRACTED")
      && (e.tier == "" && e.score != 0.0 && e.score <= 0.3 ==> after[k].tier == "AMBIGUOUS")
      && (e.tier == "" && 0.3 < e.score < 1.0 ==> after[k].tier == "INFERRED")
  {
    var k := EdgeRows(p)[i].0;
    UpsertFinal(ClearEdges(t.edges, p.repo, ExtractorOf(p), p.files), EdgeRows(p), k);
    FinalIs(EdgeRows(p), k, i);
  }

  // Every other edge row is as it was, except that the rows pushed files own for the extractor are gone.
  lemma OtherEdgeAfter(t: Tables, p: Push, now: int, k: EdgeKey)
    requires k.repo == p.repo && k.extractor == (if p.extractor == "" then "ast" else p.extractor) ==>
      forall i :: 0 <= i < |p.edges| ==>
        !(p.edges[i].src == k.src && p.edges[i].dst == k.dst && p.edges[i].relation == k.relation)
    ensures var after, ext := Reconciled(t, p, now).edges, if p.extractor == "" then "ast" else p.extractor;
      && (k in after <==> (k in t.edges && !(k.repo == p.repo && k.extractor == ext && t.edges[k].file in p.files)))
      && (k in after ==> after[k] == t.edges[k])
  {
    UpsertFinal(ClearEdges(t.edges, p.repo, ExtractorOf(p), p.files), EdgeRows(p), k);
    assert !Keyed(EdgeRows(p), k);
  }

  // The last pushed symbol with a key is the row of that key.
  lemma PushedSymbolAfter(t: Tables, p: Push, now: int, i: nat)
    requires i < |p.symbols|
    requires forall j :: i < j < |p.symbols| ==>
      !(p.symbols[j].symbol == p.symbols[i].symbol && p.symbols[j].role == p.symbols[i].role &&
        p.symbols[j].entityID == p.symbols[i].entityID)
    ensures var after, ext := Reconciled(t, p, now).symbols, if p.extractor == "" then "ast" else p.extractor;
      var y := p.symbols[i];
      var k := SymbolKey(p.repo, y.symbol, y.role, y.entityID);
      k in after && after[k] == SymbolRow(y.lang, y.kind, y.file)
  {
    var k := SymbolRows(p)[i].0;
    UpsertFinal(ClearSymbols(t.symbols, p.repo, ExtractorOf(p), p.files), SymbolRows(p), k);
    FinalIs(SymbolRows(p), k, i);
  }

  // Every other symbol row is as it was, except that a push of the AST extractor removes those of its files.
  lemma OtherSymbolAfter(t: Tables, p: Push, now: int, k: SymbolKey)
    requires k.repo == p.repo ==> forall i :: 0 <= i < |p.symbols| ==>
      !(p.symbols[i].symbol == k.symbol && p.symbols[i].role == k.role && p.symbols[i].entityID == k.entityID)
    ensures var after, ext := Reconciled(t, p, now).symbols, if p.extractor == "" then "ast" else p.extractor;
      && (k in after <==> (k in t.symbols && !(ext == "ast" && k.repo == p.repo && t.symbols[k].file in p.files)))
      && (k in after ==> after[k] == t.symbols[k])
  {
    UpsertFinal(ClearSymbols(t.symbols, p.repo, ExtractorOf(p), p.files), SymbolRows(p), k);
    assert !Keyed(SymbolRows(p), k);
  }

  // The last pushed hyperedge with an id is the row of that id; a missing score counts as 1.
  lemma PushedHyperedgeAfter(t: Tables, p: Push, now: int, i: nat)
    requires i < |p.hyperedges|
    requires forall j :: i < j < |p.hyperedges| ==> p.hyperedges[j].id != p.hyperedges[i].id
    ensures var after, ext := Reconciled(t, p, now).hyperedges, if p.extractor == "" then "ast" else p.extractor;
      var h := p.hyperedges[i];
      var k := (p.repo, h.id);
      k in after && after[k] ==
        HyperRow(h.title, h.relation, if h.score == 0.0 then 1.0 else h.score, h.file, h.props, ext)
  {
    var k := HyperRows(p)[i].0;
    UpsertFinal(ClearHypers(t.hyperedges, p.repo, ExtractorOf(p), p.files), HyperRows(p), k);
    FinalIs(HyperRows(p), k, i);
  }

  // Every other hyperedge row is as it was, except that the rows pushed files own for the extractor are gone.
  lemma OtherHyperedgeAfter(t: Tables, p: Push, now: int, k: (string, string))
    requires k.0 == p.repo ==> forall i :: 0 <= i < |p.hyperedges| ==> p.hyperedges[i].id != k.1
    ensures var after, ext := Reconciled(t, p, now).hyperedges, if p.extractor == "" then "ast" else p.extractor;
      && (k in after <==> (k in t.hyperedges &&
           !(k.0 == p.repo && t.hyperedges[k].extractor == ext && t.hyperedges[k].file in p.files)))
      && (k in after ==> after[k] == t.hyperedges[k])
  {
    UpsertFinal(ClearHypers(t.hyperedges, p.repo, ExtractorOf(p), p.files), HyperRows(p), k);
    assert !Keyed(HyperRows(p), k);
  }

  // Pushed members are added; the members of a hyperedge that a pushed file owned go first.
  lemma MembersAfter(t: Tables, p: Push, now: int, m: (string, string, string))
    ensures var ext := if p.extractor == "" then "ast" else p.extractor;
      m in Reconciled(t, p, now).members <==>
        (m.0 == p.repo && exists h :: h in p.hyperedges && h.id == m.1 && m.2 in h.members) ||
        (m in t.members && !(m.0 == p.repo && (m.0, m.1) in t.hyperedges &&
          t.hyperedges[(m.0, m.1)].extractor == ext && t.hyperedges[(m.0, m.1)].file in p.files))
  {
    hide Reconciled;
    MembersOnly(t, p, now);
    if h :| h in p.hyperedges && h.id == m.1 && m.2 in h.members {
      var i :| 0 <= i < |p.hyperedges| && p.hyperedges[i] == h;
      assert m.0 == p.repo ==> m == (p.repo, p.hyperedges[i].id, m.2);
    }
  }

  lemma MembersOnly(t: Tables, p: Push, now: int)
    ensures Reconciled(t, p, now).members ==
      ClearMembers(t.members, t.hyperedges, p.repo, ExtractorOf(p), p.files) + PushedMembers(p.repo, p.hyperedges)
  {}

  // Pushed hashes replace stored ones, and the repo is dirty as of now.
  lemma HashesAfter(t: Tables, p: Push, now: int, f: (string, string), r: string)
    ensures var after := Reconciled(t, p, now);
      && (f.0 == p.repo && f.1 in p.fileSHAs ==> f in after.shas && after.shas[f] == p.fileSHAs[f.1])
      && (f.0 != p.repo || f.1 !in p.fileSHAs ==> SameAt(after.shas, t.shas, f))
      && (r == p.repo ==> r in after.analytics && after.analytics[r] == AnalyticsRow(true, now))
      && (r != p.repo ==> SameAt(after.analytics, t.analytics, r))
  {}

  // A push is refused exactly when it names no repo or no file, or carries something out of scope.
  lemma RefusedIff(p: Push)
    ensures !Accepted(p) <==>
      || p.repo == "" || p.files == []
      || (exists e :: e in p.entities && e.file != "" && e.file !in p.files)
      || (exists e :: e in p.edges && e.file !in p.files)
      || (exists y :: y in p.symbols && (y.file !in p.files || y.role !in {"provides", "requires"}))
  {}

  ghost predicate SameAt<K, V>(a: map<K, V>, b: map<K, V>, k: K) {
    (k in a <==> k in b) && (k in a ==> a[k] == b[k])
  }

  // Every row of every other repo, in all seven tables, is as it was.
  lemma OtherReposUnchanged(t: Tables, p: Push, now: int, id: (string, string), e: EdgeKey, y: SymbolKey,
      m: (string, string, string))
    requires id.0 != p.repo && e.repo != p.repo && y.repo != p.repo && m.0 != p.repo
    ensures var after := Reconciled(t, p, now);
      && SameAt(after.entities, t.entities, id) && SameAt(after.edges, t.edges, e)
      && SameAt(after.symbols, t.symbols, y) && SameAt(after.hyperedges, t.hyperedges, id)
      && (m in after.members <==> m in t.members)
      && SameAt(after.shas, t.shas, id) && SameAt(after.analytics, t.analytics, id.0)
  {
    var c := Cleared(t, p.repo, ExtractorOf(p), p.files);
    UpsertFinal(c.entities, EntityRows(p), id);
    UpsertFinal(c.edges, EdgeRows(p), e);
    UpsertFinal(c.symbols, SymbolRows(p), y);
    UpsertFinal(c.hyperedges, HyperRows(p), id);
    assert !Keyed(EntityRows(p), id) && !Keyed(EdgeRows(p), e) && !Keyed(SymbolRows(p), y) && !Keyed(HyperRows(p), id);
  }

  // A push of another extractor that carries no symbols leaves the cross-repo symbols alone.
  lemma SemanticKeepsSymbols(t: Tables, p: Push, now: int)
    requires ExtractorOf(p) != AST && p.symbols == []
    ensures Reconciled(t, p, now).symbols == t.symbols
  {
    assert SymbolRows(p) == [];
    assert ClearSymbols(t.symbols, p.repo, ExtractorOf(p), p.files) == t.symbols;
  }

  // Every member row belongs to a stored hyperedge.
  ghost predicate NoDangling(t: Tables) {
    forall m :: m in t.members ==> (m.0, m.1) in t.hyperedges
  }

  lemma NoMemberDangles(t: Tables, p: Push, now: int)
    requires NoDangling(t)
    ensures NoDangling(Reconciled(t, p, now))
  {
    var after := Reconciled(t, p, now);
    var hypers := ClearHypers(t.hyperedges, p.repo, ExtractorOf(p), p.files);
    forall m | m in after.members
      ensures (m.0, m.1) in after.hyperedges
    {
      UpsertFinal(hypers, HyperRows(p), (m.0, m.1));
      if m in PushedMembers(p.repo, p.hyperedges) {
        var i, x :| 0 <= i < |p.hyperedges| && x in p.hyperedges[i].members && m == (p.repo, p.hyperedges[i].id, x);
        assert HyperRows(p)[i].0 == (m.0, m.1);
      }
    }
  }

  // ---------- the same push again ----------

  lemma EdgesTwice(m: map<EdgeKey, EdgeRow>, rows: seq<(EdgeKey, EdgeRow)>, repo: string, ext: string,
      files: seq<string>)
    ensures var once := Upsert(ClearEdges(m, repo, ext, files), rows);
      Upsert(ClearEdges(once, repo, ext, files), rows) == once
  {
    var owned := (k, r) => OwnsEdge(repo, ext, files, k, r);
    ReplaceTwice(m, owned, rows);
    assert ClearEdges(m, repo, ext, files) == ClearBy(m, owned);
    var once := Upsert(ClearBy(m, owned), rows);
    assert ClearEdges(once, repo, ext, files) == ClearBy(once, owned);
  }

  lemma EntitiesTwice(m: map<(string, string), EntityRow>, rows: seq<((string, string), EntityRow)>, repo: string,
      ext: string, files: seq<string>)
    ensures var once := Upsert(ClearEntities(m, repo, ext, files), rows);
      Upsert(ClearEntities(once, repo, ext, files), rows) == once
  {
    var owned := (k, r) => OwnsEntity(repo, ext, files, k, r);
    ReplaceTwice(m, owned, rows);
    assert ClearEntities(m, repo, ext, files) == ClearBy(m, owned);
    var once := Upsert(ClearBy(m, owned), rows);
    assert ClearEntities(once, repo, ext, files) == ClearBy(once, owned);
  }

  lemma SymbolsTwice(m: map<SymbolKey, SymbolRow>, rows: seq<(SymbolKey, SymbolRow)>, repo: string, ext: string,
      files: seq<string>)
    ensures var once := Upsert(ClearSymbols(m, repo, ext, files), rows);
      Upsert(ClearSymbols(once, repo, ext, files), rows) == once
  {
    var owned := (k, r) => OwnsSymbol(repo, ext, files, k, r);
    ReplaceTwice(m, owned, rows);
    assert ClearSymbols(m, repo, ext, files) == ClearBy(m, owned);
    var once := Upsert(ClearBy(m, owned), rows);
    assert ClearSymbols(once, repo, ext, files) == ClearBy(once, owned);
  }

  lemma HypersTwice(m: map<(string, string), HyperRow>, rows: seq<((string, string), HyperRow)>, repo: string,
      ext: string, files: seq<string>)
    ensures var once := Upsert(ClearHypers(m, repo, ext, files), rows);
      Upsert(ClearHypers(once, repo, ext, files), rows) == once
  {
    var owned := (k, r) => OwnsHyper(repo, ext, files, k, r);
    ReplaceTwice(m, owned, rows);
    assert ClearHypers(m, repo, ext, files) == ClearBy(m, owned);
    var once := Upsert(ClearBy(m, owned), rows);
    assert ClearHypers(once, repo, ext, files) == ClearBy(once, owned);
  }

  // Reconciling the same accepted push again changes no entity, edge, symbol, hyperedge or
  // cached hash. (Only the reconcile time moves on; hyperedge members are below.)
  lemma ReconcileTwice(t: Tables, p: Push, now: int, later: int)
    requires Accepted(p)
    ensures Reconciled(Reconciled(t, p, now), p, later) ==
      Reconciled(t, p, now).(members := Reconciled(Reconciled(t, p, now), p, later).members,
                             analytics := Reconciled(t, p, now).analytics[p.repo := AnalyticsRow(true, later)])
  {
    var ext := ExtractorOf(p);
    EntitiesTwice(t.entities, EntityRows(p), p.repo, ext, p.files);
    EdgesTwice(t.edges, EdgeRows(p), p.repo, ext, p.files);
    SymbolsTwice(t.symbols, SymbolRows(p), p.repo, ext, p.files);
    HypersTwice(t.hyperedges, HyperRows(p), p.repo, ext, p.files);
    SHAsTwice(t.shas, SHARows(p.repo, p.fileSHAs));
    SameRows(Reconciled(t, p, now), p, later);
  }

  lemma SameRows(once: Tables, p: Push, later: int)
    requires Upsert(ClearEntities(once.entities, p.repo, ExtractorOf(p), p.files), EntityRows(p)) == once.entities
    requires Upsert(ClearEdges(once.edges, p.repo, ExtractorOf(p), p.files), EdgeRows(p)) == once.edges
    requires Upsert(ClearSymbols(once.symbols, p.repo, ExtractorOf(p), p.files), SymbolRows(p)) == once.symbols
    requires Upsert(ClearHypers(once.hyperedges, p.repo, ExtractorOf(p), p.files), HyperRows(p)) == once.hyperedges
    ensures Reconciled(once, p, later) == once.(members := Reconciled(once, p, later).members,
              shas := once.shas + SHARows(p.repo, p.fileSHAs),
              analytics := once.analytics[p.repo := AnalyticsRow(true, later)])
  {}

  lemma SHAsTwice<K, V>(m: map<K, V>, n: map<K, V>)
    ensures m + n + n == m + n
  {}

  // A pushed hyperedge whose final owner is a pushed file is rebuilt by every further push.
  predicate Rebuilt(p: Push, id: string) {
    var h := Final(HyperRows(p), (p.repo, id));
    h.Some? && h.value.file in p.files
  }

  // The push takes over a hyperedge that some other file or extractor left with members of its own.
  ghost predicate TakesOverMember(t: Tables, p: Push, m: (string, string, string)) {
    && m in Cleared(t, p.repo, ExtractorOf(p), p.files).members
    && m.0 == p.repo && Rebuilt(p, m.1)
    && m !in PushedMembers(p.repo, p.hyperedges)
  }

  lemma MemberRebuilt(t: Tables, p: Push, now: int, m: (string, string, string))
    ensures OwnedMember(Reconciled(t, p, now).hyperedges, p.repo, ExtractorOf(p), p.files, m) <==>
      m.0 == p.repo && Rebuilt(p, m.1)
  {
    UpsertFinal(ClearHypers(t.hyperedges, p.repo, ExtractorOf(p), p.files), HyperRows(p), (m.0, m.1));
    if Final(HyperRows(p), (m.0, m.1)).Some? {
      FinalIn(HyperRows(p), (m.0, m.1));
    }
  }

  // The members stay the same too if and only if the first push took over no foreign member:
  // it only adds members to a hyperedge it takes over, and the second push drops the foreign ones.
  lemma MembersTwiceIff(t: Tables, p: Push, now: int, later: int)
    ensures Reconciled(Reconciled(t, p, now), p, later).members == Reconciled(t, p, now).members <==>
      forall m :: m in t.members ==> !TakesOverMember(t, p, m)
  {
    var once, twice := Reconciled(t, p, now), Reconciled(Reconciled(t, p, now), p, later);
    forall m
      ensures m in twice.members <==> m in once.members && !TakesOverMember(t, p, m)
    {
      MemberRebuilt(t, p, now, m);
    }
    forall m | TakesOverMember(t, p, m)
      ensures m in t.members && m in once.members
    {}
  }

  function TakeoverTables(repo: string, id: string, g: string, a: string): Tables {
    Tables(map[], map[], map[], map[(repo, id) := HyperRow("", "", 1.0, g, map[], AST)], {(repo, id, a)}, map[], map[])
  }

  function TakeoverPush(repo: string, id: string, f: string, b: string): Push {
    Push(repo, AST, [f], [], [], [], [Hyperedge(id, "", "", 1.0, f, [b], map[])], map[])
  }

  lemma TakeoverTaken(repo: string, id: string, f: string, g: string, a: string, b: string)
    requires f != g && a != b
    ensures TakesOverMember(TakeoverTables(repo, id, g, a), TakeoverPush(repo, id, f, b), (repo, id, a))
  {
    var t, p := TakeoverTables(repo, id, g, a), TakeoverPush(repo, id, f, b);
    var m := (repo, id, a);
    assert !OwnedMember(t.hyperedges, repo, AST, [f], m);
    assert HyperRows(p)[0].0 == (repo, id) && |HyperRows(p)| == 1;
    assert Rebuilt(p, id);
    assert m !in PushedMembers(repo, p.hyperedges);
  }

  lemma TakeoverAccepted(repo: string, id: string, f: string, g: string, a: string, b: string)
    requires repo != ""
    ensures Accepted(TakeoverPush(repo, id, f, b)) && NoDangling(TakeoverTables(repo, id, g, a))
  {}

  // Such pushes exist: file g owns a hyperedge with member a, and f pushes it with member b.
  lemma MembersTwiceFails(repo: string, id: string, f: string, g: string, a: string, b: string, now: int, later: int)
    requires repo != "" && f != g && a != b
    ensures Accepted(TakeoverPush(repo, id, f, b)) && NoDangling(TakeoverTables(repo, id, g, a))
    ensures var t, p := TakeoverTables(repo, id, g, a), TakeoverPush(repo, id, f, b);
      Reconciled(Reconciled(t, p, now), p, later).members != Reconciled(t, p, now).members
  {
    var t, p := TakeoverTables(repo, id, g, a), TakeoverPush(repo, id, f, b);
    TakeoverAccepted(repo, id, f, g, a, b);
    TakeoverTaken(repo, id, f, g, a, b);
    MembersTwiceIff(t, p, now, later);
    hide Accepted, NoDangling, TakesOverMember, Reconciled, TakeoverPush;
    assert (repo, id, a) in t.members;
  }
}
