// Analytics freshness: the optimistic recompute of one repo's analytics, run by a worker that
// admits one recompute per repo, against concurrent pushes.
//
// A step that is not enabled changes nothing, so every sequence of steps is a run.
module Freshness {

  // One repo: how many pushes its graph has seen and how many entities it has, the time stamp of the last
  // push, the dirty flag, and the graph versions whose entities and edges the stored communities and the
  // stored betweenness values were computed from (-1 before the first).
  datatype Repo = Repo(
    version: nat, size: nat, stamp: int, used: set<int>, dirty: bool,
    idsFrom: int, edgesFrom: int, rankIds: int, rankEdges: int)
  {
    // The communities, their labels and their cohesion are those of the present graph.
    predicate Current() {
      idsFrom == version && edgesFrom == version
    }

    // So are the betweenness values.
    predicate Ranked() {
      rankIds == version && rankEdges == version
    }
  }

  // Betweenness is computed for graphs up to a number of nodes; without a positive limit, for all.
  predicate Within(maxNodes: int, size: nat) {
    maxNodes <= 0 || size <= maxNodes
  }

  // A recompute goroutine: snapshot, load entities (their version and number), load edges, commit or fail,
  // then give back its claim, its semaphore slot and its place in the wait group.
  datatype Phase =
    | Started
    | Snapped(at: int)
    | GotIds(at: int, ids: nat, nodes: nat)
    | GotEdges(at: int, ids: nat, nodes: nat, edges: nat)
    | Closing
    | Unclaimed
    | Released

  datatype Task = Task(repo: string, phase: Phase) {
    predicate Live() {
      !phase.Unclaimed? && !phase.Released?
    }
  }

  // The dispatcher: Run's select loop and, inside it, processOnce.
  datatype Dispatcher =
    | Waiting
    | Scanning(todo: seq<string>)
    | Acquiring(repo: string, todo: seq<string>)
    | Draining
    | Returned

  datatype State = State(
    capacity: nat,
    maxNodes: int,
    repos: map<string, Repo>,
    cancelled: bool,
    dispatcher: Dispatcher,
    inflight: set<string>,
    slots: nat,
    tasks: map<nat, Task>)

  datatype Step =
    | Reconcile(repo: string, now: int, size: nat)
    | Cancel
    | Tick(found: seq<string>)
    | ClaimNext
    | Acquire(id: nat)
    | AbandonClaim
    | Snapshot(id: nat)
    | LoadIds(id: nat)
    | LoadEdges(id: nat)
    | Commit(id: nat)
    | Fail(id: nat)
    | Unclaim(id: nat)
    | Release(id: nat)
    | WaitGroupDone(id: nat)
    | Drain
    | Return

  function Init(capacity: nat, maxNodes: int): State {
    State(capacity, maxNodes, map[], false, Waiting, {}, 0, map[])
  }

  function PhaseOf(s: State, id: nat): Phase {
    if id in s.tasks then s.tasks[id].phase else Released
  }

  function SetPhase(s: State, id: nat, phase: Phase): State
    requires id in s.tasks
  {
    s.(tasks := s.tasks[id := s.tasks[id].(phase := phase)])
  }

  // A push commits: new graph, dirty flag, and a time stamp no earlier push of the repo had.
  function ReconcileRepo(s: State, repo: string, now: int, size: nat): State {
    if repo !in s.repos then s.(repos := s.repos[repo := Repo(1, size, now, {now}, true, -1, -1, -1, -1)])
    else
      var r := s.repos[repo];
      if now in r.used then s
      else
        var r' := r.(version := r.version + 1, size := size, stamp := now, used := r.used + {now}, dirty := true);
        s.(repos := s.repos[repo := r'])
  }

  function ClaimRepo(s: State): State {
    if !s.dispatcher.Scanning? then s
    else if s.dispatcher.todo == [] then s.(dispatcher := Waiting)
    else
      var repo, rest := s.dispatcher.todo[0], s.dispatcher.todo[1..];
      if repo in s.inflight then s.(dispatcher := Scanning(rest))
      else s.(inflight := s.inflight + {repo}, dispatcher := Acquiring(repo, rest))
  }

  function AcquireSlot(s: State, id: nat): State {
    if !s.dispatcher.Acquiring? || s.slots >= s.capacity || id in s.tasks then s
    else s.(slots := s.slots + 1, tasks := s.tasks[id := Task(s.dispatcher.repo, Started)],
      dispatcher := Scanning(s.dispatcher.todo))
  }

  // The reads of a recompute; a repo without a state row fails the snapshot.
  function TakeSnapshot(s: State, id: nat): State {
    if !PhaseOf(s, id).Started? then s
    else if s.tasks[id].repo !in s.repos then SetPhase(s, id, Closing)
    else SetPhase(s, id, Snapped(s.repos[s.tasks[id].repo].stamp))
  }

  function ReadIds(s: State, id: nat): State {
    var p := PhaseOf(s, id);
    if !p.Snapped? || s.tasks[id].repo !in s.repos then s
    else SetPhase(s, id, GotIds(p.at, s.repos[s.tasks[id].repo].version, s.repos[s.tasks[id].repo].size))
  }

  function ReadEdges(s: State, id: nat): State {
    var p := PhaseOf(s, id);
    if !p.GotIds? || s.tasks[id].repo !in s.repos then s
    else SetPhase(s, id, GotEdges(p.at, p.ids, p.nodes, s.repos[s.tasks[id].repo].version))
  }

  // The write transaction: the communities are replaced in any case, the betweenness values only when the
  // loaded graph is within the limit, and the dirty flag is cleared only if no push has moved the time stamp
  // since the snapshot.
  function CommitRun(s: State, id: nat): State {
    var p := PhaseOf(s, id);
    if !p.GotEdges? || s.tasks[id].repo !in s.repos then s
    else
      var repo := s.tasks[id].repo;
      var r := s.repos[repo];
      var r' := r.(idsFrom := p.ids, edgesFrom := p.edges, dirty := if r.stamp == p.at then false else r.dirty);
      var r'' := if Within(s.maxNodes, p.nodes) then r'.(rankIds := p.ids, rankEdges := p.edges) else r';
      SetPhase(s, id, Closing).(repos := s.repos[repo := r''])
  }

  function FailRun(s: State, id: nat): State {
    if id !in s.tasks || !s.tasks[id].Live() then s else SetPhase(s, id, Closing)
  }

  function UnclaimRepo(s: State, id: nat): State {
    if !PhaseOf(s, id).Closing? then s
    else SetPhase(s, id, Unclaimed).(inflight := s.inflight - {s.tasks[id].repo})
  }

  function ReleaseSlot(s: State, id: nat): State {
    if !PhaseOf(s, id).Unclaimed? || s.slots == 0 then s
    else SetPhase(s, id, Released).(slots := s.slots - 1)
  }

  function LeaveGroup(s: State, id: nat): State {
    if id !in s.tasks || !s.tasks[id].phase.Released? then s else s.(tasks := s.tasks - {id})
  }

  function StartScan(s: State, found: seq<string>): State {
    if s.dispatcher.Waiting? then s.(dispatcher := Scanning(found)) else s
  }

  function Abandon(s: State): State {
    if s.dispatcher.Acquiring? && s.cancelled
    then s.(inflight := s.inflight - {s.dispatcher.repo}, dispatcher := Waiting) else s
  }

  function BeginDrain(s: State): State {
    if s.dispatcher.Waiting? && s.cancelled then s.(dispatcher := Draining) else s
  }

  function FinishRun(s: State): State {
    if s.dispatcher.Draining? && s.tasks == map[] then s.(dispatcher := Returned) else s
  }

  function Apply(s: State, step: Step): State {
    match step
    case Reconcile(repo, now, size) => ReconcileRepo(s, repo, now, size)
    case Cancel => s.(cancelled := true)
    case Tick(found) => StartScan(s, found)
    case ClaimNext => ClaimRepo(s)
    case Acquire(id) => AcquireSlot(s, id)
    case AbandonClaim => Abandon(s)
    case Snapshot(id) => TakeSnapshot(s, id)
    case LoadIds(id) => ReadIds(s, id)
    case LoadEdges(id) => ReadEdges(s, id)
    case Commit(id) => CommitRun(s, id)
    case Fail(id) => FailRun(s, id)
    case Unclaim(id) => UnclaimRepo(s, id)
    case Release(id) => ReleaseSlot(s, id)
    case WaitGroupDone(id) => LeaveGroup(s, id)
    case Drain => BeginDrain(s)
    case Return => FinishRun(s)
  }

  function Exec(s: State, steps: seq<Step>): State
    decreases |steps|
  {
    if steps == [] then s else Exec(Apply(s, steps[0]), steps[1..])
  }

  // ---------- the worker's claims ----------

  // One live recompute per repo, each covered by a claim, and none yet for the repo the dispatcher
  // is waiting to start.
  ghost predicate SingleFlight(s: State) {
    && (forall i, j :: i in s.tasks && j in s.tasks && s.tasks[i].Live() && s.tasks[j].Live() && i != j ==>
         s.tasks[i].repo != s.tasks[j].repo)
    && (forall i :: i in s.tasks && s.tasks[i].Live() ==> s.tasks[i].repo in s.inflight)
    && (s.dispatcher.Acquiring? ==>
          s.dispatcher.repo in s.inflight
          && forall i :: i in s.tasks && s.tasks[i].Live() ==> s.tasks[i].repo != s.dispatcher.repo)
  }

  ghost predicate HasLive(s: State, repo: string) {
    exists i :: i in s.tasks && s.tasks[i].Live() && s.tasks[i].repo == repo
  }

  // A claim belongs to a live recompute or to the one the dispatcher is waiting to start.
  ghost predicate Claimed(s: State, r: string) {
    r in s.inflight ==> (s.dispatcher.Acquiring? && s.dispatcher.repo == r) || HasLive(s, r)
  }

  ghost function Holders(s: State): set<nat> {
    set i | i in s.tasks && !s.tasks[i].phase.Released?
  }

  ghost predicate SlotsOk(s: State) {
    s.slots == |Holders(s)| <= s.capacity
  }

  // ---------- freshness ----------

  // What a running recompute knows is still true of the graph unless a push has moved the time stamp
  // since, and then the repo is dirty.
  ghost predicate TaskOk(s: State, t: Task) {
    match t.phase
    case Snapped(at) => t.repo in s.repos &&
      SnapOk(s.repos[t.repo], at, s.repos[t.repo].version, s.repos[t.repo].version)
    case GotIds(at, ids, nodes) => t.repo in s.repos && Counted(s.repos[t.repo], ids, nodes) &&
      SnapOk(s.repos[t.repo], at, ids, s.repos[t.repo].version)
    case GotEdges(at, ids, nodes, edges) => t.repo in s.repos && Counted(s.repos[t.repo], ids, nodes) &&
      SnapOk(s.repos[t.repo], at, ids, edges)
    case _ => true
  }

  predicate SnapOk(r: Repo, at: int, ids: nat, edges: nat) {
    at in r.used && (if at == r.stamp then ids == r.version && edges == r.version else r.dirty)
  }

  // The loaded entities are those of a version seen, and their number is that version's.
  predicate Counted(r: Repo, ids: nat, nodes: nat) {
    ids <= r.version && (ids == r.version ==> nodes == r.size)
  }

  // Nobody ranks a graph above the limit, and a clean repo is current, ranked too where its graph is within.
  ghost predicate FreshRepo(r: Repo, maxNodes: int) {
    && r.stamp in r.used
    && r.rankIds <= r.version && (r.rankIds == r.version ==> Within(maxNodes, r.size))
    && (!r.dirty ==> r.Current() && (Within(maxNodes, r.size) ==> r.Ranked()))
  }

  ghost predicate FreshInv(s: State) {
    && SingleFlight(s)
    && (forall r :: r in s.repos ==> FreshRepo(s.repos[r], s.maxNodes))
    && (forall i :: i in s.tasks ==> TaskOk(s, s.tasks[i]))
  }

  lemma FreshPush(s: State, repo: string, now: int, size: nat)
    requires FreshInv(s)
    ensures FreshInv(ReconcileRepo(s, repo, now, size))
  {}

  lemma FreshPhase(s: State, id: nat, phase: Phase)
    requires FreshInv(s) && id in s.tasks && s.tasks[id].Live() && !phase.Unclaimed? && !phase.Released?
    requires TaskOk(s, s.tasks[id].(phase := phase))
    ensures FreshInv(SetPhase(s, id, phase))
  {}

  lemma FreshReads(s: State, id: nat)
    requires FreshInv(s)
    ensures FreshInv(TakeSnapshot(s, id)) && FreshInv(ReadIds(s, id)) && FreshInv(ReadEdges(s, id)) &&
      FreshInv(FailRun(s, id))
  {
    if id in s.tasks && s.tasks[id].Live() {
      assert TaskOk(s, s.tasks[id]);
      FreshPhase(s, id, TakeSnapshot(s, id).tasks[id].phase);
      FreshPhase(s, id, ReadIds(s, id).tasks[id].phase);
      FreshPhase(s, id, ReadEdges(s, id).tasks[id].phase);
      FreshPhase(s, id, Closing);
    }
  }

  // The only other recompute of the repo would have to be live too, and single-flight excludes it.
  lemma FreshCommit(s: State, id: nat)
    requires FreshInv(s)
    ensures FreshInv(CommitRun(s, id))
  {
    var t := CommitRun(s, id);
    if t != s {
      forall i | i in t.tasks
        ensures TaskOk(t, t.tasks[i])
      {
        if i != id && s.tasks[i].repo == s.tasks[id].repo {
          assert !s.tasks[i].Live();
        }
      }
    }
  }

  lemma FreshUnclaim(s: State, id: nat)
    requires FreshInv(s)
    ensures FreshInv(UnclaimRepo(s, id))
  {}

  lemma FreshLeave(s: State, id: nat)
    requires FreshInv(s)
    ensures FreshInv(ReleaseSlot(s, id)) && FreshInv(LeaveGroup(s, id))
  {}

  lemma FreshClaim(s: State)
    requires FreshInv(s)
    ensures FreshInv(ClaimRepo(s))
  {}

  lemma FreshAcquire(s: State, id: nat)
    requires FreshInv(s)
    ensures FreshInv(AcquireSlot(s, id))
  {}

  lemma FreshAbandon(s: State)
    requires FreshInv(s)
    ensures FreshInv(Abandon(s))
  {}

  lemma FreshDispatch(s: State, found: seq<string>)
    requires FreshInv(s)
    ensures FreshInv(s.(cancelled := true)) && FreshInv(StartScan(s, found))
  {}

  lemma FreshReturn(s: State)
    requires FreshInv(s)
    ensures FreshInv(BeginDrain(s)) && FreshInv(FinishRun(s))
  {}

  lemma FreshStep(s: State, step: Step)
    requires FreshInv(s)
    ensures FreshInv(Apply(s, step))
  {
    hide FreshInv, ReconcileRepo, StartScan, ClaimRepo, AcquireSlot, Abandon, TakeSnapshot, ReadIds, ReadEdges,
      CommitRun, FailRun, UnclaimRepo, ReleaseSlot, LeaveGroup, BeginDrain, FinishRun;
    match step
    case Reconcile(repo, now, size) => FreshPush(s, repo, now, size);
    case Cancel => FreshDispatch(s, []);
    case Tick(found) => FreshDispatch(s, found);
    case ClaimNext => FreshClaim(s);
    case Acquire(id) => FreshAcquire(s, id);
    case AbandonClaim => FreshAbandon(s);
    case Snapshot(id) => FreshReads(s, id);
    case LoadIds(id) => FreshReads(s, id);
    case LoadEdges(id) => FreshReads(s, id);
    case Commit(id) => FreshCommit(s, id);
    case Fail(id) => FreshReads(s, id);
    case Unclaim(id) => FreshUnclaim(s, id);
    case Release(id) => FreshLeave(s, id);
    case WaitGroupDone(id) => FreshLeave(s, id);
    case Drain => FreshReturn(s);
    case Return => FreshReturn(s);
  }

  lemma LimitKept(s: State, step: Step)
    ensures Apply(s, step).maxNodes == s.maxNodes
  {}

  lemma {:induction false} FreshExec(s: State, steps: seq<Step>)
    requires FreshInv(s)
    ensures FreshInv(Exec(s, steps)) && Exec(s, steps).maxNodes == s.maxNodes
    decreases |steps|
  {
    if steps != [] {
      FreshStep(s, steps[0]);
      LimitKept(s, steps[0]);
      FreshExec(Apply(s, steps[0]), steps[1..]);
    }
  }

  // In every interleaving of pushes and recomputes run by the worker, a repo that is not dirty has communities
  // computed from its current graph, entities and edges alike.
  lemma CleanIsCurrent(capacity: nat, maxNodes: int, steps: seq<Step>, repo: string)
    requires var s := Exec(Init(capacity, maxNodes), steps); repo in s.repos && !s.repos[repo].dirty
    ensures var r := Exec(Init(capacity, maxNodes), steps).repos[repo];
      r.idsFrom == r.version && r.edgesFrom == r.version
  {
    FreshExec(Init(capacity, maxNodes), steps);
  }

  // Its betweenness values are those of the current graph if and only if the graph is within the limit; above
  // the limit they are those of an older one, or none were ever computed.
  lemma CleanIsRankedIff(capacity: nat, maxNodes: int, steps: seq<Step>, repo: string)
    requires var s := Exec(Init(capacity, maxNodes), steps); repo in s.repos && !s.repos[repo].dirty
    ensures var r := Exec(Init(capacity, maxNodes), steps).repos[repo];
      && (r.rankIds == r.version && r.rankEdges == r.version <==> maxNodes <= 0 || r.size <= maxNodes)
      && (0 < maxNodes < r.size ==> r.rankIds < r.version)
  {
    FreshExec(Init(capacity, maxNodes), steps);
  }

  // ---------- above the limit ----------

  lemma ExecCons(s: State, step: Step, rest: seq<Step>)
    ensures Exec(s, [step] + rest) == Exec(Apply(s, step), rest)
  {
    assert ([step] + rest)[1..] == rest;
  }

  lemma {:induction false} ExecAppend(s: State, first: seq<Step>, rest: seq<Step>)
    ensures Exec(s, first + rest) == Exec(Exec(s, first), rest)
    decreases |first|
  {
    if first == [] {
      assert first + rest == rest;
    } else {
      assert (first + rest)[1..] == first[1..] + rest;
      ExecAppend(Apply(s, first[0]), first[1..], rest);
    }
  }

  // One tick that finds one repo, and its recompute from the claim to the end.
  function ClaimSteps(id: nat, repo: string): seq<Step> {
    [Tick([repo]), ClaimNext, Acquire(id), ClaimNext]
  }

  function RecomputeSteps(id: nat): seq<Step> {
    [Snapshot(id), LoadIds(id), LoadEdges(id), Commit(id)]
  }

  function CloseSteps(id: nat): seq<Step> {
    [Unclaim(id), Release(id), WaitGroupDone(id)]
  }

  predicate AtRest(s: State) {
    s.dispatcher == Waiting && s.inflight == {} && s.slots == 0 < s.capacity && s.tasks == map[]
  }

  function Recomputed(r: Repo, maxNodes: int): Repo {
    var r' := r.(idsFrom := r.version, edgesFrom := r.version, dirty := false);
    if Within(maxNodes, r.size) then r'.(rankIds := r.version, rankEdges := r.version) else r'
  }

  lemma ExecThree(s: State, a: Step, b: Step, c: Step)
    ensures Exec(s, [a, b, c]) == Apply(Apply(Apply(s, a), b), c)
  {
    hide Apply;
    var t := Apply(s, a);
    ExecCons(Apply(t, b), c, []);
    ExecCons(t, b, [c]);
    ExecCons(s, a, [b, c]);
    assert [a] + [b, c] == [a, b, c] && [b] + [c] == [b, c] && [c] + [] == [c];
  }

  lemma ExecFour(s: State, a: Step, b: Step, c: Step, d: Step)
    ensures Exec(s, [a, b, c, d]) == Apply(Apply(Apply(Apply(s, a), b), c), d)
  {
    hide Apply;
    ExecThree(Apply(s, a), b, c, d);
    ExecCons(s, a, [b, c, d]);
    assert [a] + [b, c, d] == [a, b, c, d];
  }

  function Busy(s: State, id: nat, task: Task): State {
    s.(inflight := {task.repo}, slots := 1, tasks := map[id := task])
  }

  lemma ClaimsOne(s: State, id: nat, repo: string)
    requires AtRest(s)
    ensures Exec(s, ClaimSteps(id, repo)) == Busy(s, id, Task(repo, Started))
  {
    ExecFour(s, Tick([repo]), ClaimNext, Acquire(id), ClaimNext);
    hide Exec;
    assert [repo][1..] == [];
  }

  lemma RecomputesOne(s: State, id: nat, repo: string)
    requires repo in s.repos
    ensures Exec(Busy(s, id, Task(repo, Started)), RecomputeSteps(id)) == Busy(
      s.(repos := s.repos[repo := Recomputed(s.repos[repo], s.maxNodes)]), id, Task(repo, Closing))
  {
    var t := Busy(s, id, Task(repo, Started));
    ExecFour(t, Snapshot(id), LoadIds(id), LoadEdges(id), Commit(id));
    hide Exec;
    ReadAllReads(t, id, repo);
    assert Apply(ReadAll(t, id), Commit(id)).tasks == map[id := Task(repo, Closing)];
  }

  lemma ClosesOne(s: State, id: nat, repo: string)
    requires AtRest(s)
    ensures Exec(Busy(s, id, Task(repo, Closing)), CloseSteps(id)) == s
  {
    ExecThree(Busy(s, id, Task(repo, Closing)), Unclaim(id), Release(id), WaitGroupDone(id));
    hide Exec;
  }

  // From rest, one whole recompute changes its repo alone and comes back to rest.
  lemma OneRecompute(s: State, id: nat, repo: string)
    requires AtRest(s) && repo in s.repos
    ensures Exec(s, ClaimSteps(id, repo) + RecomputeSteps(id) + CloseSteps(id))
         == s.(repos := s.repos[repo := Recomputed(s.repos[repo], s.maxNodes)])
  {
    ExecAppend(s, ClaimSteps(id, repo) + RecomputeSteps(id), CloseSteps(id));
    ExecAppend(s, ClaimSteps(id, repo), RecomputeSteps(id));
    ClaimsOne(s, id, repo);
    RecomputesOne(s, id, repo);
    ClosesOne(s.(repos := s.repos[repo := Recomputed(s.repos[repo], s.maxNodes)]), id, repo);
  }

  // Such repos exist, with one worker and one recompute at a time: recompute a repo within the limit, push it
  // above the limit, recompute it again.
  lemma RanksGoStale(capacity: nat, maxNodes: int, repo: string, small: nat, large: nat) returns (steps: seq<Step>)
    requires 0 < capacity && small <= maxNodes < large && 0 < maxNodes
    ensures var s := Exec(Init(capacity, maxNodes), steps);
      && repo in s.repos && !s.repos[repo].dirty && s.repos[repo].Current()
      && s.repos[repo].version == 2 && s.repos[repo].rankIds == s.repos[repo].rankEdges == 1
  {
    var round := ClaimSteps(0, repo) + RecomputeSteps(0) + CloseSteps(0);
    var s0 := Init(capacity, maxNodes);
    var s1 := Apply(s0, Reconcile(repo, 0, small));
    var s2 := s1.(repos := s1.repos[repo := Recomputed(s1.repos[repo], maxNodes)]);
    var s3 := Apply(s2, Reconcile(repo, 1, large));
    steps := [Reconcile(repo, 0, small)] + (round + ([Reconcile(repo, 1, large)] + round));
    ExecCons(s0, Reconcile(repo, 0, small), round + ([Reconcile(repo, 1, large)] + round));
    ExecAppend(s1, round, [Reconcile(repo, 1, large)] + round);
    OneRecompute(s1, 0, repo);
    ExecCons(s2, Reconcile(repo, 1, large), round);
    OneRecompute(s3, 0, repo);
  }

  // ---------- the guard alone is not enough ----------

  // A recompute that loaded an older graph commits to a repo that another one has declared clean.
  ghost predicate LateCommit(s: State, step: Step, repo: string) {
    && step.Commit? && PhaseOf(s, step.id).GotEdges? && s.tasks[step.id].repo == repo
    && repo in s.repos && !s.repos[repo].dirty && s.repos[repo].stamp != PhaseOf(s, step.id).at
    && (PhaseOf(s, step.id).ids != s.repos[repo].version || PhaseOf(s, step.id).edges != s.repos[repo].version)
  }

  // What a recompute has loaded is current as long as no push has moved the time stamp since its
  // snapshot. Every step keeps this, however many recomputes of a repo overlap.
  ghost predicate ReadOk(s: State, t: Task) {
    t.repo in s.repos ==>
      var r := s.repos[t.repo];
      match t.phase
      case Snapped(at) => at in r.used
      case GotIds(at, ids, nodes) => at in r.used && Counted(r, ids, nodes) && (at == r.stamp ==> ids == r.version)
      case GotEdges(at, ids, nodes, edges) => at in r.used && Counted(r, ids, nodes) &&
        (at == r.stamp ==> ids == r.version && edges == r.version)
      case _ => true
  }

  ghost predicate ReadsOk(s: State) {
    && (forall r :: r in s.repos ==> s.repos[r].stamp in s.repos[r].used)
    && (forall i :: i in s.tasks ==> ReadOk(s, s.tasks[i]))
    && (forall i :: i in s.tasks && s.tasks[i].repo !in s.repos ==>
         s.tasks[i].phase.Started? || !s.tasks[i].Live() || s.tasks[i].phase.Closing?)
  }

  lemma ReadsPush(s: State, repo: string, now: int, size: nat)
    requires ReadsOk(s)
    ensures ReadsOk(ReconcileRepo(s, repo, now, size))
  {}

  lemma ReadsRuns(s: State, id: nat)
    requires ReadsOk(s)
    ensures ReadsOk(TakeSnapshot(s, id)) && ReadsOk(ReadIds(s, id)) && ReadsOk(ReadEdges(s, id))
  {}

  lemma ReadsCommit(s: State, id: nat)
    requires ReadsOk(s)
    ensures ReadsOk(CommitRun(s, id)) && ReadsOk(FailRun(s, id))
  {}

  lemma ReadsEnds(s: State, id: nat)
    requires ReadsOk(s)
    ensures ReadsOk(UnclaimRepo(s, id)) && ReadsOk(ReleaseSlot(s, id)) && ReadsOk(LeaveGroup(s, id)) &&
      ReadsOk(AcquireSlot(s, id))
  {}

  lemma ReadsStep(s: State, step: Step)
    requires ReadsOk(s)
    ensures ReadsOk(Apply(s, step))
  {
    match step
    case Reconcile(repo, now, size) => ReadsPush(s, repo, now, size);
    case Acquire(id) => ReadsEnds(s, id);
    case Snapshot(id) => ReadsRuns(s, id);
    case LoadIds(id) => ReadsRuns(s, id);
    case LoadEdges(id) => ReadsRuns(s, id);
    case Commit(id) => ReadsCommit(s, id);
    case Fail(id) => ReadsCommit(s, id);
    case Unclaim(id) => ReadsEnds(s, id);
    case Release(id) => ReadsEnds(s, id);
    case WaitGroupDone(id) => ReadsEnds(s, id);
    case _ =>
      assert Apply(s, step).tasks == s.tasks && Apply(s, step).repos == s.repos;
  }

  // Whatever recomputes overlap, a step keeps a clean repo's analytics current if and only if it is not a
  // late commit.
  lemma CurrentStepIff(s: State, step: Step, repo: string)
    requires ReadsOk(s) && repo in s.repos && FreshRepo(s.repos[repo], s.maxNodes)
    ensures repo in Apply(s, step).repos
    ensures FreshRepo(Apply(s, step).repos[repo], Apply(s, step).maxNodes) <==> !LateCommit(s, step, repo)
  {
    if step.Commit? && step.id in s.tasks {
      assert ReadOk(s, s.tasks[step.id]);
    }
  }

  lemma {:induction false} ReadsExec(s: State, steps: seq<Step>)
    requires ReadsOk(s)
    ensures ReadsOk(Exec(s, steps))
    decreases |steps|
  {
    if steps != [] {
      ReadsStep(s, steps[0]);
      ReadsExec(Apply(s, steps[0]), steps[1..]);
    }
  }

  // The worker's own claims are enough: in none of its runs is any step a late commit.
  lemma OwnRunsNeverLate(capacity: nat, maxNodes: int, steps: seq<Step>, step: Step, repo: string)
    ensures !LateCommit(Exec(Init(capacity, maxNodes), steps), step, repo)
  {
    var s := Exec(Init(capacity, maxNodes), steps);
    ReadsExec(Init(capacity, maxNodes), steps);
    FreshExec(Init(capacity, maxNodes), steps);
    FreshStep(s, step);
    if repo in s.repos {
      CurrentStepIff(s, step, repo);
    }
  }

  // ---------- other processes recomputing the same repos ----------

  // Own is a step of the machine above, on any task; Begin is another process starting a recompute, without
  // a claim here. Its task reads and commits like any other and
  // gives back no claim, slot or place of this process.
  datatype Action = Own(step: Step) | Begin(id: nat, repo: string)

  datatype Cluster = Cluster(state: State, foreign: set<nat>)

  predicate GivesBack(step: Step, foreign: set<nat>) {
    (step.Unclaim? || step.Release? || step.WaitGroupDone?) && step.id in foreign
  }

  function Act(c: Cluster, a: Action): Cluster {
    match a
    case Own(step) => if GivesBack(step, c.foreign) then c else c.(state := Apply(c.state, step))
    case Begin(id, repo) =>
      if id in c.state.tasks then c
      else Cluster(c.state.(tasks := c.state.tasks[id := Task(repo, Started)]), c.foreign + {id})
  }

  function Perform(c: Cluster, actions: seq<Action>): Cluster
    decreases |actions|
  {
    if actions == [] then c else Act(Perform(c, actions[..|actions| - 1]), actions[|actions| - 1])
  }

  function Alone(capacity: nat, maxNodes: int): Cluster {
    Cluster(Init(capacity, maxNodes), {})
  }

  ghost predicate AllFresh(s: State) {
    forall r :: r in s.repos ==> FreshRepo(s.repos[r], s.maxNodes)
  }

  // The action is no late commit, for any repo.
  ghost predicate OnTime(c: Cluster, a: Action) {
    a.Own? ==> forall repo :: !LateCommit(c.state, a.step, repo)
  }

  lemma ActStep(c: Cluster, a: Action)
    requires ReadsOk(c.state) && AllFresh(c.state)
    ensures ReadsOk(Act(c, a).state)
    ensures AllFresh(Act(c, a).state) <==> OnTime(c, a)
  {
    if a.Own? && !GivesBack(a.step, c.foreign) {
      ReadsStep(c.state, a.step);
      forall repo | repo in c.state.repos
        ensures repo in Apply(c.state, a.step).repos
        ensures FreshRepo(Apply(c.state, a.step).repos[repo], Apply(c.state, a.step).maxNodes) <==>
          !LateCommit(c.state, a.step, repo)
      {
        CurrentStepIff(c.state, a.step, repo);
      }
      NewRepoIsFresh(c.state, a.step);
      hide LateCommit, FreshRepo, Apply;
      OnTimeIff(c, a);
    }
  }

  lemma OnTimeIff(c: Cluster, a: Action)
    requires a.Own?
    ensures OnTime(c, a) <==> forall repo :: repo in c.state.repos ==> !LateCommit(c.state, a.step, repo)
  {}

  lemma NewRepoIsFresh(s: State, step: Step)
    ensures forall r :: r in Apply(s, step).repos && r !in s.repos ==>
      FreshRepo(Apply(s, step).repos[r], Apply(s, step).maxNodes)
  {}

  ghost predicate FreshThroughout(c: Cluster, actions: seq<Action>) {
    forall n :: 0 <= n <= |actions| ==> AllFresh(Perform(c, actions[..n]).state)
  }

  ghost predicate NeverLate(c: Cluster, actions: seq<Action>) {
    forall n :: 0 <= n < |actions| ==> OnTime(Perform(c, actions[..n]), actions[n])
  }

  lemma {:induction false} FreshPrefix(capacity: nat, maxNodes: int, actions: seq<Action>, n: nat)
    requires n <= |actions| && NeverLate(Alone(capacity, maxNodes), actions)
    ensures ReadsOk(Perform(Alone(capacity, maxNodes), actions[..n]).state) &&
      AllFresh(Perform(Alone(capacity, maxNodes), actions[..n]).state)
    decreases n
  {
    if n > 0 {
      FreshPrefix(capacity, maxNodes, actions, n - 1);
      assert actions[..n][..n - 1] == actions[..n - 1];
      ActStep(Perform(Alone(capacity, maxNodes), actions[..n - 1]), actions[n - 1]);
    }
  }

  lemma {:induction false} OnTimePrefix(capacity: nat, maxNodes: int, actions: seq<Action>, n: nat)
    requires n <= |actions| && FreshThroughout(Alone(capacity, maxNodes), actions)
    ensures ReadsOk(Perform(Alone(capacity, maxNodes), actions[..n]).state)
    ensures n < |actions| ==> OnTime(Perform(Alone(capacity, maxNodes), actions[..n]), actions[n])
    decreases n
  {
    if n > 0 {
      OnTimePrefix(capacity, maxNodes, actions, n - 1);
      assert actions[..n][..n - 1] == actions[..n - 1];
      ActStep(Perform(Alone(capacity, maxNodes), actions[..n - 1]), actions[n - 1]);
    }
    if n < |actions| {
      assert actions[..n + 1][..n] == actions[..n];
      ActStep(Perform(Alone(capacity, maxNodes), actions[..n]), actions[n]);
      assert AllFresh(Perform(Alone(capacity, maxNodes), actions[..n + 1]).state);
    }
  }

  // With any number of recomputes overlapping on any repos, started here or elsewhere: every clean repo has
  // current analytics at every moment of a run if and only if no step of the run is a late commit.
  lemma FreshRunIff(capacity: nat, maxNodes: int, actions: seq<Action>)
    ensures FreshThroughout(Alone(capacity, maxNodes), actions) <==> NeverLate(Alone(capacity, maxNodes), actions)
  {
    if NeverLate(Alone(capacity, maxNodes), actions) {
      forall n | 0 <= n <= |actions|
        ensures AllFresh(Perform(Alone(capacity, maxNodes), actions[..n]).state)
      {
        FreshPrefix(capacity, maxNodes, actions, n);
      }
    }
    if FreshThroughout(Alone(capacity, maxNodes), actions) {
      forall n | 0 <= n < |actions|
        ensures OnTime(Perform(Alone(capacity, maxNodes), actions[..n]), actions[n])
      {
        OnTimePrefix(capacity, maxNodes, actions, n);
      }
    }
  }

  // A recompute through all its reads.
  function ReadAll(s: State, id: nat): State {
    Apply(Apply(Apply(s, Snapshot(id)), LoadIds(id)), LoadEdges(id))
  }

  lemma ReadAllReads(s: State, id: nat, repo: string)
    requires id in s.tasks && s.tasks[id] == Task(repo, Started) && repo in s.repos
    ensures var r := s.repos[repo];
      ReadAll(s, id) == s.(tasks := s.tasks[id := Task(repo, GotEdges(r.stamp, r.version, r.size, r.version))])
  {}

  // Two recomputes of one repo, each through all its reads, with a push between them.
  function Overlapped(s: State, a: nat, b: nat, repo: string, now: int, size: nat): State {
    ReadAll(Apply(ReadAll(s, a), Reconcile(repo, now, size)), b)
  }

  // If two recomputes of one repo do overlap, the repo can go stale: the later one cleans it, the
  // earlier one then writes its older results, and the repo stays clean.
  lemma OverlapGoesStale(s: State, a: nat, b: nat, repo: string, now: int, size: nat)
    requires a != b && a in s.tasks && b in s.tasks && s.tasks[a] == s.tasks[b] == Task(repo, Started)
    requires repo in s.repos && now !in s.repos[repo].used && s.repos[repo].stamp in s.repos[repo].used
    ensures var good := Apply(Overlapped(s, a, b, repo, now, size), Commit(b));
      var bad := Apply(good, Commit(a));
      && repo in good.repos && !good.repos[repo].dirty && good.repos[repo].Current()
      && repo in bad.repos && !bad.repos[repo].dirty && bad.repos[repo].idsFrom == bad.repos[repo].version - 1
      && LateCommit(good, Commit(a), repo)
  {
    ReadAllReads(s, a, repo);
    ReadAllReads(Apply(ReadAll(s, a), Reconcile(repo, now, size)), b, repo);
    hide ReadAll;
  }

  lemma PerformSnoc(c: Cluster, actions: seq<Action>, a: Action)
    ensures Perform(c, actions + [a]) == Act(Perform(c, actions), a)
  {
    assert (actions + [a])[..|actions|] == actions;
  }

  function ReadActions(id: nat): seq<Action> {
    [Own(Snapshot(id)), Own(LoadIds(id)), Own(LoadEdges(id))]
  }

  lemma PerformReads(c: Cluster, actions: seq<Action>, id: nat)
    ensures Perform(c, actions + ReadActions(id)) ==
      Perform(c, actions).(state := ReadAll(Perform(c, actions).state, id))
  {
    PerformSnoc(c, actions, Own(Snapshot(id)));
    PerformSnoc(c, actions + [Own(Snapshot(id))], Own(LoadIds(id)));
    PerformSnoc(c, actions + [Own(Snapshot(id))] + [Own(LoadIds(id))], Own(LoadEdges(id)));
    assert actions + [Own(Snapshot(id))] + [Own(LoadIds(id))] + [Own(LoadEdges(id))] == actions + ReadActions(id);
  }

  // Such runs exist: two processes recompute a freshly pushed repo, and a push falls between their reads.
  lemma ReplicasGoStale(capacity: nat, maxNodes: int, repo: string) returns (actions: seq<Action>)
    ensures var s := Perform(Alone(capacity, maxNodes), actions).state;
      repo in s.repos && !s.repos[repo].dirty && s.repos[repo].idsFrom < s.repos[repo].version
  {
    var c := Alone(capacity, maxNodes);
    actions := [] + [Own(Reconcile(repo, 0, 0))] + [Begin(0, repo)] + [Begin(1, repo)];
    PerformSnoc(c, [], Own(Reconcile(repo, 0, 0)));
    PerformSnoc(c, [] + [Own(Reconcile(repo, 0, 0))], Begin(0, repo));
    PerformSnoc(c, [] + [Own(Reconcile(repo, 0, 0))] + [Begin(0, repo)], Begin(1, repo));
    var s := Perform(c, actions).state;
    assert s.tasks == map[0 := Task(repo, Started), 1 := Task(repo, Started)];
    assert s.repos == map[repo := Repo(1, 0, 0, {0}, true, -1, -1, -1, -1)];
    OverlapGoesStale(s, 0, 1, repo, 1, 0);
    PerformReads(c, actions, 0);
    actions := actions + ReadActions(0);
    PerformSnoc(c, actions, Own(Reconcile(repo, 1, 0)));
    actions := actions + [Own(Reconcile(repo, 1, 0))];
    PerformReads(c, actions, 1);
    actions := actions + ReadActions(1);
    PerformSnoc(c, actions, Own(Commit(1)));
    PerformSnoc(c, actions + [Own(Commit(1))], Own(Commit(0)));
    actions := actions + [Own(Commit(1))] + [Own(Commit(0))];
  }

  // ---------- draining ----------

  ghost predicate DrainInv(s: State) {
    && SlotsOk(s)
    && (forall r :: Claimed(s, r))
    && (s.dispatcher.Returned? ==> s.tasks == map[])
  }

  // A task that was live on some repo still is, unless it is the one given up.
  lemma LiveKept(s: State, t: State, r: string, id: nat)
    requires HasLive(s, r)
    requires forall i :: i in s.tasks && i != id && s.tasks[i].Live() ==> i in t.tasks && t.tasks[i] == s.tasks[i]
    requires id in s.tasks && s.tasks[id].Live() && s.tasks[id].repo == r ==>
      id in t.tasks && t.tasks[id].Live() && t.tasks[id].repo == r
    ensures HasLive(t, r)
  {
    var i :| i in s.tasks && s.tasks[i].Live() && s.tasks[i].repo == r;
    assert i in t.tasks && t.tasks[i].Live() && t.tasks[i].repo == r;
  }

  lemma ClaimedRuns(s: State, id: nat, r: string)
    requires Claimed(s, r)
    ensures Claimed(TakeSnapshot(s, id), r) && Claimed(ReadIds(s, id), r) && Claimed(ReadEdges(s, id), r)
  {
    if HasLive(s, r) {
      LiveKept(s, TakeSnapshot(s, id), r, id);
      LiveKept(s, ReadIds(s, id), r, id);
      LiveKept(s, ReadEdges(s, id), r, id);
    }
  }

  lemma ClaimedStops(s: State, id: nat, r: string)
    requires Claimed(s, r)
    ensures Claimed(CommitRun(s, id), r) && Claimed(FailRun(s, id), r)
  {
    if HasLive(s, r) {
      LiveKept(s, CommitRun(s, id), r, id);
      LiveKept(s, FailRun(s, id), r, id);
    }
  }

  lemma ClaimedEnds(s: State, id: nat, r: string)
    requires Claimed(s, r)
    ensures Claimed(UnclaimRepo(s, id), r) && Claimed(ReleaseSlot(s, id), r) && Claimed(LeaveGroup(s, id), r)
  {
    if HasLive(s, r) && r in UnclaimRepo(s, id).inflight {
      LiveKept(s, UnclaimRepo(s, id), r, id);
    }
    if HasLive(s, r) {
      LiveKept(s, ReleaseSlot(s, id), r, id);
      LiveKept(s, LeaveGroup(s, id), r, id);
    }
  }

  lemma ClaimedStarts(s: State, id: nat, r: string)
    requires Claimed(s, r)
    ensures Claimed(ClaimRepo(s), r) && Claimed(AcquireSlot(s, id), r)
  {
    var t := AcquireSlot(s, id);
    if HasLive(s, r) {
      var i :| i in s.tasks && s.tasks[i].Live() && s.tasks[i].repo == r;
      assert t.tasks[i] == s.tasks[i] && ClaimRepo(s).tasks[i] == s.tasks[i];
    } else if t != s && r in t.inflight {
      assert t.tasks[id].Live() && t.tasks[id].repo == r;
    }
  }

  // Steps that touch no task, and no claim but the dispatcher's own.
  lemma ClaimedSame(s: State, t: State, r: string)
    requires Claimed(s, r) && t.tasks == s.tasks
    requires t.inflight <= s.inflight
    requires s.dispatcher.Acquiring? && r in t.inflight && s.dispatcher.repo == r ==> t.dispatcher == s.dispatcher
    ensures Claimed(t, r)
  {
    if HasLive(s, r) {
      var i :| i in s.tasks && s.tasks[i].Live() && s.tasks[i].repo == r;
      assert t.tasks[i] == s.tasks[i];
    }
  }

  lemma ClaimedStep(s: State, step: Step, r: string)
    requires Claimed(s, r)
    ensures Claimed(Apply(s, step), r)
  {
    match step
    case ClaimNext => ClaimedStarts(s, 0, r);
    case Acquire(id) => ClaimedStarts(s, id, r);
    case Snapshot(id) => ClaimedRuns(s, id, r);
    case LoadIds(id) => ClaimedRuns(s, id, r);
    case LoadEdges(id) => ClaimedRuns(s, id, r);
    case Commit(id) => ClaimedStops(s, id, r);
    case Fail(id) => ClaimedStops(s, id, r);
    case Unclaim(id) => ClaimedEnds(s, id, r);
    case Release(id) => ClaimedEnds(s, id, r);
    case WaitGroupDone(id) => ClaimedEnds(s, id, r);
    case _ => ClaimedSame(s, Apply(s, step), r);
  }

  lemma SlotsRuns(s: State, id: nat)
    requires SlotsOk(s)
    ensures SlotsOk(TakeSnapshot(s, id)) && SlotsOk(ReadIds(s, id)) && SlotsOk(ReadEdges(s, id))
  {
    assert Holders(TakeSnapshot(s, id)) == Holders(s);
    assert Holders(ReadIds(s, id)) == Holders(s);
    assert Holders(ReadEdges(s, id)) == Holders(s);
  }

  lemma SlotsEnds(s: State, id: nat)
    requires SlotsOk(s)
    ensures SlotsOk(CommitRun(s, id)) && SlotsOk(FailRun(s, id)) && SlotsOk(UnclaimRepo(s, id)) &&
      SlotsOk(LeaveGroup(s, id))
  {
    assert Holders(CommitRun(s, id)) == Holders(s);
    assert Holders(FailRun(s, id)) == Holders(s);
    assert Holders(UnclaimRepo(s, id)) == Holders(s);
    assert Holders(LeaveGroup(s, id)) == Holders(s);
  }

  lemma SlotsMoves(s: State, id: nat)
    requires SlotsOk(s)
    ensures SlotsOk(AcquireSlot(s, id)) && SlotsOk(ReleaseSlot(s, id))
  {
    if AcquireSlot(s, id) != s {
      assert Holders(AcquireSlot(s, id)) == Holders(s) + {id};
    }
    if ReleaseSlot(s, id) != s {
      assert Holders(ReleaseSlot(s, id)) == Holders(s) - {id};
    }
  }

  lemma SlotsRest(s: State, repo: string, now: int, size: nat)
    requires SlotsOk(s)
    ensures SlotsOk(ReconcileRepo(s, repo, now, size)) && SlotsOk(ClaimRepo(s)) && SlotsOk(Apply(s, Cancel))
  {
    assert Holders(ReconcileRepo(s, repo, now, size)) == Holders(s) == Holders(ClaimRepo(s));
    assert Holders(Apply(s, Cancel)) == Holders(s);
  }

  lemma SlotsLoop(s: State, found: seq<string>)
    requires SlotsOk(s)
    ensures SlotsOk(Apply(s, Tick(found))) && SlotsOk(Apply(s, AbandonClaim)) && SlotsOk(Apply(s, Drain)) &&
      SlotsOk(Apply(s, Return))
  {
    assert Holders(Apply(s, Tick(found))) == Holders(s) == Holders(Apply(s, AbandonClaim));
    assert Holders(Apply(s, Drain)) == Holders(s) == Holders(Apply(s, Return));
  }

  lemma SlotsStep(s: State, step: Step)
    requires SlotsOk(s)
    ensures SlotsOk(Apply(s, step))
  {
    match step
    case Reconcile(repo, now, size) => SlotsRest(s, repo, now, size);
    case Tick(found) => SlotsLoop(s, found);
    case Acquire(id) => SlotsMoves(s, id);
    case Release(id) => SlotsMoves(s, id);
    case Snapshot(id) => SlotsRuns(s, id);
    case LoadIds(id) => SlotsRuns(s, id);
    case LoadEdges(id) => SlotsRuns(s, id);
    case Commit(id) => SlotsEnds(s, id);
    case Fail(id) => SlotsEnds(s, id);
    case Unclaim(id) => SlotsEnds(s, id);
    case WaitGroupDone(id) => SlotsEnds(s, id);
    case Cancel => SlotsRest(s, "", 0, 0);
    case ClaimNext => SlotsRest(s, "", 0, 0);
    case _ => SlotsLoop(s, []);
  }

  lemma ReturnedStep(s: State, step: Step)
    requires s.dispatcher.Returned? ==> s.tasks == map[]
    ensures Apply(s, step).dispatcher.Returned? ==> Apply(s, step).tasks == map[]
    ensures Apply(s, step).capacity == s.capacity
  {}

  lemma {:induction false} DrainExec(s: State, steps: seq<Step>)
    requires DrainInv(s)
    ensures DrainInv(Exec(s, steps)) && Exec(s, steps).capacity == s.capacity
    decreases |steps|
  {
    if steps != [] {
      SlotsStep(s, steps[0]);
      ReturnedStep(s, steps[0]);
      forall r
        ensures Claimed(Apply(s, steps[0]), r)
      {
        ClaimedStep(s, steps[0], r);
      }
      DrainExec(Apply(s, steps[0]), steps[1..]);
    }
  }

  lemma DrainInit(capacity: nat, maxNodes: int)
    ensures DrainInv(Init(capacity, maxNodes))
  {
    assert Holders(Init(capacity, maxNodes)) == {};
  }

  // When Run has returned, no recompute is left running, no repo is left claimed and every
  // semaphore slot is free.
  lemma ReturnLeavesNothing(capacity: nat, maxNodes: int, steps: seq<Step>)
    requires Exec(Init(capacity, maxNodes), steps).dispatcher.Returned?
    ensures var s := Exec(Init(capacity, maxNodes), steps); s.tasks == map[] && s.inflight == {} && s.slots == 0
  {
    DrainInit(capacity, maxNodes);
    DrainExec(Init(capacity, maxNodes), steps);
    var s := Exec(Init(capacity, maxNodes), steps);
    assert Holders(s) == {};
    forall r
      ensures r !in s.inflight
    {
      assert Claimed(s, r) && !HasLive(s, r);
    }
  }

  // Whatever phase it is in, a recompute can end: it fails, and gives back claim, slot and place.
  lemma EndTask(s: State, id: nat)
    requires SlotsOk(s) && id in s.tasks
    ensures var t := Apply(Apply(Apply(Apply(s, Fail(id)), Unclaim(id)), Release(id)), WaitGroupDone(id));
      t.tasks == s.tasks - {id} && t.dispatcher == s.dispatcher && t.cancelled == s.cancelled
  {
    if !s.tasks[id].phase.Released? {
      assert id in Holders(s);
    }
  }

  lemma {:induction false} EndTasks(s: State) returns (steps: seq<Step>)
    requires DrainInv(s)
    ensures var t := Exec(s, steps); t.tasks == map[] && t.dispatcher == s.dispatcher && t.cancelled == s.cancelled
    decreases |s.tasks|
  {
    if s.tasks == map[] {
      steps := [];
    } else {
      var id :| id in s.tasks;
      EndTask(s, id);
      var first := [Fail(id), Unclaim(id), Release(id), WaitGroupDone(id)];
      ExecFour(s, Fail(id), Unclaim(id), Release(id), WaitGroupDone(id));
      DrainExec(s, first);
      hide Exec, Apply, DrainInv;
      var rest := EndTasks(Exec(s, first));
      ExecAppend(s, first, rest);
      steps := first + rest;
    }
  }

  // A cancelled dispatcher can leave its scan.
  lemma {:induction false} LeaveScan(s: State) returns (steps: seq<Step>)
    requires s.cancelled
    ensures var t := Exec(s, steps);
      t.cancelled && (t.dispatcher.Waiting? || t.dispatcher.Draining? || t.dispatcher.Returned?)
    decreases match s.dispatcher case Scanning(todo) => |todo| + 2 case Acquiring(_, _) => 1 case _ => 0
  {
    if s.dispatcher.Scanning? {
      var t := Apply(s, ClaimNext);
      var rest := LeaveScan(t);
      ExecCons(s, ClaimNext, rest);
      steps := [ClaimNext] + rest;
    } else if s.dispatcher.Acquiring? {
      var t := Apply(s, AbandonClaim);
      var rest := LeaveScan(t);
      ExecCons(s, AbandonClaim, rest);
      steps := [AbandonClaim] + rest;
    } else {
      steps := [];
    }
  }

  // And it can always get there: from any state the worker reaches, some continuation in which its context is
  // cancelled makes Run return.
  lemma CanReturn(capacity: nat, maxNodes: int, before: seq<Step>) returns (after: seq<Step>)
    ensures Exec(Exec(Init(capacity, maxNodes), before), after).dispatcher.Returned?
  {
    var s := Exec(Init(capacity, maxNodes), before);
    DrainInit(capacity, maxNodes);
    DrainExec(Init(capacity, maxNodes), before);
    DrainExec(s, [Cancel]);
    ExecCons(s, Cancel, []);
    var s1 := Apply(s, Cancel);
    assert Exec(s1, []) == s1 && [Cancel] + [] == [Cancel];
    var leave := LeaveScan(s1);
    var s2 := Exec(s1, leave);
    DrainExec(s1, leave);
    var drop := EndTasks(s2);
    var s3 := Exec(s2, drop);
    var s4 := Apply(s3, Drain);
    var s5 := Apply(s4, Return);
    after := [Cancel] + (leave + (drop + ([Drain] + ([Return] + []))));
    assert Exec(s5, []) == s5 && s5.dispatcher.Returned?;
    hide Exec, Apply;
    ExecCons(s, Cancel, leave + (drop + ([Drain] + ([Return] + []))));
    ExecAppend(s1, leave, drop + ([Drain] + ([Return] + [])));
    ExecAppend(s2, drop, [Drain] + ([Return] + []));
    ExecCons(s3, Drain, [Return] + []);
    ExecCons(s4, Return, []);
  }

  // At any time at most one recompute per repo is running, and at most `capacity` in all.
  lemma BoundedAndSingle(capacity: nat, maxNodes: int, steps: seq<Step>)
    ensures var s := Exec(Init(capacity, maxNodes), steps);
      && |Holders(s)| <= capacity
      && forall i, j :: i in s.tasks && j in s.tasks && s.tasks[i].Live() && s.tasks[j].Live() && i != j
                   ==> s.tasks[i].repo != s.tasks[j].repo
  {
    DrainInit(capacity, maxNodes);
    DrainExec(Init(capacity, maxNodes), steps);
    FreshExec(Init(capacity, maxNodes), steps);
  }

  // ---------- an uninterrupted recompute ----------

  ghost predicate NoPush(steps: seq<Step>, repo: string) {
    forall i :: 0 <= i < |steps| ==> !(steps[i].Reconcile? && steps[i].repo == repo)
  }

  // The repo's graph is that of r, and whatever this task has read of it was read at r's time stamp.
  ghost predicate Quiet(s: State, id: nat, repo: string, r: Repo) {
    && repo in s.repos && s.repos[repo].version == r.version && s.repos[repo].stamp == r.stamp
    && (id in s.tasks && s.tasks[id].repo == repo ==>
          match s.tasks[id].phase
          case Snapped(at) => at == r.stamp
          case GotIds(at, _, _) => at == r.stamp
          case GotEdges(at, _, _, _) => at == r.stamp
          case _ => true)
  }

  lemma QuietStep(s: State, step: Step, id: nat, repo: string, r: Repo)
    requires Quiet(s, id, repo, r) && !(step.Reconcile? && step.repo == repo)
    ensures Quiet(Apply(s, step), id, repo, r)
  {}

  lemma {:induction false} QuietExec(s: State, steps: seq<Step>, id: nat, repo: string, r: Repo)
    requires Quiet(s, id, repo, r) && NoPush(steps, repo)
    ensures Quiet(Exec(s, steps), id, repo, r)
    decreases |steps|
  {
    if steps != [] {
      QuietStep(s, steps[0], id, repo, r);
      QuietExec(Apply(s, steps[0]), steps[1..], id, repo, r);
    }
  }

  // In any run: a recompute whose repo gets no push between its snapshot and its commit, whatever else happens
  // in between, leaves the repo clean at the graph it had at the snapshot, with current communities, and with
  // current betweenness values if and only if that graph is within the limit.
  lemma QuietRecomputeCleans(
    capacity: nat, maxNodes: int, before: seq<Step>, id: nat, during: seq<Step>, repo: string)
    requires var s := Exec(Init(capacity, maxNodes), before);
      PhaseOf(s, id).Started? && s.tasks[id].repo == repo && repo in s.repos
    requires NoPush(during, repo)
    requires var t := Exec(Apply(Exec(Init(capacity, maxNodes), before), Snapshot(id)), during);
      PhaseOf(t, id).GotEdges? && t.tasks[id].repo == repo
    ensures var s := Exec(Init(capacity, maxNodes), before);
      var t := Apply(Exec(Apply(s, Snapshot(id)), during), Commit(id));
      && repo in t.repos && !t.repos[repo].dirty && t.repos[repo].Current()
      && t.repos[repo].version == s.repos[repo].version
      && (t.repos[repo].Ranked() <==> Within(maxNodes, t.repos[repo].size))
  {
    var s := Exec(Init(capacity, maxNodes), before);
    FreshExec(Init(capacity, maxNodes), before);
    var s1 := Apply(s, Snapshot(id));
    FreshStep(s, Snapshot(id));
    FreshExec(s1, during);
    QuietExec(s1, during, id, repo, s.repos[repo]);
    var t := Exec(s1, during);
    FreshStep(t, Commit(id));
  }
}
