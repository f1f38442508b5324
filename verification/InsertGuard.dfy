// How often CreateMemory is called for an item, and how often the client sends it upstream, over all workers,
// resets and crashes.
module InsertGuard {
  import opened IngestModel
  import opened Options
  import opened IngestRun
  import BusyPolling

  // Workers that claimed the item when no track id was stored and have not inserted yet.
  ghost function EmptyHolders(s: State, job: string, key: string): set<nat> {
    set w | w in s.workers && s.workers[w] == Claimed(job, key, "")
  }

  predicate HasItem(s: State, job: string, key: string) {
    job in s.store && IndexOf(s.store[job].items, key) < |s.store[job].items|
  }

  function ItemOf(s: State, job: string, key: string): Item
    requires HasItem(s, job, key)
  {
    s.store[job].items[IndexOf(s.store[job].items, key)]
  }

  predicate TrackStored(s: State, job: string, key: string) {
    HasItem(s, job, key) && ItemOf(s, job, key).trackID != ""
  }

  // 1 while the item can still be claimed without a stored track id.
  function Claimable(s: State, job: string, key: string): nat {
    if HasItem(s, job, key) && ItemOf(s, job, key).status == ItemPending && ItemOf(s, job, key).trackID == ""
    then 1 else 0
  }

  ghost predicate Guarded(s: State, job: string, key: string) {
    && s.inserts[(job, key)] + |EmptyHolders(s, job, key)| <= s.emptyClaims[(job, key)]
    && Claimable(s, job, key) + s.emptyClaims[(job, key)] <= 1 + s.emptyResets[(job, key)]
    && (!HasItem(s, job, key) ==> s.emptyClaims[(job, key)] == 0)
    && (forall w: nat :: WorkerOf(s, w).Created? ==> WorkerOf(s, w).track != "")
  }

  // Replacing one worker changes the holders by that worker alone.
  lemma HoldersSet(s: State, w: nat, k: Worker, job: string, key: string)
    ensures EmptyHolders(SetWorker(s, w, k), job, key)
         == (EmptyHolders(s, job, key) - {w}) + (if k == Claimed(job, key, "") then {w} else {})
  {}

  lemma HoldersCard(s: State, w: nat, k: Worker, job: string, key: string)
    ensures |EmptyHolders(SetWorker(s, w, k), job, key)|
         == |EmptyHolders(s, job, key)| - (if WorkerOf(s, w) == Claimed(job, key, "") then 1 else 0)
                                        + (if k == Claimed(job, key, "") then 1 else 0)
  {
    HoldersSet(s, w, k, job, key);
    var h := EmptyHolders(s, job, key);
    assert w in h <==> WorkerOf(s, w) == Claimed(job, key, "");
    assert w !in h ==> h - {w} == h;
  }

  // ---------- one lemma per kind of step ----------

  lemma GuardWorker(s: State, w: nat, k: Worker, job: string, key: string)
    requires Guarded(s, job, key) && !k.Claimed? && (k.Created? ==> k.track != "")
    ensures Guarded(SetWorker(s, w, k), job, key)
  {
    HoldersCard(s, w, k, job, key);
    forall v: nat | WorkerOf(SetWorker(s, w, k), v).Created?
      ensures WorkerOf(SetWorker(s, w, k), v).track != ""
    {
      assert v != w ==> WorkerOf(SetWorker(s, w, k), v) == WorkerOf(s, v);
    }
  }

  // A bundle change that keeps keys, never makes an item claimable and never clears a track id.
  lemma GuardBundle(s: State, j: string, b: Bundle, job: string, key: string)
    requires Guarded(s, job, key) && j in s.store
    requires |b.items| == |s.store[j].items|
    requires forall i :: 0 <= i < |b.items| ==> b.items[i].key == s.store[j].items[i].key
    requires forall i :: 0 <= i < |b.items| && b.items[i].status == ItemPending && b.items[i].trackID == ""
                     ==> s.store[j].items[i].status == ItemPending && s.store[j].items[i].trackID == ""
    ensures Guarded(SetBundle(s, j, b), job, key)
  {
    IndexSame(s.store[j].items, b.items, key);
    forall v: nat
      ensures WorkerOf(SetBundle(s, j, b), v) == WorkerOf(s, v)
    {}
    assert EmptyHolders(SetBundle(s, j, b), job, key) == EmptyHolders(s, job, key);
  }

  lemma GuardEnqueue(s: State, j: string, items: seq<Item>, job: string, key: string)
    requires Guarded(s, job, key)
    ensures Guarded(EnqueueJob(s, j, items), job, key)
  {
    var t := EnqueueJob(s, j, items);
    forall v: nat
      ensures WorkerOf(t, v) == WorkerOf(s, v)
    {}
    assert EmptyHolders(t, job, key) == EmptyHolders(s, job, key);
  }

  lemma GuardStart(s: State, w: nat, j: string, job: string, key: string)
    requires Guarded(s, job, key)
    ensures Guarded(StartJob(s, w, j), job, key)
  {
    if j in s.store {
      GuardWorker(s, w, GotQueued(j, s.store[j].job), job, key);
      GuardWorker(s, w, Draining(j), job, key);
      var t := StartJob(s, w, j);
      var u := SetWorker(s, w, GotQueued(j, s.store[j].job));
      if t.workers == u.workers {
        assert EmptyHolders(t, job, key) == EmptyHolders(u, job, key);
        forall v: nat
          ensures WorkerOf(t, v) == WorkerOf(u, v)
        {}
      }
    }
  }

  lemma GuardUpdate(s: State, j: Job, job: string, key: string)
    requires Guarded(s, job, key)
    ensures Guarded(UpdateJob(s, j), job, key)
  {
    if j.id in s.store {
      GuardBundle(s, j.id, s.store[j.id].(job := j), job, key);
    }
  }

  lemma GuardWriteBack(s: State, w: nat, ok: bool, job: string, key: string)
    requires Guarded(s, job, key)
    ensures Guarded(WriteBackRunning(s, w, ok), job, key)
  {
    var k := WorkerOf(s, w);
    if k.GotQueued? {
      GuardUpdate(s, k.snap.(status := Running), job, key);
      GuardWorker(if ok then UpdateJob(s, k.snap.(status := Running)) else s, w, Draining(k.job), job, key);
    }
  }

  lemma GuardFinalWrite(s: State, w: nat, ok: bool, job: string, key: string)
    requires Guarded(s, job, key)
    ensures Guarded(FinaliseWrite(s, w, ok), job, key)
  {
    var k := WorkerOf(s, w);
    if k.FinalSnap? {
      GuardUpdate(s, k.snap, job, key);
      GuardWorker(if ok then UpdateJob(s, k.snap) else s, w, Idle, job, key);
    }
  }

  lemma StoredBundle(s: State, j: string, b: Bundle, job: string, key: string)
    requires TrackStored(s, job, key) && j in s.store && |b.items| == |s.store[j].items|
    requires forall i :: 0 <= i < |b.items| ==> b.items[i].key == s.store[j].items[i].key
    requires forall i :: 0 <= i < |b.items| && s.store[j].items[i].trackID != "" ==> b.items[i].trackID != ""
    ensures TrackStored(SetBundle(s, j, b), job, key)
  {
    IndexSame(s.store[j].items, b.items, key);
  }

  lemma GuardTrack(s: State, w: nat, ok: bool, job: string, key: string)
    requires Guarded(s, job, key)
    ensures Guarded(StoreTrack(s, w, ok), job, key)
    ensures TrackStored(s, job, key) ==> TrackStored(StoreTrack(s, w, ok), job, key)
  {
    var k := WorkerOf(s, w);
    if k.Created? {
      var t := s;
      if ok && k.job in s.store {
        var b := SetTrackIn(s.store[k.job], k.key, k.track);
        GuardBundle(s, k.job, b, job, key);
        IndexSame(s.store[k.job].items, b.items, key);
        t := SetBundle(s, k.job, b);
      }
      GuardWorker(t, w, Processed(k.job, k.key, None), job, key);
    }
  }

  lemma MarkKeeps(b: Bundle, key: string, err: Option<string>)
    ensures var c := MarkIn(b, key, err);
      && |c.items| == |b.items|
      && (forall i :: 0 <= i < |b.items| ==>
        c.items[i].key == b.items[i].key && c.items[i].trackID == b.items[i].trackID)
      && (forall i :: 0 <= i < |b.items| && c.items[i].status == ItemPending ==> b.items[i].status == ItemPending)
  {}

  lemma GuardMark(s: State, w: nat, ok: bool, job: string, key: string)
    requires Guarded(s, job, key)
    ensures Guarded(MarkItem(s, w, ok), job, key)
    ensures TrackStored(s, job, key) ==> TrackStored(MarkItem(s, w, ok), job, key)
  {
    hide Guarded, TrackStored, MarkIn;
    var k := WorkerOf(s, w);
    if k.Processed? {
      var t := s;
      if ok && k.job in s.store {
        var b := MarkIn(s.store[k.job], k.key, k.err);
        MarkKeeps(s.store[k.job], k.key, k.err);
        GuardBundle(s, k.job, b, job, key);
        t := SetBundle(s, k.job, b);
        if TrackStored(s, job, key) {
          StoredBundle(s, k.job, b, job, key);
        }
      }
      GuardWorker(t, w, Draining(k.job), job, key);
      StoredWorkerSet(t, w, Draining(k.job), job, key);
    }
  }

  lemma StoredWorkerSet(s: State, w: nat, k: Worker, job: string, key: string)
    ensures TrackStored(SetWorker(s, w, k), job, key) <==> TrackStored(s, job, key)
  {}

  // The state after a claim: the item's bundle, the claimer, and the history of claims without a track id.
  lemma ClaimShape(s: State, w: nat, k: string) returns (b: Bundle, c: Worker)
    requires ClaimItem(s, w, k) != s
    ensures var j := WorkerOf(s, w).job;
      && WorkerOf(s, w).Draining? && HasItem(s, j, k) && ItemOf(s, j, k).status == ItemPending
      && b == ClaimAt(s.store[j], IndexOf(s.store[j].items, k)) && c == Claimed(j, k, ItemOf(s, j, k).trackID)
      && ClaimItem(s, w, k) == SetWorker(SetBundle(s, j, b), w, c).(
           emptyClaims := s.emptyClaims + if c.track == "" then multiset{(j, k)} else multiset{})
  {
    var j := WorkerOf(s, w).job;
    b := ClaimAt(s.store[j], IndexOf(s.store[j].items, k));
    c := Claimed(j, k, ItemOf(s, j, k).trackID);
    assert s.emptyClaims + multiset{} == s.emptyClaims;
  }

  lemma ClaimKeeps(b: Bundle, i: nat)
    requires i < |b.items|
    ensures var c := ClaimAt(b, i);
      && |c.items| == |b.items|
      && (forall k :: 0 <= k < |b.items| ==>
        c.items[k].key == b.items[k].key && c.items[k].trackID == b.items[k].trackID)
      && (forall k :: 0 <= k < |b.items| && c.items[k].status == ItemPending ==> b.items[k].status == ItemPending)
  {}

  lemma ClaimCounts(s: State, w: nat, k: string, job: string, key: string)
    requires ClaimItem(s, w, k) != s
    ensures var t := ClaimItem(s, w, k);
      var here := WorkerOf(s, w).job == job && k == key && ItemOf(s, job, key).trackID == "";
      && |EmptyHolders(t, job, key)| == |EmptyHolders(s, job, key)| + (if here then 1 else 0)
      && t.emptyClaims[(job, key)] == s.emptyClaims[(job, key)] + (if here then 1 else 0)
      && t.inserts == s.inserts && t.emptyResets == s.emptyResets
  {
    var b, c := ClaimShape(s, w, k);
    var u := SetBundle(s, WorkerOf(s, w).job, b);
    hide ClaimItem;
    HoldersCard(u, w, c, job, key);
    assert EmptyHolders(ClaimItem(s, w, k), job, key) == EmptyHolders(SetWorker(u, w, c), job, key);
    assert EmptyHolders(u, job, key) == EmptyHolders(s, job, key);
  }

  lemma ClaimItems(s: State, w: nat, k: string, job: string, key: string)
    requires ClaimItem(s, w, k) != s
    ensures var t := ClaimItem(s, w, k);
      && (HasItem(t, job, key) <==> HasItem(s, job, key))
      && (HasItem(s, job, key) ==> ItemOf(t, job, key).trackID == ItemOf(s, job, key).trackID)
      && Claimable(t, job, key) <= Claimable(s, job, key)
      && (WorkerOf(s, w).job == job && k == key ==> Claimable(t, job, key) == 0)
      && (forall v: nat :: WorkerOf(t, v).Created? ==> WorkerOf(t, v) == WorkerOf(s, v))
  {
    var b, c := ClaimShape(s, w, k);
    var j := WorkerOf(s, w).job;
    ClaimKeeps(s.store[j], IndexOf(s.store[j].items, k));
    IndexSame(s.store[j].items, b.items, key);
    IndexSame(s.store[j].items, b.items, k);
    hide ClaimItem;
  }

  lemma GuardClaim(s: State, w: nat, k: string, job: string, key: string)
    requires Guarded(s, job, key)
    ensures Guarded(ClaimItem(s, w, k), job, key)
    ensures TrackStored(s, job, key) ==>
      TrackStored(ClaimItem(s, w, k), job, key) &&
      |EmptyHolders(ClaimItem(s, w, k), job, key)| <= |EmptyHolders(s, job, key)|
  {
    if ClaimItem(s, w, k) != s {
      ClaimCounts(s, w, k, job, key);
      ClaimItems(s, w, k, job, key);
      var b, c := ClaimShape(s, w, k);
      hide ClaimItem, EmptyHolders, HasItem, ItemOf;
    }
  }

  lemma GuardInsert(s: State, w: nat, o: Outcome, n: BusyPolling.Attempts, job: string, key: string)
    requires Guarded(s, job, key)
    ensures Guarded(InsertItem(s, w, o, n), job, key)
    ensures InsertItem(s, w, o, n).inserts[(job, key)] + |EmptyHolders(InsertItem(s, w, o, n), job, key)|
         <= s.inserts[(job, key)] + |EmptyHolders(s, job, key)|
  {
    var t := InsertItem(s, w, o, n);
    if t != s {
      var k := WorkerOf(t, w);
      HoldersCard(s, w, k, job, key);
      assert EmptyHolders(t, job, key) == EmptyHolders(SetWorker(s, w, k), job, key);
      forall v: nat | WorkerOf(t, v).Created?
        ensures WorkerOf(t, v).track != ""
      {
        assert v != w ==> WorkerOf(t, v) == WorkerOf(s, v);
      }
    }
  }

  // A reset makes the item claimable without a track id only if it counts it.
  lemma ResetCounts(s: State, job: string, key: string)
    requires Inv(s)
    ensures var t := ResetAll(s);
      && (HasItem(t, job, key) <==> HasItem(s, job, key))
      && (HasItem(s, job, key) ==> ItemOf(t, job, key).trackID == ItemOf(s, job, key).trackID)
      && Claimable(t, job, key) + s.emptyResets[(job, key)] <= Claimable(s, job, key) + t.emptyResets[(job, key)]
  {
    var t := ResetAll(s);
    if job in s.store {
      IndexSame(s.store[job].items, t.store[job].items, key);
      if HasItem(s, job, key) && Claimable(t, job, key) == 1 && Claimable(s, job, key) == 0 {
        var i := IndexOf(s.store[job].items, key);
        assert s.store[job].items[i].status == ItemRunning;
        assert (job, s.store[job].items[i].key) in OrphansWithoutTrack(s);
      }
    }
  }

  lemma GuardReset(s: State, job: string, key: string)
    requires Inv(s) && Guarded(s, job, key)
    ensures Guarded(ResetAll(s), job, key)
    ensures TrackStored(s, job, key) ==> TrackStored(ResetAll(s), job, key)
  {
    var t := ResetAll(s);
    assert EmptyHolders(t, job, key) == EmptyHolders(s, job, key);
    forall v: nat
      ensures WorkerOf(t, v) == WorkerOf(s, v)
    {}
    ResetCounts(s, job, key);
    hide ResetIn, OrphansWithoutTrack, HasItem, ItemOf, Claimable;
  }

  lemma GuardLeave(s: State, w: nat, job: string, key: string)
    requires Guarded(s, job, key)
    ensures Guarded(LeaveLoop(s, w), job, key)
  {
    var k := WorkerOf(s, w);
    if k.Draining? { GuardWorker(s, w, Finalising(k.job), job, key); }
  }

  lemma GuardFinalGet(s: State, w: nat, job: string, key: string)
    requires Guarded(s, job, key)
    ensures Guarded(FinaliseGet(s, w), job, key)
  {
    var t := FinaliseGet(s, w);
    if t != s { GuardWorker(s, w, WorkerOf(t, w), job, key); }
  }

  lemma GuardStep(s: State, step: Step, job: string, key: string)
    requires Inv(s) && Guarded(s, job, key)
    ensures Guarded(Apply(s, step), job, key)
  {
    hide Inv, Guarded, EnqueueJob, StartJob, WriteBackRunning, ClaimItem, InsertItem, StoreTrack, MarkItem, LeaveLoop,
      FinaliseGet, FinaliseWrite, ResetAll;
    match step
    case Enqueue(j, items) => GuardEnqueue(s, j, items, job, key);
    case Start(w, j) => GuardStart(s, w, j, job, key);
    case WriteRunning(w, ok) => GuardWriteBack(s, w, ok, job, key);
    case Claim(w, k) => GuardClaim(s, w, k, job, key);
    case Insert(w, o, n) => GuardInsert(s, w, o, n, job, key);
    case SetTrack(w, ok) => GuardTrack(s, w, ok, job, key);
    case Mark(w, ok) => GuardMark(s, w, ok, job, key);
    case Drained(w) => GuardLeave(s, w, job, key);
    case FinalGet(w) => GuardFinalGet(s, w, job, key);
    case FinalWrite(w, ok) => GuardFinalWrite(s, w, ok, job, key);
    case Stop(w) => GuardWorker(s, w, Idle, job, key);
    case Reset => GuardReset(s, job, key);
  }

  lemma {:induction false} GuardExec(s: State, steps: seq<Step>, job: string, key: string)
    requires Inv(s) && Guarded(s, job, key)
    ensures Inv(Exec(s, steps)) && Guarded(Exec(s, steps), job, key)
    decreases |steps|
  {
    if steps != [] {
      InvStep(s, steps[0]);
      GuardStep(s, steps[0], job, key);
      GuardExec(Apply(s, steps[0]), steps[1..], job, key);
    }
  }

  // ---------- requests behind the calls ----------

  // From s to t every call made was sent at least once and at most four times.
  ghost predicate SentWithCalls(s: State, t: State, p: (string, string)) {
    && s.inserts[p] <= t.inserts[p]
    && t.inserts[p] + s.posts[p] <= t.posts[p] + s.inserts[p]
    && t.posts[p] + 4 * s.inserts[p] <= s.posts[p] + 4 * t.inserts[p]
  }

  lemma PostsStep(s: State, step: Step, p: (string, string))
    ensures SentWithCalls(s, Apply(s, step), p)
  {}

  lemma {:induction false} PostsExec(s: State, steps: seq<Step>, p: (string, string))
    ensures SentWithCalls(s, Exec(s, steps), p)
    decreases |steps|
  {
    if steps != [] {
      PostsStep(s, steps[0], p);
      PostsExec(Apply(s, steps[0]), steps[1..], p);
    }
  }

  // Over all workers, resets, failed writes and crashes, CreateMemory is called for an item at most once
  // more than it was reset to pending while no track id was stored for it, and each call is sent at most
  // four times.
  lemma InsertsBounded(steps: seq<Step>, job: string, key: string)
    ensures var s := Exec(Init, steps);
      && s.inserts[(job, key)] <= 1 + s.emptyResets[(job, key)]
      && s.posts[(job, key)] <= 4 * (1 + s.emptyResets[(job, key)])
  {
    assert EmptyHolders(Init, job, key) == {};
    GuardExec(Init, steps, job, key);
    PostsExec(Init, steps, (job, key));
  }

  // ---------- the bound is reached ----------

  // One job of one pending item, drained by worker 0.
  ghost predicate OnePending(s: State, job: string, it: Item) {
    && s.store == map[job := Bundle(Job(job, Running, 1, 0, 0, []), [it])]
    && it.status == ItemPending && it.trackID == "" && WorkerOf(s, 0) == Draining(job)
  }

  // A claim whose call is sent four times, a crash before the track id is stored, and a restart.
  function CrashSteps(job: string, key: string): seq<Step> {
    [Claim(0, key), Insert(0, Accepted("t"), 4)] + [Stop(0), Reset] + [Start(0, job)]
  }

  ghost predicate CountsMove(s: State, t: State, p: (string, string), calls: nat, sent: nat, resets: nat) {
    && t.inserts[p] == s.inserts[p] + calls && t.posts[p] == s.posts[p] + sent
    && t.emptyResets[p] == s.emptyResets[p] + resets
  }

  lemma ExecTwo(s: State, a: Step, b: Step)
    ensures Exec(s, [a, b]) == Apply(Apply(s, a), b)
  {
    hide Apply;
    ExecSnoc(s, [], a);
    ExecSnoc(s, [a], b);
    assert [] + [a] == [a] && [a] + [b] == [a, b];
  }

  lemma ClaimAndCall(s: State, job: string, it: Item) returns (t: State)
    requires OnePending(s, job, it)
    ensures t == Exec(s, [Claim(0, it.key), Insert(0, Accepted("t"), 4)]) && WorkerOf(t, 0) == Created(job, it.key, "t")
    ensures t.store == s.store[job := s.store[job].(items := [it.(status := ItemRunning)])]
    ensures CountsMove(s, t, (job, it.key), 1, 4, 0)
  {
    ExecTwo(s, Claim(0, it.key), Insert(0, Accepted("t"), 4));
    hide Exec;
    assert IndexOf([it], it.key) == 0;
    assert [it][0 := it.(status := ItemRunning)] == [it.(status := ItemRunning)];
    t := Apply(Apply(s, Claim(0, it.key)), Insert(0, Accepted("t"), 4));
  }

  ghost predicate OneRunning(s: State, job: string, it: Item) {
    && s.store == map[job := Bundle(Job(job, Running, 1, 0, 0, []), [it.(status := ItemRunning)])]
    && it.trackID == "" && it.status == ItemPending
  }

  lemma ResetOne(s: State, job: string, it: Item)
    requires OneRunning(s, job, it)
    ensures var t := ResetAll(s);
      && t.store == s.store[job := s.store[job].(items := [it])] && t.workers == s.workers
      && CountsMove(s, t, (job, it.key), 0, 0, 1)
  {
    assert ResetIn(s.store[job]).items == [it];
    assert s.store[job].items[0].key == it.key;
    assert (job, it.key) in OrphansWithoutTrack(s);
  }

  lemma ExecCrash(s: State)
    ensures Exec(s, [Stop(0), Reset]) == ResetAll(SetWorker(s, 0, Idle))
  {
    ExecTwo(s, Stop(0), Reset);
  }

  lemma CrashAndReset(s: State, job: string, it: Item) returns (t: State)
    requires OneRunning(s, job, it)
    ensures t == Exec(s, [Stop(0), Reset]) && WorkerOf(t, 0) == Idle
    ensures t.store == s.store[job := s.store[job].(items := [it])]
    ensures CountsMove(s, t, (job, it.key), 0, 0, 1)
  {
    ExecCrash(s);
    hide Exec, Apply, ResetAll, ResetIn;
    t := ResetAll(SetWorker(s, 0, Idle));
    ResetOne(SetWorker(s, 0, Idle), job, it);
  }

  lemma CrashRound(s: State, job: string, it: Item) returns (t: State)
    requires OnePending(s, job, it)
    ensures t == Exec(s, CrashSteps(job, it.key)) && OnePending(t, job, it)
    ensures CountsMove(s, t, (job, it.key), 1, 4, 1)
  {
    ExecAppend(s, [Claim(0, it.key), Insert(0, Accepted("t"), 4)] + [Stop(0), Reset], [Start(0, job)]);
    ExecAppend(s, [Claim(0, it.key), Insert(0, Accepted("t"), 4)], [Stop(0), Reset]);
    var s1 := ClaimAndCall(s, job, it);
    var s2 := CrashAndReset(s1, job, it);
    t := Apply(s2, Start(0, job));
    ExecSnoc(s2, [], Start(0, job));
    assert [] + [Start(0, job)] == [Start(0, job)];
    hide Exec;
  }

  function CrashRounds(job: string, key: string, n: nat): seq<Step> {
    if n == 0 then [] else CrashSteps(job, key) + CrashRounds(job, key, n - 1)
  }

  lemma {:induction false} ManyRounds(s: State, job: string, it: Item, n: nat)
    requires OnePending(s, job, it)
    ensures var t := Exec(s, CrashRounds(job, it.key, n));
      OnePending(t, job, it) && CountsMove(s, t, (job, it.key), n, 4 * n, n)
    decreases n
  {
    if n > 0 {
      var t := CrashRound(s, job, it);
      ExecAppend(s, CrashSteps(job, it.key), CrashRounds(job, it.key, n - 1));
      ManyRounds(t, job, it, n - 1);
    }
  }

  lemma ReadyJob(job: string, item: Item) returns (run: seq<Step>, s: State, it: Item)
    ensures s == Exec(Init, run) && OnePending(s, job, it) && it.key == item.key
    ensures s.inserts == s.posts == s.emptyResets == multiset{}
  {
    it := item.(status := ItemPending, err := "", trackID := "");
    run := [Enqueue(job, [item])] + [Start(0, job)] + [WriteRunning(0, true)];
    ExecSnoc(Init, [Enqueue(job, [item])] + [Start(0, job)], WriteRunning(0, true));
    ExecSnoc(Init, [Enqueue(job, [item])], Start(0, job));
    ExecSnoc(Init, [], Enqueue(job, [item]));
    assert [] + [Enqueue(job, [item])] == [Enqueue(job, [item])];
    assert NewBundle(job, [item]).items == [it];
    s := Apply(Apply(Apply(Init, Enqueue(job, [item])), Start(0, job)), WriteRunning(0, true));
  }

  // The bounds are sharp: for any item and any number of resets there is a run that reaches both.
  lemma BoundsReached(job: string, item: Item, resets: nat) returns (run: seq<Step>)
    ensures var s, p := Exec(Init, run), (job, item.key);
      s.emptyResets[p] == resets && s.inserts[p] == 1 + resets && s.posts[p] == 4 * (1 + resets)
  {
    var first, s, it := ReadyJob(job, item);
    var rounds := CrashRounds(job, it.key, resets);
    ManyRounds(s, job, it, resets);
    var last := [Claim(0, it.key), Insert(0, Accepted("t"), 4)];
    var t := ClaimAndCall(Exec(s, rounds), job, it);
    ExecAppend(Init, first, rounds + last);
    ExecAppend(s, rounds, last);
    run := first + (rounds + last);
    hide Exec;
  }

  // ---------- once a track id is stored ----------

  lemma StoredWorker(s: State, step: Step, w: nat, job: string, key: string)
    requires !step.Claim? && !step.Insert? && !step.Enqueue? && !step.Reset? && step.w == w
    ensures Apply(s, step).inserts == s.inserts
    ensures EmptyHolders(Apply(s, step), job, key) <= EmptyHolders(s, job, key)
    ensures |EmptyHolders(Apply(s, step), job, key)| <= |EmptyHolders(s, job, key)|
  {
    SubsetCard(EmptyHolders(Apply(s, step), job, key), EmptyHolders(s, job, key));
  }

  lemma {:induction false} SubsetCard(a: set<nat>, b: set<nat>)
    requires a <= b
    ensures |a| <= |b|
  {
    if x :| x in a {
      SubsetCard(a - {x}, b - {x});
    }
  }

  lemma StoredWrites(s: State, w: nat, ok: bool, job: string, key: string)
    requires TrackStored(s, job, key)
    ensures TrackStored(WriteBackRunning(s, w, ok), job, key)
    ensures TrackStored(FinaliseWrite(s, w, ok), job, key)
  {}

  lemma StoredReads(s: State, w: nat, j: string, job: string, key: string)
    requires TrackStored(s, job, key)
    ensures TrackStored(StartJob(s, w, j), job, key)
    ensures TrackStored(LeaveLoop(s, w), job, key)
    ensures TrackStored(FinaliseGet(s, w), job, key)
  {
    hide TrackStored;
    StoredIn(s, StartJob(s, w, j), job, key);
    StoredIn(s, LeaveLoop(s, w), job, key);
    StoredIn(s, FinaliseGet(s, w), job, key);
  }

  lemma StoredIn(s: State, t: State, job: string, key: string)
    requires TrackStored(s, job, key) && t.store == s.store
    ensures TrackStored(t, job, key)
  {}

  lemma StoredEnqueue(s: State, j: string, items: seq<Item>, job: string, key: string)
    requires TrackStored(s, job, key)
    ensures TrackStored(EnqueueJob(s, j, items), job, key)
    ensures EnqueueJob(s, j, items).inserts == s.inserts
    ensures EmptyHolders(EnqueueJob(s, j, items), job, key) == EmptyHolders(s, job, key)
  {}

  lemma StoredReset(s: State, job: string, key: string)
    ensures ResetAll(s).inserts == s.inserts
    ensures EmptyHolders(ResetAll(s), job, key) == EmptyHolders(s, job, key)
  {}

  lemma StoredClaim(s: State, w: nat, k: string, o: Outcome, n: BusyPolling.Attempts)
    ensures ClaimItem(s, w, k).inserts == s.inserts
    ensures InsertItem(s, w, o, n).store == s.store
  {}

  // Once a track id is stored it stays, and calls made plus claims that may still call never grow.
  lemma StoredStep(s: State, step: Step, job: string, key: string)
    requires Inv(s) && Guarded(s, job, key) && TrackStored(s, job, key)
    ensures TrackStored(Apply(s, step), job, key)
    ensures Apply(s, step).inserts[(job, key)] + |EmptyHolders(Apply(s, step), job, key)|
         <= s.inserts[(job, key)] + |EmptyHolders(s, job, key)|
  {
    hide Inv, Guarded, EmptyHolders, EnqueueJob, StartJob, WriteBackRunning, ClaimItem, InsertItem,
      StoreTrack, MarkItem, LeaveLoop, FinaliseGet, FinaliseWrite, ResetAll;
    match step
    case Enqueue(j, items) => StoredEnqueue(s, j, items, job, key);
    case Reset => GuardReset(s, job, key); StoredReset(s, job, key);
    case Claim(w, k) => GuardClaim(s, w, k, job, key); StoredClaim(s, w, k, Rejected(""), 1);
    case Insert(w, o, n) => GuardInsert(s, w, o, n, job, key); StoredClaim(s, w, "", o, n);
    case SetTrack(w, ok) => GuardTrack(s, w, ok, job, key); StoredWorker(s, step, w, job, key);
    case Mark(w, ok) => GuardMark(s, w, ok, job, key); StoredWorker(s, step, w, job, key);
    case Start(w, j) => StoredWorker(s, step, w, job, key); StoredReads(s, w, j, job, key);
    case WriteRunning(w, ok) => StoredWorker(s, step, w, job, key); StoredWrites(s, w, ok, job, key);
    case Drained(w) => StoredWorker(s, step, w, job, key); StoredReads(s, w, "", job, key);
    case FinalGet(w) => StoredWorker(s, step, w, job, key); StoredReads(s, w, "", job, key);
    case FinalWrite(w, ok) => StoredWorker(s, step, w, job, key); StoredWrites(s, w, ok, job, key);
    case Stop(w) => StoredWorker(s, step, w, job, key);
  }

  // If the item already has a stored track id, the only calls still to come are
  // those of workers that claimed it before: a later claim makes none.
  lemma {:induction false} NoInsertAfterStored(s: State, steps: seq<Step>, job: string, key: string)
    requires Inv(s) && Guarded(s, job, key) && TrackStored(s, job, key)
    ensures TrackStored(Exec(s, steps), job, key)
    ensures Exec(s, steps).inserts[(job, key)] + |EmptyHolders(Exec(s, steps), job, key)|
         <= s.inserts[(job, key)] + |EmptyHolders(s, job, key)|
    decreases |steps|
  {
    if steps != [] {
      InvStep(s, steps[0]);
      GuardStep(s, steps[0], job, key);
      StoredStep(s, steps[0], job, key);
      NoInsertAfterStored(Apply(s, steps[0]), steps[1..], job, key);
    }
  }

  // The same for a run from the start: after the moment a track id is stored, whatever happens, the number of
  // further calls is at most the number of claims then already under way without one, and each of them is
  // sent at most four times.
  lemma LaterClaimsInsertNothing(before: seq<Step>, after: seq<Step>, job: string, key: string)
    requires TrackStored(Exec(Init, before), job, key)
    ensures var s, t := Exec(Init, before), Exec(Exec(Init, before), after);
      && t.inserts[(job, key)] <= s.inserts[(job, key)] + |EmptyHolders(s, job, key)|
      && t.posts[(job, key)] <= s.posts[(job, key)] + 4 * |EmptyHolders(s, job, key)|
  {
    assert EmptyHolders(Init, job, key) == {};
    GuardExec(Init, before, job, key);
    NoInsertAfterStored(Exec(Init, before), after, job, key);
    PostsExec(Exec(Init, before), after, (job, key));
  }
}
