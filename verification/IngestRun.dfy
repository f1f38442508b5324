// The many-worker ingest protocol: every interleaving of workers that drain the same store,
// with failing store calls, periodic resets, stops and crashes.
//
// A step that is not enabled changes nothing, so every sequence of steps is a run and
// the theorems below quantify over all of them.
module IngestRun {
  import opened IngestModel
  import opened Options
  import BusyPolling

  // Where a worker is inside runJob, with the values it carries between two store calls.
  datatype Worker =
    | Idle
    | GotQueued(job: string, snap: Job)                        // read a queued job, not yet written back
    | Draining(job: string)                                    // top of the item loop
    | Claimed(job: string, key: string, track: string)         // item claimed with this stored track id
    | Created(job: string, key: string, track: string)         // inserted upstream, track id not yet stored
    | Processed(job: string, key: string, err: Option<string>) // outcome known, not yet marked
    | Finalising(job: string)                                  // item loop left
    | FinalSnap(job: string, snap: Job)                        // finished snapshot, not yet written back

  datatype Outcome = Accepted(track: string) | Rejected(err: string)

  datatype Step =
    | Enqueue(job: string, items: seq<Item>)
    | Start(w: nat, job: string)
    | WriteRunning(w: nat, ok: bool)
    | Claim(w: nat, key: string)
    | Insert(w: nat, outcome: Outcome, attempts: BusyPolling.Attempts)
    | SetTrack(w: nat, ok: bool)
    | Mark(w: nat, ok: bool)
    | Drained(w: nat)
    | FinalGet(w: nat)
    | FinalWrite(w: nat, ok: bool)
    | Stop(w: nat)        // shutdown between items, a failed read, or a crash: the worker forgets everything
    | Reset               // Resume's ResetRunningItems, at start or from the periodic sweeper

  // The store and the workers, and four histories the theorems speak about, per (job, key): how many CreateMemory
  // calls were made, how many requests the upstream client sent for them, how many claims found no stored
  // track id, and how many resets did.
  datatype State = State(
    store: map<string, Bundle>,
    workers: map<nat, Worker>,
    inserts: multiset<(string, string)>,
    posts: multiset<(string, string)>,
    emptyClaims: multiset<(string, string)>,
    emptyResets: multiset<(string, string)>)

  const Init := State(map[], map[], multiset{}, multiset{}, multiset{}, multiset{})

  function WorkerOf(s: State, w: nat): Worker {
    if w in s.workers then s.workers[w] else Idle
  }

  function SetWorker(s: State, w: nat, k: Worker): State {
    s.(workers := s.workers[w := k])
  }

  function SetBundle(s: State, job: string, b: Bundle): State {
    s.(store := s.store[job := b])
  }

  // UpdateJob replaces the whole stored job record.
  function UpdateJob(s: State, j: Job): State {
    if j.id in s.store then SetBundle(s, j.id, s.store[j.id].(job := j)) else s
  }

  function NewBundle(job: string, items: seq<Item>): Bundle {
    Bundle(Job(job, Queued, |items|, 0, 0, []),
           seq(|items|, i requires 0 <= i < |items| => items[i].(status := ItemPending, err := "", trackID := "")))
  }

  // The (job, key) pairs a reset returns to pending although no track id is stored for them.
  ghost function OrphansWithoutTrack(s: State): set<(string, string)> {
    set j, i | j in s.store && !s.store[j].job.status.Terminal() && 0 <= i < |s.store[j].items|
            && s.store[j].items[i].status == ItemRunning && s.store[j].items[i].trackID == ""
      :: (j, s.store[j].items[i].key)
  }

  ghost function ResetAll(s: State): State {
    s.(store := map j | j in s.store :: ResetIn(s.store[j]),
       emptyResets := s.emptyResets + multiset(OrphansWithoutTrack(s)))
  }

  function StartJob(s: State, w: nat, job: string): State {
    if WorkerOf(s, w) != Idle || job !in s.store then s else
    var j := s.store[job].job;
    match j.status
    case Queued => SetWorker(s, w, GotQueued(job, j))
    case Running => SetWorker(s, w, Draining(job))
    case _ => s
  }

  function ClaimItem(s: State, w: nat, key: string): State {
    var k := WorkerOf(s, w);
    if !k.Draining? || k.job !in s.store then s else
    var b := s.store[k.job];
    var i := IndexOf(b.items, key);
    if i == |b.items| || b.items[i].status != ItemPending then s else
    var s1 := SetWorker(SetBundle(s, k.job, ClaimAt(b, i)), w, Claimed(k.job, key, b.items[i].trackID));
    if b.items[i].trackID == "" then s1.(emptyClaims := s.emptyClaims + multiset{(k.job, key)}) else s1
  }

  function CountInsert(s: State, p: (string, string), attempts: nat): State {
    s.(inserts := s.inserts[p := s.inserts[p] + 1], posts := s.posts[p := s.posts[p] + attempts])
  }

  function AfterInsert(job: string, key: string, outcome: Outcome): Worker {
    match outcome
    case Accepted(t) => if t == "" then Processed(job, key, Some("empty track_id")) else Created(job, key, t)
    case Rejected(e) => Processed(job, key, Some(e))
  }

  // One CreateMemory call, which the upstream client sends up to four times; skipped when a track id is stored.
  function InsertItem(s: State, w: nat, outcome: Outcome, attempts: BusyPolling.Attempts): State {
    var k := WorkerOf(s, w);
    if !k.Claimed? then s
    else if k.track != "" then SetWorker(s, w, Processed(k.job, k.key, None))
    else SetWorker(CountInsert(s, (k.job, k.key), attempts), w, AfterInsert(k.job, k.key, outcome))
  }

  function FinaliseGet(s: State, w: nat): State {
    var k := WorkerOf(s, w);
    if !k.Finalising? then s
    else if k.job !in s.store then SetWorker(s, w, Idle)
    else
      var j := s.store[k.job].job;
      if j.status.Terminal() || j.done + j.failed < j.total then SetWorker(s, w, Idle)
      else SetWorker(s, w, FinalSnap(k.job, j.(status := Classify(j.done, j.failed))))
  }

  function EnqueueJob(s: State, job: string, items: seq<Item>): State {
    if items == [] || !UniqueKeys(items) || job in s.store then s else SetBundle(s, job, NewBundle(job, items))
  }

  function WriteBackRunning(s: State, w: nat, ok: bool): State {
    var k := WorkerOf(s, w);
    if !k.GotQueued? then s
    else SetWorker(if ok then UpdateJob(s, k.snap.(status := Running)) else s, w, Draining(k.job))
  }

  function StoreTrack(s: State, w: nat, ok: bool): State {
    var k := WorkerOf(s, w);
    if !k.Created? then s
    else
      var s1 := if ok && k.job in s.store then SetBundle(s, k.job, SetTrackIn(s.store[k.job], k.key, k.track)) else s;
      SetWorker(s1, w, Processed(k.job, k.key, None))
  }

  function MarkItem(s: State, w: nat, ok: bool): State {
    var k := WorkerOf(s, w);
    if !k.Processed? then s
    else
      var s1 := if ok && k.job in s.store then SetBundle(s, k.job, MarkIn(s.store[k.job], k.key, k.err)) else s;
      SetWorker(s1, w, Draining(k.job))
  }

  function LeaveLoop(s: State, w: nat): State {
    var k := WorkerOf(s, w);
    if !k.Draining? then s else SetWorker(s, w, Finalising(k.job))
  }

  function FinaliseWrite(s: State, w: nat, ok: bool): State {
    var k := WorkerOf(s, w);
    if !k.FinalSnap? then s else SetWorker(if ok then UpdateJob(s, k.snap) else s, w, Idle)
  }

  ghost function Apply(s: State, step: Step): State {
    match step
    case Enqueue(job, items) => EnqueueJob(s, job, items)
    case Start(w, job) => StartJob(s, w, job)
    case WriteRunning(w, ok) => WriteBackRunning(s, w, ok)
    case Claim(w, key) => ClaimItem(s, w, key)
    case Insert(w, outcome, attempts) => InsertItem(s, w, outcome, attempts)
    case SetTrack(w, ok) => StoreTrack(s, w, ok)
    case Mark(w, ok) => MarkItem(s, w, ok)
    case Drained(w) => LeaveLoop(s, w)
    case FinalGet(w) => FinaliseGet(s, w)
    case FinalWrite(w, ok) => FinaliseWrite(s, w, ok)
    case Stop(w) => SetWorker(s, w, Idle)
    case Reset => ResetAll(s)
  }

  ghost function Exec(s: State, steps: seq<Step>): State
    decreases |steps|
  {
    if steps == [] then s else Exec(Apply(s, steps[0]), steps[1..])
  }

  lemma {:induction false} ExecSnoc(s: State, steps: seq<Step>, last: Step)
    ensures Exec(s, steps + [last]) == Apply(Exec(s, steps), last)
    decreases |steps|
  {
    if steps == [] {
      assert [last][1..] == [];
    } else {
      assert (steps + [last])[1..] == steps[1..] + [last];
      ExecSnoc(Apply(s, steps[0]), steps[1..], last);
    }
  }

  lemma {:induction false} ExecAppend(s: State, first: seq<Step>, rest: seq<Step>)
    ensures Exec(s, first + rest) == Exec(Exec(s, first), rest)
    decreases |first|
  {
    if first == [] {
      assert first + rest == rest;
    } else {
      assert (first + rest)[1..] == first[1..] + rest;
      ExecAppend(Apply(s, first[0]), first[1..], rest);
    }
  }

  // ---------- counters in every run ----------

  ghost predicate WorkerOk(store: map<string, Bundle>, k: Worker) {
    match k
    case Idle => true
    case GotQueued(job, snap) => job in store && snap.id == job && snap.status == Queued &&
      Covered(snap, store[job].items)
    case FinalSnap(job, snap) =>
      job in store && snap.id == job && Covered(snap, store[job].items) && Finished(snap) && snap.status.Terminal()
    case _ => k.job in store
  }

  ghost predicate StoreOk(store: map<string, Bundle>) {
    forall j :: j in store ==> store[j].job.id == j && JobOk(store[j])
  }

  ghost predicate Inv(s: State) {
    StoreOk(s.store) && forall w :: w in s.workers ==> WorkerOk(s.store, s.workers[w])
  }

  // Replacing one job's bundle by one that evolved from it keeps every worker's memory covered.
  lemma BundleStep(s: State, job: string, b: Bundle)
    requires Inv(s) && job in s.store
    requires b.job.id == job && JobOk(b) && Evolves(s.store[job].items, b.items)
    ensures Inv(SetBundle(s, job, b))
  {
    forall w | w in s.workers
      ensures WorkerOk(SetBundle(s, job, b).store, s.workers[w])
    {}
  }

  lemma UpdateStep(s: State, j: Job)
    requires Inv(s) && j.id in s.store
    requires Covered(j, s.store[j.id].items) && (j.status.Terminal() ==> Finished(j))
    ensures Inv(UpdateJob(s, j))
  {
    BundleStep(s, j.id, s.store[j.id].(job := j));
  }

  lemma EnqueueStep(s: State, job: string, items: seq<Item>)
    requires Inv(s)
    ensures Inv(EnqueueJob(s, job, items))
  {
    if items != [] && UniqueKeys(items) && job !in s.store {
      var b := NewBundle(job, items);
      NoneCounted(b.items);
      forall w | w in s.workers
        ensures WorkerOk(SetBundle(s, job, b).store, s.workers[w])
      {}
    }
  }

  lemma {:induction false} NoneCounted(items: seq<Item>)
    requires forall i :: 0 <= i < |items| ==> items[i].status == ItemPending
    ensures Count(items, ItemDone) == 0 && Count(items, ItemFailed) == 0
  {
    if items != [] {
      NoneCounted(items[1..]);
    }
  }

  lemma ResetStep(s: State)
    requires Inv(s)
    ensures Inv(ResetAll(s))
  {
    var t := ResetAll(s);
    forall j | j in s.store
      ensures t.store[j].job == s.store[j].job && JobOk(t.store[j]) && Evolves(s.store[j].items, t.store[j].items)
    {
      ResetOk(s.store[j]);
    }
    forall w | w in s.workers
      ensures WorkerOk(t.store, s.workers[w])
    {}
  }

  lemma WorkerStep(s: State, w: nat, k: Worker)
    requires Inv(s) && WorkerOk(s.store, k)
    ensures Inv(SetWorker(s, w, k))
  {}

  lemma WriteRunningStep(s: State, w: nat, ok: bool)
    requires Inv(s)
    ensures Inv(WriteBackRunning(s, w, ok))
  {
    var k := WorkerOf(s, w);
    if k.GotQueued? {
      var s1 := if ok then UpdateJob(s, k.snap.(status := Running)) else s;
      if ok { UpdateStep(s, k.snap.(status := Running)); }
      WorkerStep(s1, w, Draining(k.job));
    }
  }

  lemma ClaimStep(s: State, w: nat, key: string)
    requires Inv(s)
    ensures Inv(ClaimItem(s, w, key))
  {
    var k := WorkerOf(s, w);
    if k.Draining? && k.job in s.store {
      var b := s.store[k.job];
      var i := IndexOf(b.items, key);
      if i < |b.items| && b.items[i].status == ItemPending {
        ClaimOk(b, i);
        BundleStep(s, k.job, ClaimAt(b, i));
        WorkerStep(SetBundle(s, k.job, ClaimAt(b, i)), w, Claimed(k.job, key, b.items[i].trackID));
      }
    }
  }

  lemma SetTrackStep(s: State, w: nat, ok: bool)
    requires Inv(s)
    ensures Inv(StoreTrack(s, w, ok))
  {
    var k := WorkerOf(s, w);
    if k.Created? {
      var b := SetTrackIn(s.store[k.job], k.key, k.track);
      SetTrackOk(s.store[k.job], k.key, k.track);
      BundleStep(s, k.job, b);
      WorkerStep(if ok then SetBundle(s, k.job, b) else s, w, Processed(k.job, k.key, None));
    }
  }

  lemma MarkStep(s: State, w: nat, ok: bool)
    requires Inv(s)
    ensures Inv(MarkItem(s, w, ok))
  {
    var k := WorkerOf(s, w);
    if k.Processed? {
      var b := MarkIn(s.store[k.job], k.key, k.err);
      MarkOk(s.store[k.job], k.key, k.err);
      BundleStep(s, k.job, b);
      WorkerStep(if ok then SetBundle(s, k.job, b) else s, w, Draining(k.job));
    }
  }

  lemma FinalWriteStep(s: State, w: nat, ok: bool)
    requires Inv(s)
    ensures Inv(FinaliseWrite(s, w, ok))
  {
    var k := WorkerOf(s, w);
    if k.FinalSnap? {
      UpdateStep(s, k.snap);
      WorkerStep(if ok then UpdateJob(s, k.snap) else s, w, Idle);
    }
  }

  lemma StartStep(s: State, w: nat, job: string)
    requires Inv(s)
    ensures Inv(StartJob(s, w, job))
  {
    if job in s.store {
      WorkerStep(s, w, Draining(job));
      if s.store[job].job.status == Queued {
        WorkerStep(s, w, GotQueued(job, s.store[job].job));
      }
    }
  }

  lemma InsertStep(s: State, w: nat, outcome: Outcome, attempts: BusyPolling.Attempts)
    requires Inv(s)
    ensures Inv(InsertItem(s, w, outcome, attempts))
  {
    var k := WorkerOf(s, w);
    if k.Claimed? {
      WorkerStep(s, w, Processed(k.job, k.key, None));
      WorkerStep(CountInsert(s, (k.job, k.key), attempts), w, AfterInsert(k.job, k.key, outcome));
    }
  }

  lemma LeaveStep(s: State, w: nat)
    requires Inv(s)
    ensures Inv(LeaveLoop(s, w)) && Inv(FinaliseGet(s, w)) && Inv(SetWorker(s, w, Idle))
  {}

  lemma InvStep(s: State, step: Step)
    requires Inv(s)
    ensures Inv(Apply(s, step))
  {
    hide Inv, EnqueueJob, StartJob, WriteBackRunning, ClaimItem, InsertItem, StoreTrack, MarkItem, LeaveLoop,
      FinaliseGet, FinaliseWrite, ResetAll;
    match step
    case Enqueue(job, items) => EnqueueStep(s, job, items);
    case Start(w, job) => StartStep(s, w, job);
    case WriteRunning(w, ok) => WriteRunningStep(s, w, ok);
    case Claim(w, key) => ClaimStep(s, w, key);
    case Insert(w, outcome, attempts) => InsertStep(s, w, outcome, attempts);
    case SetTrack(w, ok) => SetTrackStep(s, w, ok);
    case Mark(w, ok) => MarkStep(s, w, ok);
    case Drained(w) => LeaveStep(s, w);
    case FinalGet(w) => LeaveStep(s, w);
    case FinalWrite(w, ok) => FinalWriteStep(s, w, ok);
    case Stop(w) => LeaveStep(s, w);
    case Reset => ResetStep(s);
  }

  lemma {:induction false} InvExec(s: State, steps: seq<Step>)
    requires Inv(s)
    ensures Inv(Exec(s, steps))
    decreases |steps|
  {
    if steps != [] {
      InvStep(s, steps[0]);
      InvExec(Apply(s, steps[0]), steps[1..]);
    }
  }

  // In every run, the stored counters never exceed what the items show, and the error list
  // is exactly as long as the failures it stands for, up to the cap.
  lemma CountersCovered(steps: seq<Step>, job: string)
    requires job in Exec(Init, steps).store
    ensures var b := Exec(Init, steps).store[job];
      && b.job.total == |b.items|
      && 0 <= b.job.done <= Count(b.items, ItemDone)
      && 0 <= b.job.failed <= Count(b.items, ItemFailed)
      && |b.job.errors| == (if b.job.failed <= MAX_ERRORS then b.job.failed else MAX_ERRORS)
  {
    InvExec(Init, steps);
  }

  // In every run, a terminal job status is honest: every item is terminal, the counters are
  // exact and sum to the total, and the status is the right class.
  lemma TerminalIsHonest(steps: seq<Step>, job: string)
    requires job in Exec(Init, steps).store && Exec(Init, steps).store[job].job.status.Terminal()
    ensures var b := Exec(Init, steps).store[job];
      && (forall i :: 0 <= i < |b.items| ==> b.items[i].status.Terminal())
      && b.job.done == Count(b.items, ItemDone)
      && b.job.failed == Count(b.items, ItemFailed)
      && b.job.done + b.job.failed == b.job.total
      && (b.job.status == Succeeded <==> b.job.failed == 0)
      && (b.job.status == Failed <==> b.job.failed > 0 && b.job.done == 0)
      && (b.job.status == Partial <==> b.job.failed > 0 && b.job.done > 0)
  {
    InvExec(Init, steps);
    FinishedIsExact(Exec(Init, steps).store[job].job, Exec(Init, steps).store[job].items);
  }

  // ---------- what an enqueued item keeps ----------

  // Keys and texts never change, and a terminal status and its error are final.
  ghost predicate ItemsKept(a: seq<Item>, b: seq<Item>) {
    && |a| == |b|
    && forall i :: 0 <= i < |a| ==>
         && b[i].key == a[i].key && b[i].text == a[i].text
         && (a[i].status.Terminal() ==> b[i].status == a[i].status && b[i].err == a[i].err)
  }

  ghost predicate StoreKept(a: map<string, Bundle>, b: map<string, Bundle>) {
    forall j :: j in a ==> j in b && ItemsKept(a[j].items, b[j].items)
  }

  lemma KeptUpdate(s: State, job: string, b: Bundle)
    requires job in s.store && ItemsKept(s.store[job].items, b.items)
    ensures StoreKept(s.store, SetBundle(s, job, b).store)
  {}

  lemma KeptClaim(s: State, w: nat, key: string)
    ensures StoreKept(s.store, ClaimItem(s, w, key).store)
  {
    var k := WorkerOf(s, w);
    if k.Draining? && k.job in s.store {
      var b := s.store[k.job];
      var i := IndexOf(b.items, key);
      if i < |b.items| && b.items[i].status == ItemPending {
        KeptUpdate(s, k.job, ClaimAt(b, i));
        assert ClaimItem(s, w, key).store == SetBundle(s, k.job, ClaimAt(b, i)).store;
        hide ClaimItem;
      }
    }
  }

  lemma KeptMark(s: State, w: nat, ok: bool)
    ensures StoreKept(s.store, MarkItem(s, w, ok).store)
  {
    var k := WorkerOf(s, w);
    if k.Processed? && k.job in s.store {
      var b := MarkIn(s.store[k.job], k.key, k.err);
      KeptUpdate(s, k.job, b);
      assert MarkItem(s, w, ok).store == if ok then SetBundle(s, k.job, b).store else s.store;
      hide MarkItem;
    }
  }

  lemma KeptTrack(s: State, w: nat, ok: bool)
    ensures StoreKept(s.store, StoreTrack(s, w, ok).store)
  {
    var k := WorkerOf(s, w);
    if k.Created? && k.job in s.store {
      var b := SetTrackIn(s.store[k.job], k.key, k.track);
      KeptUpdate(s, k.job, b);
      assert StoreTrack(s, w, ok).store == if ok then SetBundle(s, k.job, b).store else s.store;
      hide StoreTrack;
    }
  }

  lemma KeptWrites(s: State, w: nat, ok: bool)
    ensures StoreKept(s.store, WriteBackRunning(s, w, ok).store) && StoreKept(s.store, FinaliseWrite(s, w, ok).store)
  {}

  lemma KeptEnqueue(s: State, j: string, items: seq<Item>)
    ensures StoreKept(s.store, EnqueueJob(s, j, items).store)
  {}

  lemma KeptReset(s: State)
    ensures StoreKept(s.store, ResetAll(s).store)
  {
    forall j | j in s.store
      ensures ItemsKept(s.store[j].items, ResetIn(s.store[j]).items)
    {}
  }

  lemma KeptReads(s: State, w: nat, j: string)
    ensures StartJob(s, w, j).store == LeaveLoop(s, w).store == FinaliseGet(s, w).store == s.store
  {}

  lemma KeptInsert(s: State, w: nat, outcome: Outcome, attempts: BusyPolling.Attempts)
    ensures InsertItem(s, w, outcome, attempts).store == s.store && StoreKept(s.store, s.store)
  {}

  lemma KeptStep(s: State, step: Step)
    ensures StoreKept(s.store, Apply(s, step).store)
  {
    hide StoreKept, EnqueueJob, StartJob, WriteBackRunning, ClaimItem, InsertItem, StoreTrack, MarkItem, LeaveLoop,
      FinaliseGet, FinaliseWrite, ResetAll;
    KeptInsert(s, 0, Rejected(""), 1);
    match step
    case Enqueue(job, items) => KeptEnqueue(s, job, items);
    case Start(w, job) => KeptReads(s, w, job);
    case WriteRunning(w, ok) => KeptWrites(s, w, ok);
    case Claim(w, key) => KeptClaim(s, w, key);
    case Insert(w, outcome, attempts) => KeptInsert(s, w, outcome, attempts);
    case SetTrack(w, ok) => KeptTrack(s, w, ok);
    case Mark(w, ok) => KeptMark(s, w, ok);
    case Drained(w) => KeptReads(s, w, "");
    case FinalGet(w) => KeptReads(s, w, "");
    case FinalWrite(w, ok) => KeptWrites(s, w, ok);
    case Stop(w) =>
    case Reset => KeptReset(s);
  }

  lemma KeptTrans(a: map<string, Bundle>, b: map<string, Bundle>, c: map<string, Bundle>)
    requires StoreKept(a, b) && StoreKept(b, c)
    ensures StoreKept(a, c)
  {}

  // From any state on, whatever happens: a stored job stays stored with the same items, their keys and texts, and an
  // item that is done or failed stays so, with its error.
  lemma {:induction false} ItemsAreKept(s: State, steps: seq<Step>)
    ensures StoreKept(s.store, Exec(s, steps).store)
    decreases |steps|
  {
    if steps != [] {
      KeptStep(s, steps[0]);
      ItemsAreKept(Apply(s, steps[0]), steps[1..]);
      KeptTrans(s.store, Apply(s, steps[0]).store, Exec(s, steps).store);
    }
  }
}
