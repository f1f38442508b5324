// When the ingest counters are exact and a terminal status is final, and when they are not.
//
// runJob writes the whole job snapshot it read back to mark a queued job running. Another
// worker may have marked items, or even finalised the job, in between. That write is the only step
// that can break exactness or leave a terminal status; this module says exactly when it does.
module IngestExact {
  import opened IngestModel
  import opened Options
  import opened IngestRun
  import BusyPolling

  ghost predicate QueuedWrite(s: State, step: Step, job: string) {
    step.WriteRunning? && step.ok && WorkerOf(s, step.w).GotQueued? && WorkerOf(s, step.w).job == job
  }

  // The write puts back counters that other workers have moved on from since they were read.
  ghost predicate StaleWrite(s: State, step: Step, job: string) {
    && QueuedWrite(s, step, job)
    && job in s.store
    && var snap := WorkerOf(s, step.w).snap;
       snap.done != s.store[job].job.done || snap.failed != s.store[job].job.failed
  }

  lemma FinalWriteExact(s: State, w: nat, job: string)
    requires Inv(s) && job in s.store && WorkerOf(s, w).FinalSnap? && WorkerOf(s, w).job == job
    ensures Exact(FinaliseWrite(s, w, true).store[job])
    ensures s.store[job].job.status.Terminal() ==>
      FinaliseWrite(s, w, true).store[job].job.status == s.store[job].job.status
  {
    FinishedIsExact(WorkerOf(s, w).snap, s.store[job].items);
    if s.store[job].job.status.Terminal() {
      FinishedIsExact(s.store[job].job, s.store[job].items);
    }
  }

  // An operation below the job record: the status stays, counters are exact after it if and only if they were
  // before, and nothing but a track id can still change once every item is terminal.
  ghost predicate ItemLevel(a: Bundle, b: Bundle) {
    && a.job.status == b.job.status
    && (Exact(a) <==> Exact(b))
    && (AllTerminal(a.items) ==> AllTerminal(b.items) && a.job == b.job)
  }

  ghost predicate AllTerminal(items: seq<Item>) {
    forall i :: 0 <= i < |items| ==> items[i].status.Terminal()
  }

  lemma ClaimLevel(s: State, w: nat, key: string, job: string)
    requires Inv(s) && job in s.store
    ensures job in ClaimItem(s, w, key).store && ItemLevel(s.store[job], ClaimItem(s, w, key).store[job])
  {
    var i := IndexOf(s.store[job].items, key);
    if i < |s.store[job].items| && s.store[job].items[i].status == ItemPending {
      ClaimOk(s.store[job], i);
    }
  }

  lemma TrackLevel(s: State, w: nat, ok: bool, job: string)
    requires Inv(s) && job in s.store
    ensures job in StoreTrack(s, w, ok).store && ItemLevel(s.store[job], StoreTrack(s, w, ok).store[job])
  {
    var k := WorkerOf(s, w);
    if k.Created? { SetTrackOk(s.store[job], k.key, k.track); }
  }

  lemma MarkLevel(s: State, w: nat, ok: bool, job: string)
    requires Inv(s) && job in s.store
    ensures job in MarkItem(s, w, ok).store && ItemLevel(s.store[job], MarkItem(s, w, ok).store[job])
  {
    var k := WorkerOf(s, w);
    if k.Processed? { MarkOk(s.store[job], k.key, k.err); }
  }

  lemma ResetLevel(s: State, job: string)
    requires Inv(s) && job in s.store
    ensures job in ResetAll(s).store && ItemLevel(s.store[job], ResetAll(s).store[job])
  {
    ResetOk(s.store[job]);
  }

  lemma Untouched(s: State, w: nat, j: string, outcome: Outcome, n: BusyPolling.Attempts)
    ensures StartJob(s, w, j).store == s.store
    ensures InsertItem(s, w, outcome, n).store == s.store
    ensures LeaveLoop(s, w).store == s.store
    ensures FinaliseGet(s, w).store == s.store
  {}

  ghost predicate FinalWriteOf(s: State, step: Step, job: string) {
    step.FinalWrite? && step.ok && WorkerOf(s, step.w).FinalSnap? && WorkerOf(s, step.w).job == job
  }

  lemma WriteLevel(s: State, w: nat, ok: bool, job: string)
    requires Inv(s) && job in s.store
    ensures job in WriteBackRunning(s, w, ok).store
    ensures WriteBackRunning(s, w, ok).store[job] ==
      if QueuedWrite(s, WriteRunning(w, ok), job) then s.store[job].(job := WorkerOf(s, w).snap.(status := Running))
      else s.store[job]
  {}

  lemma FinalWriteLevel(s: State, w: nat, ok: bool, job: string)
    requires Inv(s) && job in s.store
    ensures job in FinaliseWrite(s, w, ok).store
    ensures FinaliseWrite(s, w, ok).store[job] ==
      if FinalWriteOf(s, FinalWrite(w, ok), job) then s.store[job].(job := WorkerOf(s, w).snap) else s.store[job]
  {}

  // What one step does to one job: an operation below the job record, a queued write-back or
  // a finalising write.
  lemma JobAfter(s: State, step: Step, job: string)
    requires Inv(s) && job in s.store
    ensures job in Apply(s, step).store
    ensures QueuedWrite(s, step, job) ==>
      Apply(s, step).store[job] == s.store[job].(job := WorkerOf(s, step.w).snap.(status := Running))
    ensures FinalWriteOf(s, step, job) ==>
      Apply(s, step).store[job] == s.store[job].(job := WorkerOf(s, step.w).snap)
    ensures !QueuedWrite(s, step, job) && !FinalWriteOf(s, step, job) ==>
      ItemLevel(s.store[job], Apply(s, step).store[job])
  {
    hide Inv, Exact, AllTerminal, StartJob, WriteBackRunning, ClaimItem, InsertItem, StoreTrack, MarkItem, LeaveLoop,
      FinaliseGet, FinaliseWrite, ResetAll;
    match step
    case Enqueue(j, items) =>
    case Start(w, j) => Untouched(s, w, j, Rejected(""), 1);
    case WriteRunning(w, ok) => WriteLevel(s, w, ok, job);
    case Claim(w, key) => ClaimLevel(s, w, key, job);
    case Insert(w, o, n) => Untouched(s, w, "", o, n);
    case SetTrack(w, ok) => TrackLevel(s, w, ok, job);
    case Mark(w, ok) => MarkLevel(s, w, ok, job);
    case Drained(w) => Untouched(s, w, "", Rejected(""), 1);
    case FinalGet(w) => Untouched(s, w, "", Rejected(""), 1);
    case FinalWrite(w, ok) => FinalWriteLevel(s, w, ok, job);
    case Stop(w) =>
    case Reset => ResetLevel(s, job);
  }

  // A step keeps exact counters exact if and only if it is not a stale write.
  lemma ExactStepIff(s: State, step: Step, job: string)
    requires Inv(s) && job in s.store && Exact(s.store[job])
    ensures job in Apply(s, step).store
    ensures Exact(Apply(s, step).store[job]) <==> !StaleWrite(s, step, job)
  {
    JobAfter(s, step, job);
    if FinalWriteOf(s, step, job) { FinalWriteExact(s, step.w, job); }
  }

  // A step keeps a terminal status as it is if and only if it does not write a queued snapshot back.
  lemma TerminalStepIff(s: State, step: Step, job: string)
    requires Inv(s) && job in s.store && s.store[job].job.status.Terminal()
    ensures job in Apply(s, step).store
    ensures Apply(s, step).store[job].job.status == s.store[job].job.status <==> !QueuedWrite(s, step, job)
  {
    JobAfter(s, step, job);
    if FinalWriteOf(s, step, job) { FinalWriteExact(s, step.w, job); }
  }

  lemma NewJobExact(s: State, step: Step, job: string)
    requires Inv(s) && job !in s.store && job in Apply(s, step).store
    ensures Exact(Apply(s, step).store[job])
  {
    NoneCounted(Apply(s, step).store[job].items);
  }

  ghost predicate ExactAt(s: State, job: string) {
    job in s.store ==> Exact(s.store[job])
  }

  lemma ExactStep(s: State, step: Step, job: string)
    requires Inv(s) && ExactAt(s, job)
    ensures ExactAt(Apply(s, step), job) <==> !StaleWrite(s, step, job)
  {
    if job in s.store {
      ExactStepIff(s, step, job);
    } else if job in Apply(s, step).store {
      NewJobExact(s, step, job);
    }
  }

  lemma PrefixStep(steps: seq<Step>, n: nat)
    requires n < |steps|
    ensures Exec(Init, steps[..n + 1]) == Apply(Exec(Init, steps[..n]), steps[n])
    ensures Inv(Exec(Init, steps[..n]))
  {
    assert steps[..n + 1] == steps[..n] + [steps[n]];
    ExecSnoc(Init, steps[..n], steps[n]);
    InvExec(Init, steps[..n]);
  }

  lemma {:induction false} ExactPrefix(steps: seq<Step>, job: string, n: nat)
    requires n <= |steps|
    requires forall m :: 0 <= m < n ==> !StaleWrite(Exec(Init, steps[..m]), steps[m], job)
    ensures ExactAt(Exec(Init, steps[..n]), job)
  {
    if n > 0 {
      ExactPrefix(steps, job, n - 1);
      PrefixStep(steps, n - 1);
      ExactStep(Exec(Init, steps[..n - 1]), steps[n - 1], job);
    }
  }

  // A whole run keeps a job's counters exact at every moment if and only if no write in it is stale.
  lemma ExactRunIff(steps: seq<Step>, job: string)
    ensures (forall n :: 0 <= n <= |steps| ==> ExactAt(Exec(Init, steps[..n]), job))
       <==> (forall n :: 0 <= n < |steps| ==> !StaleWrite(Exec(Init, steps[..n]), steps[n], job))
  {
    if forall n :: 0 <= n <= |steps| ==> ExactAt(Exec(Init, steps[..n]), job) {
      forall n | 0 <= n < |steps|
        ensures !StaleWrite(Exec(Init, steps[..n]), steps[n], job)
      {
        PrefixStep(steps, n);
        ExactStep(Exec(Init, steps[..n]), steps[n], job);
      }
    }
    if forall n :: 0 <= n < |steps| ==> !StaleWrite(Exec(Init, steps[..n]), steps[n], job) {
      forall n | 0 <= n <= |steps|
        ensures ExactAt(Exec(Init, steps[..n]), job)
      {
        ExactPrefix(steps, job, n);
      }
    }
  }

  // ---------- reading the queued status alone is enough ----------

  ghost predicate Busy(k: Worker, job: string) {
    !k.Idle? && k.job == job
  }

  ghost predicate Holds(k: Worker, job: string) {
    k.GotQueued? && k.job == job
  }

  ghost predicate ReadsQueued(s: State, step: Step, job: string) {
    && step.Start? && step.job == job && WorkerOf(s, step.w).Idle?
    && job in s.store && s.store[job].job.status == Queued
  }

  // The step does not read the job as queued while another worker is on it.
  ghost predicate LoneRead(s: State, step: Step, job: string) {
    ReadsQueued(s, step, job) ==> forall v: nat :: v != step.w ==> !Busy(WorkerOf(s, v), job)
  }

  ghost predicate LoneReads(s: State, steps: seq<Step>, job: string)
    decreases |steps|
  {
    steps == [] || (LoneRead(s, steps[0], job) && LoneReads(Apply(s, steps[0]), steps[1..], job))
  }

  // Whoever holds a queued snapshot is alone on the job, so what it holds is what is stored.
  ghost predicate Sole(s: State, job: string) {
    forall w: nat :: Holds(WorkerOf(s, w), job) ==>
      && job in s.store && WorkerOf(s, w).snap == s.store[job].job
      && (forall v: nat :: v != w ==> !Busy(WorkerOf(s, v), job))
  }

  // One worker moved on: it neither joined the job nor read it, and the job record changed
  // only if that worker was on the job and no longer holds a queued snapshot.
  ghost predicate Moved(s: State, t: State, w: nat, job: string) {
    && (forall v: nat :: v != w ==> WorkerOf(t, v) == WorkerOf(s, v))
    && (Busy(WorkerOf(t, w), job) ==> Busy(WorkerOf(s, w), job))
    && (Holds(WorkerOf(t, w), job) ==> WorkerOf(t, w) == WorkerOf(s, w))
    && (job in t.store <==> job in s.store)
    && (job in s.store && t.store[job].job != s.store[job].job ==>
          Busy(WorkerOf(s, w), job) && !Holds(WorkerOf(t, w), job))
  }

  lemma SoleMoved(s: State, t: State, w: nat, job: string)
    requires Sole(s, job) && Moved(s, t, w, job)
    ensures Sole(t, job)
  {
    forall v: nat | Holds(WorkerOf(t, v), job)
      ensures job in t.store && WorkerOf(t, v).snap == t.store[job].job
      ensures forall u: nat :: u != v ==> !Busy(WorkerOf(t, u), job)
    {
      assert Holds(WorkerOf(s, v), job);
      assert v != w ==> !Busy(WorkerOf(s, w), job);
    }
  }

  lemma MovedWrites(s: State, w: nat, ok: bool, job: string)
    requires Inv(s)
    ensures Moved(s, WriteBackRunning(s, w, ok), w, job)
    ensures Moved(s, FinaliseWrite(s, w, ok), w, job)
  {
    hide JobOk, Covered, Finished;
  }

  lemma MovedItems(s: State, w: nat, ok: bool, job: string)
    requires Inv(s)
    ensures Moved(s, StoreTrack(s, w, ok), w, job)
    ensures Moved(s, MarkItem(s, w, ok), w, job)
  {
    hide JobOk, Covered, Finished, ErrorsAfter;
  }

  lemma MovedClaim(s: State, w: nat, key: string, job: string)
    requires Inv(s)
    ensures Moved(s, ClaimItem(s, w, key), w, job)
  {}

  lemma MovedInsert(s: State, w: nat, outcome: Outcome, n: BusyPolling.Attempts, job: string)
    requires Inv(s)
    ensures Moved(s, InsertItem(s, w, outcome, n), w, job)
  {}

  lemma MovedRest(s: State, w: nat, job: string)
    requires Inv(s)
    ensures Moved(s, LeaveLoop(s, w), w, job)
    ensures Moved(s, SetWorker(s, w, Idle), w, job)
  {}

  lemma MovedFinal(s: State, w: nat, job: string)
    requires Inv(s)
    ensures Moved(s, FinaliseGet(s, w), w, job)
  {}

  lemma MovedReset(s: State, w: nat, job: string)
    requires Inv(s)
    ensures Moved(s, ResetAll(s), w, job)
  {}

  lemma SoleEnqueue(s: State, j: string, items: seq<Item>, job: string)
    requires Inv(s) && Sole(s, job)
    ensures Sole(EnqueueJob(s, j, items), job)
  {
    forall w: nat
      ensures WorkerOf(EnqueueJob(s, j, items), w) == WorkerOf(s, w)
    {}
  }

  lemma SoleStart(s: State, w: nat, j: string, job: string)
    requires Inv(s) && Sole(s, job) && LoneRead(s, Start(w, j), job)
    ensures Sole(StartJob(s, w, j), job)
  {
    var t := StartJob(s, w, j);
    forall v: nat | v != w
      ensures WorkerOf(t, v) == WorkerOf(s, v)
    {}
    if j == job && t != s && s.store[job].job.status == Running {
      forall v: nat
        ensures !Holds(WorkerOf(t, v), job)
      {
        assert WorkerOk(s.store, WorkerOf(s, v));
      }
    }
  }

  // Every step but a start and an enqueue moves one worker on.
  lemma StepMoves(s: State, step: Step, job: string) returns (x: nat)
    requires Inv(s) && !step.Start? && !step.Enqueue?
    ensures Moved(s, Apply(s, step), x, job)
  {
    hide Inv, StartJob, ClaimItem, InsertItem, StoreTrack, MarkItem, LeaveLoop, FinaliseGet, WriteBackRunning,
      FinaliseWrite, ResetAll, Moved;
    x := 0;
    match step
    case WriteRunning(w, ok) => MovedWrites(s, w, ok, job); x := w;
    case Claim(w, key) => MovedClaim(s, w, key, job); x := w;
    case Insert(w, o, n) => MovedInsert(s, w, o, n, job); x := w;
    case SetTrack(w, ok) => MovedItems(s, w, ok, job); x := w;
    case Mark(w, ok) => MovedItems(s, w, ok, job); x := w;
    case Drained(w) => MovedRest(s, w, job); x := w;
    case FinalGet(w) => MovedFinal(s, w, job); x := w;
    case FinalWrite(w, ok) => MovedWrites(s, w, ok, job); x := w;
    case Stop(w) => MovedRest(s, w, job); x := w;
    case Reset => MovedReset(s, 0, job);
  }

  lemma SoleStep(s: State, step: Step, job: string)
    requires Inv(s) && Sole(s, job) && LoneRead(s, step, job)
    ensures Sole(Apply(s, step), job)
  {
    hide Inv, Sole, LoneRead, Moved;
    match step
    case Enqueue(j, items) => SoleEnqueue(s, j, items, job);
    case Start(w, j) => SoleStart(s, w, j, job);
    case _ =>
      var x := StepMoves(s, step, job);
      SoleMoved(s, Apply(s, step), x, job);
  }

  // If the job is never read as queued while another worker is on it, its counters are exact throughout.
  lemma {:induction false} LoneReadsExact(s: State, steps: seq<Step>, job: string)
    requires Inv(s) && Sole(s, job) && ExactAt(s, job) && LoneReads(s, steps, job)
    ensures Inv(Exec(s, steps)) && Sole(Exec(s, steps), job) && ExactAt(Exec(s, steps), job)
    decreases |steps|
  {
    if steps != [] {
      InvStep(s, steps[0]);
      SoleStep(s, steps[0], job);
      assert !StaleWrite(s, steps[0], job);
      ExactStep(s, steps[0], job);
      LoneReadsExact(Apply(s, steps[0]), steps[1..], job);
    }
  }

  // ... and a terminal status, once reached, is never left.
  lemma {:induction false} LoneReadsTerminal(s: State, steps: seq<Step>, job: string)
    requires Inv(s) && Sole(s, job) && LoneReads(s, steps, job)
    requires job in s.store && s.store[job].job.status.Terminal()
    ensures job in Exec(s, steps).store && Exec(s, steps).store[job].job.status == s.store[job].job.status
    decreases |steps|
  {
    if steps != [] {
      InvStep(s, steps[0]);
      SoleStep(s, steps[0], job);
      HolderSeesQueued(s, steps[0], job);
      TerminalStepIff(s, steps[0], job);
      LoneReadsTerminal(Apply(s, steps[0]), steps[1..], job);
    }
  }

  // A snapshot that agrees with the store is queued, so the store is not terminal.
  lemma HolderSeesQueued(s: State, step: Step, job: string)
    requires Inv(s) && Sole(s, job) && job in s.store && s.store[job].job.status.Terminal()
    ensures !QueuedWrite(s, step, job)
  {
    assert step.WriteRunning? ==> WorkerOk(s.store, WorkerOf(s, step.w));
    assert step.WriteRunning? ==> !Holds(WorkerOf(s, step.w), job);
  }

  // Both together, for whole runs, split anywhere: whenever every read of the job as queued happens while
  // no other worker is on the job, after crashes and resets included, counters are exact and a terminal status
  // is final.
  lemma LoneReaderRun(before: seq<Step>, after: seq<Step>, job: string)
    requires job in Exec(Init, before).store
    requires LoneReads(Init, before, job) && LoneReads(Exec(Init, before), after, job)
    ensures var b := Exec(Init, before).store[job];
      && b.job.done == Count(b.items, ItemDone)
      && b.job.failed == Count(b.items, ItemFailed)
      && |b.job.errors| == (if b.job.failed <= MAX_ERRORS then b.job.failed else MAX_ERRORS)
      && (b.job.status.Terminal() ==>
           && job in Exec(Exec(Init, before), after).store
           && Exec(Exec(Init, before), after).store[job].job.status == b.job.status)
  {
    LoneReadsExact(Init, before, job);
    if Exec(Init, before).store[job].job.status.Terminal() {
      LoneReadsTerminal(Exec(Init, before), after, job);
    }
  }

  // ---------- one worker that may crash and read again ----------

  // Every read of the job as queued in this run is by worker w.
  ghost predicate OnlyReader(s: State, steps: seq<Step>, job: string, w: nat)
    decreases |steps|
  {
    steps == [] || (OnlyReads(s, steps[0], job, w) && OnlyReader(Apply(s, steps[0]), steps[1..], job, w))
  }

  ghost predicate OnlyReads(s: State, step: Step, job: string, w: nat) {
    ReadsQueued(s, step, job) ==> step.w == w
  }

  // While the job is queued nobody but w is on it.
  ghost predicate QueuedFor(s: State, job: string, w: nat) {
    (job in s.store ==> s.store[job].job.status == Queued) ==> forall v: nat :: v != w ==> !Busy(WorkerOf(s, v), job)
  }

  lemma QueuedForMoved(s: State, t: State, x: nat, job: string, w: nat)
    requires QueuedFor(s, job, w) && Moved(s, t, x, job)
    requires job in s.store && s.store[job].job.status != Queued ==> t.store[job].job.status != Queued
    ensures QueuedFor(t, job, w)
  {}

  // No step makes a job queued again.
  lemma NeverQueuedAgain(s: State, step: Step, job: string)
    requires Inv(s) && job in s.store && s.store[job].job.status != Queued
    ensures job in Apply(s, step).store && Apply(s, step).store[job].job.status != Queued
  {
    JobAfter(s, step, job);
    assert step.FinalWrite? ==> WorkerOk(s.store, WorkerOf(s, step.w));
    hide Inv;
  }

  lemma QueuedForStep(s: State, step: Step, job: string, w: nat)
    requires Inv(s) && QueuedFor(s, job, w) && OnlyReads(s, step, job, w)
    ensures QueuedFor(Apply(s, step), job, w)
  {
    if job in s.store && s.store[job].job.status != Queued {
      NeverQueuedAgain(s, step, job);
    } else if step.Start? {
      forall v: nat | v != step.w
        ensures WorkerOf(Apply(s, step), v) == WorkerOf(s, v)
      {}
    } else if step.Enqueue? {
      forall v: nat
        ensures WorkerOf(Apply(s, step), v) == WorkerOf(s, v)
      {}
    } else {
      var x := StepMoves(s, step, job);
      QueuedForMoved(s, Apply(s, step), x, job, w);
    }
  }

  lemma {:induction false} OnlyReaderIsLone(s: State, steps: seq<Step>, job: string, w: nat)
    requires Inv(s) && QueuedFor(s, job, w) && OnlyReader(s, steps, job, w)
    ensures Inv(Exec(s, steps)) && QueuedFor(Exec(s, steps), job, w) && LoneReads(s, steps, job)
    decreases |steps|
  {
    if steps != [] {
      InvStep(s, steps[0]);
      QueuedForStep(s, steps[0], job, w);
      OnlyReaderIsLone(Apply(s, steps[0]), steps[1..], job, w);
    }
  }

  // In particular when one worker alone ever reads the job as queued, however often it crashes before its
  // write-back and reads again, and whoever else helps to drain it.
  lemma OnlyReaderRun(before: seq<Step>, after: seq<Step>, job: string, w: nat)
    requires job in Exec(Init, before).store
    requires OnlyReader(Init, before, job, w) && OnlyReader(Exec(Init, before), after, job, w)
    ensures Exact(Exec(Init, before).store[job])
    ensures var status := Exec(Init, before).store[job].job.status;
      status.Terminal() ==>
        && job in Exec(Exec(Init, before), after).store
        && Exec(Exec(Init, before), after).store[job].job.status == status
  {
    OnlyReaderIsLone(Init, before, job, w);
    OnlyReaderIsLone(Exec(Init, before), after, job, w);
    LoneReaderRun(before, after, job);
  }
}
