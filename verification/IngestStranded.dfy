// The runs that the exactness condition rules out: a late write-back leaves a job "running" for ever, even
// a finished one; and a running job can still be finished exactly when its counters are exact.
module IngestStranded {
  import opened IngestModel
  import opened Options
  import opened IngestRun
  import opened IngestExact
  import BusyPolling

  // The job is running and nobody holds a snapshot of it.
  ghost predicate Underway(s: State, job: string) {
    && job in s.store && s.store[job].job.status == Running
    && (forall w: nat :: !HoldsSnapshot(WorkerOf(s, w), job))
  }

  // ... and its record counts fewer outcomes than its items show.
  ghost predicate Stranded(s: State, job: string) {
    Underway(s, job) && !Exact(s.store[job])
  }

  ghost predicate HoldsSnapshot(k: Worker, job: string) {
    (k.GotQueued? || k.FinalSnap?) && k.job == job
  }

  ghost predicate OnlyWorker(s: State, t: State, w: nat) {
    forall v: nat :: v != w ==> WorkerOf(t, v) == WorkerOf(s, v)
  }

  // ---------- a late write-back strands the job ----------

  // When one worker holds a queued snapshot of an exact job and nobody else holds any, its write-back strands
  // the job if and only if it is stale.
  lemma LateWriteStrands(s: State, w: nat, job: string)
    requires Inv(s) && job in s.store && Exact(s.store[job])
    requires WorkerOf(s, w).GotQueued? && WorkerOf(s, w).job == job
    requires forall v: nat :: v != w ==> !HoldsSnapshot(WorkerOf(s, v), job)
    ensures Stranded(Apply(s, WriteRunning(w, true)), job) <==> StaleWrite(s, WriteRunning(w, true), job)
  {
    WriteLevel(s, w, true, job);
    var t := WriteBackRunning(s, w, true);
    forall v: nat
      ensures !HoldsSnapshot(WorkerOf(t, v), job)
    {
      assert v != w ==> WorkerOf(t, v) == WorkerOf(s, v);
    }
  }

  lemma ReadBy(s: State, w: nat, job: string) returns (t: State)
    requires WorkerOf(s, w) == Idle && job in s.store && s.store[job].job.status == Queued
    ensures t == Apply(s, Start(w, job)) && t.store == s.store && OnlyWorker(s, t, w)
    ensures WorkerOf(t, w) == GotQueued(job, s.store[job].job)
  {
    t := Apply(s, Start(w, job));
  }

  lemma WriteBy(s: State, w: nat, job: string) returns (t: State)
    requires job in s.store && WorkerOf(s, w) == GotQueued(job, s.store[job].job) && s.store[job].job.id == job
    ensures t == Apply(s, WriteRunning(w, true)) && OnlyWorker(s, t, w) && WorkerOf(t, w) == Draining(job)
    ensures t.store == s.store[job := s.store[job].(job := s.store[job].job.(status := Running))]
  {
    t := Apply(s, WriteRunning(w, true));
  }

  lemma ClaimBy(s: State, w: nat, job: string, it: Item) returns (t: State)
    requires WorkerOf(s, w) == Draining(job) && job in s.store && s.store[job].items == [it] && it.status == ItemPending
    ensures t == Apply(s, Claim(w, it.key)) && OnlyWorker(s, t, w) && WorkerOf(t, w) == Claimed(job, it.key, it.trackID)
    ensures t.store == s.store[job := s.store[job].(items := [it.(status := ItemRunning)])]
  {
    t := Apply(s, Claim(w, it.key));
    assert IndexOf([it], it.key) == 0;
    assert [it][0 := it.(status := ItemRunning)] == [it.(status := ItemRunning)];
  }

  lemma InsertBy(s: State, w: nat, job: string, key: string, track: string) returns (t: State)
    requires WorkerOf(s, w) == Claimed(job, key, "") && track != ""
    ensures t == Apply(s, Insert(w, Accepted(track), 1)) && OnlyWorker(s, t, w) && t.store == s.store
    ensures WorkerOf(t, w) == Created(job, key, track)
  {
    t := Apply(s, Insert(w, Accepted(track), 1));
  }

  lemma TrackBy(s: State, w: nat, job: string, it: Item, track: string) returns (t: State)
    requires WorkerOf(s, w) == Created(job, it.key, track) && job in s.store && s.store[job].items == [it]
    ensures t == Apply(s, SetTrack(w, true)) && OnlyWorker(s, t, w) && WorkerOf(t, w) == Processed(job, it.key, None)
    ensures t.store == s.store[job := s.store[job].(items := [it.(trackID := track)])]
  {
    t := Apply(s, SetTrack(w, true));
    assert IndexOf([it], it.key) == 0;
    assert [it][0 := it.(trackID := track)] == [it.(trackID := track)];
  }

  lemma MarkBy(s: State, w: nat, job: string, it: Item) returns (t: State)
    requires WorkerOf(s, w) == Processed(job, it.key, None) && job in s.store && s.store[job].items == [it]
    requires it.status == ItemRunning
    ensures t == Apply(s, Mark(w, true)) && OnlyWorker(s, t, w) && WorkerOf(t, w) == Draining(job)
    ensures t.store ==
      s.store[job := Bundle(s.store[job].job.(done := s.store[job].job.done + 1), [it.(status := ItemDone)])]
  {
    t := Apply(s, Mark(w, true));
    assert IndexOf([it], it.key) == 0;
    assert [it][0 := it.(status := ItemDone)] == [it.(status := ItemDone)];
  }

  lemma FinaliseBy(s: State, w: nat, job: string) returns (t: State)
    requires WorkerOf(s, w) == Draining(job) && job in s.store && s.store[job].job.id == job
    requires s.store[job].job.status == Running && s.store[job].job.failed == 0
    requires s.store[job].job.done >= s.store[job].job.total
    ensures t == Apply(Apply(Apply(s, Drained(w)), FinalGet(w)), FinalWrite(w, true))
    ensures OnlyWorker(s, t, w) && WorkerOf(t, w) == Idle
    ensures t.store == s.store[job := s.store[job].(job := s.store[job].job.(status := Succeeded))]
  {
    var s1 := Apply(s, Drained(w));
    var s2 := Apply(s1, FinalGet(w));
    assert WorkerOf(s2, w) == FinalSnap(job, s.store[job].job.(status := Succeeded));
    t := Apply(s2, FinalWrite(w, true));
  }

  // Workers 0 and 1 both read a queued job; worker 0 writes it back as running.
  lemma ReadTwice(job: string, item: Item) returns (run: seq<Step>, s: State, it: Item)
    ensures s == Exec(Init, run) && it.status == ItemPending && it.trackID == ""
    ensures s.store == map[job := Bundle(Job(job, Running, 1, 0, 0, []), [it])]
    ensures WorkerOf(s, 0) == Draining(job) && WorkerOf(s, 1) == GotQueued(job, Job(job, Queued, 1, 0, 0, []))
    ensures forall v: nat :: v > 1 ==> WorkerOf(s, v) == Idle
  {
    it := item.(status := ItemPending, err := "", trackID := "");
    run := [Enqueue(job, [item])];
    var s1 := Apply(Init, run[0]);
    assert run[1..] == [] && NewBundle(job, [item]).items == [it];
    ExecSnoc(Init, run, Start(0, job));
    var s2 := ReadBy(s1, 0, job);
    run := run + [Start(0, job)];
    ExecSnoc(Init, run, Start(1, job));
    var s3 := ReadBy(s2, 1, job);
    run := run + [Start(1, job)];
    ExecSnoc(Init, run, WriteRunning(0, true));
    s := WriteBy(s3, 0, job);
    run := run + [WriteRunning(0, true)];
  }

  // Worker 0 drains the only item.
  lemma DrainOne(before: seq<Step>, job: string, it: Item, s: State) returns (run: seq<Step>, t: State)
    requires s == Exec(Init, before) && it.status == ItemPending && it.trackID == ""
    requires s.store == map[job := Bundle(Job(job, Running, 1, 0, 0, []), [it])]
    requires WorkerOf(s, 0) == Draining(job)
    ensures t == Exec(Init, run) && OnlyWorker(s, t, 0) && WorkerOf(t, 0) == Draining(job)
    ensures t.store == map[job := Bundle(Job(job, Running, 1, 1, 0, []), [it.(status := ItemDone, trackID := "t")])]
  {
    ExecSnoc(Init, before, Claim(0, it.key));
    var s5 := ClaimBy(s, 0, job, it);
    run := before + [Claim(0, it.key)];
    ExecSnoc(Init, run, Insert(0, Accepted("t"), 1));
    var s6 := InsertBy(s5, 0, job, it.key, "t");
    run := run + [Insert(0, Accepted("t"), 1)];
    ExecSnoc(Init, run, SetTrack(0, true));
    var s7 := TrackBy(s6, 0, job, it.(status := ItemRunning), "t");
    run := run + [SetTrack(0, true)];
    ExecSnoc(Init, run, Mark(0, true));
    t := MarkBy(s7, 0, job, it.(status := ItemRunning, trackID := "t"));
    run := run + [Mark(0, true)];
  }

  // Even a finished job can be hit, for any job id and item: every item is terminal, the counters are exact and
  // the status is succeeded, and the one write-back that is still pending strands the job.
  lemma LateWriteReachable(job: string, item: Item) returns (run: seq<Step>)
    ensures var s := Exec(Init, run);
      && job in s.store && s.store[job].job.status == Succeeded && Exact(s.store[job])
      && WorkerOf(s, 1).GotQueued? && AllTerminal(s.store[job].items)
      && Stranded(Apply(s, WriteRunning(1, true)), job)
  {
    var run4, a, it := ReadTwice(job, item);
    var run8, b := DrainOne(run4, job, it, a);
    var s := FinaliseBy(b, 0, job);
    ExecSnoc(Init, run8, Drained(0));
    ExecSnoc(Init, run8 + [Drained(0)], FinalGet(0));
    ExecSnoc(Init, run8 + [Drained(0)] + [FinalGet(0)], FinalWrite(0, true));
    run := run8 + [Drained(0)] + [FinalGet(0)] + [FinalWrite(0, true)];
    InvExec(Init, run);
    FinishedIsExact(s.store[job].job, s.store[job].items);
    forall v: nat | v != 1
      ensures !HoldsSnapshot(WorkerOf(s, v), job)
    {
      assert v != 0 ==> WorkerOf(s, v) == WorkerOf(b, v) == WorkerOf(a, v) == Idle;
    }
    assert WorkerOf(s, 1) == WorkerOf(b, 1) == WorkerOf(a, 1);
    LateWriteStrands(s, 1, job);
  }

  // ---------- and nothing ever brings it back ----------

  lemma NoneTaken(s: State, w: nat, j: string, key: string, v: nat, job: string)
    requires Stranded(s, job)
    ensures !HoldsSnapshot(WorkerOf(StartJob(s, w, j), v), job)
    ensures !HoldsSnapshot(WorkerOf(ClaimItem(s, w, key), v), job)
    ensures !HoldsSnapshot(WorkerOf(LeaveLoop(s, w), v), job)
  {
    hide Exact;
    assert !HoldsSnapshot(WorkerOf(s, v), job);
  }

  // Finalisation reads fewer outcomes than items and gives up.
  lemma NoneFinalised(s: State, w: nat, v: nat, job: string)
    requires Inv(s) && Stranded(s, job)
    ensures !HoldsSnapshot(WorkerOf(FinaliseGet(s, w), v), job)
  {
    assert !HoldsSnapshot(WorkerOf(s, v), job);
    var b := s.store[job];
    if b.job.done + b.job.failed >= b.job.total {
      FinishedIsExact(b.job, b.items);
    }
  }

  lemma NoneInserted(s: State, w: nat, o: Outcome, n: BusyPolling.Attempts, v: nat, job: string)
    requires Stranded(s, job)
    ensures !HoldsSnapshot(WorkerOf(InsertItem(s, w, o, n), v), job)
  {
    hide Exact;
    assert !HoldsSnapshot(WorkerOf(s, v), job);
  }

  lemma NoneKept(s: State, w: nat, ok: bool, v: nat, job: string)
    requires Stranded(s, job)
    ensures !HoldsSnapshot(WorkerOf(StoreTrack(s, w, ok), v), job)
    ensures !HoldsSnapshot(WorkerOf(MarkItem(s, w, ok), v), job)
  {
    hide Exact;
    assert !HoldsSnapshot(WorkerOf(s, v), job);
  }

  lemma NoneWritten(s: State, w: nat, ok: bool, j: string, items: seq<Item>, v: nat, job: string)
    requires Stranded(s, job)
    ensures !HoldsSnapshot(WorkerOf(WriteBackRunning(s, w, ok), v), job)
    ensures !HoldsSnapshot(WorkerOf(FinaliseWrite(s, w, ok), v), job)
    ensures !HoldsSnapshot(WorkerOf(SetWorker(s, w, Idle), v), job)
    ensures !HoldsSnapshot(WorkerOf(ResetAll(s), v), job)
    ensures !HoldsSnapshot(WorkerOf(EnqueueJob(s, j, items), v), job)
  {
    hide Exact;
    assert !HoldsSnapshot(WorkerOf(s, v), job);
  }

  lemma NoneAfter(s: State, step: Step, v: nat, job: string)
    requires Inv(s) && Stranded(s, job)
    ensures !HoldsSnapshot(WorkerOf(Apply(s, step), v), job)
  {
    hide Inv, Stranded, HoldsSnapshot, EnqueueJob, StartJob, WriteBackRunning, ClaimItem, InsertItem, StoreTrack,
      MarkItem, LeaveLoop, FinaliseGet, FinaliseWrite, ResetAll;
    match step
    case Enqueue(j, items) => NoneWritten(s, 0, false, j, items, v, job);
    case Start(w, j) => NoneTaken(s, w, j, "", v, job);
    case WriteRunning(w, ok) => NoneWritten(s, w, ok, "", [], v, job);
    case Claim(w, key) => NoneTaken(s, w, "", key, v, job);
    case Insert(w, o, n) => NoneInserted(s, w, o, n, v, job);
    case SetTrack(w, ok) => NoneKept(s, w, ok, v, job);
    case Mark(w, ok) => NoneKept(s, w, ok, v, job);
    case Drained(w) => NoneTaken(s, w, "", "", v, job);
    case FinalGet(w) => NoneFinalised(s, w, v, job);
    case FinalWrite(w, ok) => NoneWritten(s, w, ok, "", [], v, job);
    case Stop(w) => NoneWritten(s, w, false, "", [], v, job);
    case Reset => NoneWritten(s, 0, false, "", [], v, job);
  }

  lemma StrandedStep(s: State, step: Step, job: string)
    requires Inv(s) && Stranded(s, job)
    ensures Stranded(Apply(s, step), job)
  {
    JobAfter(s, step, job);
    assert step.WriteRunning? || step.FinalWrite? ==> !HoldsSnapshot(WorkerOf(s, step.w), job);
    hide Exact;
    forall v: nat
      ensures !HoldsSnapshot(WorkerOf(Apply(s, step), v), job)
    {
      NoneAfter(s, step, v, job);
    }
  }

  // A stranded job is never reported finished: no continuation, with any workers, resets
  // or crashes, brings it back to a terminal status.
  lemma {:induction false} StrandedForever(s: State, steps: seq<Step>, job: string)
    requires Inv(s) && Stranded(s, job)
    ensures Stranded(Exec(s, steps), job) && !Exec(s, steps).store[job].job.status.Terminal()
    decreases |steps|
  {
    if steps != [] {
      InvStep(s, steps[0]);
      StrandedStep(s, steps[0], job);
      StrandedForever(Apply(s, steps[0]), steps[1..], job);
    }
  }

  // ---------- and an exact one can always be finished ----------

  ghost predicate NoneRunning(items: seq<Item>) {
    forall i :: 0 <= i < |items| ==> items[i].status != ItemRunning
  }

  // Worker 0 drains this exact job, and no item is left with another worker.
  ghost predicate Drainable(s: State, job: string) {
    && Inv(s) && WorkerOf(s, 0) == Draining(job) && job in s.store && s.store[job].job.status == Running
    && Exact(s.store[job]) && NoneRunning(s.store[job].items)
  }

  lemma ExecThree(s: State, a: Step, b: Step, c: Step)
    ensures Exec(s, [a, b, c]) == Apply(Apply(Apply(s, a), b), c)
  {
    ExecSnoc(s, [], a);
    ExecSnoc(s, [a], b);
    ExecSnoc(s, [a, b], c);
    assert [] + [a] == [a] && [a] + [b] == [a, b] && [a, b] + [c] == [a, b, c];
  }

  // A worker that forgets everything, a reset, and the worker's next read of the job.
  lemma TakeOver(s: State, job: string) returns (run: seq<Step>)
    requires Inv(s) && job in s.store && s.store[job].job.status == Running && Exact(s.store[job])
    ensures Drainable(Exec(s, run), job)
  {
    hide Inv, Exact, ResetIn;
    run := [Stop(0), Reset, Start(0, job)];
    ExecThree(s, Stop(0), Reset, Start(0, job));
    InvExec(s, run);
    ResetLeavesExact(s, job);
    var s2 := Apply(Apply(s, Stop(0)), Reset);
    assert s2.store[job] == ResetIn(s.store[job]) && WorkerOf(s2, 0) == Idle;
  }

  lemma ResetLeavesExact(s: State, job: string)
    requires Inv(s) && job in s.store && s.store[job].job.status == Running && Exact(s.store[job])
    ensures Exact(ResetIn(s.store[job])) && NoneRunning(ResetIn(s.store[job]).items)
    ensures ResetIn(s.store[job]).job == s.store[job].job
  {
    ResetOk(s.store[job]);
  }

  // One claim, a failed insert unless a track id is stored, and the mark: one item less is pending.
  lemma DrainRound(s: State, job: string) returns (run: seq<Step>)
    requires Drainable(s, job) && FirstPending(s.store[job].items) < |s.store[job].items|
    ensures Drainable(Exec(s, run), job)
    ensures Count(Exec(s, run).store[job].items, ItemPending) < Count(s.store[job].items, ItemPending)
  {
    hide Inv, Exact, JobOk, Count;
    var b := s.store[job];
    var i := FirstPending(b.items);
    var key := b.items[i].key;
    var err := if b.items[i].trackID != "" then None else Some("");
    run := [Claim(0, key), Insert(0, Rejected(""), 1), Mark(0, true)];
    ExecThree(s, Claim(0, key), Insert(0, Rejected(""), 1), Mark(0, true));
    InvExec(s, run);
    assert JobOk(b) by {
      StoredJobOk(s, job);
    }
    var d := RoundBundle(b, err);
    var s2 := Apply(Apply(s, Claim(0, key)), Insert(0, Rejected(""), 1));
    assert s2.store[job] == ClaimAt(b, i) && WorkerOf(s2, 0) == Processed(job, key, err);
    assert Exec(s, run).store[job] == d && WorkerOf(Exec(s, run), 0) == Draining(job);
  }

  lemma StoredJobOk(s: State, job: string)
    requires Inv(s) && job in s.store
    ensures JobOk(s.store[job]) && s.store[job].job.id == job
  {}

  // What a round does to the job.
  lemma RoundBundle(b: Bundle, err: Option<string>) returns (d: Bundle)
    requires JobOk(b) && Exact(b) && NoneRunning(b.items) && FirstPending(b.items) < |b.items|
    ensures var i := FirstPending(b.items);
      IndexOf(b.items, b.items[i].key) == i && d == MarkIn(ClaimAt(b, i), b.items[i].key, err)
    ensures Exact(d) && NoneRunning(d.items) && d.job.status == b.job.status
    ensures Count(d.items, ItemPending) < Count(b.items, ItemPending)
  {
    var i := FirstPending(b.items);
    var c := ClaimAt(b, i);
    KeyAt(b.items, i);
    ClaimOk(b, i);
    KeyAt(c.items, i);
    MarkOk(c, b.items[i].key, err);
    d := MarkIn(c, b.items[i].key, err);
    assert d.items == b.items[i := d.items[i]] && d.items[i].status.Terminal();
    CountUpdate(b.items, i, d.items[i], ItemPending);
  }

  // With every item terminal the counters account for the total, and the worker finalises.
  lemma FinishDrained(s: State, job: string) returns (run: seq<Step>)
    requires Drainable(s, job) && FirstPending(s.store[job].items) == |s.store[job].items|
    ensures job in Exec(s, run).store && Exec(s, run).store[job].job.status.Terminal()
  {
    var j := s.store[job].job;
    TerminalCounts(s.store[job].items);
    StoredJobOk(s, job);
    assert j.done + j.failed == j.total && j.id == job;
    hide Inv, Exact, JobOk;
    run := [Drained(0), FinalGet(0), FinalWrite(0, true)];
    ExecThree(s, Drained(0), FinalGet(0), FinalWrite(0, true));
    var s2 := Apply(Apply(s, Drained(0)), FinalGet(0));
    assert WorkerOf(s2, 0) == FinalSnap(job, j.(status := Classify(j.done, j.failed)));
  }

  lemma {:induction false} DrainAll(s: State, job: string) returns (run: seq<Step>)
    requires Drainable(s, job)
    ensures job in Exec(s, run).store && Exec(s, run).store[job].job.status.Terminal()
    decreases Count(s.store[job].items, ItemPending)
  {
    if FirstPending(s.store[job].items) == |s.store[job].items| {
      run := FinishDrained(s, job);
    } else {
      var round := DrainRound(s, job);
      var rest := DrainAll(Exec(s, round), job);
      ExecAppend(s, round, rest);
      run := round + rest;
    }
  }

  ghost predicate CanFinish(s: State, job: string) {
    exists run: seq<Step> :: job in Exec(s, run).store && Exec(s, run).store[job].job.status.Terminal()
  }

  // In every reachable state: a running job that nobody holds a snapshot of can still be finished by some
  // continuation if and only if its counters are exact.
  lemma FinishableIff(before: seq<Step>, job: string)
    requires Underway(Exec(Init, before), job)
    ensures CanFinish(Exec(Init, before), job) <==> Exact(Exec(Init, before).store[job])
  {
    var s := Exec(Init, before);
    InvExec(Init, before);
    if Exact(s.store[job]) {
      var first := TakeOver(s, job);
      var rest := DrainAll(Exec(s, first), job);
      ExecAppend(s, first, rest);
      assert CanFinish(s, job);
    } else {
      forall run: seq<Step>
        ensures job in Exec(s, run).store && !Exec(s, run).store[job].job.status.Terminal()
      {
        StrandedForever(s, run, job);
      }
    }
  }
}
