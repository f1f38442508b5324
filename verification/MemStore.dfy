// The in-memory job store, its enqueuer, and one worker draining a job on it.
module MemStore {
  import opened IngestModel
  import opened Options
  import Run = IngestRun

  datatype StoreError = JobExists | JobNotFound
  datatype Result<+T> = Ok(value: T) | Err(error: StoreError)

  class MemStore {
    var jobs: map<string, Bundle>

    // Every job is filed under its own id and its counters are covered by its items.
    ghost predicate Valid()
      reads this
    {
      forall j :: j in jobs ==> jobs[j].job.id == j && JobOk(jobs[j])
    }

    constructor ()
      ensures Valid() && jobs == map[]
    {
      jobs := map[];
    }

    method CreateJob(j: Job, items: seq<Item>) returns (r: Result<()>)
      modifies this
      ensures j.id in old(jobs) ==> r == Err(JobExists) && jobs == old(jobs)
      ensures j.id !in old(jobs) ==> r == Ok(()) && jobs == old(jobs)[j.id := Run.NewBundle(j.id, items).(job := j)]
      ensures r == Ok(()) ==>
        && jobs[j.id].job == j && |jobs[j.id].items| == |items|
        && forall i :: 0 <= i < |items| ==>
             jobs[j.id].items[i] == Item(items[i].key, items[i].text, ItemPending, "", "")
    {
      if j.id in jobs {
        return Err(JobExists);
      }
      var b: seq<Item> := [];
      for i := 0 to |items|
        invariant b == Run.NewBundle(j.id, items).items[..i]
      {
        b := b + [items[i].(status := ItemPending, err := "", trackID := "")];
      }
      assert b == Run.NewBundle(j.id, items).items;
      jobs := jobs[j.id := Bundle(j, b)];
      r := Ok(());
    }

    method GetJob(id: string) returns (r: Result<Job>)
      ensures r == if id in jobs then Ok(jobs[id].job) else Err(JobNotFound)
    {
      r := if id in jobs then Ok(jobs[id].job) else Err(JobNotFound);
    }

    method UpdateJob(j: Job) returns (r: Result<()>)
      modifies this
      ensures j.id !in old(jobs) ==> r == Err(JobNotFound) && jobs == old(jobs)
      ensures j.id in old(jobs) ==> r == Ok(()) && jobs == old(jobs)[j.id := old(jobs)[j.id].(job := j)]
    {
      if j.id !in jobs {
        return Err(JobNotFound);
      }
      jobs := jobs[j.id := jobs[j.id].(job := j)];
      r := Ok(());
    }

    // Takes the first pending item, with the track id stored for it.
    method ClaimNextItem(jobID: string) returns (r: Result<Option<Item>>)
      modifies this
      ensures jobID !in old(jobs) ==> r == Err(JobNotFound) && jobs == old(jobs)
      ensures jobID in old(jobs) ==>
        var b := old(jobs)[jobID];
        var i := FirstPending(b.items);
        if i == |b.items| then r == Ok(None) && jobs == old(jobs)
        else r == Ok(Some(b.items[i].(status := ItemRunning))) && jobs == old(jobs)[jobID := ClaimAt(b, i)]
    {
      if jobID !in jobs {
        return Err(JobNotFound);
      }
      var b := jobs[jobID];
      for i := 0 to |b.items|
        invariant jobs == old(jobs)
        invariant forall k :: 0 <= k < i ==> b.items[k].status != ItemPending
      {
        if b.items[i].status == ItemPending {
          var it := b.items[i].(status := ItemRunning);
          jobs := jobs[jobID := b.(items := b.items[i := it])];
          return Ok(Some(it));
        }
      }
      r := Ok(None);
    }

    method SetItemTrackID(jobID: string, key: string, trackID: string) returns (r: Result<()>)
      modifies this
      ensures jobID !in old(jobs) ==> r == Err(JobNotFound) && jobs == old(jobs)
      ensures jobID in old(jobs) ==>
        r == Ok(()) && jobs == old(jobs)[jobID := SetTrackIn(old(jobs)[jobID], key, trackID)]
    {
      if jobID !in jobs {
        return Err(JobNotFound);
      }
      var b := jobs[jobID];
      for i := 0 to |b.items|
        invariant jobs == old(jobs)
        invariant forall k :: 0 <= k < i ==> b.items[k].key != key
      {
        if b.items[i].key == key {
          jobs := jobs[jobID := b.(items := b.items[i := b.items[i].(trackID := trackID)])];
          return Ok(());
        }
      }
      r := Ok(());
    }

    // Marks the item terminal and bumps the matching counter in one critical section.
    method MarkItemDoneAndProgress(jobID: string, key: string, runErr: Option<string>) returns (r: Result<()>)
      modifies this
      ensures jobID !in old(jobs) ==> r == Err(JobNotFound) && jobs == old(jobs)
      ensures jobID in old(jobs) ==> r == Ok(()) && jobs == old(jobs)[jobID := MarkIn(old(jobs)[jobID], key, runErr)]
    {
      if jobID !in jobs {
        return Err(JobNotFound);
      }
      var b := jobs[jobID];
      for i := 0 to |b.items|
        invariant jobs == old(jobs)
        invariant forall k :: 0 <= k < i ==> b.items[k].key != key
      {
        if b.items[i].key == key {
          if b.items[i].status == ItemDone || b.items[i].status == ItemFailed {
            return Ok(());
          }
          var it := b.items[i];
          var j := b.job;
          if runErr.Some? {
            it := it.(status := ItemFailed, err := runErr.value);
            j := j.(failed := j.failed + 1);
            if |j.errors| < MAX_ERRORS {
              j := j.(errors := j.errors + [ItemError(key, runErr.value)]);
            }
          } else {
            it := it.(status := ItemDone);
            j := j.(done := j.done + 1);
          }
          jobs := jobs[jobID := Bundle(j, b.items[i := it])];
          return Ok(());
        }
      }
      r := Ok(());
    }

    // The running items of unfinished jobs, by job and position.
    ghost function Orphans(): set<(string, int)>
      reads this
    {
      OrphansAmong(jobs, jobs.Keys)
    }

    // Returns orphaned running items of unfinished jobs to pending and counts them.
    method ResetRunningItems() returns (n: nat)
      modifies this
      ensures jobs == map j | j in old(jobs) :: ResetIn(old(jobs)[j])
      ensures n == |old(Orphans())|
    {
      n := 0;
      var todo := jobs.Keys;
      ghost var was := jobs;
      assert OrphansAmong(was, was.Keys - todo) == {};
      assert jobs == ResetExcept(was, todo);
      hide OrphansAmong, RunningIn, ResetIn, ResetExcept;
      while todo != {}
        invariant todo <= was.Keys && jobs == ResetExcept(was, todo)
        invariant n == |OrphansAmong(was, was.Keys - todo)|
        decreases |todo|
      {
        var id :| id in todo;
        OrphansMore(was, was.Keys - todo, id);
        ResetOneMore(was, todo, id);
        assert was.Keys - (todo - {id}) == was.Keys - todo + {id};
        todo := todo - {id};
        var b := jobs[id];
        if b.job.status.Terminal() {
          TerminalIsKept(b);
        } else {
          var items, k := ResetItems(id, b);
          n := n + k;
          jobs := jobs[id := b.(items := items)];
        }
      }
      assert was.Keys - todo == was.Keys;
      ResetEverything(was);
    }

    method ListUnfinishedJobs() returns (ids: set<string>)
      ensures ids == set j | j in jobs && !jobs[j].job.status.Terminal()
    {
      ids := {};
      var todo := jobs.Keys;
      while todo != {}
        invariant todo <= jobs.Keys
        invariant ids == set j | j in jobs && j !in todo && !jobs[j].job.status.Terminal()
        decreases |todo|
      {
        var id :| id in todo;
        todo := todo - {id};
        if !jobs[id].job.status.Terminal() {
          ids := ids + {id};
        }
      }
    }
  }

  // The running items of the unfinished ones among these jobs.
  ghost function OrphansAmong(jobs: map<string, Bundle>, ids: set<string>): set<(string, int)> {
    set j, i | j in ids && j in jobs && !jobs[j].job.status.Terminal() && 0 <= i < |jobs[j].items|
            && jobs[j].items[i].status == ItemRunning :: (j, i)
  }

  function ResetExcept(jobs: map<string, Bundle>, todo: set<string>): map<string, Bundle> {
    map j | j in jobs :: if j in todo then jobs[j] else ResetIn(jobs[j])
  }

  lemma ResetOneMore(jobs: map<string, Bundle>, todo: set<string>, id: string)
    requires id in jobs && id in todo
    ensures id in ResetExcept(jobs, todo) && ResetExcept(jobs, todo)[id] == jobs[id]
    ensures ResetExcept(jobs, todo - {id}) == ResetExcept(jobs, todo)[id := ResetIn(jobs[id])]
    ensures ResetIn(jobs[id]) == jobs[id] ==> ResetExcept(jobs, todo - {id}) == ResetExcept(jobs, todo)
  {}

  lemma ResetEverything(jobs: map<string, Bundle>)
    ensures ResetExcept(jobs, {}) == map j | j in jobs :: ResetIn(jobs[j])
  {}

  lemma ResetIs(b: Bundle, items: seq<Item>)
    requires !b.job.status.Terminal() && |items| == |b.items|
    requires forall k :: 0 <= k < |items| ==> items[k] == ResetItem(b.items[k])
    ensures b.(items := items) == ResetIn(b)
  {}

  lemma TerminalIsKept(b: Bundle)
    requires b.job.status.Terminal()
    ensures ResetIn(b) == b
  {}

  ghost function RunningIn(id: string, items: seq<Item>): set<(string, int)> {
    set i | 0 <= i < |items| && items[i].status == ItemRunning :: (id, i)
  }

  lemma OrphansMore(jobs: map<string, Bundle>, ids: set<string>, id: string)
    requires id in jobs && id !in ids
    ensures |OrphansAmong(jobs, ids + {id})| == |OrphansAmong(jobs, ids)|
      + if jobs[id].job.status.Terminal() then 0 else |RunningIn(id, jobs[id].items)|
  {
    var more := if jobs[id].job.status.Terminal() then {} else RunningIn(id, jobs[id].items);
    assert OrphansAmong(jobs, ids + {id}) == OrphansAmong(jobs, ids) + more;
    assert OrphansAmong(jobs, ids) !! more;
  }

  // The inner loop of ResetRunningItems over one job's items.
  method ResetItems(id: string, b: Bundle) returns (items: seq<Item>, n: nat)
    requires !b.job.status.Terminal()
    ensures b.(items := items) == ResetIn(b)
    ensures n == |RunningIn(id, b.items)|
  {
    hide ResetIn;
    ghost var start := b.items;
    items, n := b.items, 0;
    ghost var hit: set<(string, int)> := {};
    for i := 0 to |items|
      invariant |items| == |start|
      invariant forall k :: 0 <= k < |items| ==> items[k] == if k < i then ResetItem(start[k]) else start[k]
      invariant n == |hit| && hit == set k | 0 <= k < i && start[k].status == ItemRunning :: (id, k)
    {
      if items[i].status == ItemRunning {
        items := items[i := items[i].(status := ItemPending)];
        n := n + 1;
        hit := hit + {(id, i)};
      }
    }
    assert hit == RunningIn(id, start);
    ResetIs(b, items);
  }

  // ---------- enqueueing ----------

  datatype EnqueueError = EmptyItems | DuplicateKey | Taken

  datatype EnqueueResult = Enqueued(job: Job) | Refused(error: EnqueueError)

  method FillKeys(items: array<Item>, newKeys: seq<string>)
    requires |newKeys| == items.Length
    modifies items
    ensures forall i :: 0 <= i < items.Length ==>
      items[i] == if old(items[i]).key == "" then old(items[i]).(key := newKeys[i]) else old(items[i])
  {
    for i := 0 to items.Length
      invariant forall k :: 0 <= k < items.Length ==>
        items[k] == if k < i && old(items[k]).key == "" then old(items[k]).(key := newKeys[k]) else old(items[k])
    {
      if items[i].key == "" {
        items[i] := items[i].(key := newKeys[i]);
      }
    }
  }

  // Fills in missing keys in place, refuses a batch that repeats a key, and stores a queued job. The
  // job id and the keys for items without one come from the random generator.
  method Enqueue(store: MemStore, jobID: string, items: array<Item>, newKeys: seq<string>) returns (r: EnqueueResult)
    requires store.Valid() && |newKeys| == items.Length
    modifies store, items
    ensures store.Valid()
    ensures forall i :: 0 <= i < items.Length ==>
      items[i] == if old(items[i]).key == "" then old(items[i]).(key := newKeys[i]) else old(items[i])
    ensures items.Length == 0 ==> r == Refused(EmptyItems)
    ensures items.Length > 0 ==> (r == Refused(DuplicateKey) <==> !DistinctKeys(items[..]))
    ensures items.Length > 0 && DistinctKeys(items[..]) ==> (r == Refused(Taken) <==> jobID in old(store.jobs))
    ensures r.Refused? ==> store.jobs == old(store.jobs)
    ensures r.Enqueued? ==>
      && jobID !in old(store.jobs)
      && store.jobs == old(store.jobs)[jobID := Run.NewBundle(jobID, items[..])]
      && r.job == store.jobs[jobID].job == Job(jobID, Queued, items.Length, 0, 0, []) && items.Length > 0
      && Run.EnqueueJob(Run.Init.(store := old(store.jobs)), jobID, items[..]).store
         == store.jobs
  {
    if items.Length == 0 {
      return Refused(EmptyItems);
    }
    FillKeys(items, newKeys);
    var seen: set<string> := {};
    for i := 0 to items.Length
      modifies {}
      invariant seen == set k | 0 <= k < i :: items[k].key
      invariant DistinctKeys(items[..i])
    {
      if items[i].key in seen {
        assert exists k :: 0 <= k < i && items[..][k].key == items[..][i].key;
        return Refused(DuplicateKey);
      }
      assert items[..i + 1] == items[..i] + [items[i]];
      seen := seen + {items[i].key};
    }
    assert items[..items.Length] == items[..];
    var job := Job(jobID, Queued, items.Length, 0, 0, []);
    var c := store.CreateJob(job, items[..]);
    if c.Err? {
      return Refused(Taken);
    }
    Run.NoneCounted(store.jobs[jobID].items);
    r := Enqueued(job);
  }

  // ---------- one worker, undisturbed ----------

  // The outcome of processing one item: skip the insert when a track id is stored.
  datatype Created = Track(id: string) | Failure(err: string)

  function RunItem(it: Item, create: Item -> Created): Option<string> {
    if it.trackID != "" then None
    else match create(it)
      case Track(id) => if id == "" then Some("empty track_id") else None
      case Failure(e) => Some(e)
  }

  // What an item looks like once it has been claimed, processed and marked.
  function Processed(it: Item, create: Item -> Created): Item {
    var running := it.(status := ItemRunning);
    var tracked := if it.trackID == "" && create(running).Track? then running.(trackID := create(running).id)
      else running;
    match RunItem(running, create)
    case None => tracked.(status := ItemDone)
    case Some(e) => running.(status := ItemFailed, err := e)
  }

  function Drained(it: Item, create: Item -> Created): Item {
    if it.status == ItemPending then Processed(it, create) else it
  }

  // What must come of a pending item: it fails exactly when no track id is stored for it and its insert fails or
  // answers with an empty one; otherwise it is done, with the stored or the new track id. Key and text stay.
  ghost predicate ItemOutcome(it: Item, after: Item, create: Item -> Created) {
    var made := create(it.(status := ItemRunning));
    && after.key == it.key && after.text == it.text
    && (if it.trackID == "" && made.Failure? then
          after.status == ItemFailed && after.err == made.err && after.trackID == ""
        else if it.trackID == "" && made.id == "" then
          after.status == ItemFailed && after.err == "empty track_id" && after.trackID == ""
        else
          && after.status == ItemDone && after.err == it.err
          && after.trackID == if it.trackID != "" then it.trackID else made.id)
  }

  lemma DrainedIs(it: Item, create: Item -> Created)
    ensures it.status == ItemPending ==> ItemOutcome(it, Drained(it, create), create)
    ensures it.status != ItemPending ==> Drained(it, create) == it
  {}

  // The items that were pending and now have the given status, in order.
  function Newly(was: seq<Item>, now: seq<Item>, st: ItemStatus): seq<Item>
    requires |was| == |now|
    decreases |was|
  {
    if was == [] then []
    else
      var n := |was| - 1;
      Newly(was[..n], now[..n], st) + if was[n].status == ItemPending && now[n].status == st then [now[n]] else []
  }

  function ErrorsOf(items: seq<Item>): seq<ItemError> {
    seq(|items|, i requires 0 <= i < |items| => ItemError(items[i].key, items[i].err))
  }

  // As many errors as the cap allows.
  function FirstErrors(errors: seq<ItemError>): seq<ItemError> {
    if |errors| <= MAX_ERRORS then errors else errors[..MAX_ERRORS]
  }

  // The record of a job after items that were pending came to their outcomes.
  ghost predicate Tallied(was: Job, now: Job, failed: seq<Item>, done: seq<Item>) {
    && now.failed == was.failed + |failed| && now.done == was.done + |done|
    && now.errors == FirstErrors(was.errors + ErrorsOf(failed))
  }

  lemma {:induction false} NoneNewly(was: seq<Item>, now: seq<Item>, p: nat, i: nat, st: ItemStatus)
    requires |was| == |now| && p <= i <= |was| && forall k :: p <= k < i ==> was[k].status != ItemPending
    ensures Newly(was[..i], now[..i], st) == Newly(was[..p], now[..p], st)
    decreases i
  {
    if p < i {
      NoneNewly(was, now, p, i - 1, st);
      assert was[..i][..i - 1] == was[..i - 1] && now[..i][..i - 1] == now[..i - 1];
    }
  }

  // Item positions the drain loop still has to take.
  function Pending(items: seq<Item>): nat {
    Count(items, ItemPending)
  }

  lemma ClaimTakesOne(items: seq<Item>, i: nat, it: Item)
    requires i < |items| && items[i].status == ItemPending && it.status != ItemPending
    ensures Pending(items[i := it]) == Pending(items) - 1
  {
    CountUpdate(items, i, it, ItemPending);
  }

  // The loop has drained the items before position p and not touched the others.
  ghost predicate DrainedUpTo(items: seq<Item>, start: seq<Item>, p: nat, create: Item -> Created) {
    && |items| == |start|
    && p <= |items|
    && forall k :: 0 <= k < |items| ==> items[k] == if k < p then Drained(start[k], create) else start[k]
  }

  lemma NothingPending(items: seq<Item>, start: seq<Item>, p: nat, create: Item -> Created)
    requires DrainedUpTo(items, start, p, create) && FirstPending(items) == |items|
    ensures items == seq(|start|, i requires 0 <= i < |start| => Drained(start[i], create))
  {}

  function TrackOf(it: Item, create: Item -> Created): string {
    if it.trackID == "" && create(it).Track? then create(it).id else ""
  }

  // The job after one claimed item was processed and marked.
  function TakeIn(c: Bundle, it: Item, create: Item -> Created): Bundle {
    var d := if TrackOf(it, create) != "" then SetTrackIn(c, it.key, TrackOf(it, create)) else c;
    MarkIn(d, it.key, RunItem(it, create))
  }

  // processItem and the mark that follows it.
  method TakeItem(store: MemStore, jobID: string, it: Item, create: Item -> Created)
    requires jobID in store.jobs
    modifies store
    ensures store.jobs == old(store.jobs)[jobID := TakeIn(old(store.jobs)[jobID], it, create)]
  {
    var runErr := None;
    if it.trackID == "" {
      match create(it) {
        case Failure(e) => runErr := Some(e);
        case Track(id) =>
          if id == "" {
            runErr := Some("empty track_id");
          } else {
            var w := store.SetItemTrackID(jobID, it.key, id);
          }
      }
    }
    var w := store.MarkItemDoneAndProgress(jobID, it.key, runErr);
  }

  lemma SetTrackAt(c: Bundle, i: nat, t: string)
    requires JobOk(c) && i < |c.items|
    ensures SetTrackIn(c, c.items[i].key, t) == c.(items := c.items[i := c.items[i].(trackID := t)])
  {
    KeyAt(c.items, i);
  }

  lemma MarkAt(c: Bundle, i: nat, err: Option<string>)
    requires JobOk(c) && i < |c.items| && c.items[i].status == ItemRunning
    ensures MarkIn(c, c.items[i].key, err).items ==
      c.items[i := match err
                   case None => c.items[i].(status := ItemDone)
                   case Some(e) => c.items[i].(status := ItemFailed, err := e)]
    ensures MarkIn(c, c.items[i].key, err).job.id == c.job.id && MarkIn(c, c.items[i].key, err).job.total == c.job.total
    ensures var it := MarkIn(c, c.items[i].key, err).items[i];
      Tallied(c.job, MarkIn(c, c.items[i].key, err).job,
              if it.status == ItemFailed then [it] else [], if it.status == ItemDone then [it] else [])
  {
    KeyAt(c.items, i);
  }

  lemma TakeOk(c: Bundle, i: nat, create: Item -> Created)
    requires JobOk(c) && i < |c.items| && c.items[i].status == ItemRunning
    ensures var t := TakeIn(c, c.items[i], create);
      && JobOk(t) && (Exact(c) ==> Exact(t)) && t.job.status == c.job.status
      && t.job.id == c.job.id && t.job.total == c.job.total
      && t.items == c.items[i := Processed(c.items[i], create)]
      && var it := t.items[i];
         Tallied(c.job, t.job, if it.status == ItemFailed then [it] else [], if it.status == ItemDone then [it] else [])
  {
    var it := c.items[i];
    var d := if TrackOf(it, create) != "" then SetTrackIn(c, it.key, TrackOf(it, create)) else c;
    SetTrackAt(c, i, TrackOf(it, create));
    SetTrackOk(c, it.key, TrackOf(it, create));
    MarkAt(d, i, RunItem(it, create));
    MarkOk(d, it.key, RunItem(it, create));
  }

  // The job in the middle of the drain loop that began at `start`.
  ghost predicate Underway(b: Bundle, start: Bundle, p: nat, create: Item -> Created) {
    && JobOk(b) && (Exact(start) ==> Exact(b)) && b.job.status == start.job.status
    && b.job.id == start.job.id && b.job.total == start.job.total
    && DrainedUpTo(b.items, start.items, p, create)
  }

  // One round of the drain loop, claim included: the first pending item is taken, no other is touched.
  lemma RoundOk(b: Bundle, start: Bundle, p: nat, create: Item -> Created)
    requires Underway(b, start, p, create) && TalliedUpTo(b, start, p) && FirstPending(b.items) < |b.items|
    ensures var i := FirstPending(b.items);
      var t := TakeIn(ClaimAt(b, i), b.items[i].(status := ItemRunning), create);
      Underway(t, start, i + 1, create) && TalliedUpTo(t, start, i + 1) && Pending(t.items) < Pending(b.items)
  {
    hide JobOk, Exact, TakeIn, Pending, Tallied, TalliedUpTo;
    var i := FirstPending(b.items);
    var c := ClaimAt(b, i);
    ClaimOk(b, i);
    TakeOk(c, i, create);
    var it := Processed(c.items[i], create);
    assert TakeIn(c, c.items[i], create).items == b.items[i := it];
    ClaimTakesOne(b.items, i, it);
    assert forall k :: p <= k < i ==> start.items[k].status != ItemPending;
    assert b.items[i := it][..i] == b.items[..i];
    TallyRound(b, start, p, i, TakeIn(c, c.items[i], create), create);
  }

  ghost predicate TalliedUpTo(b: Bundle, start: Bundle, p: nat) {
    && |b.items| == |start.items| && p <= |b.items|
    && Tallied(start.job, b.job, Newly(start.items[..p], b.items[..p], ItemFailed),
               Newly(start.items[..p], b.items[..p], ItemDone))
  }

  lemma MoreTallied(was: Job, mid: Job, now: Job, failed: seq<Item>, done: seq<Item>, f: seq<Item>, d: seq<Item>)
    requires Tallied(was, mid, failed, done) && Tallied(mid, now, f, d)
    ensures Tallied(was, now, failed + f, done + d)
  {
    assert ErrorsOf(failed + f) == ErrorsOf(failed) + ErrorsOf(f);
    assert was.errors + ErrorsOf(failed + f) == was.errors + ErrorsOf(failed) + ErrorsOf(f);
  }

  lemma TallyRound(b: Bundle, start: Bundle, p: nat, i: nat, t: Bundle, create: Item -> Created)
    requires TalliedUpTo(b, start, p) && DrainedUpTo(b.items, start.items, p, create)
    requires p <= i < |b.items| && start.items[i].status == ItemPending
    requires forall k :: p <= k < i ==> start.items[k].status != ItemPending
    requires |t.items| == |b.items| && t.items[..i] == b.items[..i]
    requires var it := t.items[i];
      Tallied(b.job, t.job, if it.status == ItemFailed then [it] else [], if it.status == ItemDone then [it] else [])
    ensures TalliedUpTo(t, start, i + 1)
  {
    var it := t.items[i];
    var s1, t1 := start.items[..i + 1], t.items[..i + 1];
    NoneNewly(start.items, b.items, p, i, ItemFailed);
    NoneNewly(start.items, b.items, p, i, ItemDone);
    assert s1[..i] == start.items[..i] && t1[..i] == b.items[..i] && t1[i] == it;
    var f := if it.status == ItemFailed then [it] else [];
    var d := if it.status == ItemDone then [it] else [];
    MoreTallied(start.job, b.job, t.job, Newly(s1[..i], t1[..i], ItemFailed), Newly(s1[..i], t1[..i], ItemDone), f, d);
    hide Tallied;
  }

  // The store's claim is one of the protocol's claims: taking the first pending item is the step
  // Claim(w, key) for that item's key.
  lemma ClaimIsStep(s: Run.State, w: nat, job: string)
    requires Run.WorkerOf(s, w) == Run.Draining(job) && job in s.store && JobOk(s.store[job])
    requires FirstPending(s.store[job].items) < |s.store[job].items|
    ensures var i := FirstPending(s.store[job].items);
      var it := s.store[job].items[i];
      var t := Run.Apply(s, Run.Claim(w, it.key));
      t.store == s.store[job := ClaimAt(s.store[job], i)] && Run.WorkerOf(t, w) == Run.Claimed(job, it.key, it.trackID)
  {
    KeyAt(s.store[job].items, FirstPending(s.store[job].items));
  }

  // The job as finalisation leaves it.
  function Finalised(b: Bundle): Bundle {
    b.(job := b.job.(status := if b.job.done + b.job.failed < b.job.total then Running
                               else Classify(b.job.done, b.job.failed)))
  }

  // The drain loop on a running job.
  method Drain(store: MemStore, jobID: string, create: Item -> Created)
    requires store.Valid() && jobID in store.jobs && store.jobs[jobID].job.status == Running
    modifies store
    ensures store.Valid() && jobID in store.jobs
    ensures store.jobs == old(store.jobs)[jobID := store.jobs[jobID]]
    ensures var b, t := old(store.jobs)[jobID], store.jobs[jobID];
      && t.items == seq(|b.items|, i requires 0 <= i < |b.items| => Drained(b.items[i], create))
      && Tallied(b.job, t.job, Newly(b.items, t.items, ItemFailed), Newly(b.items, t.items, ItemDone))
      && (Exact(b) ==> Exact(t)) && t.job.status == Running && t.job.total == b.job.total
  {
    hide JobOk, Exact, Underway, TalliedUpTo, Tallied, TakeIn, Pending, Drained;
    ghost var start := store.jobs[jobID];
    ghost var others := store.jobs;
    ghost var p: nat := 0;
    DrainBegins(start, create);
    while true
      invariant jobID in store.jobs && store.jobs == others[jobID := store.jobs[jobID]]
      invariant Underway(store.jobs[jobID], start, p, create) && TalliedUpTo(store.jobs[jobID], start, p)
      decreases Pending(store.jobs[jobID].items)
    {
      ghost var b := store.jobs[jobID];
      var claim := store.ClaimNextItem(jobID);
      if claim.Err? || claim.value.None? {
        break;
      }
      RoundOk(b, start, p, create);
      p := FirstPending(b.items) + 1;
      TakeItem(store, jobID, claim.value.value, create);
    }
    DrainEnds(store.jobs[jobID], start, p, create);
  }

  lemma DrainBegins(start: Bundle, create: Item -> Created)
    requires JobOk(start)
    ensures Underway(start, start, 0, create) && TalliedUpTo(start, start, 0)
  {}

  lemma DrainEnds(b: Bundle, start: Bundle, p: nat, create: Item -> Created)
    requires Underway(b, start, p, create) && TalliedUpTo(b, start, p) && FirstPending(b.items) == |b.items|
    ensures |b.items| == |start.items| &&
      Tallied(start.job, b.job, Newly(start.items, b.items, ItemFailed), Newly(start.items, b.items, ItemDone))
    ensures JobOk(b) && b.job.id == start.job.id && b.job.status == start.job.status && b.job.total == start.job.total
    ensures Exact(start) ==> Exact(b)
    ensures b.items == seq(|start.items|, i requires 0 <= i < |start.items| => Drained(start.items[i], create))
  {
    NothingPending(b.items, start.items, p, create);
    NoneNewly(start.items, b.items, p, |b.items|, ItemFailed);
    NoneNewly(start.items, b.items, p, |b.items|, ItemDone);
    assert start.items[..|b.items|] == start.items && b.items[..|b.items|] == b.items;
  }

  // The read at the top of runJob: a terminal job is left alone, a queued one is marked running.
  method Begin(store: MemStore, jobID: string) returns (go: bool)
    requires store.Valid()
    modifies store
    ensures store.Valid()
    ensures go <==> jobID in old(store.jobs) && !old(store.jobs)[jobID].job.status.Terminal()
    ensures !go ==> store.jobs == old(store.jobs)
    ensures go ==>
      store.jobs ==
        old(store.jobs)[jobID := old(store.jobs)[jobID].(job := old(store.jobs)[jobID].job.(status := Running))]
  {
    var got := store.GetJob(jobID);
    if got.Err? || got.value.status.Terminal() {
      return false;
    }
    if got.value.status == Queued {
      var w := store.UpdateJob(got.value.(status := Running));
    }
    go := true;
  }

  // The tail of runJob: only a job whose counters account for every item is finalised.
  method Finalise(store: MemStore, jobID: string)
    requires store.Valid() && jobID in store.jobs && store.jobs[jobID].job.status == Running
    modifies store
    ensures store.Valid()
    ensures store.jobs == old(store.jobs)[jobID := Finalised(old(store.jobs)[jobID])]
  {
    var final := store.GetJob(jobID);
    if final.value.done + final.value.failed >= final.value.total {
      var w := store.UpdateJob(final.value.(status := Classify(final.value.done, final.value.failed)));
    }
  }

  // runJob with no other worker, no store error and no stop: it terminates, because each round
  // takes one pending item, and it leaves every item that was pending terminal with the
  // outcome its insert had and every other item alone. The counters move by exactly the items that came to their
  // outcomes, and the errors are those of the failed ones in order, up to the cap. The job is finalised exactly
  // when every item is accounted for.
  method RunJob(store: MemStore, jobID: string, create: Item -> Created)
    requires store.Valid()
    modifies store
    ensures store.Valid()
    ensures jobID !in old(store.jobs) || old(store.jobs)[jobID].job.status.Terminal() ==> store.jobs == old(store.jobs)
    ensures jobID in old(store.jobs) && !old(store.jobs)[jobID].job.status.Terminal() ==>
      && jobID in store.jobs
      && store.jobs == old(store.jobs)[jobID := store.jobs[jobID]]
      && RunOutcome(old(store.jobs)[jobID], store.jobs[jobID], create)
  {
    hide RunOutcome, Finalised, JobOk, Exact, Tallied, Drained;
    var go := Begin(store, jobID);
    if go {
      ghost var b := store.jobs[jobID];
      Drain(store, jobID, create);
      ghost var t := store.jobs[jobID];
      Finalise(store, jobID);
      RunsTo(old(store.jobs)[jobID], b, t, create);
    }
  }

  ghost predicate RunOutcome(b: Bundle, t: Bundle, create: Item -> Created) {
    && |t.items| == |b.items|
    && (forall i :: 0 <= i < |b.items| ==>
         if b.items[i].status == ItemPending then ItemOutcome(b.items[i], t.items[i], create)
         else t.items[i] == b.items[i])
    && Tallied(b.job, t.job, Newly(b.items, t.items, ItemFailed), Newly(b.items, t.items, ItemDone))
    && (Exact(b) ==> Exact(t)) && t.job.total == b.job.total
    && (t.job.done + t.job.failed < t.job.total ==> t.job.status == Running)
    && (t.job.done + t.job.failed >= t.job.total ==> t.job.status == Classify(t.job.done, t.job.failed))
  }

  lemma RunsTo(was: Bundle, b: Bundle, t: Bundle, create: Item -> Created)
    requires b == was.(job := was.job.(status := Running))
    requires t.items == seq(|b.items|, i requires 0 <= i < |b.items| => Drained(b.items[i], create))
    requires Tallied(b.job, t.job, Newly(b.items, t.items, ItemFailed), Newly(b.items, t.items, ItemDone))
    requires (Exact(b) ==> Exact(t)) && t.job.total == b.job.total
    ensures RunOutcome(was, Finalised(t), create)
  {
    forall i | 0 <= i < |b.items|
      ensures if b.items[i].status == ItemPending then ItemOutcome(b.items[i], t.items[i], create)
        else t.items[i] == b.items[i]
    {
      DrainedIs(b.items[i], create);
    }
    hide Drained, ItemOutcome;
  }

  // When no item of an exact job was left running by somebody else, that run finishes it: every item
  // is terminal, the counters sum to the total, and the status is the right class.
  lemma UndisturbedFinishes(b: Bundle, t: Bundle, create: Item -> Created)
    requires JobOk(b) && JobOk(t) && Exact(b) && RunOutcome(b, t, create)
    requires forall i :: 0 <= i < |b.items| ==> b.items[i].status != ItemRunning
    ensures forall i :: 0 <= i < |t.items| ==> t.items[i].status.Terminal()
    ensures t.job.done + t.job.failed == t.job.total && t.job.status == Classify(t.job.done, t.job.failed)
    ensures t.job.status.Terminal()
  {
    TerminalCounts(t.items);
  }
}
