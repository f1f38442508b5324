// The Postgres job store: one row per job and one per item, the item rows keyed by job and
// idempotency key. Each transaction is one atomic method. The methods are proved to refine
// the store operations of IngestModel: a `model` that matches the tables before the call
// matches them again after the model's own operation.
module PgStore {
  import opened IngestModel
  import opened Options
  import Run = IngestRun

  datatype Row = Row(text: string, status: ItemStatus, err: string, trackID: string)

  function RowOf(it: Item): Row {
    Row(it.text, it.status, it.err, it.trackID)
  }

  // The tables hold exactly the model's jobs and items.
  ghost predicate Matches(jobs: map<string, Job>, rows: map<(string, string), Row>, model: map<string, Bundle>) {
    JobsMatch(jobs, model) && RowsMatch(rows, model)
  }

  ghost predicate JobsMatch(jobs: map<string, Job>, model: map<string, Bundle>) {
    && jobs.Keys == model.Keys
    && (forall j :: j in model ==>
      model[j].job == jobs[j] && j == jobs[j].id && DistinctKeys(model[j].items) && CleanErrors(model[j].items))
  }

  ghost predicate RowsMatch(rows: map<(string, string), Row>, model: map<string, Bundle>) {
    && (forall j, k :: (j, k) in rows <==> HasKey(model, j, k))
    && (forall j, k :: HasKey(model, j, k) ==> rows[(j, k)] == RowOf(model[j].items[IndexOf(model[j].items, k)]))
  }

  // Only failed items carry an error text.
  ghost predicate CleanErrors(items: seq<Item>) {
    forall i :: 0 <= i < |items| ==> items[i].err != "" ==> items[i].status == ItemFailed
  }

  ghost predicate HasKey(model: map<string, Bundle>, j: string, k: string) {
    j in model && IndexOf(model[j].items, k) < |model[j].items|
  }

  // One item of one job changed: the index positions of all keys stay.
  lemma {:induction false} IndexUpdate(items: seq<Item>, i: nat, it: Item, key: string)
    requires i < |items| && it.key == items[i].key
    ensures IndexOf(items[i := it], key) == IndexOf(items, key)
  {
    if i > 0 && items[0].key != key {
      assert items[i := it][1..] == items[1..][i - 1 := it];
      IndexUpdate(items[1..], i - 1, it, key);
    } else if items[0].key != key {
      assert items[0 := it][1..] == items[1..];
    }
  }

  lemma RowsUpdate(rows: map<(string, string), Row>, model: map<string, Bundle>, j: string, i: nat, it: Item, job: Job)
    requires RowsMatch(rows, model) && j in model && i < |model[j].items|
    requires it.key == model[j].items[i].key && IndexOf(model[j].items, it.key) == i
    ensures RowsMatch(rows[(j, it.key) := RowOf(it)], model[j := Bundle(job, model[j].items[i := it])])
  {
    var model' := model[j := Bundle(job, model[j].items[i := it])];
    var rows' := rows[(j, it.key) := RowOf(it)];
    forall a, k
      ensures (a, k) in rows' <==> HasKey(model', a, k)
      ensures HasKey(model', a, k) ==> rows'[(a, k)] == RowOf(model'[a].items[IndexOf(model'[a].items, k)])
    {
      assert (a, k) in rows <==> HasKey(model, a, k);
      if a == j {
        IndexUpdate(model[j].items, i, it, k);
        if IndexOf(model[j].items, k) == i {
          SameIndexSameKey(model[j].items, i, it.key, k);
        }
      }
    }
  }

  lemma {:induction false} SameIndexSameKey(items: seq<Item>, i: nat, a: string, b: string)
    requires i < |items| && IndexOf(items, a) == i && IndexOf(items, b) == i
    ensures a == b
  {
    if items[0].key != a && items[0].key != b {
      SameIndexSameKey(items[1..], i - 1, a, b);
    }
  }

  lemma MatchesUpdate(jobs: map<string, Job>, rows: map<(string, string), Row>, model: map<string, Bundle>,
                      j: string, i: nat, it: Item, job: Job)
    requires Matches(jobs, rows, model) && j in model && i < |model[j].items|
    requires it.key == model[j].items[i].key && IndexOf(model[j].items, it.key) == i
    requires it.err != "" ==> it.status == ItemFailed
    requires job.id == j
    ensures Matches(jobs[j := job], rows[(j, it.key) := RowOf(it)], model[j := Bundle(job, model[j].items[i := it])])
  {
    hide RowsMatch;
    RowsUpdate(rows, model, j, i, it, job);
  }

  lemma MarkMatches(jobs: map<string, Job>, rows: map<(string, string), Row>, model: map<string, Bundle>,
                    j: string, key: string, err: Option<string>)
    requires Matches(jobs, rows, model) && HasKey(model, j, key)
    requires !model[j].items[IndexOf(model[j].items, key)].status.Terminal()
    ensures (j, key) in rows && j in jobs
    ensures var row, job := rows[(j, key)], jobs[j];
      match err
      case None => Matches(jobs[j := job.(done := job.done + 1)], rows[(j, key) := row.(status := ItemDone, err := "")],
                           model[j := MarkIn(model[j], key, err)])
      case Some(e) =>
        var job' := job.(failed := job.failed + 1, errors := ErrorsAfter(job.errors, ItemError(key, e)));
        Matches(jobs[j := job'], rows[(j, key) := row.(status := ItemFailed, err := e)],
                model[j := MarkIn(model[j], key, err)])
  {
    var i := IndexOf(model[j].items, key);
    var b := MarkIn(model[j], key, err);
    assert b == Bundle(b.job, model[j].items[i := b.items[i]]);
    assert rows[(j, key)] == RowOf(model[j].items[i]);
    MatchesUpdate(jobs, rows, model, j, i, b.items[i], b.job);
  }

  lemma MarkNothing(b: Bundle, key: string, err: Option<string>)
    requires var i := IndexOf(b.items, key); i == |b.items| || b.items[i].status.Terminal()
    ensures MarkIn(b, key, err) == b
  {}

  lemma ClaimMatches(jobs: map<string, Job>, rows: map<(string, string), Row>, model: map<string, Bundle>, j: string,
      key: string)
    requires Matches(jobs, rows, model) && (j, key) in rows && rows[(j, key)].status == ItemPending
    ensures HasKey(model, j, key)
    ensures var i := IndexOf(model[j].items, key);
      && model[j].items[i].status == ItemPending && rows[(j, key)].trackID == model[j].items[i].trackID
      && Matches(jobs, rows[(j, key) := rows[(j, key)].(status := ItemRunning)], model[j := ClaimAt(model[j], i)])
  {
    assert HasKey(model, j, key);
    var i := IndexOf(model[j].items, key);
    MatchesUpdate(jobs, rows, model, j, i, model[j].items[i].(status := ItemRunning), jobs[j]);
    assert jobs == jobs[j := jobs[j]];
  }

  lemma RowIff(jobs: map<string, Job>, rows: map<(string, string), Row>, model: map<string, Bundle>, j: string,
      k: string)
    requires Matches(jobs, rows, model)
    ensures (j, k) in rows <==> HasKey(model, j, k)
    ensures (j, k) in rows ==>
      j in model && j in jobs && rows[(j, k)] == RowOf(model[j].items[IndexOf(model[j].items, k)])
  {}

  lemma NothingPending(jobs: map<string, Job>, rows: map<(string, string), Row>, model: map<string, Bundle>, j: string,
                       locked: set<(string, string)>)
    requires Matches(jobs, rows, model) && j in model
    requires forall k :: (j, k) in rows && (j, k) !in locked ==> rows[(j, k)].status != ItemPending
    ensures forall i :: 0 <= i < |model[j].items| && model[j].items[i].status == ItemPending ==>
      (j, model[j].items[i].key) in locked
  {
    forall i | 0 <= i < |model[j].items| && model[j].items[i].status == ItemPending
      ensures (j, model[j].items[i].key) in locked
    {
      KeyAt(model[j].items, i);
      RowIff(jobs, rows, model, j, model[j].items[i].key);
    }
  }

  class PgStore {
    var jobs: map<string, Job>
    var rows: map<(string, string), Row>

    // UPDATE ingest_jobs ... WHERE id: the whole record is replaced, or no row is affected.
    method UpdateJob(j: Job, ghost model: map<string, Bundle>) returns (found: bool)
      requires Matches(jobs, rows, model)
      modifies this
      ensures found <==> j.id in model
      ensures Matches(jobs, rows, if found then model[j.id := model[j.id].(job := j)] else model)
    {
      found := j.id in jobs;
      if found {
        jobs := jobs[j.id := j];
        assert forall a, k :: HasKey(model[j.id := model[j.id].(job := j)], a, k) <==> HasKey(model, a, k);
      }
    }

    // SELECT ... WHERE status='pending' ... FOR UPDATE SKIP LOCKED LIMIT 1, then mark it running.
    // All items of a job share one created_at, so any pending row may come first. Rows that other transactions
    // hold are passed over, so no row means that every pending one is held.
    method ClaimNextItem(jobID: string, locked: set<(string, string)>, ghost model: map<string, Bundle>)
      returns (claimed: Option<(string, string)>)
      requires Matches(jobs, rows, model)
      modifies this
      ensures claimed.None? ==>
        Matches(jobs, rows, model)
        && (jobID in model ==>
          forall i :: 0 <= i < |model[jobID].items| && model[jobID].items[i].status == ItemPending ==>
              (jobID, model[jobID].items[i].key) in locked)
      ensures claimed.Some? ==>
        var (key, track) := claimed.value;
        && HasKey(model, jobID, key) && (jobID, key) !in locked
        && var i := IndexOf(model[jobID].items, key);
           && model[jobID].items[i].status == ItemPending && track == model[jobID].items[i].trackID
           && Matches(jobs, rows, model[jobID := ClaimAt(model[jobID], i)])
    {
      hide JobsMatch, RowsMatch, Matches;
      var pending := set p | p in rows && p !in locked && p.0 == jobID && rows[p].status == ItemPending;
      if pending == {} {
        if jobID in model {
          assert forall k :: (jobID, k) in rows ==> (jobID, k) !in pending;
          NothingPending(jobs, rows, model, jobID, locked);
        }
        return None;
      }
      var p :| p in pending;
      ClaimMatches(jobs, rows, model, jobID, p.1);
      assert p == (jobID, p.1);
      rows := rows[p := rows[p].(status := ItemRunning)];
      claimed := Some((p.1, rows[p].trackID));
    }

    method SetItemTrackID(jobID: string, key: string, trackID: string, ghost model: map<string, Bundle>)
      requires Matches(jobs, rows, model)
      modifies this
      ensures Matches(jobs, rows, if jobID in model then model[jobID := SetTrackIn(model[jobID], key, trackID)]
        else model)
    {
      if (jobID, key) in rows {
        assert HasKey(model, jobID, key);
        ghost var i := IndexOf(model[jobID].items, key);
        MatchesUpdate(jobs, rows, model, jobID, i, model[jobID].items[i].(trackID := trackID), jobs[jobID]);
        rows := rows[(jobID, key) := rows[(jobID, key)].(trackID := trackID)];
        assert jobs == jobs[jobID := jobs[jobID]];
      } else {
        assert !HasKey(model, jobID, key);
        assert jobID in model ==> model == model[jobID := model[jobID]];
      }
    }

    // The item row is updated only if it is not terminal, and the counter only if a row was.
    method MarkItemDoneAndProgress(jobID: string, key: string, runErr: Option<string>, ghost model: map<string, Bundle>)
      requires Matches(jobs, rows, model)
      modifies this
      ensures Matches(jobs, rows, if jobID in model then model[jobID := MarkIn(model[jobID], key, runErr)] else model)
    {
      hide JobsMatch, RowsMatch, MarkIn;
      RowIff(jobs, rows, model, jobID, key);
      var status := if runErr.Some? then ItemFailed else ItemDone;
      var errStr := if runErr.Some? then runErr.value else "";
      if (jobID, key) !in rows || rows[(jobID, key)].status == ItemDone || rows[(jobID, key)].status == ItemFailed {
        if jobID in model {
          MarkNothing(model[jobID], key, runErr);
          assert model == model[jobID := model[jobID]];
        }
        return;
      }
      MarkMatches(jobs, rows, model, jobID, key, runErr);
      rows := rows[(jobID, key) := rows[(jobID, key)].(status := status, err := errStr)];
      var j := jobs[jobID];
      if runErr.None? {
        jobs := jobs[jobID := j.(done := j.done + 1)];
      } else {
        var errs := j.errors;
        if |errs| < MAX_ERRORS {
          errs := errs + [ItemError(key, runErr.value)];
        }
        jobs := jobs[jobID := j.(failed := j.failed + 1, errors := errs)];
      }
    }

    // One UPDATE over every running item of every queued or running job.
    method ResetRunningItems(ghost model: map<string, Bundle>)
      requires Matches(jobs, rows, model)
      modifies this
      ensures Matches(jobs, rows, map j | j in model :: ResetIn(model[j]))
    {
      ResetMatches(jobs, rows, model);
      rows := ResetRows(jobs, rows);
    }
  }

  function ResetRows(jobs: map<string, Job>, rows: map<(string, string), Row>): map<(string, string), Row> {
    map p | p in rows ::
      if rows[p].status == ItemRunning && p.0 in jobs && !jobs[p.0].status.Terminal()
      then rows[p].(status := ItemPending) else rows[p]
  }

  lemma ResetMatches(jobs: map<string, Job>, rows: map<(string, string), Row>, model: map<string, Bundle>)
    requires Matches(jobs, rows, model)
    ensures Matches(jobs, ResetRows(jobs, rows), map j | j in model :: ResetIn(model[j]))
  {
    ResetJobsMatch(jobs, model);
    ResetRowsMatch(jobs, rows, model);
  }

  lemma ResetJobsMatch(jobs: map<string, Job>, model: map<string, Bundle>)
    requires JobsMatch(jobs, model)
    ensures JobsMatch(jobs, map j | j in model :: ResetIn(model[j]))
  {
    forall j | j in model
      ensures DistinctKeys(ResetIn(model[j]).items) && CleanErrors(ResetIn(model[j]).items) &&
        ResetIn(model[j]).job == model[j].job
    {}
  }

  lemma ResetRowsMatch(jobs: map<string, Job>, rows: map<(string, string), Row>, model: map<string, Bundle>)
    requires JobsMatch(jobs, model) && RowsMatch(rows, model)
    ensures RowsMatch(ResetRows(jobs, rows), map j | j in model :: ResetIn(model[j]))
  {
    var model' := map j | j in model :: ResetIn(model[j]);
    forall j, k
      ensures (j, k) in ResetRows(jobs, rows) <==> HasKey(model', j, k)
      ensures HasKey(model', j, k) ==>
        ResetRows(jobs, rows)[(j, k)] == RowOf(model'[j].items[IndexOf(model'[j].items, k)])
    {
      ResetRowMatches(jobs, rows, model, j, k);
    }
  }

  lemma ResetRowMatches(jobs: map<string, Job>, rows: map<(string, string), Row>, model: map<string, Bundle>,
                        j: string, k: string)
    requires jobs.Keys == model.Keys && (j in model ==> model[j].job == jobs[j])
    requires (j, k) in rows <==> HasKey(model, j, k)
    requires HasKey(model, j, k) ==> rows[(j, k)] == RowOf(model[j].items[IndexOf(model[j].items, k)])
    ensures var model' := map i | i in model :: ResetIn(model[i]);
      && (HasKey(model', j, k) <==> HasKey(model, j, k))
      && ((j, k) in ResetRows(jobs, rows) <==> HasKey(model', j, k))
      && (HasKey(model', j, k) ==>
            ResetRows(jobs, rows)[(j, k)] == RowOf(model'[j].items[IndexOf(model'[j].items, k)]))
  {
    if j in model {
      IndexSame(model[j].items, ResetIn(model[j]).items, k);
    }
  }
}
