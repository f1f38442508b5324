// The version-tracked migration runner: baselining, per-migration transactions and crash-resume.
module Migrations {
  import opened Options

  // The schema is the history of executed migration bodies, by position in the migration list.
  // A body that runs twice shows up twice.
  type Schema = seq<nat>

  datatype Migration = Migration(name: string, probe: Option<Schema -> bool>)

  // The schema, the tracker table, and how many transactions the runner has committed.
  datatype Database = Database(schema: Schema, tracker: set<string>, commits: nat)

  ghost predicate DistinctNames(ms: seq<Migration>) {
    forall i, j :: 0 <= i < j < |ms| ==> ms[i].name != ms[j].name
  }

  // A probe that answers for its own migration's end state and nothing else.
  ghost predicate ExactProbe(ms: seq<Migration>, i: nat)
    requires i < |ms| && ms[i].probe.Some?
  {
    forall s: Schema :: ms[i].probe.value(s) <==> i in s
  }

  predicate Executes(ms: seq<Migration>, i: nat, db: Database, baselining: bool)
    requires i < |ms|
  {
    !(baselining && ms[i].probe.Some? && ms[i].probe.value(db.schema))
  }

  // One committed transaction: run the body unless it is baselined, and stamp the tracker.
  function ApplyOne(ms: seq<Migration>, i: nat, db: Database, baselining: bool): Database
    requires i < |ms|
  {
    var schema := if Executes(ms, i, db, baselining) then db.schema + [i] else db.schema;
    Database(schema, db.tracker + {ms[i].name}, db.commits + 1)
  }

  // A run from migration i on that is cut off before migration `cut`.
  function RunFrom(ms: seq<Migration>, i: nat, cut: nat, db: Database, baselining: bool): Database
    requires i <= |ms|
    decreases |ms| - i
  {
    if i == |ms| || i >= cut then db
    else if ms[i].name in db.tracker then RunFrom(ms, i + 1, cut, db, baselining)
    else RunFrom(ms, i + 1, cut, ApplyOne(ms, i, db, baselining), baselining && !Executes(ms, i, db, baselining))
  }

  function RunUntil(ms: seq<Migration>, cut: nat, db: Database): Database {
    RunFrom(ms, 0, cut, db, true)
  }

  function RunAll(ms: seq<Migration>, db: Database): Database {
    RunUntil(ms, |ms|, db)
  }

  // Several runs, each cut off somewhere.
  function RunCuts(ms: seq<Migration>, cuts: seq<nat>, db: Database): Database {
    if cuts == [] then db else RunCuts(ms, cuts[1..], RunUntil(ms, cuts[0], db))
  }

  lemma RunRound(ms: seq<Migration>, i: nat, cut: nat, db: Database, baselining: bool)
    requires i < |ms|
    ensures RunFrom(ms, i, cut, db, baselining) ==
      if i >= cut then db
      else if ms[i].name in db.tracker then RunFrom(ms, i + 1, cut, db, baselining)
      else RunFrom(ms, i + 1, cut, ApplyOne(ms, i, db, baselining), baselining && !Executes(ms, i, db, baselining))
    ensures db.tracker <= ApplyOne(ms, i, db, baselining).tracker
  {}

  lemma RunEnd(ms: seq<Migration>, cut: nat, db: Database, baselining: bool)
    ensures RunFrom(ms, |ms|, cut, db, baselining) == db
  {}

  class Runner {
    const migrations: seq<Migration>
    var db: Database

    constructor (ms: seq<Migration>, start: Database)
      ensures migrations == ms && db == start
    {
      migrations, db := ms, start;
    }

    method Applied(name: string) returns (exists': bool)
      ensures exists' <==> name in db.tracker
    {
      exists' := name in db.tracker;
    }

    // One migration in its own transaction. A crash or an error before the commit rolls everything back.
    method ApplyMigration(i: nat, baselining: bool, crash: bool) returns (executed: bool, committed: bool)
      requires i < |migrations|
      modifies this
      ensures committed == !crash && executed == Executes(migrations, i, old(db), baselining)
      ensures db == if crash then old(db) else ApplyOne(migrations, i, old(db), baselining)
    {
      var tx := db.(commits := db.commits + 1);
      executed := true;
      if baselining && migrations[i].probe.Some? {
        var present := migrations[i].probe.value(tx.schema);
        executed := !present;
      }
      if executed {
        tx := tx.(schema := tx.schema + [i]);
      }
      tx := tx.(tracker := tx.tracker + {migrations[i].name});
      committed := !crash;
      if committed {
        db := tx;
      }
    }

    // Runs every unapplied migration in order; the process dies when migration number `cut` is reached,
    // or in the middle of its transaction.
    method Run(cut: nat, inTransaction: bool) returns (completed: bool, begun: nat)
      modifies this
      ensures (forall j :: 0 <= j < |migrations| ==> migrations[j].name in old(db).tracker) ==> begun == 0
      ensures completed <==> cut >= |migrations|
      ensures db == RunUntil(migrations, cut, old(db))
    {
      hide RunFrom, ApplyOne, Executes;
      var baselining := true;
      begun := 0;
      for i := 0 to |migrations|
        invariant i <= cut
        invariant old(db).tracker <= db.tracker
        invariant (forall j :: 0 <= j < |migrations| ==> migrations[j].name in old(db).tracker) ==> begun == 0
        invariant RunUntil(migrations, cut, old(db)) == RunFrom(migrations, i, cut, db, baselining)
      {
        RunRound(migrations, i, cut, db, baselining);
        var applied := Applied(migrations[i].name);
        if i == cut {
          if inTransaction && !applied {
            begun := begun + 1;
            var e, c := ApplyMigration(i, baselining, true);
          }
          return false, begun;
        }
        if !applied {
          begun := begun + 1;
          var executed, committed := ApplyMigration(i, baselining, false);
          if executed {
            baselining := false;
          }
        }
      }
      RunEnd(migrations, cut, db, baselining);
      completed := true;
    }
  }

  // ---------- a schema that holds a prefix ----------

  function Prefix(k: nat): Schema {
    seq(k, i => i)
  }

  // Effects 0..k-1 are there, in order, and the tracker stamps only some of them.
  ghost predicate HoldsPrefix(ms: seq<Migration>, db: Database, k: nat) {
    && k <= |ms| && db.schema == Prefix(k)
    && (forall n :: n in db.tracker ==> exists i :: 0 <= i < k && ms[i].name == n)
  }

  ghost predicate Stamped(ms: seq<Migration>, db: Database, i: nat)
    requires i <= |ms|
  {
    forall j :: 0 <= j < i ==> ms[j].name in db.tracker
  }

  ghost predicate ExactProbes(ms: seq<Migration>) {
    forall i :: 0 <= i < |ms| ==> ms[i].probe.Some? && ExactProbe(ms, i)
  }

  // From migration i on, where the ones before are stamped and baselining is over only if the schema
  // ends exactly here: each missing effect is added once, in order, and nothing else runs.
  lemma {:induction false} PrefixRun(ms: seq<Migration>, i: nat, cut: nat, db: Database, baselining: bool, k: nat)
    returns (j: nat)
    requires DistinctNames(ms) && ExactProbes(ms) && i <= k && HoldsPrefix(ms, db, k) && Stamped(ms, db, i)
    requires !baselining ==> i == k
    ensures k <= j && HoldsPrefix(ms, RunFrom(ms, i, cut, db, baselining), j)
    ensures cut >= |ms| ==> Stamped(ms, RunFrom(ms, i, cut, db, baselining), |ms|)
    ensures cut >= |ms| && k <= |ms| ==> j == |ms|
    decreases |ms| - i
  {
    if i == |ms| || i >= cut {
      j := k;
    } else if ms[i].name in db.tracker {
      var n :| 0 <= n < k && ms[n].name == ms[i].name;
      assert n == i;
      j := PrefixRun(ms, i + 1, cut, db, baselining, k);
    } else {
      var next := ApplyOne(ms, i, db, baselining);
      assert ExactProbe(ms, i);
      if i < k {
        assert db.schema[i] == i;
        assert i in db.schema;
        StampKeeps(ms, db, next, i, k);
        j := PrefixRun(ms, i + 1, cut, next, baselining, k);
      } else {
        assert i !in db.schema;
        assert Prefix(k) + [k] == Prefix(k + 1);
        StampKeeps(ms, db, next, i, k + 1);
        j := PrefixRun(ms, i + 1, cut, next, false, k + 1);
      }
    }
  }

  lemma StampKeeps(ms: seq<Migration>, db: Database, next: Database, i: nat, k: nat)
    requires i < k <= |ms| && next.schema == Prefix(k) && next.tracker == db.tracker + {ms[i].name}
    requires forall n :: n in db.tracker ==> exists j :: 0 <= j < k && ms[j].name == n
    requires Stamped(ms, db, i)
    ensures HoldsPrefix(ms, next, k) && Stamped(ms, next, i + 1)
  {
    assert ms[i].name == ms[i].name;
  }

  lemma {:induction false} PrefixCuts(ms: seq<Migration>, cuts: seq<nat>, db: Database, k: nat) returns (j: nat)
    requires DistinctNames(ms) && ExactProbes(ms) && HoldsPrefix(ms, db, k)
    ensures k <= j && HoldsPrefix(ms, RunCuts(ms, cuts, db), j)
    decreases |cuts|
  {
    if cuts == [] {
      j := k;
    } else {
      var m := PrefixRun(ms, 0, cuts[0], db, true, k);
      j := PrefixCuts(ms, cuts[1..], RunUntil(ms, cuts[0], db), m);
    }
  }

  // Crash-resume. From the first k effects with a tracker inside that prefix, any number of runs cut off
  // anywhere followed by one completed run leaves effects 0..n-1 in order: none of the first
  // k ran again, every later one ran exactly once, and every migration is stamped.
  lemma CrashResume(ms: seq<Migration>, cuts: seq<nat>, db: Database, k: nat)
    requires DistinctNames(ms) && ExactProbes(ms) && HoldsPrefix(ms, db, k)
    ensures var done := RunAll(ms, RunCuts(ms, cuts, db));
      && done.schema == Prefix(|ms|) && done.schema[..k] == db.schema
      && done.tracker == set i | 0 <= i < |ms| :: ms[i].name
  {
    var j := PrefixCuts(ms, cuts, db, k);
    var l := PrefixRun(ms, 0, |ms|, RunCuts(ms, cuts, db), true, j);
    assert Prefix(|ms|)[..k] == Prefix(k);
    var done := RunAll(ms, RunCuts(ms, cuts, db));
    forall n
      ensures n in done.tracker <==> n in set i | 0 <= i < |ms| :: ms[i].name
    {}
  }

  // A run over a fully stamped database does nothing at all: no body, no stamp, no transaction.
  lemma {:induction false} StampedRunIsIdle(ms: seq<Migration>, i: nat, cut: nat, db: Database, baselining: bool)
    requires i <= |ms| && Stamped(ms, db, |ms|)
    ensures RunFrom(ms, i, cut, db, baselining) == db
    decreases |ms| - i
  {
    if i < |ms| && i < cut {
      StampedRunIsIdle(ms, i + 1, cut, db, baselining);
    }
  }

  // So after a completed run, a further one executes nothing and opens no transaction.
  lemma SecondRunIsIdle(ms: seq<Migration>, cuts: seq<nat>, db: Database, k: nat, cut: nat)
    requires DistinctNames(ms) && ExactProbes(ms) && HoldsPrefix(ms, db, k)
    ensures RunUntil(ms, cut, RunAll(ms, RunCuts(ms, cuts, db))) == RunAll(ms, RunCuts(ms, cuts, db))
  {
    CrashResume(ms, cuts, db, k);
    var done := RunAll(ms, RunCuts(ms, cuts, db));
    assert forall j :: 0 <= j < |ms| ==> ms[j].name in (set i | 0 <= i < |ms| :: ms[i].name);
    StampedRunIsIdle(ms, 0, cut, done, true);
  }

  // ---------- what baselining protects, and what it needs ----------

  // The unstamped migrations from i on, in order.
  function Unstamped(ms: seq<Migration>, i: nat, tracker: set<string>): Schema
    requires i <= |ms|
    decreases |ms| - i
  {
    if i == |ms| then []
    else (if ms[i].name in tracker then [] else [i]) + Unstamped(ms, i + 1, tracker)
  }

  lemma {:induction false} UnstampedSame(ms: seq<Migration>, i: nat, a: set<string>, b: set<string>)
    requires i <= |ms| && forall j :: i <= j < |ms| ==> (ms[j].name in a <==> ms[j].name in b)
    ensures Unstamped(ms, i, a) == Unstamped(ms, i, b)
    decreases |ms| - i
  {
    if i < |ms| {
      UnstampedSame(ms, i + 1, a, b);
    }
  }

  // Once a migration has executed, every later unstamped one executes too, whatever its probe
  // says: a probe satisfied for some other reason cannot stamp it away.
  lemma {:induction false} UnconditionalAfterFirst(ms: seq<Migration>, i: nat, db: Database)
    requires i <= |ms| && DistinctNames(ms)
    ensures RunFrom(ms, i, |ms|, db, false).schema == db.schema + Unstamped(ms, i, db.tracker)
    decreases |ms| - i
  {
    if i < |ms| {
      if ms[i].name in db.tracker {
        UnconditionalAfterFirst(ms, i + 1, db);
      } else {
        var next := ApplyOne(ms, i, db, false);
        UnconditionalAfterFirst(ms, i + 1, next);
        UnstampedSame(ms, i + 1, db.tracker, next.tracker);
      }
    }
  }

  // Migration i is there without a stamp and without a probe that could say so.
  predicate Unprotected(ms: seq<Migration>, db: Database, i: nat)
    requires i < |ms|
  {
    ms[i].name !in db.tracker && ms[i].probe.None?
  }

  lemma {:induction false} SchemaGrows(ms: seq<Migration>, i: nat, cut: nat, db: Database, baselining: bool)
    requires i <= |ms|
    ensures db.schema <= RunFrom(ms, i, cut, db, baselining).schema
    decreases |ms| - i
  {
    if i < |ms| && i < cut {
      SchemaGrows(ms, i + 1, cut, db, baselining);
      SchemaGrows(ms, i + 1, cut, ApplyOne(ms, i, db, baselining), baselining && !Executes(ms, i, db, baselining));
    }
  }

  ghost predicate SomeUnprotected(ms: seq<Migration>, db: Database, i: nat, k: nat)
    requires k <= |ms|
  {
    exists j :: i <= j < k && Unprotected(ms, db, j)
  }

  // Beyond the first k effects the schema has one of those k again.
  ghost predicate Repeats(schema: Schema, k: nat) {
    exists e :: k <= e < |schema| && schema[e] < k
  }

  lemma {:induction false} NoReplayFrom(ms: seq<Migration>, i: nat, db: Database, k: nat)
    requires DistinctNames(ms) && i <= k <= |ms|
    requires forall j :: 0 <= j < |ms| && ms[j].probe.Some? ==> ExactProbe(ms, j)
    requires db.schema == Prefix(k)
    ensures Repeats(RunFrom(ms, i, |ms|, db, true).schema, k) <==> SomeUnprotected(ms, db, i, k)
    decreases |ms| - i
  {
    if i == k {
      LaterOnly(ms, k, db, true, k);
    } else if ms[i].name in db.tracker {
      NoReplayFrom(ms, i + 1, db, k);
      assert !Unprotected(ms, db, i);
      assert SomeUnprotected(ms, db, i, k) <==> SomeUnprotected(ms, db, i + 1, k);
    } else if ms[i].probe.Some? {
      assert ExactProbe(ms, i) && db.schema[i] == i;
      var next := ApplyOne(ms, i, db, true);
      NoReplayFrom(ms, i + 1, next, k);
      assert !Unprotected(ms, db, i);
      assert forall j :: i + 1 <= j < k ==> (Unprotected(ms, db, j) <==> Unprotected(ms, next, j));
      assert SomeUnprotected(ms, db, i, k) <==> SomeUnprotected(ms, next, i + 1, k);
    } else {
      var next := ApplyOne(ms, i, db, true);
      SchemaGrows(ms, i + 1, |ms|, next, false);
      assert next.schema[k] == i && RunFrom(ms, i, |ms|, db, true).schema[k] == i;
      assert Unprotected(ms, db, i);
    }
  }

  // From position k on nothing below k can run.
  lemma {:induction false} LaterOnly(ms: seq<Migration>, i: nat, db: Database, baselining: bool, k: nat)
    requires k <= i <= |ms| && forall e :: k <= e < |db.schema| ==> db.schema[e] >= k
    ensures forall e :: k <= e < |RunFrom(ms, i, |ms|, db, baselining).schema| ==>
      RunFrom(ms, i, |ms|, db, baselining).schema[e] >= k
    decreases |ms| - i
  {
    if i < |ms| {
      LaterOnly(ms, i + 1, db, baselining, k);
      LaterOnly(ms, i + 1, ApplyOne(ms, i, db, baselining), baselining && !Executes(ms, i, db, baselining), k);
    }
  }

  // On a database that already holds the first k effects, a run repeats one of them if and only if
  // some migration among them is neither stamped nor has a probe.
  lemma ReplaysIffUnprotected(ms: seq<Migration>, db: Database, k: nat)
    requires DistinctNames(ms) && k <= |ms| && db.schema == Prefix(k)
    requires forall j :: 0 <= j < |ms| && ms[j].probe.Some? ==> ExactProbe(ms, j)
    ensures Repeats(RunAll(ms, db).schema, k) <==> SomeUnprotected(ms, db, 0, k)
  {
    assert RunAll(ms, db) == RunFrom(ms, 0, |ms|, db, true);
    NoReplayFrom(ms, 0, db, k);
  }
}
