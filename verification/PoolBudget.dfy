// The connection budget: what configuration validation accepts, and what the whole process can then hold.
module PoolBudget {

  import Admission

  // Durations in nanoseconds; every int is 64 bits wide.
  const MAX_INT := 0x7fff_ffff_ffff_ffff
  const MODULUS := 0x1_0000_0000_0000_0000

  type int64 = n: int | -MAX_INT - 1 <= n <= MAX_INT

  datatype Config = Config(
    pgDSN: string, lightRAGBaseURL: string, workerPoolSize: int64,
    ingestItemTimeout: int64, httpWriteTimeout: int64, ingestCreateJobTimeout: int64, memoryPurgeBudget: int64,
    dbMaxOpenConns: int64, dbMaxIdleConns: int64, memoriesBulkMaxInFlight: int64, codeGraphBulkMaxInFlight: int64,
    admissionWait: int64, admissionRetryAfter: int64, dbConnMaxLifetime: int64, dbConnMaxIdleTime: int64,
    pgStatementTimeout: int64, pgIdleInTxTimeout: int64, pgLockTimeout: int64, dbWaitTimeout: int64,
    dbWaitInterval: int64, analyticsMaxConcurrency: int64, analyticsRecomputeTimeout: int64)

  datatype Verdict = Accepted | Rejected(option: string)

  // Two's complement addition.
  function Add(a: int64, b: int64): int64 {
    var x: int, y: int := a, b;
    var sum: int := x + y;
    if sum > MAX_INT then sum - MODULUS else if sum < -MAX_INT - 1 then sum + MODULUS else sum
  }

  function Validate(c: Config): Verdict {
    if c.pgDSN == "" then Rejected("pg-dsn")
    else if c.lightRAGBaseURL == "" then Rejected("lightrag-base-url")
    else if c.workerPoolSize < 1 then Rejected("worker-pool-size")
    else if c.ingestItemTimeout < 0 then Rejected("ingest-item-timeout")
    else if c.httpWriteTimeout < 0 then Rejected("http-write-timeout")
    else if c.ingestCreateJobTimeout < 0 then Rejected("ingest-create-job-timeout")
    else if c.memoryPurgeBudget < 0 then Rejected("memory-purge-budget")
    else if c.dbMaxOpenConns < 1 then Rejected("db-max-open-conns")
    else if c.dbMaxIdleConns < 0 || c.dbMaxIdleConns > c.dbMaxOpenConns then Rejected("db-max-idle-conns")
    else if c.memoriesBulkMaxInFlight < 0 then Rejected("memories-bulk-max-in-flight")
    else if c.codeGraphBulkMaxInFlight < 0 then Rejected("code-graph-bulk-max-in-flight")
    else if c.admissionWait < 0 then Rejected("admission-wait")
    else if c.admissionRetryAfter < 0 then Rejected("admission-retry-after")
    else if c.dbConnMaxLifetime < 0 then Rejected("db-conn-max-lifetime")
    else if c.dbConnMaxIdleTime < 0 then Rejected("db-conn-max-idle-time")
    else if c.pgStatementTimeout < 0 then Rejected("pg-statement-timeout")
    else if c.pgIdleInTxTimeout < 0 then Rejected("pg-idle-in-transaction-timeout")
    else if c.pgLockTimeout < 0 then Rejected("pg-lock-timeout")
    else if c.dbWaitTimeout < 0 then Rejected("db-wait-timeout")
    else if c.dbWaitInterval <= 0 then Rejected("db-wait-interval")
    else if c.analyticsMaxConcurrency < 1 then Rejected("analytics-max-concurrency")
    else if c.analyticsRecomputeTimeout < 0 then Rejected("analytics-recompute-timeout")
    else if c.memoriesBulkMaxInFlight > 0 && c.codeGraphBulkMaxInFlight > 0 && Reserved(c) >= c.dbMaxOpenConns
      then Rejected("admission budgets")
    else Accepted
  }

  // The sum as the machine computes it.
  function Reserved(c: Config): int64 {
    Add(Add(Add(c.memoriesBulkMaxInFlight, c.codeGraphBulkMaxInFlight), c.workerPoolSize), c.analyticsMaxConcurrency)
  }

  // The sum as meant.
  function Demand(c: Config): int {
    var a: int, b: int, w: int, n: int :=
      c.memoriesBulkMaxInFlight, c.codeGraphBulkMaxInFlight, c.workerPoolSize, c.analyticsMaxConcurrency;
    a + b + w + n
  }

  predicate BothBounded(c: Config) {
    c.memoriesBulkMaxInFlight > 0 && c.codeGraphBulkMaxInFlight > 0
  }

  // An accepted configuration with both bulk classes bounded leaves a connection free if and only if the sum did
  // not overflow.
  lemma AcceptedSumIff(c: Config)
    requires Validate(c) == Accepted && BothBounded(c)
    ensures Demand(c) < c.dbMaxOpenConns <==> Demand(c) <= MAX_INT
  {}

  // The ranges every option is held to, by itself.
  ghost predicate InRange(c: Config) {
    && c.pgDSN != "" && c.lightRAGBaseURL != "" && c.workerPoolSize >= 1
    && c.dbMaxOpenConns >= 1 && 0 <= c.dbMaxIdleConns <= c.dbMaxOpenConns
    && c.memoriesBulkMaxInFlight >= 0 && c.codeGraphBulkMaxInFlight >= 0
    && c.dbWaitInterval > 0 && c.analyticsMaxConcurrency >= 1
    && c.ingestItemTimeout >= 0 && c.httpWriteTimeout >= 0 && c.ingestCreateJobTimeout >= 0
    && c.memoryPurgeBudget >= 0 && c.admissionWait >= 0 && c.admissionRetryAfter >= 0 && c.dbConnMaxLifetime >= 0
    && c.dbConnMaxIdleTime >= 0 && c.pgStatementTimeout >= 0 && c.pgIdleInTxTimeout >= 0 && c.pgLockTimeout >= 0
    && c.dbWaitTimeout >= 0 && c.analyticsRecomputeTimeout >= 0
  }

  // The signed 64-bit number that a sum wraps to.
  function Wrapped(x: int): int {
    (x + MAX_INT + 1) % MODULUS - MAX_INT - 1
  }

  // A configuration is accepted if and only if every option is in its range and, with both classes bounded, the sum,
  // wrapped to 64 bits, is below the pool size; so one that is in range and within the budget always is.
  lemma AcceptedIff(c: Config)
    ensures Validate(c) == Accepted <==>
      InRange(c) && (BothBounded(c) ==> Wrapped(Demand(c)) < c.dbMaxOpenConns)
    ensures InRange(c) && (BothBounded(c) ==> Demand(c) < c.dbMaxOpenConns) ==> Validate(c) == Accepted
  {
    ReservedIs(c);
    hide Wrapped, Reserved, Demand, Add;
    assert InRange(c) && (BothBounded(c) ==> Reserved(c) < c.dbMaxOpenConns) ==> Validate(c) == Accepted;
  }

  lemma AddIs(a: int64, b: int64, x: int)
    requires a == Wrapped(x)
    ensures Add(a, b) == Wrapped(x + b)
  {}

  lemma ReservedIs(c: Config)
    ensures Reserved(c) == Wrapped(Demand(c))
    ensures -MAX_INT - 1 <= Demand(c) <= MAX_INT ==> Wrapped(Demand(c)) == Demand(c)
    ensures InRange(c) && Demand(c) < c.dbMaxOpenConns ==> -MAX_INT - 1 <= Demand(c) <= MAX_INT
  {
    var a: int, b: int, w: int := c.memoriesBulkMaxInFlight, c.codeGraphBulkMaxInFlight, c.workerPoolSize;
    AddIs(c.memoriesBulkMaxInFlight, c.codeGraphBulkMaxInFlight, a);
    AddIs(Add(c.memoriesBulkMaxInFlight, c.codeGraphBulkMaxInFlight), c.workerPoolSize, a + b);
    AddIs(Add(Add(c.memoriesBulkMaxInFlight, c.codeGraphBulkMaxInFlight), c.workerPoolSize),
          c.analyticsMaxConcurrency, a + b + w);
  }

  // ---------- the process ----------

  // Both admission classes, the busy ingest workers, and the analytics worker: slots of its semaphore, recomputes
  // running, and goroutines that have finished theirs but not yet given the slot back.
  datatype Process = Process(
    memories: Admission.Limiter, codeGraph: Admission.Limiter,
    poolSize: nat, busy: nat,
    semCapacity: nat, sem: nat, recomputing: nat, leaving: nat)

  datatype Step =
    | Memories(e: Admission.Event)
    | CodeGraph(e: Admission.Event)
    | TakeJob
    | FinishJob
    | StartRecompute
    | EndRecompute
    | ReleaseSlot

  function DoStartRecompute(p: Process): Process {
    if p.sem < p.semCapacity then p.(sem := p.sem + 1, recomputing := p.recomputing + 1) else p
  }

  function DoEndRecompute(p: Process): Process {
    if p.recomputing > 0 then p.(recomputing := p.recomputing - 1, leaving := p.leaving + 1) else p
  }

  function DoReleaseSlot(p: Process): Process {
    if p.leaving > 0 && p.sem > 0 then p.(leaving := p.leaving - 1, sem := p.sem - 1) else p
  }

  function Apply(p: Process, step: Step): Process {
    match step
    case Memories(e) => p.(memories := Admission.Apply(p.memories, e))
    case CodeGraph(e) => p.(codeGraph := Admission.Apply(p.codeGraph, e))
    case TakeJob => if p.busy < p.poolSize then p.(busy := p.busy + 1) else p
    case FinishJob => if p.busy > 0 then p.(busy := p.busy - 1) else p
    case StartRecompute => DoStartRecompute(p)
    case EndRecompute => DoEndRecompute(p)
    case ReleaseSlot => DoReleaseSlot(p)
  }

  function Exec(p: Process, steps: seq<Step>): Process
    decreases |steps|
  {
    if steps == [] then p else Exec(Apply(p, steps[0]), steps[1..])
  }

  function Boot(c: Config): Process
    requires Validate(c) == Accepted
  {
    Process(Admission.New(c.memoriesBulkMaxInFlight), Admission.New(c.codeGraphBulkMaxInFlight),
            c.workerPoolSize, 0, c.analyticsMaxConcurrency, 0, 0, 0)
  }

  // Connections that bulk requests, ingest workers and recomputes can hold at this moment.
  function Held(p: Process): nat {
    Admission.Number(p.memories, Admission.Running) + Admission.Number(p.codeGraph, Admission.Running)
      + p.busy + p.recomputing
  }

  ghost predicate Inv(p: Process, c: Config) {
    && Admission.Inv(p.memories) && Admission.Inv(p.codeGraph)
    && p.memories.capacity == c.memoriesBulkMaxInFlight && p.codeGraph.capacity == c.codeGraphBulkMaxInFlight
    && p.poolSize == c.workerPoolSize && p.semCapacity == c.analyticsMaxConcurrency
    && p.busy <= p.poolSize && p.sem == p.recomputing + p.leaving <= p.semCapacity
  }

  lemma BootInv(c: Config)
    requires Validate(c) == Accepted
    ensures Inv(Boot(c), c) && Boot(c).leaving == 0 && Held(Boot(c)) == 0
  {}

  lemma InvStep(p: Process, step: Step, c: Config)
    requires Inv(p, c)
    ensures Inv(Apply(p, step), c)
  {
    match step
    case Memories(e) => Admission.InvStep(p.memories, e);
    case CodeGraph(e) => Admission.InvStep(p.codeGraph, e);
    case _ =>
  }

  lemma {:induction false} InvExec(p: Process, steps: seq<Step>, c: Config)
    requires Inv(p, c)
    ensures Inv(Exec(p, steps), c)
    decreases |steps|
  {
    if steps != [] {
      InvStep(p, steps[0], c);
      InvExec(Apply(p, steps[0]), steps[1..], c);
    }
  }

  // ---------- every reachable state ----------

  ghost predicate AlwaysLeavesOne(c: Config)
    requires Validate(c) == Accepted
  {
    forall steps: seq<Step> :: Held(Exec(Boot(c), steps)) < c.dbMaxOpenConns
  }

  // Whether some holder can still be added.
  predicate HasRoom(p: Process) {
    || p.memories.capacity == 0 || p.memories.slots < p.memories.capacity
    || p.codeGraph.capacity == 0 || p.codeGraph.slots < p.codeGraph.capacity
    || p.busy < p.poolSize || p.sem < p.semCapacity
  }

  lemma OneMoreHeld(p: Process) returns (step: Step)
    requires HasRoom(p)
    ensures Held(Apply(p, step)) == Held(p) + 1
    ensures p.leaving == 0 ==> Apply(p, step).leaving == 0
  {
    if p.memories.capacity == 0 || p.memories.slots < p.memories.capacity {
      step := Memories(Admission.Arrive);
      assert multiset(p.memories.phases + [Admission.Running]) ==
        multiset(p.memories.phases) + multiset{Admission.Running};
    } else if p.codeGraph.capacity == 0 || p.codeGraph.slots < p.codeGraph.capacity {
      step := CodeGraph(Admission.Arrive);
      assert multiset(p.codeGraph.phases + [Admission.Running]) ==
        multiset(p.codeGraph.phases) + multiset{Admission.Running};
    } else if p.busy < p.poolSize {
      step := TakeJob;
    } else {
      step := StartRecompute;
    }
  }

  // While less is held than the budget allows, or a bulk class is unbounded, there is room.
  lemma RoomBelow(p: Process, c: Config)
    requires Inv(p, c) && p.leaving == 0
    requires BothBounded(c) ==> Held(p) < Demand(c)
    ensures HasRoom(p)
  {}

  // Any number of connections up to the demand can be held at once; any number at all when a bulk class is
  // unbounded.
  lemma {:induction false} CanHold(p: Process, c: Config, n: nat) returns (steps: seq<Step>)
    requires Inv(p, c) && p.leaving == 0 && Held(p) <= n
    requires BothBounded(c) ==> n <= Demand(c)
    ensures Held(Exec(p, steps)) == n
    decreases n - Held(p)
  {
    if Held(p) == n {
      steps := [];
    } else {
      RoomBelow(p, c);
      var step := OneMoreHeld(p);
      InvStep(p, step, c);
      var rest := CanHold(Apply(p, step), c, n);
      steps := [step] + rest;
    }
  }

  lemma OneRunning(l: Admission.Limiter) returns (r: nat)
    requires Admission.Number(l, Admission.Running) > 0
    ensures Admission.In(l, r, Admission.Running)
    ensures Admission.Number(Admission.Apply(l, Admission.Finish(r)), Admission.Running)
         == Admission.Number(l, Admission.Running) - 1
  {
    assert Admission.Running in multiset(l.phases);
    r :| 0 <= r < |l.phases| && l.phases[r] == Admission.Running;
    Admission.Moved(l, r, Admission.Running, Admission.Served);
  }

  lemma OneLessHeld(p: Process) returns (step: Step)
    requires Held(p) > 0
    ensures Held(Apply(p, step)) == Held(p) - 1 && Apply(p, step).leaving <= p.leaving + 1
  {
    if Admission.Number(p.memories, Admission.Running) > 0 {
      var r := OneRunning(p.memories);
      step := Memories(Admission.Finish(r));
    } else if Admission.Number(p.codeGraph, Admission.Running) > 0 {
      var r := OneRunning(p.codeGraph);
      step := CodeGraph(Admission.Finish(r));
    } else if p.busy > 0 {
      step := FinishJob;
    } else {
      step := EndRecompute;
    }
  }

  // And everything held can be given back: from any reachable state a run leads to one that holds no connection and
  // no semaphore slot.
  lemma {:induction false} CanRelease(p: Process, c: Config) returns (steps: seq<Step>)
    requires Inv(p, c)
    ensures Held(Exec(p, steps)) == 0 && Exec(p, steps).sem == 0
    decreases 2 * Held(p) + p.leaving
  {
    if Held(p) == 0 && p.leaving == 0 {
      steps := [];
    } else {
      var step := ReleaseSlot;
      if Held(p) > 0 {
        step := OneLessHeld(p);
      }
      InvStep(p, step, c);
      var rest := CanRelease(Apply(p, step), c);
      steps := [step] + rest;
    }
  }

  // The budget does its job exactly when it is checked and exact: for every accepted configuration, in every
  // reachable state bulk requests, ingest workers and recomputes together leave a connection free, if and
  // only if both bulk classes are bounded and the reserved sum did not overflow.
  lemma BudgetHoldsIff(c: Config)
    requires Validate(c) == Accepted
    ensures AlwaysLeavesOne(c) <==> BothBounded(c) && Demand(c) <= MAX_INT
  {
    if BothBounded(c) && Demand(c) <= MAX_INT {
      BudgetHolds(c);
    } else {
      var steps := BudgetFails(c);
      assert Held(Exec(Boot(c), steps)) >= c.dbMaxOpenConns;
    }
  }

  lemma BudgetHolds(c: Config)
    requires Validate(c) == Accepted && BothBounded(c) && Demand(c) <= MAX_INT
    ensures AlwaysLeavesOne(c)
  {
    AcceptedSumIff(c);
    forall steps: seq<Step>
      ensures Held(Exec(Boot(c), steps)) < c.dbMaxOpenConns
    {
      BootInv(c);
      InvExec(Boot(c), steps, c);
      HeldWithin(Exec(Boot(c), steps), c);
    }
  }

  lemma HeldWithin(p: Process, c: Config)
    requires Inv(p, c) && BothBounded(c)
    ensures Held(p) <= Demand(c)
  {}

  lemma BudgetFails(c: Config) returns (steps: seq<Step>)
    requires Validate(c) == Accepted && !(BothBounded(c) && Demand(c) <= MAX_INT)
    ensures Held(Exec(Boot(c), steps)) == c.dbMaxOpenConns
  {
    DemandCovers(c);
    BootInv(c);
    hide Validate, Demand, BothBounded, Boot, Held, Inv, Exec;
    steps := CanHold(Boot(c), c, c.dbMaxOpenConns);
  }

  lemma DemandCovers(c: Config)
    requires Validate(c) == Accepted && !(BothBounded(c) && Demand(c) <= MAX_INT)
    ensures c.dbMaxOpenConns >= 1 && (BothBounded(c) ==> c.dbMaxOpenConns <= Demand(c))
  {
    if BothBounded(c) {
      AcceptedSumIff(c);
    }
  }

  // An overflowing sum is really accepted: with two limits near the top of the integer range the sum wraps
  // below any pool size.
  lemma OverflowIsAccepted(c: Config)
    requires Validate(c.(memoriesBulkMaxInFlight := 0)) == Accepted
    requires c.memoriesBulkMaxInFlight == MAX_INT && c.codeGraphBulkMaxInFlight == MAX_INT
    requires c.workerPoolSize + c.analyticsMaxConcurrency < c.dbMaxOpenConns
    ensures Validate(c) == Accepted && !AlwaysLeavesOne(c)
  {
    BudgetHoldsIff(c);
  }
}
