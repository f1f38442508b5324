// Jobs, items and the effect of one store operation on a job and its items.
//
// These functions are the specification that the in-memory store (MemStore.dfy) and the
// Postgres store (PgStore.dfy) are proved against, and the building blocks of the
// many-worker protocol in IngestRun.dfy.
module IngestModel {
  import opened Options

  // Cap on the number of item errors kept on a job.
  const MAX_ERRORS: nat := 50

  datatype JobStatus = Queued | Running | Succeeded | Failed | Partial {
    predicate Terminal() {
      Succeeded? || Failed? || Partial?
    }
  }

  datatype ItemStatus = ItemPending | ItemRunning | ItemDone | ItemFailed {
    predicate Terminal() {
      ItemDone? || ItemFailed?
    }
  }

  datatype ItemError = ItemError(key: string, error: string)

  datatype Item = Item(key: string, text: string, status: ItemStatus, err: string, trackID: string)

  datatype Job = Job(id: string, status: JobStatus, total: int, done: int, failed: int, errors: seq<ItemError>)

  datatype Bundle = Bundle(job: Job, items: seq<Item>)

  // Item keys identify items inside one job; Enqueue rejects a batch that repeats one.
  ghost predicate DistinctKeys(items: seq<Item>) {
    forall i, j :: 0 <= i < j < |items| ==> items[i].key != items[j].key
  }

  // The same, as Enqueue decides it: no key is seen twice.
  predicate UniqueKeys(items: seq<Item>)
    ensures UniqueKeys(items) <==> DistinctKeys(items)
  {
    items == [] || ((forall i :: 1 <= i < |items| ==> items[i].key != items[0].key) && UniqueKeys(items[1..]))
  }

  function Count(items: seq<Item>, st: ItemStatus): (n: nat)
    ensures n <= |items|
  {
    if items == [] then 0
    else (if items[0].status == st then 1 else 0) + Count(items[1..], st)
  }

  // Position of the item with the given key, or |items|.
  function IndexOf(items: seq<Item>, key: string): (i: nat)
    ensures i <= |items|
    ensures i < |items| ==> items[i].key == key
    ensures forall k :: 0 <= k < i ==> items[k].key != key
  {
    if items == [] || items[0].key == key then 0 else 1 + IndexOf(items[1..], key)
  }

  // Position of the first pending item, or |items|.
  function FirstPending(items: seq<Item>): (i: nat)
    ensures i <= |items|
    ensures i < |items| ==> items[i].status == ItemPending
    ensures forall k :: 0 <= k < i ==> items[k].status != ItemPending
  {
    if items == [] || items[0].status == ItemPending then 0 else 1 + FirstPending(items[1..])
  }

  // The status a finished job is given: no failure, no success, or both.
  function Classify(done: int, failed: int): JobStatus {
    if failed == 0 then Succeeded else if done == 0 then Failed else Partial
  }

  function ErrorsAfter(errors: seq<ItemError>, e: ItemError): seq<ItemError> {
    if |errors| < MAX_ERRORS then errors + [e] else errors
  }

  // The pending item at position i is taken by a worker.
  function ClaimAt(b: Bundle, i: nat): Bundle
    requires i < |b.items|
  {
    b.(items := b.items[i := b.items[i].(status := ItemRunning)])
  }

  // The item's outcome is recorded together with the job counter; a terminal item is left alone.
  function MarkIn(b: Bundle, key: string, err: Option<string>): Bundle {
    var i := IndexOf(b.items, key);
    if i == |b.items| || b.items[i].status.Terminal() then b
    else match err
      case Some(e) =>
        Bundle(b.job.(failed := b.job.failed + 1, errors := ErrorsAfter(b.job.errors, ItemError(key, e))),
               b.items[i := b.items[i].(status := ItemFailed, err := e)])
      case None =>
        Bundle(b.job.(done := b.job.done + 1), b.items[i := b.items[i].(status := ItemDone)])
  }

  function SetTrackIn(b: Bundle, key: string, trackID: string): Bundle {
    var i := IndexOf(b.items, key);
    if i == |b.items| then b else b.(items := b.items[i := b.items[i].(trackID := trackID)])
  }

  function ResetItem(it: Item): Item {
    if it.status == ItemRunning then it.(status := ItemPending) else it
  }

  function ResetIn(b: Bundle): Bundle {
    if b.job.status.Terminal() then b
    else b.(items := seq(|b.items|, i requires 0 <= i < |b.items| => ResetItem(b.items[i])))
  }

  // ---------- what the counters promise ----------

  // The stored counters agree with the items.
  ghost predicate Exact(b: Bundle) {
    b.job.done == Count(b.items, ItemDone) && b.job.failed == Count(b.items, ItemFailed)
  }

  // A job record, stored or remembered by a worker, never claims more than the items show,
  // and its error list is as long as its failures, up to the cap.
  ghost predicate Covered(j: Job, items: seq<Item>) {
    && j.total == |items|
    && 0 <= j.done <= Count(items, ItemDone)
    && 0 <= j.failed <= Count(items, ItemFailed)
    && |j.errors| == (if j.failed <= MAX_ERRORS then j.failed else MAX_ERRORS)
  }

  // Nothing that a terminal status asserts can be false later.
  ghost predicate Finished(j: Job) {
    j.done + j.failed >= j.total && j.status == Classify(j.done, j.failed)
  }

  ghost predicate JobOk(b: Bundle) {
    && DistinctKeys(b.items)
    && Covered(b.job, b.items)
    && (b.job.status.Terminal() ==> Finished(b.job))
  }

  // Items only move towards a terminal status: the counts of terminal items never fall.
  ghost predicate Evolves(a: seq<Item>, b: seq<Item>) {
    && |a| == |b|
    && (forall i :: 0 <= i < |a| ==> a[i].key == b[i].key)
    && Count(a, ItemDone) <= Count(b, ItemDone)
    && Count(a, ItemFailed) <= Count(b, ItemFailed)
  }

  lemma {:induction false} KeyAt(items: seq<Item>, i: nat)
    requires DistinctKeys(items) && i < |items|
    ensures IndexOf(items, items[i].key) == i
  {
    if i > 0 {
      KeyAt(items[1..], i - 1);
    }
  }

  lemma {:induction false} IndexSame(a: seq<Item>, b: seq<Item>, key: string)
    requires |a| == |b| && forall i :: 0 <= i < |a| ==> a[i].key == b[i].key
    ensures IndexOf(a, key) == IndexOf(b, key)
  {
    if a != [] {
      IndexSame(a[1..], b[1..], key);
    }
  }

  lemma {:induction false} CountUpdate(items: seq<Item>, i: nat, it: Item, st: ItemStatus)
    requires i < |items|
    ensures Count(items[i := it], st)
         == Count(items, st) - (if items[i].status == st then 1 else 0) + (if it.status == st then 1 else 0)
  {
    if i == 0 {
      assert items[0 := it][1..] == items[1..];
    } else {
      assert items[i := it][1..] == items[1..][i - 1 := it];
      CountUpdate(items[1..], i - 1, it, st);
    }
  }

  // Each item is counted under at most one terminal status, so covering the total means
  // that every item is terminal.
  lemma {:induction false} TerminalCounts(items: seq<Item>)
    ensures Count(items, ItemDone) + Count(items, ItemFailed) <= |items|
    ensures Count(items, ItemDone) + Count(items, ItemFailed) == |items|
       <==> (forall i :: 0 <= i < |items| ==> items[i].status.Terminal())
  {
    if items != [] {
      TerminalCounts(items[1..]);
      assert items == [items[0]] + items[1..];
      assert (forall i :: 0 <= i < |items| ==> items[i].status.Terminal())
        <==> items[0].status.Terminal() && (forall i :: 0 <= i < |items[1..]| ==> items[1..][i].status.Terminal());
    }
  }

  lemma {:induction false} CountSame(a: seq<Item>, b: seq<Item>, st: ItemStatus)
    requires |a| == |b|
    requires forall i :: 0 <= i < |a| ==> (a[i].status == st <==> b[i].status == st)
    ensures Count(a, st) == Count(b, st)
  {
    if a != [] {
      CountSame(a[1..], b[1..], st);
    }
  }

  lemma ClaimOk(b: Bundle, i: nat)
    requires JobOk(b) && i < |b.items| && b.items[i].status == ItemPending
    ensures JobOk(ClaimAt(b, i)) && Evolves(b.items, ClaimAt(b, i).items)
    ensures Exact(b) <==> Exact(ClaimAt(b, i))
  {
    var it := b.items[i].(status := ItemRunning);
    CountUpdate(b.items, i, it, ItemDone);
    CountUpdate(b.items, i, it, ItemFailed);
  }

  // Conservation: marking moves one item into a terminal status exactly when it moves one
  // counter, so exact counters stay exact and covered counters stay covered.
  lemma MarkOk(b: Bundle, key: string, err: Option<string>)
    requires JobOk(b)
    ensures JobOk(MarkIn(b, key, err)) && Evolves(b.items, MarkIn(b, key, err).items)
    ensures Exact(b) <==> Exact(MarkIn(b, key, err))
    ensures MarkIn(b, key, err).job.status == b.job.status
  {
    hide Count;
    var i := IndexOf(b.items, key);
    if i < |b.items| && !b.items[i].status.Terminal() {
      var it := MarkIn(b, key, err).items[i];
      CountUpdate(b.items, i, it, ItemDone);
      CountUpdate(b.items, i, it, ItemFailed);
      TerminalCounts(b.items);
    }
  }

  lemma SetTrackOk(b: Bundle, key: string, trackID: string)
    requires JobOk(b)
    ensures JobOk(SetTrackIn(b, key, trackID)) && Evolves(b.items, SetTrackIn(b, key, trackID).items)
    ensures Exact(b) <==> Exact(SetTrackIn(b, key, trackID))
  {
    CountSame(b.items, SetTrackIn(b, key, trackID).items, ItemDone);
    CountSame(b.items, SetTrackIn(b, key, trackID).items, ItemFailed);
  }

  lemma ResetOk(b: Bundle)
    requires JobOk(b)
    ensures JobOk(ResetIn(b)) && Evolves(b.items, ResetIn(b).items)
    ensures Exact(b) <==> Exact(ResetIn(b))
  {
    CountSame(b.items, ResetIn(b).items, ItemDone);
    CountSame(b.items, ResetIn(b).items, ItemFailed);
  }

  // A covered record that accounts for the whole total is exact, and every item is terminal.
  lemma FinishedIsExact(j: Job, items: seq<Item>)
    requires Covered(j, items) && j.done + j.failed >= j.total
    ensures j.done == Count(items, ItemDone) && j.failed == Count(items, ItemFailed)
    ensures j.done + j.failed == j.total
    ensures forall i :: 0 <= i < |items| ==> items[i].status.Terminal()
  {
    TerminalCounts(items);
  }
}
