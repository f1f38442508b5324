// The tombstone table, the reaper's two sweeps over it, and the backoff of forced re-checks.
module ReaperSweeps {
  import opened Options
  import opened Powers

  // Seconds.
  const BACKOFF_BASE := 3600
  const BACKOFF_CAP := 86400
  const MAX_AGE := 86400
  const BATCH := 1000

  datatype Tombstone = Tombstone(deletedAt: int, attempts: nat, nextCheck: Option<int>)

  // What the upstream says about a track: a 404 or no documents, some documents, or an error.
  datatype Answer = Gone | Present | Unknown

  // One hour, doubled with every further attempt, at most a day.
  function Backoff(attempts: int): int {
    var n := if attempts <= 1 then 0 else attempts - 1;
    if BACKOFF_BASE * Pow2(n) <= BACKOFF_CAP then BACKOFF_BASE * Pow2(n) else BACKOFF_CAP
  }

  method ForceReapBackoff(attempts: int) returns (d: int)
    ensures d == Backoff(attempts)
  {
    d := BACKOFF_BASE;
    var i := 1;
    while i < attempts && d < BACKOFF_CAP
      invariant 1 <= i && (attempts > 1 ==> i <= attempts) && (attempts <= 1 ==> i == 1)
      invariant d == BACKOFF_BASE * Pow2(i - 1)
      decreases attempts - i
    {
      d := d * 2;
      i := i + 1;
    }
    if i < attempts {
      PowGrows(i - 1, attempts - 1);
    }
    if d > BACKOFF_CAP {
      d := BACKOFF_CAP;
    }
  }

  predicate Due(row: Tombstone, now: int, age: int) {
    && row.deletedAt < now - age
    && (row.nextCheck.None? || row.nextCheck.value <= now)
  }

  function DueRows(rows: map<string, Tombstone>, now: int, age: int): (due: set<string>)
    ensures due <= rows.Keys
  {
    set t | t in rows && Due(rows[t], now, age)
  }

  // A batch of the oldest rows satisfying a filter.
  ghost predicate OldestOf(rows: map<string, Tombstone>, eligible: set<string>, list: seq<string>, limit: nat)
    requires eligible <= rows.Keys
  {
    && (forall t :: t in list ==> t in eligible)
    && (forall i, j :: 0 <= i < j < |list| ==> list[i] != list[j])
    && |list| <= limit && (|list| < limit ==> forall t :: t in eligible ==> t in list)
    && (forall i, j :: 0 <= i < j < |list| ==>
         list[i] in rows && list[j] in rows && rows[list[i]].deletedAt <= rows[list[j]].deletedAt)
    && (forall t, u :: t in list && u in eligible && u !in list ==> t in rows && rows[t].deletedAt <= rows[u].deletedAt)
  }

  // What one forced re-check does to a row.
  function Rechecked(row: Tombstone, at: int): Tombstone {
    row.(attempts := row.attempts + 1, nextCheck := Some(at + Backoff(row.attempts + 1)))
  }

  // The outside of one sweep: whether the listing works, what the upstream says about each track, whether the
  // write about it works, at what time it is checked, and how many candidates the tick's deadline leaves time for.
  datatype Outside = Outside(listed: bool, answer: string -> Answer, writes: string -> bool, at: string -> int,
      reached: nat)

  // What a sweep gets done about a track: a failed write leaves the row as it is.
  function Outcome(o: Outside, t: string): Answer {
    if o.writes(t) then o.answer(t) else Unknown
  }

  // The candidates a sweep gets to.
  function Reached(o: Outside, list: seq<string>): seq<string> {
    if o.reached < |list| then list[..o.reached] else list
  }

  // The table after the fast sweep over these tracks: the confirmed ones are gone.
  function Swept(rows: map<string, Tombstone>, done: seq<string>, o: Outside): map<string, Tombstone> {
    map t | t in rows && !(t in done && Outcome(o, t) == Gone) :: rows[t]
  }

  // After the forced sweep: the confirmed ones are gone, the ones still present are deferred.
  function ForceSwept(rows: map<string, Tombstone>, done: seq<string>, o: Outside): map<string, Tombstone> {
    map t | t in rows && !(t in done && Outcome(o, t) == Gone) ::
      if t in done && Outcome(o, t) == Present then Rechecked(rows[t], o.at(t)) else rows[t]
  }

  // A sweep removes a tombstone exactly when it reaches it, finds its documents gone, and the delete works.
  ghost predicate Removes(o: Outside, list: seq<string>, t: string) {
    exists i :: 0 <= i < |list| && i < o.reached && list[i] == t && o.answer(t) == Gone && o.writes(t)
  }

  // The forced sweep defers one exactly when it reaches it, finds documents, and the update works.
  ghost predicate Defers(o: Outside, list: seq<string>, t: string) {
    exists i :: 0 <= i < |list| && i < o.reached && list[i] == t && o.answer(t) == Present && o.writes(t)
  }

  // Row by row, what the fast sweep makes of the table, and what the forced one does.
  lemma SweptMeans(rows: map<string, Tombstone>, list: seq<string>, o: Outside, t: string)
    ensures t in Swept(rows, Reached(o, list), o) <==> t in rows && !Removes(o, list, t)
    ensures t in Swept(rows, Reached(o, list), o) ==> Swept(rows, Reached(o, list), o)[t] == rows[t]
    ensures t in ForceSwept(rows, Reached(o, list), o) <==> t in rows && !Removes(o, list, t)
    ensures t in ForceSwept(rows, Reached(o, list), o) ==>
      ForceSwept(rows, Reached(o, list), o)[t] == if Defers(o, list, t) then Rechecked(rows[t], o.at(t)) else rows[t]
  {
    var done := Reached(o, list);
    forall i | 0 <= i < |list| && i < o.reached && list[i] == t
      ensures t in done
    {
      assert done[i] == t;
    }
  }

  // A row is due for a forced check when it is older than the age and no later check is set.
  lemma DueMeans(rows: map<string, Tombstone>, now: int, age: int, t: string)
    ensures t in DueRows(rows, now, age) <==>
      t in rows && rows[t].deletedAt < now - age && (rows[t].nextCheck.Some? ==> rows[t].nextCheck.value <= now)
  {}

  lemma NoneSwept(rows: map<string, Tombstone>, o: Outside)
    ensures Swept(rows, [], o) == rows && ForceSwept(rows, [], o) == rows
  {}

  lemma SweepOneMore(rows: map<string, Tombstone>, done: seq<string>, t: string, o: Outside)
    requires t in rows && t !in done
    ensures Swept(rows, done + [t], o) == if Outcome(o, t) == Gone then Swept(rows, done, o) - {t}
      else Swept(rows, done, o)
    ensures var base := ForceSwept(rows, done, o);
      && t in base && base[t] == rows[t]
      && ForceSwept(rows, done + [t], o) == match Outcome(o, t)
         case Gone => base - {t}
         case Present => base[t := Rechecked(rows[t], o.at(t))]
         case Unknown => base
  {}

  lemma ListedOnce(rows: map<string, Tombstone>, eligible: set<string>, list: seq<string>, limit: nat, i: nat)
    requires eligible <= rows.Keys && OldestOf(rows, eligible, list, limit) && i < |list|
    ensures list[i] !in list[..i] && list[i] in rows
  {
    assert list[i] in list;
  }

  // The table after a forced sweep over these candidates, row by row.
  ghost predicate ForcedRows(was: map<string, Tombstone>, now: map<string, Tombstone>, aged: seq<string>, o: Outside) {
    && (forall t :: t in now <==> t in was && !(o.listed && Removes(o, aged, t)))
    && (forall t :: t in now ==>
         now[t] == if o.listed && Defers(o, aged, t) then Rechecked(was[t], o.at(t)) else was[t])
  }

  // The table after a tick: the fast sweep over `list` and, unless its listing failed or it was cut short, the forced
  // one over `aged`.
  ghost predicate TickRows(was: map<string, Tombstone>, now: map<string, Tombstone>, list: seq<string>, fast: Outside,
      aged: seq<string>, forced: Outside) {
    var both := fast.listed && fast.reached >= |list| && forced.listed;
    && (forall t :: t in now <==>
         t in was && !(fast.listed && Removes(fast, list, t)) && !(both && Removes(forced, aged, t)))
    && (forall t :: t in now ==>
         now[t] == if both && Defers(forced, aged, t) then Rechecked(was[t], forced.at(t)) else was[t])
  }

  lemma ForcedMeans(rows: map<string, Tombstone>, aged: seq<string>, o: Outside)
    ensures ForcedRows(rows, if o.listed then ForceSwept(rows, Reached(o, aged), o) else rows, aged, o)
  {
    forall t
      ensures t in ForceSwept(rows, Reached(o, aged), o) <==> t in rows && !Removes(o, aged, t)
    {
      SweptMeans(rows, aged, o, t);
    }
    forall t | t in ForceSwept(rows, Reached(o, aged), o)
      ensures ForceSwept(rows, Reached(o, aged), o)[t] ==
        if Defers(o, aged, t) then Rechecked(rows[t], o.at(t)) else rows[t]
    {
      SweptMeans(rows, aged, o, t);
    }
  }

  lemma TickMeans(rows: map<string, Tombstone>, list: seq<string>, fast: Outside, aged: seq<string>, forced: Outside,
      through: bool)
    requires through ==> fast.listed && fast.reached >= |list|
    requires !through ==> !fast.listed || fast.reached < |list|
    ensures var mid := if fast.listed then Swept(rows, Reached(fast, list), fast) else rows;
      var end := if through && forced.listed then ForceSwept(mid, Reached(forced, aged), forced) else mid;
      TickRows(rows, end, list, fast, aged, forced)
  {
    var mid := if fast.listed then Swept(rows, Reached(fast, list), fast) else rows;
    forall t
      ensures t in mid <==> t in rows && !(fast.listed && Removes(fast, list, t))
      ensures t in mid ==> mid[t] == rows[t]
    {
      SweptMeans(rows, list, fast, t);
    }
    ForcedMeans(mid, aged, forced);
    hide Swept, ForceSwept, Removes, Defers, Backoff;
  }

  class TombstoneStore {
    var rows: map<string, Tombstone>

    constructor ()
      ensures rows == map[]
    {
      rows := map[];
    }

    // Marking again refreshes the age and keeps the re-check schedule.
    method Mark(track: string, now: int)
      modifies this
      ensures rows.Keys == old(rows).Keys + {track} && rows[track].deletedAt == now
      ensures forall t :: t in old(rows) && t != track ==> rows[t] == old(rows)[t]
      ensures track in old(rows) ==> rows[track] == old(rows)[track].(deletedAt := now)
      ensures track !in old(rows) ==> rows[track].attempts == 0 && rows[track].nextCheck == None
    {
      rows := rows[track := if track in rows then rows[track].(deletedAt := now) else Tombstone(now, 0, None)];
    }

    method IsDeleted(track: string) returns (marked: bool)
      ensures marked <==> track in rows
    {
      marked := track in rows;
    }

    method Delete(track: string)
      modifies this
      ensures rows == old(rows) - {track}
    {
      rows := rows - {track};
    }

    // An update of no rows is no error.
    method RecordForceCheckStillPresent(track: string, nextCheck: int)
      modifies this
      ensures track !in old(rows) ==> rows == old(rows)
      ensures track in old(rows) ==>
        rows == old(rows)[track :=
          old(rows)[track].(attempts := old(rows)[track].attempts + 1, nextCheck := Some(nextCheck))]
    {
      if track in rows {
        rows := rows[track := rows[track].(attempts := rows[track].attempts + 1, nextCheck := Some(nextCheck))];
      }
    }

    method List(limit: nat) returns (list: seq<string>)
      ensures OldestOf(rows, rows.Keys, list, limit)
    {
      list := Oldest(rows, rows.Keys, limit);
    }

    method ListOlderThan(now: int, age: int, limit: nat) returns (list: seq<string>)
      ensures OldestOf(rows, DueRows(rows, now, age), list, limit)
    {
      list := Oldest(rows, DueRows(rows, now, age), limit);
    }
  }

  method Oldest(rows: map<string, Tombstone>, eligible: set<string>, limit: nat) returns (list: seq<string>)
    requires eligible <= rows.Keys
    ensures OldestOf(rows, eligible, list, limit)
  {
    list := [];
    var left := eligible;
    while left != {} && |list| < limit
      invariant left <= eligible && |list| <= limit
      invariant forall t :: t in eligible <==> t in list || t in left
      invariant forall t :: t in list ==> t !in left
      invariant forall i, j :: 0 <= i < j < |list| ==> list[i] != list[j]
      invariant forall i, j :: 0 <= i < j < |list| ==>
        list[i] in rows && list[j] in rows && rows[list[i]].deletedAt <= rows[list[j]].deletedAt
      invariant forall t, u :: t in list && u in left ==> t in rows && rows[t].deletedAt <= rows[u].deletedAt
      decreases left
    {
      var t := OldestIn(rows, left);
      left := left - {t};
      list := list + [t];
    }
  }

  method OldestIn(rows: map<string, Tombstone>, left: set<string>) returns (t: string)
    requires left != {} && left <= rows.Keys
    ensures t in left && forall u :: u in left ==> rows[t].deletedAt <= rows[u].deletedAt
  {
    t :| t in left;
    var rest := left - {t};
    while rest != {}
      invariant rest <= left && t in left
      invariant forall u :: u in left - rest ==> rows[t].deletedAt <= rows[u].deletedAt
      decreases rest
    {
      var u :| u in rest;
      rest := rest - {u};
      if rows[u].deletedAt < rows[t].deletedAt {
        t := u;
      }
    }
  }

  class Reaper {
    const store: TombstoneStore

    constructor (s: TombstoneStore)
      ensures store == s
    {
      store := s;
    }

    // The fast sweep removes exactly the tombstones it reaches that are confirmed gone; unless its listing
    // fails or the deadline passes, the forced sweep then runs on what is left.
    method Tick(now: int, fast: Outside, forced: Outside) returns (ghost list: seq<string>, ghost aged: seq<string>)
      modifies store
      ensures OldestOf(old(store.rows), old(store.rows).Keys, list, BATCH)
      ensures !fast.listed ==> store.rows == old(store.rows)
      ensures fast.listed && fast.reached < |list| ==> store.rows == Swept(old(store.rows), Reached(fast, list), fast)
      ensures fast.listed && fast.reached >= |list| ==>
        var rows := Swept(old(store.rows), list, fast);
        && OldestOf(rows, DueRows(rows, now, MAX_AGE), aged, BATCH)
        && store.rows == if forced.listed then ForceSwept(rows, Reached(forced, aged), forced) else rows
      ensures TickRows(old(store.rows), store.rows, list, fast, aged, forced)
    {
      var ids := store.List(BATCH);
      list, aged := ids, [];
      if !fast.listed {
        TickMeans(store.rows, ids, fast, [], forced, false);
        return;
      }
      forall i | 0 <= i < |ids|
        ensures ids[i] !in ids[..i] && ids[i] in store.rows
      {
        ListedOnce(store.rows, store.rows.Keys, ids, BATCH, i);
      }
      hide OldestOf, Swept, ForceSwept, DueRows;
      ghost var was := store.rows;
      var cut := SweepEach(ids, fast);
      if !cut {
        aged := ForceTick(now, forced);
      }
      TickMeans(was, ids, fast, aged, forced, !cut);
    }

    // The fast sweep over its candidates, until the deadline.
    method SweepEach(ids: seq<string>, o: Outside) returns (cut: bool)
      requires forall i :: 0 <= i < |ids| ==> ids[i] !in ids[..i] && ids[i] in store.rows
      modifies store
      ensures cut <==> o.reached < |ids|
      ensures store.rows == Swept(old(store.rows), Reached(o, ids), o)
    {
      NoneSwept(store.rows, o);
      hide Swept, ForceSwept;
      for i := 0 to |ids|
        invariant i <= o.reached && store.rows == Swept(old(store.rows), ids[..i], o)
      {
        if i >= o.reached {
          return true;
        }
        assert ids[..i + 1] == ids[..i] + [ids[i]];
        SweepOneMore(old(store.rows), ids[..i], ids[i], o);
        if o.answer(ids[i]) == Gone && o.writes(ids[i]) {
          store.Delete(ids[i]);
        }
      }
      assert ids[..|ids|] == ids;
      cut := false;
    }

    // The forced sweep removes the confirmed ones it reaches, defers those still present, and leaves the rest alone.
    method ForceTick(now: int, o: Outside) returns (ghost aged: seq<string>)
      modifies store
      ensures var rows := old(store.rows);
        && OldestOf(rows, DueRows(rows, now, MAX_AGE), aged, BATCH)
        && store.rows == if o.listed then ForceSwept(rows, Reached(o, aged), o) else rows
      ensures ForcedRows(old(store.rows), store.rows, aged, o)
    {
      var ids := store.ListOlderThan(now, MAX_AGE, BATCH);
      aged := ids;
      ForcedMeans(store.rows, ids, o);
      if !o.listed {
        return;
      }
      forall i | 0 <= i < |ids|
        ensures ids[i] !in ids[..i] && ids[i] in store.rows
      {
        ListedOnce(store.rows, DueRows(store.rows, now, MAX_AGE), ids, BATCH, i);
      }
      hide OldestOf, ForceSwept, DueRows;
      ForceEach(ids, o);
    }

    method ForceEach(ids: seq<string>, o: Outside)
      requires forall i :: 0 <= i < |ids| ==> ids[i] !in ids[..i] && ids[i] in store.rows
      modifies store
      ensures store.rows == ForceSwept(old(store.rows), Reached(o, ids), o)
    {
      NoneSwept(store.rows, o);
      hide ForceSwept, Backoff, Rechecked, Outcome;
      for i := 0 to |ids|
        invariant i <= o.reached && store.rows == ForceSwept(old(store.rows), ids[..i], o)
      {
        if i >= o.reached {
          return;
        }
        assert ids[..i + 1] == ids[..i] + [ids[i]];
        SweepOneMore(old(store.rows), ids[..i], ids[i], o);
        ForceOne(ids[i], o);
      }
      assert ids[..|ids|] == ids;
    }

    // One candidate of the forced sweep.
    method ForceOne(t: string, o: Outside)
      requires t in store.rows
      modifies store
      ensures store.rows == match Outcome(o, t)
        case Gone => old(store.rows) - {t}
        case Present => old(store.rows)[t := Rechecked(old(store.rows)[t], o.at(t))]
        case Unknown => old(store.rows)
    {
      var attempts := store.rows[t].attempts + 1;
      match o.answer(t)
      case Gone =>
        if o.writes(t) {
          store.Delete(t);
        }
      case Unknown =>
      case Present =>
        var delay := ForceReapBackoff(attempts);
        if o.writes(t) {
          store.RecordForceCheckStillPresent(t, o.at(t) + delay);
        }
    }
  }

  // ---------- how often a stuck track is checked ----------

  // One row under a sequence of sweeps: when each lists its candidates, how much later it checks this one,
  // and whether the batch had room for it.
  datatype Sweep = Sweep(now: int, later: nat, roomFor: bool)

  predicate Checks(row: Tombstone, s: Sweep) {
    s.roomFor && Due(row, s.now, MAX_AGE)
  }

  function AfterSweep(row: Tombstone, s: Sweep): Tombstone {
    if Checks(row, s) then Rechecked(row, s.now + s.later) else row
  }

  // The row after the sweeps while the upstream keeps reporting the document and every deferral is recorded,
  // and the sweeps that checked it.
  function Row(row: Tombstone, sweeps: seq<Sweep>): Tombstone
    decreases |sweeps|
  {
    if sweeps == [] then row else Row(AfterSweep(row, sweeps[0]), sweeps[1..])
  }

  function CheckTimes(row: Tombstone, sweeps: seq<Sweep>): seq<int>
    decreases |sweeps|
  {
    if sweeps == [] then []
    else (if Checks(row, sweeps[0]) then [sweeps[0].now] else []) + CheckTimes(AfterSweep(row, sweeps[0]), sweeps[1..])
  }

  // The least time that n checks beyond attempt number a take up.
  function Spent(a: nat, n: nat): int
    decreases n
  {
    if n == 0 then 0 else Backoff(a) + Spent(a + 1, n - 1)
  }

  lemma {:induction false} ChecksAreSpread(row: Tombstone, sweeps: seq<Sweep>)
    ensures var times := CheckTimes(row, sweeps);
      && (times != [] && row.nextCheck.Some? ==> times[0] >= row.nextCheck.value)
      && (times != [] ==> times[|times| - 1] - times[0] >= Spent(row.attempts + 1, |times| - 1))
      && Row(row, sweeps).attempts == row.attempts + |times|
    decreases |sweeps|
  {
    if sweeps != [] {
      ChecksAreSpread(AfterSweep(row, sweeps[0]), sweeps[1..]);
    }
  }

  lemma {:induction false} SpentADayEach(a: nat, n: nat)
    requires a >= 6
    ensures Spent(a, n) == n * BACKOFF_CAP
    decreases n
  {
    if n > 0 {
      PowGrows(5, a - 1);
      assert Pow2(5) == 32;
      SpentADayEach(a + 1, n - 1);
    }
  }

  lemma SpentFromTheStart(n: nat)
    requires n >= 5
    ensures Spent(1, n) == 31 * 3600 + (n - 5) * BACKOFF_CAP
  {
    assert Pow2(1) == 2 && Pow2(2) == 4 && Pow2(3) == 8 && Pow2(4) == 16;
    assert Backoff(1) + Backoff(2) + Backoff(3) + Backoff(4) + Backoff(5) == 31 * 3600;
    assert Spent(1, n) == Backoff(1) + Spent(2, n - 1);
    assert Spent(2, n - 1) == Backoff(2) + Spent(3, n - 2);
    assert Spent(3, n - 2) == Backoff(3) + Spent(4, n - 3);
    assert Spent(4, n - 3) == Backoff(4) + Spent(5, n - 4);
    assert Spent(5, n - 4) == Backoff(5) + Spent(6, n - 5);
    SpentADayEach(6, n - 5);
  }

  // A delete that is stuck upstream for good settles into one check a day: whenever the sweeps run, a track
  // first marked now is checked at most 6 times plus once for every full day beyond the first 31 hours
  // after its first check, and the attempts in its row are the number of those checks.
  lemma OnceADay(row: Tombstone, sweeps: seq<Sweep>)
    requires row.attempts == 0
    ensures var times := CheckTimes(row, sweeps);
      && Row(row, sweeps).attempts == |times|
      && (|times| > 6 ==> |times| - 6 <= (times[|times| - 1] - times[0] - 31 * 3600) / BACKOFF_CAP)
  {
    ChecksAreSpread(row, sweeps);
    var times := CheckTimes(row, sweeps);
    if |times| > 6 {
      SpentFromTheStart(|times| - 1);
    }
  }
}
