// The LightRAG client's two retry loops: waiting out a busy pipeline until a deadline, and re-sending a
// failed request a few times.
module BusyPolling {
  import opened Options
  import opened Powers

  // Nanoseconds.
  const MS := 1_000_000
  const BASE_DELAY := 200 * MS
  const BUSY_MAX_DELAY := 2000 * MS
  const BUSY_BUDGET := 45_000 * MS
  const MAX_RETRY_AFTER := 30_000 * MS
  const RETRY_MAX := 3

  // How one delete call is answered: busy, any other status, or an error.
  datatype Reply = Busy | Answer | TransportError

  // What the outside does: every call's answer and duration, how much longer than asked every sleep takes,
  // and whether the context ends during it.
  datatype Outside = Outside(reply: nat -> Reply, took: nat -> nat, overslept: nat -> nat, cancelled: nat -> bool)

  datatype Result = Answered | Failed | GaveUp | Cancelled

  datatype Sleep = Sleep(start: int, delay: int)

  // The outcome, the calls made, the sleeps started, and the time at the end.
  datatype Trace = Trace(result: Result, calls: nat, sleeps: seq<Sleep>, end: int)

  function NextDelay(delay: int): int {
    if delay * 2 > BUSY_MAX_DELAY then BUSY_MAX_DELAY else delay * 2
  }

  // The loop from call number i on.
  function Poll(o: Outside, i: nat, now: int, delay: int, deadline: int): Trace
    requires delay >= BASE_DELAY
    decreases if now <= deadline then deadline - now + 1 else 0
  {
    var after := now + o.took(i);
    match o.reply(i)
    case TransportError => Trace(Failed, i + 1, [], after)
    case Answer => Trace(Answered, i + 1, [], after)
    case Busy =>
      if after + delay > deadline then Trace(GaveUp, i + 1, [], after)
      else if o.cancelled(i) then Trace(Cancelled, i + 1, [Sleep(after, delay)], after)
      else
        var rest := Poll(o, i + 1, after + delay + o.overslept(i), NextDelay(delay), deadline);
        rest.(sleeps := [Sleep(after, delay)] + rest.sleeps)
  }

  // The next call ends the loop, or is followed by a sleep and the rest.
  lemma PollRound(o: Outside, i: nat, now: int, delay: int, deadline: int)
    requires delay >= BASE_DELAY
    ensures var after := now + o.took(i);
      var t := Poll(o, i, now, delay, deadline);
      if o.reply(i) == TransportError then t == Trace(Failed, i + 1, [], after)
      else if o.reply(i) == Answer then t == Trace(Answered, i + 1, [], after)
      else if after + delay > deadline then t == Trace(GaveUp, i + 1, [], after)
      else if o.cancelled(i) then t == Trace(Cancelled, i + 1, [Sleep(after, delay)], after)
      else t == Slept(Sleep(after, delay), Poll(o, i + 1, after + delay + o.overslept(i), NextDelay(delay), deadline))
  {}

  function Slept(s: Sleep, rest: Trace): Trace {
    rest.(sleeps := [s] + rest.sleeps)
  }

  function After(sleeps: seq<Sleep>, rest: Trace): Trace {
    rest.(sleeps := sleeps + rest.sleeps)
  }

  lemma AfterSlept(sleeps: seq<Sleep>, s: Sleep, rest: Trace)
    ensures After(sleeps, Slept(s, rest)) == After(sleeps + [s], rest)
  {
    assert sleeps + ([s] + rest.sleeps) == (sleeps + [s]) + rest.sleeps;
  }

  // Polls until the caller's deadline when it has one, and for the default budget otherwise.
  method DeleteDocs(o: Outside, entered: int, ctxDeadline: Option<int>)
      returns (ghost t: Trace, result: Result, attempts: nat)
    ensures ctxDeadline.Some? ==> t == Poll(o, 0, entered, BASE_DELAY, ctxDeadline.value)
    ensures ctxDeadline.None? ==> t == Poll(o, 0, entered, BASE_DELAY, entered + 45_000 * MS)
    ensures result == t.result && attempts == t.calls
  {
    hide Poll;
    var deadline := if ctxDeadline.Some? then ctxDeadline.value else entered + BUSY_BUDGET;
    var now := entered;
    var delay := BASE_DELAY;
    var attempt := 1;
    ghost var sleeps: seq<Sleep> := [];
    ghost var whole := Poll(o, 0, entered, BASE_DELAY, deadline);
    assert [] + whole.sleeps == whole.sleeps;
    while true
      invariant attempt >= 1 && delay >= BASE_DELAY
      invariant whole == After(sleeps, Poll(o, attempt - 1, now, delay, deadline))
      decreases if now <= deadline then deadline - now + 1 else 0
    {
      PollRound(o, attempt - 1, now, delay, deadline);
      now := now + o.took(attempt - 1);
      match o.reply(attempt - 1) {
        case TransportError =>
          t := whole;
          return t, Failed, attempt;
        case Answer =>
          t := whole;
          return t, Answered, attempt;
        case Busy =>
      }
      if now + delay > deadline {
        t := whole;
        return t, GaveUp, attempt;
      }
      if o.cancelled(attempt - 1) {
        t := whole;
        return t, Cancelled, attempt;
      }
      AfterSlept(sleeps, Sleep(now, delay),
                 Poll(o, attempt, now + delay + o.overslept(attempt - 1), NextDelay(delay), deadline));
      sleeps := sleeps + [Sleep(now, delay)];
      now := now + delay + o.overslept(attempt - 1);
      delay := delay * 2;
      if delay > BUSY_MAX_DELAY {
        delay := BUSY_MAX_DELAY;
      }
      attempt := attempt + 1;
    }
  }

  // ---------- the schedule ----------

  // min(200 * 2^i, 2000) ms.
  function BusyDelay(i: nat): int {
    if BASE_DELAY * Pow2(i) <= BUSY_MAX_DELAY then BASE_DELAY * Pow2(i) else BUSY_MAX_DELAY
  }

  lemma NextBusyDelay(i: nat)
    ensures NextDelay(BusyDelay(i)) == BusyDelay(i + 1) && BusyDelay(i) >= BASE_DELAY
  {
    PowGrows(0, i);
  }

  // n sleeps from number i on.
  function Asleep(i: nat, n: nat): int
    decreases n
  {
    if n == 0 then 0 else BusyDelay(i) + Asleep(i + 1, n - 1)
  }

  // Sleep number i is min(200 * 2^i, 2000) ms long, ends by the deadline, and starts after the one before
  // it has ended.
  ghost predicate OnSchedule(sleeps: seq<Sleep>, i: nat, from: int, deadline: int) {
    && (forall k :: 0 <= k < |sleeps| ==>
      sleeps[k].delay == BusyDelay(i + k) && sleeps[k].start + sleeps[k].delay <= deadline)
    && (forall k :: 0 < k < |sleeps| ==> sleeps[k - 1].start + sleeps[k - 1].delay <= sleeps[k].start)
    && (sleeps != [] ==> from <= sleeps[0].start)
  }

  lemma {:induction false} PollSchedule(o: Outside, i: nat, now: int, deadline: int)
    ensures BusyDelay(i) >= BASE_DELAY
    ensures var t := Poll(o, i, now, BusyDelay(i), deadline);
      && OnSchedule(t.sleeps, i, now, deadline)
      && t.calls == i + |t.sleeps| + (if t.result == Cancelled then 0 else 1)
    decreases if now <= deadline then deadline - now + 1 else 0
  {
    NextBusyDelay(i);
    hide OnSchedule, Poll, BusyDelay, NextDelay;
    PollRound(o, i, now, BusyDelay(i), deadline);
    NoSleeps(i, now, deadline);
    var after := now + o.took(i);
    if o.reply(i) == Busy && after + BusyDelay(i) <= deadline {
      if o.cancelled(i) {
        NoSleeps(i + 1, after + BusyDelay(i), deadline);
        ScheduleMore([], i, now, after, after + BusyDelay(i), deadline);
        assert [Sleep(after, BusyDelay(i))] + [] == [Sleep(after, BusyDelay(i))];
      } else {
        var later := after + BusyDelay(i) + o.overslept(i);
        PollSchedule(o, i + 1, later, deadline);
        ScheduleMore(Poll(o, i + 1, later, BusyDelay(i + 1), deadline).sleeps, i, now, after, later, deadline);
      }
    }
  }

  lemma NoSleeps(i: nat, from: int, deadline: int)
    ensures OnSchedule([], i, from, deadline)
  {}

  lemma ScheduleMore(rest: seq<Sleep>, i: nat, now: int, after: int, later: int, deadline: int)
    requires OnSchedule(rest, i + 1, later, deadline)
    requires now <= after && after + BusyDelay(i) <= later && after + BusyDelay(i) <= deadline
    ensures OnSchedule([Sleep(after, BusyDelay(i))] + rest, i, now, deadline)
  {
    var sleeps := [Sleep(after, BusyDelay(i))] + rest;
    forall k | 0 < k < |sleeps|
      ensures sleeps[k] == rest[k - 1] && i + k == i + 1 + (k - 1)
    {}
  }

  lemma {:induction false} SleepsAddUp(o: Outside, i: nat, now: int, deadline: int)
    ensures BusyDelay(i) >= BASE_DELAY
    ensures var n := |Poll(o, i, now, BusyDelay(i), deadline).sleeps|; n > 0 ==> now + Asleep(i, n) <= deadline
    decreases if now <= deadline then deadline - now + 1 else 0
  {
    NextBusyDelay(i);
    var after := now + o.took(i);
    if o.reply(i) == Busy && after + BusyDelay(i) <= deadline && !o.cancelled(i) {
      var later := after + BusyDelay(i) + o.overslept(i);
      SleepsAddUp(o, i + 1, later, deadline);
    }
  }

  lemma {:induction false} LongSleeps(i: nat, n: nat)
    requires i >= 4
    ensures Asleep(i, n) == n * BUSY_MAX_DELAY
    decreases n
  {
    if n > 0 {
      PowGrows(4, i);
      assert Pow2(4) == 16;
      LongSleeps(i + 1, n - 1);
    }
  }

  lemma AsleepFromTheStart(n: nat)
    requires n >= 4
    ensures Asleep(0, n) == 3000 * MS + (n - 4) * BUSY_MAX_DELAY
  {
    assert Pow2(1) == 2 && Pow2(2) == 4 && Pow2(3) == 8;
    assert Asleep(0, n) == BusyDelay(0) + Asleep(1, n - 1);
    assert Asleep(1, n - 1) == BusyDelay(1) + Asleep(2, n - 2);
    assert Asleep(2, n - 2) == BusyDelay(2) + Asleep(3, n - 3);
    assert Asleep(3, n - 3) == BusyDelay(3) + Asleep(4, n - 4);
    LongSleeps(4, n - 4);
  }

  function MaxCalls(budget: int): int
    requires budget >= 3000 * MS
  {
    5 + (budget - 3000 * MS) / BUSY_MAX_DELAY
  }

  // Busy polling is bounded. Whatever the upstream answers and however long calls and sleeps take: no sleep is
  // started that would end past the deadline, sleep i is min(200 * 2^i, 2000) ms, and a budget of B >= 3000 ms
  // allows at most 5 + (B - 3000) / 2000 calls.
  lemma PollingIsBounded(o: Outside, entered: int, deadline: int)
    ensures var t := Poll(o, 0, entered, BASE_DELAY, deadline);
      && OnSchedule(t.sleeps, 0, entered, deadline)
      && (deadline - entered >= 3000 * MS ==> t.calls <= MaxCalls(deadline - entered))
  {
    PollSchedule(o, 0, entered, deadline);
    SleepsAddUp(o, 0, entered, deadline);
    var t := Poll(o, 0, entered, BASE_DELAY, deadline);
    if deadline - entered >= 3000 * MS && |t.sleeps| >= 4 {
      AsleepFromTheStart(|t.sleeps|);
    }
  }

  // 26 calls within the default budget.
  lemma DefaultBudget(o: Outside, entered: int)
    ensures Poll(o, 0, entered, BASE_DELAY, entered + BUSY_BUDGET).calls <= 26
  {
    PollingIsBounded(o, entered, entered + BUSY_BUDGET);
  }

  // The bound is sharp: an upstream that is always busy and answers at once is called exactly that often.
  lemma BoundIsReached(entered: int, deadline: int)
    requires deadline - entered >= 3000 * MS
    ensures var t := Poll(AlwaysBusy(), 0, entered, BASE_DELAY, deadline);
      t.result == GaveUp && t.calls == MaxCalls(deadline - entered)
  {
    PollingIsBounded(AlwaysBusy(), entered, deadline);
    GivesUpLate(0, entered, deadline);
    var t := Poll(AlwaysBusy(), 0, entered, BASE_DELAY, deadline);
    var n := |t.sleeps|;
    PollSchedule(AlwaysBusy(), 0, entered, deadline);
    if n < 4 {
      assert Pow2(1) == 2 && Pow2(2) == 4 && Pow2(3) == 8;
      ShortSleeps(n + 1);
    } else {
      AsleepFromTheStart(n + 1);
    }
  }

  lemma ShortSleeps(n: nat)
    requires n <= 4
    ensures Asleep(0, n) <= 3000 * MS
  {
    assert Pow2(1) == 2 && Pow2(2) == 4 && Pow2(3) == 8;
    if n >= 1 { assert Asleep(0, n) == BusyDelay(0) + Asleep(1, n - 1); }
    if n >= 2 { assert Asleep(1, n - 1) == BusyDelay(1) + Asleep(2, n - 2); }
    if n >= 3 { assert Asleep(2, n - 2) == BusyDelay(2) + Asleep(3, n - 3); }
    if n >= 4 { assert Asleep(3, n - 3) == BusyDelay(3) + Asleep(4, n - 4); }
  }

  function AlwaysBusy(): Outside {
    Outside((i: nat) => Busy, (i: nat) => 0, (i: nat) => 0, (i: nat) => false)
  }

  // It gives up only when one more sleep would not fit.
  lemma {:induction false} GivesUpLate(i: nat, now: int, deadline: int)
    ensures BusyDelay(i) >= BASE_DELAY
    ensures var t := Poll(AlwaysBusy(), i, now, BusyDelay(i), deadline);
      t.result == GaveUp && now + Asleep(i, |t.sleeps| + 1) > deadline
    decreases if now <= deadline then deadline - now + 1 else 0
  {
    NextBusyDelay(i);
    if now + BusyDelay(i) <= deadline {
      GivesUpLate(i + 1, now + BusyDelay(i), deadline);
    } else {
      assert Asleep(i, 1) == BusyDelay(i) + Asleep(i + 1, 0);
    }
  }

  // The result is the first reply that is not busy; giving up or a cancelled wait means every reply was busy.
  lemma {:induction false} FirstNotBusy(o: Outside, i: nat, now: int, delay: int, deadline: int)
    requires delay >= BASE_DELAY
    ensures var t := Poll(o, i, now, delay, deadline);
      && t.calls > i && (forall k :: i <= k < t.calls - 1 ==> o.reply(k) == Busy)
      && (t.result == Answered <==> o.reply(t.calls - 1) == Answer)
      && (t.result == Failed <==> o.reply(t.calls - 1) == TransportError)
    decreases if now <= deadline then deadline - now + 1 else 0
  {
    var after := now + o.took(i);
    if o.reply(i) == Busy && after + delay <= deadline && !o.cancelled(i) {
      FirstNotBusy(o, i + 1, after + delay + o.overslept(i), NextDelay(delay), deadline);
    }
  }

  // When the reply to call number i + k is in, if call i starts now and all replies before are busy: calls, asked-for
  // sleeps and oversleeping add up.
  function Clock(o: Outside, i: nat, now: int, k: nat): int
    decreases k
  {
    if k == 0 then now + o.took(i)
    else Clock(o, i + 1, now + o.took(i) + BusyDelay(i) + o.overslept(i), k - 1)
  }

  // Call number i + k is answered busy, one more sleep fits before the deadline, and it is not cancelled.
  ghost predicate GoesOn(o: Outside, i: nat, now: int, k: nat, deadline: int) {
    o.reply(i + k) == Busy && !o.cancelled(i + k) && Clock(o, i, now, k) + BusyDelay(i + k) <= deadline
  }

  // The whole trace. Every call but the last was answered busy, could sleep once more before the deadline and was not
  // cancelled in that sleep. The last was answered otherwise, or leaves no time for another sleep, or was cancelled.
  lemma {:induction false} PollExactly(o: Outside, i: nat, now: int, deadline: int)
    ensures BusyDelay(i) >= BASE_DELAY
    ensures var t := Poll(o, i, now, BusyDelay(i), deadline);
      && t.calls > i && t.end == Clock(o, i, now, t.calls - 1 - i)
      && (forall k :: 0 <= k < |t.sleeps| ==> t.sleeps[k] == Sleep(Clock(o, i, now, k), BusyDelay(i + k)))
      && (forall k :: 0 <= k < t.calls - 1 - i ==> GoesOn(o, i, now, k, deadline))
      && (t.result == Answered <==> o.reply(t.calls - 1) == Answer)
      && (t.result == Failed <==> o.reply(t.calls - 1) == TransportError)
      && (t.result == GaveUp <==> o.reply(t.calls - 1) == Busy && t.end + BusyDelay(t.calls - 1) > deadline)
      && (t.result == Cancelled ==> o.cancelled(t.calls - 1))
    decreases if now <= deadline then deadline - now + 1 else 0
  {
    NextBusyDelay(i);
    hide BusyDelay, NextDelay, Poll;
    PollRound(o, i, now, BusyDelay(i), deadline);
    var after := now + o.took(i);
    if o.reply(i) == Busy && after + BusyDelay(i) <= deadline && !o.cancelled(i) {
      var later := after + BusyDelay(i) + o.overslept(i);
      PollExactly(o, i + 1, later, deadline);
      var t, rest := Poll(o, i, now, BusyDelay(i), deadline), Poll(o, i + 1, later, BusyDelay(i + 1), deadline);
      forall k | 0 < k <= rest.calls - 2 - i
        ensures Clock(o, i, now, k) == Clock(o, i + 1, later, k - 1)
      {}
      forall k | 0 < k < |t.sleeps|
        ensures t.sleeps[k] == Sleep(Clock(o, i, now, k), BusyDelay(i + k))
      {
        assert t.sleeps[k] == rest.sleeps[k - 1] && i + 1 + (k - 1) == i + k;
      }
      forall k | 0 < k < t.calls - 1 - i
        ensures GoesOn(o, i, now, k, deadline)
      {
        assert GoesOn(o, i + 1, later, k - 1, deadline);
      }
    }
  }

  // ---------- re-sending a request ----------

  // How often one request is sent: the retry loop stops after the fourth time.
  type Attempts = n: nat | 1 <= n <= RETRY_MAX + 1 witness 1

  // How one HTTP exchange ends: no response, a status with the parsed Retry-After header if any, or a
  // response body that does or does not decode.
  datatype Exchange = NoResponse | Status(code: nat, retryAfter: Option<int>) | Decoded | Undecodable

  datatype Sent = Ok | Err(e: Exchange) | ContextDone

  predicate Retryable(e: Exchange) {
    e.NoResponse? || (e.Status? && e.code >= 400 && (e.code == 429 || e.code >= 500))
  }

  function Outcome(e: Exchange): Sent {
    match e
    case NoResponse => Err(e)
    case Status(code, retryAfter) => if code >= 400 then Err(e) else Ok
    case Decoded => Ok
    case Undecodable => Err(e)
  }

  // The one wait between attempts number i and i + 1.
  function Gap(i: nat, e: Exchange): int {
    if e.Status? && e.retryAfter.Some? then
      if e.retryAfter.value <= 0 then 0
      else if e.retryAfter.value > MAX_RETRY_AFTER then MAX_RETRY_AFTER
      else e.retryAfter.value
    else BASE_DELAY * Pow2(i)
  }

  function Sum(waits: seq<int>): int {
    if waits == [] then 0 else Sum(waits[..|waits| - 1]) + waits[|waits| - 1]
  }

  ghost predicate AllRetryable(exchange: nat -> Exchange, n: nat) {
    forall i: nat :: i < n ==> Retryable(exchange(i))
  }

  ghost predicate Gaps(waits: seq<int>, exchange: nat -> Exchange) {
    forall i :: 0 <= i < |waits| ==> waits[i] == Gap(i, exchange(i))
  }

  // What is worth another attempt: no response, 429, and any 5xx status.
  ghost predicate SentAgain(e: Exchange) {
    e.NoResponse? || (e.Status? && (e.code == 429 || e.code >= 500))
  }

  // The wait between two attempts: what the server asks for, within 0 to 30 seconds, or else 200, 400 and 800 ms.
  lemma WaitIs(i: nat, e: Exchange)
    requires i < 3
    ensures e.Status? && e.retryAfter.Some? && 0 <= e.retryAfter.value <= 30_000 * MS ==>
      Gap(i, e) == e.retryAfter.value
    ensures e.Status? && e.retryAfter.Some? && e.retryAfter.value < 0 ==> Gap(i, e) == 0
    ensures e.Status? && e.retryAfter.Some? && e.retryAfter.value > 30_000 * MS ==> Gap(i, e) == 30_000 * MS
    ensures !(e.Status? && e.retryAfter.Some?) ==> Gap(i, e) == [200 * MS, 400 * MS, 800 * MS][i]
  {
    assert Pow2(0) == 1 && Pow2(1) == 2 && Pow2(2) == 4;
  }

  predicate Directed(e: Exchange) {
    e.Status? && e.retryAfter.Some?
  }

  lemma BackoffGap(i: nat, e: Exchange)
    requires !Directed(e)
    ensures Gap(i, e) == BASE_DELAY * Pow2(i)
  {}

  lemma DirectedGap(i: nat, e: Exchange)
    requires Directed(e)
    ensures var wait := Capped(e.retryAfter.value); Gap(i, e) == if wait > 0 then wait else 0
  {}

  // At most four attempts; between two of them exactly one wait, the server's or the back-off but never both; the
  // result is that of the first attempt that is not retryable, or of the fourth.
  method RoundTrip(exchange: nat -> Exchange, done: nat -> bool) returns (
    r: Sent, attempts: Attempts, ghost waits: seq<int>)
    ensures attempts <= 4 && |waits| == (if r == ContextDone then attempts else attempts - 1) && Gaps(waits, exchange)
    ensures forall i :: 0 <= i < |waits| ==> SentAgain(exchange(i))
    ensures r == ContextDone ==> attempts < 4 && done(attempts - 1)
    ensures r != ContextDone ==> r == Outcome(exchange(attempts - 1))
    ensures r != ContextDone && attempts < 4 ==> !SentAgain(exchange(attempts - 1))
    ensures r == Ok <==> r != ContextDone && var e := exchange(attempts - 1); e.Decoded? || (e.Status? && e.code < 400)
  {
    hide Pow2, Gap;
    waits := [];
    var lastErr := ContextDone;
    var skipBackoff := false;
    var attempt := 0;
    while attempt <= RETRY_MAX
      invariant attempt <= RETRY_MAX + 1 && AllRetryable(exchange, attempt) && Gaps(waits, exchange)
      invariant attempt == 0 ==> !skipBackoff && waits == []
      invariant attempt > 0 ==> lastErr == Outcome(exchange(attempt - 1)) && lastErr != ContextDone
      invariant attempt > 0 ==> |waits| == if skipBackoff then attempt else attempt - 1
      invariant attempt > 0 && !skipBackoff && attempt <= RETRY_MAX ==> !Directed(exchange(attempt - 1))
      invariant attempt > RETRY_MAX ==> !skipBackoff
    {
      if attempt > 0 && !skipBackoff {
        BackoffGap(attempt - 1, exchange(attempt - 1));
        waits := waits + [BASE_DELAY * Pow2(attempt - 1)];
        if done(attempt - 1) {
          return ContextDone, attempt, waits;
        }
      }
      skipBackoff := false;
      var e := exchange(attempt);
      if e.NoResponse? {
        lastErr := Err(e);
        attempt := attempt + 1;
        continue;
      }
      if e.Status? && e.code >= 400 {
        if Retryable(e) && attempt < RETRY_MAX {
          lastErr := Err(e);
          if e.retryAfter.Some? {
            var wait := Capped(e.retryAfter.value);
            DirectedGap(attempt, e);
            waits := waits + [if wait > 0 then wait else 0];
            if wait > 0 && done(attempt) {
              return ContextDone, attempt + 1, waits;
            }
            skipBackoff := true;
          }
          attempt := attempt + 1;
          continue;
        }
        return Err(e), attempt + 1, waits;
      }
      return Outcome(e), attempt + 1, waits;
    }
    return lastErr, attempt, waits;
  }

  function Capped(wait: int): int {
    if wait > MAX_RETRY_AFTER then MAX_RETRY_AFTER else wait
  }

  // So all waiting of one request together is at most 90 seconds, whatever the server asks for.
  lemma WaitsAreBounded(waits: seq<int>, exchange: nat -> Exchange)
    requires |waits| <= 3 && Gaps(waits, exchange)
    ensures 0 <= Sum(waits) <= 3 * MAX_RETRY_AFTER
  {
    forall i | 0 <= i < |waits|
      ensures 0 <= waits[i] <= MAX_RETRY_AFTER
    {
      GapBound(i, exchange(i));
    }
    SumBound(waits);
  }

  lemma {:induction false} SumBound(waits: seq<int>)
    requires forall i :: 0 <= i < |waits| ==> 0 <= waits[i] <= MAX_RETRY_AFTER
    ensures 0 <= Sum(waits) <= |waits| * MAX_RETRY_AFTER
  {
    if waits != [] {
      SumBound(waits[..|waits| - 1]);
    }
  }

  lemma GapBound(i: nat, e: Exchange)
    requires i <= 2
    ensures 0 <= Gap(i, e) <= MAX_RETRY_AFTER
  {
    assert Pow2(1) == 2 && Pow2(2) == 4;
  }
}
