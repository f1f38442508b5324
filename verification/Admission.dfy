// Bounded admission of one class of bulk requests: slots, queueing, shedding, and the Retry-After spread.
module Admission {

  // A request, by order of arrival: it waits for a slot, runs, and ends served, shed or cancelled.
  datatype Phase = Queued | Running | Served | Shed | Cancelled

  // A capacity of 0 passes every request through without a slot.
  datatype Limiter = Limiter(
    capacity: nat, slots: nat, phases: seq<Phase>, admitted: nat, shed: nat, cancelled: nat)

  datatype Event = Arrive | Grant(r: nat) | TimeOut(r: nat) | Disconnect(r: nat) | Finish(r: nat)

  function New(capacity: nat): Limiter {
    Limiter(capacity, 0, [], 0, 0, 0)
  }

  predicate In(l: Limiter, r: nat, p: Phase) {
    r < |l.phases| && l.phases[r] == p
  }

  function Move(l: Limiter, r: nat, p: Phase): Limiter
    requires r < |l.phases|
  {
    l.(phases := l.phases[r := p])
  }

  // A free slot is taken at once; otherwise the request queues.
  function DoArrive(l: Limiter): Limiter {
    if l.capacity == 0 then l.(phases := l.phases + [Running])
    else if l.slots < l.capacity
      then l.(phases := l.phases + [Running], slots := l.slots + 1, admitted := l.admitted + 1)
    else l.(phases := l.phases + [Queued])
  }

  function DoGrant(l: Limiter, r: nat): Limiter {
    if In(l, r, Queued) && l.slots < l.capacity
      then Move(l, r, Running).(slots := l.slots + 1, admitted := l.admitted + 1)
    else l
  }

  // The wait can run out, and the client can go, even while a slot is free.
  function DoTimeOut(l: Limiter, r: nat): Limiter {
    if In(l, r, Queued) then Move(l, r, Shed).(shed := l.shed + 1) else l
  }

  function DoDisconnect(l: Limiter, r: nat): Limiter {
    if In(l, r, Queued) then Move(l, r, Cancelled).(cancelled := l.cancelled + 1) else l
  }

  function DoFinish(l: Limiter, r: nat): Limiter {
    if In(l, r, Running)
      then Move(l, r, Served).(slots := if l.capacity == 0 || l.slots == 0 then l.slots else l.slots - 1)
    else l
  }

  function Apply(l: Limiter, e: Event): Limiter {
    match e
    case Arrive => DoArrive(l)
    case Grant(r) => DoGrant(l, r)
    case TimeOut(r) => DoTimeOut(l, r)
    case Disconnect(r) => DoDisconnect(l, r)
    case Finish(r) => DoFinish(l, r)
  }

  function Exec(l: Limiter, events: seq<Event>): Limiter
    decreases |events|
  {
    if events == [] then l else Exec(Apply(l, events[0]), events[1..])
  }

  function Number(l: Limiter, p: Phase): nat {
    multiset(l.phases)[p]
  }

  // Slots held are requests running, never above capacity, and every counter is the number of requests
  // that ended that way.
  ghost predicate Inv(l: Limiter) {
    && (l.capacity > 0 ==> l.slots == Number(l, Running) <= l.capacity)
    && (l.capacity > 0 ==> l.admitted == Number(l, Running) + Number(l, Served))
    && (l.capacity == 0 ==> l.slots == 0 && l.admitted == 0 && Number(l, Queued) == 0)
    && l.shed == Number(l, Shed) && l.cancelled == Number(l, Cancelled)
  }

  lemma Moved(l: Limiter, r: nat, p: Phase, q: Phase)
    requires In(l, r, p) && p != q
    ensures multiset(Move(l, r, q).phases) == multiset(l.phases) - multiset{p} + multiset{q}
    ensures Number(l, p) > 0
  {
    assert l.phases[r] in multiset(l.phases);
  }

  lemma ArriveInv(l: Limiter)
    requires Inv(l)
    ensures Inv(DoArrive(l))
  {
    assert forall p :: multiset(l.phases + [p]) == multiset(l.phases) + multiset{p};
  }

  lemma GrantInv(l: Limiter, r: nat)
    requires Inv(l)
    ensures Inv(DoGrant(l, r))
  {
    if In(l, r, Queued) {
      Moved(l, r, Queued, Running);
    }
  }

  lemma EndInv(l: Limiter, r: nat)
    requires Inv(l)
    ensures Inv(DoTimeOut(l, r)) && Inv(DoDisconnect(l, r))
  {
    if In(l, r, Queued) {
      Moved(l, r, Queued, Shed);
      Moved(l, r, Queued, Cancelled);
    }
  }

  lemma FinishInv(l: Limiter, r: nat)
    requires Inv(l)
    ensures Inv(DoFinish(l, r))
  {
    if In(l, r, Running) {
      Moved(l, r, Running, Served);
    }
  }

  lemma InvStep(l: Limiter, e: Event)
    requires Inv(l)
    ensures Inv(Apply(l, e))
  {
    match e
    case Arrive => ArriveInv(l);
    case Grant(r) => GrantInv(l, r);
    case TimeOut(r) => EndInv(l, r);
    case Disconnect(r) => EndInv(l, r);
    case Finish(r) => FinishInv(l, r);
  }

  lemma {:induction false} InvExec(l: Limiter, events: seq<Event>)
    requires Inv(l)
    ensures Inv(Exec(l, events))
    decreases |events|
  {
    if events != [] {
      InvStep(l, events[0]);
      InvExec(Apply(l, events[0]), events[1..]);
    }
  }

  lemma {:induction false} CapacityKept(l: Limiter, events: seq<Event>)
    ensures Exec(l, events).capacity == l.capacity && |Exec(l, events).phases| >= |l.phases|
    decreases |events|
  {
    if events != [] {
      CapacityKept(Apply(l, events[0]), events[1..]);
    }
  }

  lemma {:induction false} PhaseTotal(phases: seq<Phase>)
    ensures |phases| == multiset(phases)[Queued] + multiset(phases)[Running] + multiset(phases)[Served]
      + multiset(phases)[Shed] + multiset(phases)[Cancelled]
  {
    if phases != [] {
      var init, last := phases[..|phases| - 1], phases[|phases| - 1];
      PhaseTotal(init);
      assert phases == init + [last];
      assert multiset(phases) == multiset(init) + multiset{last};
      assert last.Queued? || last.Running? || last.Served? || last.Shed? || last.Cancelled?;
    } else {
      assert multiset(phases) == multiset{};
    }
  }

  // In every run of a bounded class: slots held are the requests running, never more than the capacity, and
  // all requests that arrived are accounted for, each counted once as admitted, shed or cancelled, or still queued.
  lemma EveryRequestCountedOnce(capacity: nat, events: seq<Event>)
    requires capacity > 0
    ensures var l := Exec(New(capacity), events);
      && l.slots == Number(l, Running) <= capacity
      && |l.phases| == Number(l, Queued) + l.admitted + l.shed + l.cancelled
  {
    InvExec(New(capacity), events);
    CapacityKept(New(capacity), events);
    PhaseTotal(Exec(New(capacity), events).phases);
  }

  // The ways a request has ended, if it has.
  predicate Ended(p: Phase) {
    p.Served? || p.Shed? || p.Cancelled?
  }

  // And an end is final: no later event moves a request that was served, shed or cancelled, and one that runs
  // can only be served.
  lemma {:induction false} EndsAreFinal(l: Limiter, events: seq<Event>, r: nat)
    requires r < |l.phases|
    ensures r < |Exec(l, events).phases|
    ensures Ended(l.phases[r]) ==> Exec(l, events).phases[r] == l.phases[r]
    ensures l.phases[r].Running? ==> Exec(l, events).phases[r].Running? || Exec(l, events).phases[r].Served?
    decreases |events|
  {
    if events != [] {
      EndsAreFinal(Apply(l, events[0]), events[1..], r);
    }
  }

  // An arrival runs at once exactly when a slot is free. A queued request that is granted a slot, times out or goes
  // away ends that way and no other, and is counted for it.
  lemma ArrivalsAndWaits(l: Limiter, r: nat)
    requires l.capacity > 0 && In(l, r, Queued)
    ensures Apply(l, Arrive).phases == l.phases + [if l.slots < l.capacity then Running else Queued]
    ensures Apply(l, Grant(r)) == if l.slots >= l.capacity then l
      else l.(phases := l.phases[r := Running], slots := l.slots + 1, admitted := l.admitted + 1)
    ensures Apply(l, TimeOut(r)) == l.(phases := l.phases[r := Shed], shed := l.shed + 1)
    ensures Apply(l, Disconnect(r)) == l.(phases := l.phases[r := Cancelled], cancelled := l.cancelled + 1)
  {}

  // A slot passes on: when a running request finishes, a queued one can take its place.
  lemma SlotPassesOn(l: Limiter, a: nat, b: nat)
    requires Inv(l) && l.capacity > 0 && In(l, a, Running) && In(l, b, Queued)
    ensures Apply(Apply(l, Finish(a)), Grant(b))
         == l.(phases := l.phases[a := Served][b := Running], admitted := l.admitted + 1)
  {
    Moved(l, a, Running, Served);
    assert Apply(l, Finish(a)) == l.(phases := l.phases[a := Served], slots := l.slots - 1);
    hide Inv;
  }

  // ---------- the limiter object ----------

  // Each method is one select or channel operation of a request; the slots channel is its length.
  class AdmissionLimiter {
    const capacity: nat
    // Nanoseconds.
    const retryAfter: nat
    var slots: nat
    var shedSeq: nat
    ghost var phases: seq<Phase>
    var admitted: nat
    var shed: nat
    var cancelled: nat

    constructor (maxInFlight: nat, retryAfterNanos: nat)
      ensures State() == New(maxInFlight) && capacity == maxInFlight && retryAfter == retryAfterNanos && shedSeq == 0
    {
      capacity, retryAfter := maxInFlight, retryAfterNanos;
      slots, shedSeq, phases, admitted, shed, cancelled := 0, 0, [], 0, 0, 0;
    }

    ghost function State(): Limiter
      reads this
    {
      Limiter(capacity, slots, phases, admitted, shed, cancelled)
    }

    // Entry: reports whether the request runs or has to queue.
    method Enter() returns (running: bool)
      modifies this`slots, this`phases, this`admitted
      ensures State() == Apply(old(State()), Arrive)
      ensures running <==> In(State(), |old(phases)|, Running)
    {
      running := true;
      if capacity == 0 {
        phases := phases + [Running];
      } else if slots < capacity {
        slots := slots + 1;
        admitted := admitted + 1;
        phases := phases + [Running];
      } else {
        running := false;
        phases := phases + [Queued];
      }
    }

    // The three-way wait, as decided by what happened: a slot came free, the wait ran out, or the client went.
    // A shed answer carries the Retry-After seconds.
    method Wait(ghost r: nat, slotCame: bool, timedOut: bool) returns (ok: bool, retrySeconds: nat)
      requires In(State(), r, Queued) && (slotCame ==> slots < capacity)
      modifies this`slots, this`phases, this`admitted, this`shed, this`cancelled, this`shedSeq
      ensures State() ==
        Apply(old(State()), if slotCame then Grant(r) else if timedOut then TimeOut(r) else Disconnect(r))
      ensures ok == slotCame
      ensures !slotCame && timedOut ==>
        shedSeq == (old(shedSeq) + 1) % UINT64 && retrySeconds == RetryAfter(retryAfter, shedSeq)
      ensures slotCame || !timedOut ==> shedSeq == old(shedSeq)
    {
      ok, retrySeconds := slotCame, 0;
      if slotCame {
        slots := slots + 1;
        admitted := admitted + 1;
        phases := phases[r := Running];
      } else if timedOut {
        shed := shed + 1;
        phases := phases[r := Shed];
        retrySeconds := RetryAfterSeconds();
      } else {
        cancelled := cancelled + 1;
        phases := phases[r := Cancelled];
      }
    }

    // The deferred release, which runs however the handler ends.
    method Leave(ghost r: nat)
      requires In(State(), r, Running) && Inv(State())
      modifies this`slots, this`phases
      ensures State() == Apply(old(State()), Finish(r)) && Inv(State())
    {
      Moved(State(), r, Running, Served);
      if capacity > 0 {
        slots := slots - 1;
      }
      phases := phases[r := Served];
    }

    method RetryAfterSeconds() returns (seconds: nat)
      modifies this`shedSeq
      ensures shedSeq == (old(shedSeq) + 1) % UINT64 && seconds == RetryAfter(retryAfter, shedSeq)
    {
      var base := (retryAfter + 999_999_999) / 1_000_000_000;
      if base < 1 {
        base := 1;
      }
      shedSeq := (shedSeq + 1) % UINT64;
      seconds := base + base * EIGHTHS[shedSeq % 4] / 8;
    }
  }

  const UINT64 := 0x1_0000_0000_0000_0000
  const EIGHTHS: seq<nat> := [0, 1, 2, 3]

  // Whole seconds, rounded up, at least one.
  function Base(nanos: nat): nat {
    var up := (nanos + 999_999_999) / 1_000_000_000;
    if up < 1 then 1 else up
  }

  // The base and some eighths of it.
  function Told(base: nat, eighths: nat): nat {
    base + base * eighths / 8
  }

  function RetryAfter(nanos: nat, seq': nat): nat {
    Told(Base(nanos), EIGHTHS[seq' % 4])
  }

  // The base is the least whole number of seconds that covers the configured time, and at least one. The advertised
  // value is never more than half of the base above it, and any four sheds in a row are told base, base + 1/8,
  // base + 2/8 and base + 3/8 of it, each once, even where the 64-bit counter wraps.
  lemma RetryAfterSpread(nanos: nat, n: nat)
    ensures var b := Base(nanos);
      b >= 1 && nanos <= b * 1_000_000_000 && (b > 1 ==> (b - 1) * 1_000_000_000 < nanos)
    ensures Base(nanos) <= RetryAfter(nanos, n) && 2 * RetryAfter(nanos, n) <= 3 * Base(nanos)
    ensures var b := Base(nanos);
      multiset{RetryAfter(nanos, n % UINT64), RetryAfter(nanos, (n + 1) % UINT64),
               RetryAfter(nanos, (n + 2) % UINT64), RetryAfter(nanos, (n + 3) % UINT64)}
        == multiset{Told(b, 0), Told(b, 1), Told(b, 2), Told(b, 3)}
    ensures var b := Base(nanos);
      Told(b, 0) == b && Told(b, 1) == b + b / 8 && Told(b, 2) == b + 2 * b / 8 && Told(b, 3) == b + 3 * b / 8
  {
    BaseCovers(nanos);
    Eighths(Base(nanos), EIGHTHS[n % 4]);
    FourTold(nanos, n);
    TheFour(Base(nanos));
    assert RetryAfter(nanos, n) == Told(Base(nanos), EIGHTHS[n % 4]);
    hide RetryAfter, Told, Base;
  }

  lemma FourTold(nanos: nat, n: nat)
    ensures var b := Base(nanos);
      multiset{RetryAfter(nanos, n % UINT64), RetryAfter(nanos, (n + 1) % UINT64),
               RetryAfter(nanos, (n + 2) % UINT64), RetryAfter(nanos, (n + 3) % UINT64)}
        == multiset{Told(b, 0), Told(b, 1), Told(b, 2), Told(b, 3)}
  {
    hide Told, Base;
    ToldAt(nanos, n);
    ToldAt(nanos, n + 1);
    ToldAt(nanos, n + 2);
    ToldAt(nanos, n + 3);
    FourInARow(n, Base(nanos));
    hide RetryAfter;
  }

  lemma ToldAt(nanos: nat, k: nat)
    ensures RetryAfter(nanos, k % UINT64) == Told(Base(nanos), EIGHTHS[k % 4])
  {
    ModMod(k);
  }

  lemma TheFour(base: nat)
    ensures Told(base, 0) == base && Told(base, 1) == base + base / 8
    ensures Told(base, 2) == base + 2 * base / 8 && Told(base, 3) == base + 3 * base / 8
  {}

  lemma FourInARow(n: nat, base: nat)
    ensures multiset{Told(base, EIGHTHS[n % 4]), Told(base, EIGHTHS[(n + 1) % 4]), Told(base, EIGHTHS[(n + 2) % 4]),
                     Told(base, EIGHTHS[(n + 3) % 4])}
         == multiset{Told(base, 0), Told(base, 1), Told(base, 2), Told(base, 3)}
  {
    hide Told;
    NextMod(n);
    NextMod(n + 1);
    NextMod(n + 2);
    assert n + 1 + 1 == n + 2 && n + 2 + 1 == n + 3;
    Rotations(Told(base, 0), Told(base, 1), Told(base, 2), Told(base, 3));
    assert n % 4 == 0 || n % 4 == 1 || n % 4 == 2 || n % 4 == 3;
  }

  lemma Rotate(w: nat, x: nat, y: nat, z: nat)
    ensures multiset{x, y, z, w} == multiset{w, x, y, z}
  {
    assert multiset{w, x, y, z} == multiset{w} + multiset{x, y, z};
    assert multiset{x, y, z, w} == multiset{x, y, z} + multiset{w};
  }

  lemma Rotations(w: nat, x: nat, y: nat, z: nat)
    ensures multiset{x, y, z, w} == multiset{y, z, w, x} == multiset{z, w, x, y} == multiset{w, x, y, z}
  {
    Rotate(w, x, y, z);
    Rotate(x, y, z, w);
    Rotate(y, z, w, x);
  }

  lemma NextMod(n: nat)
    ensures (n + 1) % 4 == if n % 4 == 3 then 0 else n % 4 + 1
  {}

  lemma BaseCovers(nanos: nat)
    ensures var b := Base(nanos);
      b >= 1 && nanos <= b * 1_000_000_000 && (b > 1 ==> (b - 1) * 1_000_000_000 < nanos)
  {}

  lemma ModMod(k: nat)
    ensures k % UINT64 % 4 == k % 4
  {
    var q := k / UINT64;
    assert k == UINT64 * q + k % UINT64;
    assert UINT64 * q == 4 * (0x4000_0000_0000_0000 * q);
  }

  lemma Eighths(base: nat, e: nat)
    requires e <= 3
    ensures base <= Told(base, e) && 2 * Told(base, e) <= 3 * base
  {}
}
