// Deletes, reads and reaping of one memory, interleaved in any order over an upstream that deletes
// in its own time.
module Tombstones {

  type DocId = nat

  // Where a deleteMemoryRaw call stands.
  datatype Deleting = Idle | Listed(ids: set<DocId>) | Marked(ids: set<DocId>) | Refused

  // Where a GetMemory call stands: past its tombstone check, which ran before or after the first
  // acknowledged delete.
  datatype Reading = NotReading | Passed(late: bool)

  // Where a reaper stands: it listed the tombstone, or it also saw that the documents are gone.
  datatype Reaping = Resting | Candidate | Confirmed

  // One memory: its tombstone, its upstream documents and the ones scheduled for deletion, the calls
  // in flight by caller, whether a delete has returned without error, and how often a GetMemory that
  // started after that returned a memory.
  datatype State = State(
    tomb: bool, docs: set<DocId>, scheduled: set<DocId>,
    deleters: map<nat, Deleting>, readers: map<nat, Reading>, reapers: map<nat, Reaping>,
    acknowledged: bool, leaks: nat)

  datatype Step =
    | LookUp(w: nat)
    | Mark(w: nat, effect: bool, ok: bool)
    | Accept(w: nat)
    | Schedule(w: nat)
    | Die(w: nat)
    | Refuse(w: nat, effect: bool)
    | Unmark(w: nat, effect: bool)
    | Vanish(d: DocId)
    | Check(g: nat)
    | Read(g: nat)
    | List(r: nat)
    | Probe(r: nat)
    | Reap(r: nat, effect: bool)

  function Deleter(s: State, w: nat): Deleting {
    if w in s.deleters then s.deleters[w] else Idle
  }

  function Reader(s: State, g: nat): Reading {
    if g in s.readers then s.readers[g] else NotReading
  }

  function Reaper(s: State, r: nat): Reaping {
    if r in s.reapers then s.reapers[r] else Resting
  }

  // TrackStatus; a track without documents ends the call with "not found".
  function DoLookUp(s: State, w: nat): State {
    if Deleter(s, w) != Idle || s.docs == {} then s
    else s.(deleters := s.deleters[w := Listed(s.docs)])
  }

  // The tombstone goes in before the upstream delete. An insert that reports an error ends the
  // call, whether it took effect or not.
  function DoMark(s: State, w: nat, effect: bool, ok: bool): State {
    if !Deleter(s, w).Listed? then s
    else if ok then s.(tomb := true, deleters := s.deleters[w := Marked(Deleter(s, w).ids)])
    else s.(tomb := s.tomb || effect, deleters := s.deleters[w := Idle])
  }

  // The upstream accepts ("deletion_started" or "success") and the delete returns without error.
  function DoAccept(s: State, w: nat): State {
    if !Deleter(s, w).Marked? then s
    else s.(scheduled := s.scheduled + Deleter(s, w).ids, acknowledged := true, deleters := s.deleters[w := Idle])
  }

  // The upstream has accepted, but its answer is still on the way.
  function DoSchedule(s: State, w: nat): State {
    if Deleter(s, w).Marked? then s.(scheduled := s.scheduled + Deleter(s, w).ids) else s
  }

  // The caller's process dies: nothing more comes of this delete, neither an answer nor a rollback.
  function DoDie(s: State, w: nat): State {
    s.(deleters := s.deleters[w := Idle])
  }

  // An error, busy, or any other status; an error may hide that the upstream did accept.
  function DoRefuse(s: State, w: nat, effect: bool): State {
    if !Deleter(s, w).Marked? then s
    else s.(scheduled := if effect then s.scheduled + Deleter(s, w).ids else s.scheduled,
            deleters := s.deleters[w := Refused])
  }

  // The rollback after a refusal; its own error is ignored.
  function DoUnmark(s: State, w: nat, effect: bool): State {
    if Deleter(s, w) != Refused then s
    else s.(tomb := s.tomb && !effect, deleters := s.deleters[w := Idle])
  }

  // The upstream finishes deleting a scheduled document.
  function DoVanish(s: State, d: DocId): State {
    if d in s.scheduled then s.(docs := s.docs - {d}) else s
  }

  function DoCheck(s: State, g: nat): State {
    if Reader(s, g) != NotReading || s.tomb then s
    else s.(readers := s.readers[g := Passed(s.acknowledged)])
  }

  // Any document at all makes a memory; none is "not found".
  function DoRead(s: State, g: nat): State {
    match Reader(s, g)
    case NotReading => s
    case Passed(late) =>
      s.(readers := s.readers[g := NotReading], leaks := if late && s.docs != {} then s.leaks + 1 else s.leaks)
  }

  function DoList(s: State, r: nat): State {
    if Reaper(s, r) == Resting && s.tomb then s.(reapers := s.reapers[r := Candidate]) else s
  }

  // Fast and forced reaping alike: only a track without documents is confirmed.
  function DoProbe(s: State, r: nat): State {
    if Reaper(s, r) != Candidate then s
    else s.(reapers := s.reapers[r := if s.docs == {} then Confirmed else Resting])
  }

  function DoReap(s: State, r: nat, effect: bool): State {
    if Reaper(s, r) != Confirmed then s
    else s.(tomb := s.tomb && !effect, reapers := s.reapers[r := Resting])
  }

  function Apply(s: State, step: Step): State {
    match step
    case LookUp(w) => DoLookUp(s, w)
    case Mark(w, effect, ok) => DoMark(s, w, effect, ok)
    case Accept(w) => DoAccept(s, w)
    case Schedule(w) => DoSchedule(s, w)
    case Die(w) => DoDie(s, w)
    case Refuse(w, effect) => DoRefuse(s, w, effect)
    case Unmark(w, effect) => DoUnmark(s, w, effect)
    case Vanish(d) => DoVanish(s, d)
    case Check(g) => DoCheck(s, g)
    case Read(g) => DoRead(s, g)
    case List(r) => DoList(s, r)
    case Probe(r) => DoProbe(s, r)
    case Reap(r, effect) => DoReap(s, r, effect)
  }

  function Exec(s: State, steps: seq<Step>): State
    decreases |steps|
  {
    if steps == [] then s else Exec(Apply(s, steps[0]), steps[1..])
  }

  function Start(docs: set<DocId>): State {
    State(false, docs, {}, map[], map[], map[], false, 0)
  }

  // A read right now would find nothing.
  predicate Hidden(s: State) {
    s.tomb || s.docs == {}
  }

  // A confirmed reaper saw the documents gone, and they do not come back; before the first
  // acknowledgement no read counts as late.
  ghost predicate Inv(s: State) {
    && (forall r :: r in s.reapers && s.reapers[r] == Confirmed ==> s.docs == {})
    && (forall g :: g in s.readers && s.readers[g] == Passed(true) ==> s.acknowledged)
    && (s.leaks > 0 ==> s.acknowledged)
  }

  lemma InvStep(s: State, step: Step)
    requires Inv(s)
    ensures Inv(Apply(s, step))
  {}

  lemma {:induction false} InvExec(s: State, steps: seq<Step>)
    requires Inv(s)
    ensures Inv(Exec(s, steps))
    decreases |steps|
  {
    if steps != [] {
      InvStep(s, steps[0]);
      InvExec(Apply(s, steps[0]), steps[1..]);
    }
  }

  // The one way out of hiding: a refused delete takes its tombstone back while documents are there.
  predicate Unhides(s: State, step: Step) {
    step.Unmark? && step.effect && Deleter(s, step.w) == Refused && s.docs != {}
  }

  // Neither reaping nor anything else unhides a memory: a hidden memory is visible after a step if
  // and only if that step takes back a tombstone over living documents.
  lemma HiddenStepIff(s: State, step: Step)
    requires Inv(s) && Hidden(s)
    ensures Hidden(Apply(s, step)) <==> !Unhides(s, step)
  {
    match step
    case Reap(r, effect) =>
      assert Reaper(s, r) == Confirmed ==> s.docs == {};
    case _ =>
  }

  // Acknowledged and hidden, and no read that checked the tombstone since is about to see documents.
  ghost predicate Gone(s: State) {
    && Inv(s) && s.acknowledged && Hidden(s)
    && (forall g :: g in s.readers && s.readers[g] == Passed(true) ==> s.docs == {})
  }

  lemma GoneStep(s: State, step: Step)
    requires Gone(s) && !Unhides(s, step)
    ensures Gone(Apply(s, step)) && Apply(s, step).leaks == s.leaks
  {
    InvStep(s, step);
    HiddenStepIff(s, step);
  }

  // No delete is past its look-up, so no tombstone can still be taken back.
  ghost predicate NoDeleteRuns(s: State) {
    forall w :: w in s.deleters ==> s.deleters[w] == Idle
  }

  ghost predicate StartsNoDelete(steps: seq<Step>) {
    forall i :: 0 <= i < |steps| ==> !steps[i].LookUp?
  }

  lemma QuietStep(s: State, step: Step)
    requires NoDeleteRuns(s) && !step.LookUp?
    ensures NoDeleteRuns(Apply(s, step)) && !Unhides(s, step)
  {}

  lemma {:induction false} GoneExec(s: State, steps: seq<Step>)
    requires Gone(s) && NoDeleteRuns(s) && StartsNoDelete(steps)
    ensures Gone(Exec(s, steps)) && Exec(s, steps).leaks == s.leaks
    decreases |steps|
  {
    if steps != [] {
      QuietStep(s, steps[0]);
      GoneStep(s, steps[0]);
      GoneExec(Apply(s, steps[0]), steps[1..]);
    }
  }

  // The first acknowledged delete hides the memory, and nothing read it late before.
  lemma FirstAccept(s: State, w: nat)
    requires Inv(s) && !s.acknowledged && Deleter(s, w).Marked? && Hidden(s)
    ensures Gone(Apply(s, Accept(w))) && Apply(s, Accept(w)).leaks == 0
  {
    InvStep(s, Accept(w));
  }

  // Deleted stays deleted. Any run in which the first delete to return without error finds the tombstone
  // in place, with no other delete then under way and none started later: no GetMemory begun after it
  // ever returns a memory, whatever the reapers, other reads and the upstream do in between.
  lemma DeletedStaysDeleted(docs: set<DocId>, before: seq<Step>, w: nat, after: seq<Step>)
    requires var s := Exec(Start(docs), before);
      && !s.acknowledged && Deleter(s, w).Marked? && Hidden(s)
      && NoDeleteRuns(Apply(s, Accept(w))) && StartsNoDelete(after)
    ensures var s := Exec(Start(docs), before);
      && Exec(Apply(s, Accept(w)), after).leaks == 0
      && Hidden(Exec(Apply(s, Accept(w)), after))
  {
    InvExec(Start(docs), before);
    var s := Exec(Start(docs), before);
    FirstAccept(s, w);
    GoneExec(Apply(s, Accept(w)), after);
  }

  ghost predicate NeverLeaks(s: State) {
    forall after: seq<Step> :: StartsNoDelete(after) ==> Exec(s, after).leaks == 0
  }

  // The tombstone in place is exactly what it takes: at the first acknowledged delete, with no other delete
  // under way, later reads are safe in every continuation without a new delete if and only if the
  // memory is hidden at that moment.
  lemma FinalIffHidden(docs: set<DocId>, before: seq<Step>, w: nat, g: nat)
    requires var s := Exec(Start(docs), before);
      && !s.acknowledged && Deleter(s, w).Marked? && NoDeleteRuns(Apply(s, Accept(w)))
      && Reader(s, g) == NotReading
    ensures NeverLeaks(Apply(Exec(Start(docs), before), Accept(w))) <==> Hidden(Exec(Start(docs), before))
  {
    var s := Exec(Start(docs), before);
    var acked := Apply(s, Accept(w));
    InvExec(Start(docs), before);
    if Hidden(s) {
      forall after: seq<Step> | StartsNoDelete(after)
        ensures Exec(acked, after).leaks == 0
      {
        DeletedStaysDeleted(docs, before, w, after);
      }
    } else {
      var after := [Check(g), Read(g)];
      ReadNow(acked, g);
      assert StartsNoDelete(after) && Exec(acked, after).leaks == 1;
    }
  }

  lemma ReadNow(s: State, g: nat)
    requires Reader(s, g) == NotReading && !Hidden(s) && s.acknowledged
    ensures Exec(s, [Check(g), Read(g)]).leaks == s.leaks + 1
  {
    ExecCons(Apply(s, Check(g)), Read(g), []);
    ExecCons(s, Check(g), [Read(g)]);
    assert [Read(g)] + [] == [Read(g)] && [Check(g)] + [Read(g)] == [Check(g), Read(g)];
  }

  // And it can be missing: two deletes race, both mark, one is refused and takes the shared tombstone back,
  // and the other is then accepted over a visible memory.
  lemma RacingRefusal(docs: set<DocId>)
    requires docs != {}
    ensures var s := Exec(Start(docs), [LookUp(0), Mark(0, true, true)] + RefusedRetry(1));
      && !s.acknowledged && Deleter(s, 0).Marked? && !Hidden(s) && NoDeleteRuns(Apply(s, Accept(0)))
  {
    var s0 := Start(docs);
    var s1 := Apply(s0, LookUp(0));
    var s2 := Apply(s1, Mark(0, true, true));
    assert [LookUp(0), Mark(0, true, true)] + RefusedRetry(1)
        == [LookUp(0)] + ([Mark(0, true, true)] + (RefusedRetry(1) + []));
    ExecCons(s0, LookUp(0), [Mark(0, true, true)] + (RefusedRetry(1) + []));
    ExecCons(s1, Mark(0, true, true), RefusedRetry(1) + []);
    UnfoldRetry(s2, 1, []);
  }

  // ---------- cleaning up ----------

  function Vanishes(docs: seq<DocId>): seq<Step> {
    seq(|docs|, i requires 0 <= i < |docs| => Vanish(docs[i]))
  }

  lemma {:induction false} AllVanish(s: State, docs: seq<DocId>)
    requires forall d :: d in docs ==> d in s.scheduled
    ensures Exec(s, Vanishes(docs)) == s.(docs := s.docs - set d | d in docs)
    decreases |docs|
  {
    if docs == [] {
      assert Vanishes(docs) == [];
    } else {
      var t := Apply(s, Vanish(docs[0]));
      assert Vanishes(docs) == [Vanish(docs[0])] + Vanishes(docs[1..]);
      ExecCons(s, Vanish(docs[0]), Vanishes(docs[1..]));
      AllVanish(t, docs[1..]);
      assert docs == [docs[0]] + docs[1..];
      assert (set d | d in docs) == {docs[0]} + set d | d in docs[1..];
    }
  }

  lemma {:induction false} ExecAppend(s: State, first: seq<Step>, rest: seq<Step>)
    ensures Exec(s, first + rest) == Exec(Exec(s, first), rest)
    decreases |first|
  {
    if first == [] {
      assert first + rest == rest;
    } else {
      assert (first + rest)[1..] == first[1..] + rest;
      ExecAppend(Apply(s, first[0]), first[1..], rest);
    }
  }

  // The state after the upstream accepted w's delete, before or with the answer to the caller, removed everything,
  // and the reaper took the tombstone away.
  function Completed(s: State, w: nat, r: nat, early: bool): State
    requires Deleter(s, w).Marked?
  {
    s.(tomb := false, docs := {}, scheduled := s.scheduled + Deleter(s, w).ids,
       acknowledged := if early then s.acknowledged else true,
       deleters := if early then s.deleters else s.deleters[w := Idle], reapers := s.reapers[r := Resting])
  }

  // A marked delete always can be finished: the upstream accepts, its documents vanish, and the reaper takes the
  // tombstone away. All that can happen while the answer is still on its way to the caller.
  lemma DeleteCompletes(s: State, w: nat, r: nat, docs: seq<DocId>, early: bool) returns (steps: seq<Step>)
    requires s.tomb && Deleter(s, w).Marked? && Reaper(s, r) == Resting
    requires (forall d :: d in docs <==> d in s.docs) && s.docs <= Deleter(s, w).ids
    ensures Exec(s, steps) == Completed(s, w, r, early)
    ensures early ==> Apply(Exec(s, steps), Accept(w)) == Completed(s, w, r, false)
  {
    var first := if early then Schedule(w) else Accept(w);
    var s1 := Apply(s, first);
    var s2 := s1.(docs := {});
    var reap := [List(r)] + ([Probe(r)] + ([Reap(r, true)] + []));
    AllVanish(s1, docs);
    assert s1.docs - (set d | d in docs) == {};
    assert s2.(tomb := false, reapers := s2.reapers[r := Resting]) == Completed(s, w, r, early);
    hide Exec;
    ReapsEmpty(s2, r);
    steps := [first] + (Vanishes(docs) + reap);
    ExecCons(s, first, Vanishes(docs) + reap);
    ExecAppend(s1, Vanishes(docs), reap);
    if early {
      AcceptedLate(s, w, r);
    }
  }

  lemma ReapsEmpty(s: State, r: nat)
    requires s.tomb && s.docs == {} && Reaper(s, r) == Resting
    ensures Exec(s, [List(r)] + ([Probe(r)] + ([Reap(r, true)] + [])))
         == s.(tomb := false, reapers := s.reapers[r := Resting])
  {
    var s1 := Apply(s, List(r));
    var s2 := Apply(s1, Probe(r));
    var s3 := Apply(s2, Reap(r, true));
    assert s3 == s.(tomb := false, reapers := s.reapers[r := Resting]);
    assert Exec(s3, []) == s3;
    hide Exec, Apply;
    ExecCons(s, List(r), [Probe(r)] + ([Reap(r, true)] + []));
    ExecCons(s1, Probe(r), [Reap(r, true)] + []);
    ExecCons(s2, Reap(r, true), []);
  }

  lemma AcceptedLate(s: State, w: nat, r: nat)
    requires Deleter(s, w).Marked?
    ensures Apply(Completed(s, w, r, true), Accept(w)) == Completed(s, w, r, false)
  {
    assert s.scheduled + Deleter(s, w).ids + Deleter(s, w).ids == s.scheduled + Deleter(s, w).ids;
  }

  // A delete that dies leaves its tombstone in place, and another call can take it up again.
  lemma DiedIsRetried(s: State, w: nat)
    requires s.tomb && Deleter(s, w).Marked? && s.docs != {}
    ensures var t := Apply(s, Die(w));
      && t == s.(deleters := s.deleters[w := Idle])
      && Deleter(Apply(Apply(t, LookUp(w)), Mark(w, true, true)), w) == Marked(s.docs)
  {}

  // ---------- one delete at a time ----------

  // Without other deletes the tombstone is always there when the upstream accepts.
  ghost predicate Sole(s: State, w: nat) {
    && Inv(s)
    && (forall v :: v in s.deleters && v != w ==> s.deleters[v] == Idle)
    && (Deleter(s, w).Marked? ==> Hidden(s))
  }

  predicate StartedBy(steps: seq<Step>, w: nat) {
    forall i :: 0 <= i < |steps| && steps[i].LookUp? ==> steps[i].w == w
  }

  lemma SoleStep(s: State, step: Step, w: nat)
    requires Sole(s, w) && (step.LookUp? ==> step.w == w)
    ensures Sole(Apply(s, step), w)
  {
    InvStep(s, step);
    if Hidden(s) && Deleter(s, w) != Refused {
      HiddenStepIff(s, step);
    }
  }

  lemma {:induction false} SoleExec(s: State, steps: seq<Step>, w: nat)
    requires Sole(s, w) && StartedBy(steps, w)
    ensures Sole(Exec(s, steps), w)
    decreases |steps|
  {
    if steps != [] {
      SoleStep(s, steps[0], w);
      SoleExec(Apply(s, steps[0]), steps[1..], w);
    }
  }

  // So a client that deletes one call at a time, retrying refusals, and stops at the first delete that
  // returns without error, never sees the memory again.
  lemma SoleDeleteIsFinal(docs: set<DocId>, before: seq<Step>, w: nat, after: seq<Step>)
    requires StartedBy(before, w) && StartsNoDelete(after)
    requires var s := Exec(Start(docs), before); !s.acknowledged && Deleter(s, w).Marked?
    ensures var s := Exec(Start(docs), before);
      && Exec(Apply(s, Accept(w)), after).leaks == 0
      && Hidden(Exec(Apply(s, Accept(w)), after))
  {
    SoleExec(Start(docs), before, w);
    DeletedStaysDeleted(docs, before, w, after);
  }

  // The side condition is needed: from any acknowledged state with documents still there, one more delete
  // that the upstream refuses takes the tombstone back, and the next GetMemory returns the memory.
  lemma LaterRefusalUnhides(s: State, w: nat, g: nat)
    requires s.acknowledged && s.docs != {}
    requires Deleter(s, w) == Idle && Reader(s, g) == NotReading
    ensures Exec(s, RefusedRetry(w) + [Check(g), Read(g)]).leaks == s.leaks + 1
  {
    var s1 := Apply(s, LookUp(w));
    var s2 := Apply(s1, Mark(w, true, true));
    var s3 := Apply(s2, Refuse(w, false));
    var s4 := Apply(s3, Unmark(w, true));
    ReadNow(s4, g);
    UnfoldRetry(s, w, [Check(g), Read(g)]);
  }

  lemma ExecCons(s: State, step: Step, rest: seq<Step>)
    ensures Exec(s, [step] + rest) == Exec(Apply(s, step), rest)
  {
    assert ([step] + rest)[1..] == rest;
  }

  function RefusedRetry(w: nat): seq<Step> {
    [LookUp(w), Mark(w, true, true), Refuse(w, false), Unmark(w, true)]
  }

  lemma UnfoldRetry(s: State, w: nat, rest: seq<Step>)
    ensures Exec(s, RefusedRetry(w) + rest)
         == Exec(Apply(Apply(Apply(Apply(s, LookUp(w)), Mark(w, true, true)), Refuse(w, false)), Unmark(w, true)), rest)
  {
    var s1 := Apply(s, LookUp(w));
    var s2 := Apply(s1, Mark(w, true, true));
    var s3 := Apply(s2, Refuse(w, false));
    ExecCons(s3, Unmark(w, true), rest);
    ExecCons(s2, Refuse(w, false), [Unmark(w, true)] + rest);
    ExecCons(s1, Mark(w, true, true), [Refuse(w, false)] + ([Unmark(w, true)] + rest));
    ExecCons(s, LookUp(w), [Mark(w, true, true)] + ([Refuse(w, false)] + ([Unmark(w, true)] + rest)));
    assert RefusedRetry(w) + rest
        == [LookUp(w)] + ([Mark(w, true, true)] + ([Refuse(w, false)] + ([Unmark(w, true)] + rest)));
  }
}
