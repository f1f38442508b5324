// Resumable purge by source file: delete every indexed memory upstream, then clear the file's index rows.
module Purge {

  import opened LightragFake

  datatype Row = Row(repo: string, file: string, track: TrackId)

  // How one call outside the process goes. AnswerLost takes effect but the caller sees an error;
  // Busy and Rejected are delete answers with another status than success.
  datatype Fault = Works | Fails | AnswerLost | Busy | Rejected

  datatype Outcome = Deleted | NotFound | Unavailable | ErrBusy | ErrUpstream

  datatype Lookup = Found(ids: seq<DocId>) | Missing | NoAnswer

  // What a purge works on: the live tracks, the index, how many outside calls were made, and the numbers
  // of the delete calls among them whose answer was lost.
  datatype World = World(live: set<TrackId>, index: set<Row>, calls: nat, lost: set<nat>)

  // From call number `from` up to `to` only calls in that range were added to the lost ones.
  ghost predicate LostSince(before: set<nat>, after: set<nat>, from: nat, to: nat) {
    from <= to && before <= after && forall i :: i in after - before ==> from <= i < to
  }

  // The numbers of the delete calls made so far, and of those among them whose answer was lost.
  ghost predicate History(script: nat -> Fault, calls: nat, deletes: set<nat>, lost: set<nat>) {
    && (forall i :: i in deletes ==> i < calls)
    && (forall i :: i in lost <==> i in deletes && script(i) == AnswerLost)
  }

  lemma HistoryLater(script: nat -> Fault, calls: nat, later: nat, deletes: set<nat>, lost: set<nat>)
    requires History(script, calls, deletes, lost) && calls <= later
    ensures History(script, later, deletes, lost) && LostSince(lost, lost, calls, later)
  {}

  lemma LostWider(before: set<nat>, after: set<nat>, lo: nat, from: nat, to: nat, hi: nat)
    requires LostSince(before, after, from, to) && lo <= from && to <= hi
    ensures LostSince(before, after, lo, hi)
  {}

  lemma NothingLost(script: nat -> Fault, before: set<nat>, after: set<nat>, from: nat, to: nat)
    requires LostSince(before, after, from, to) && forall i :: i in after ==> script(i) == AnswerLost
    requires forall i :: from <= i < to ==> script(i) != AnswerLost
    ensures after == before
  {
    assert forall i :: i in after ==> i in before || i in after - before;
  }

  function RowsOf(index: set<Row>, repo: string, files: set<string>): set<Row> {
    set r | r in index && r.repo == repo && r.file in files
  }

  function TracksOf(index: set<Row>, repo: string, files: set<string>): set<TrackId> {
    set r | r in RowsOf(index, repo, files) :: r.track
  }

  // What purging may do to the world, counting `count` memories: only tracks of these files die, only rows
  // of these files go, a row goes only when its track is dead, and every death is counted or has a lost answer.
  ghost predicate Progress(repo: string, files: set<string>, a: World, b: World, count: nat) {
    && b.live <= a.live && a.live - b.live <= TracksOf(a.index, repo, files)
    && b.index <= a.index && a.index - b.index <= RowsOf(a.index, repo, files)
    && (forall r :: r in a.index - b.index ==> r.track !in b.live)
    && LostSince(a.lost, b.lost, a.calls, b.calls)
    && count + |b.lost| - |a.lost| == |a.live| - |b.live|
  }

  lemma ProgressTrans(repo: string, files: set<string>, a: World, b: World, c: World, m: nat, n: nat)
    requires Progress(repo, files, a, b, m) && Progress(repo, files, b, c, n)
    ensures Progress(repo, files, a, c, m + n)
  {
    forall t | t in a.live - c.live
      ensures t in TracksOf(a.index, repo, files)
    {
      if t in b.live {
        assert t in b.live - c.live;
        var r :| r in RowsOf(b.index, repo, files) && r.track == t;
        assert r in RowsOf(a.index, repo, files);
      } else {
        assert t in a.live - b.live;
      }
    }
    forall r | r in a.index - c.index
      ensures r in RowsOf(a.index, repo, files) && r.track !in c.live
    {
      if r in b.index {
        assert r in b.index - c.index;
      } else {
        assert r in a.index - b.index;
      }
    }
    forall i | i in c.lost - a.lost
      ensures a.calls <= i < c.calls
    {
      assert i in b.lost - a.lost || i in c.lost - b.lost;
    }
  }

  lemma ProgressWider(repo: string, files: set<string>, more: set<string>, a: World, b: World, count: nat)
    requires Progress(repo, files, a, b, count) && files <= more
    ensures Progress(repo, more, a, b, count)
  {
    assert RowsOf(a.index, repo, files) <= RowsOf(a.index, repo, more);
    forall t | t in TracksOf(a.index, repo, files)
      ensures t in TracksOf(a.index, repo, more)
    {
      var r :| r in RowsOf(a.index, repo, files) && r.track == t;
      assert r in RowsOf(a.index, repo, more);
    }
  }

  // The memories of these files that are live.
  function Owned(w: World, repo: string, files: set<string>): set<TrackId> {
    TracksOf(w.index, repo, files) * w.live
  }

  // Once the files have no rows left, exactly the memories they owned have died.
  lemma DoneCounts(repo: string, files: set<string>, a: World, b: World, count: nat)
    requires Progress(repo, files, a, b, count) && RowsOf(b.index, repo, files) == {}
    ensures a.live - b.live == Owned(a, repo, files)
    ensures count + |b.lost| - |a.lost| == |Owned(a, repo, files)|
  {
    forall t | t in Owned(a, repo, files)
      ensures t !in b.live
    {
      var r :| r in RowsOf(a.index, repo, files) && r.track == t;
      assert r !in RowsOf(b.index, repo, files);
    }
    assert a.live == b.live + Owned(a, repo, files);
  }

  // In terms of the index rows. Rows of other files and repos stay, and so does every memory without a row of the
  // listed files. Once the listed files have no rows left, none of their memories is live, and without a lost
  // answer the count is the number of distinct live memories they had.
  lemma PurgeMeans(repo: string, files: seq<string>, a: World, b: World, count: nat)
    requires Progress(repo, Names(files), a, b, count)
    ensures b.index <= a.index && b.live <= a.live
    ensures forall r :: r in a.index && !(r.repo == repo && r.file in files) ==> r in b.index
    ensures forall t :: t in a.live && t !in b.live ==>
      exists r :: r in a.index && r.repo == repo && r.file in files && r.track == t
    ensures RowsOf(b.index, repo, Names(files)) == {} ==>
      forall r :: r in a.index && r.repo == repo && r.file in files ==> r !in b.index && r.track !in b.live
    ensures RowsOf(b.index, repo, Names(files)) == {} && b.lost == a.lost ==>
      count == |set r | r in a.index && r.repo == repo && r.file in files && r.track in a.live :: r.track|
  {
    forall r | r in a.index && !(r.repo == repo && r.file in files)
      ensures r in b.index
    {
      assert r !in RowsOf(a.index, repo, Names(files));
      assert r !in a.index - b.index;
    }
    forall t | t in a.live && t !in b.live
      ensures exists r :: r in a.index && r.repo == repo && r.file in files && r.track == t
    {
      assert t in a.live - b.live;
      var r :| r in RowsOf(a.index, repo, Names(files)) && r.track == t;
    }
    if RowsOf(b.index, repo, Names(files)) == {} {
      DoneCounts(repo, Names(files), a, b, count);
      forall r | r in a.index && r.repo == repo && r.file in files
        ensures r !in b.index && r.track !in b.live
      {
        assert r in RowsOf(a.index, repo, Names(files)) && r !in RowsOf(b.index, repo, Names(files));
      }
      assert Owned(a, repo, Names(files)) ==
        set r | r in a.index && r.repo == repo && r.file in files && r.track in a.live :: r.track;
    }
  }

  // A track deleted by all of its documents is gone, and the others keep theirs.
  lemma TrackGone(docs: map<DocId, TrackId>, tracks: map<TrackId, seq<DocId>>, t: TrackId)
    requires Inverse(docs, tracks) && t in tracks
    ensures Remaining(tracks, Elems(tracks[t])) == tracks - {t}
    ensures forall d :: d in tracks[t] ==> d in docs
  {
    var gone := Elems(tracks[t]);
    forall u | u in tracks && u != t
      ensures Without(tracks[u], gone) == tracks[u]
    {
      forall d | d in tracks[u]
        ensures d !in gone
      {
        assert docs[d] == u;
      }
      WithoutNone(tracks[u], gone);
    }
    if Without(tracks[t], gone) != [] {
      WithoutKeeps(tracks[t], gone, Without(tracks[t], gone)[0]);
    }
    assert Remaining(tracks, gone).Keys == (tracks - {t}).Keys;
  }

  // Exactly these may have died, they are all dead, and those that were live are tombstoned.
  ghost predicate AllDeleted(ids: seq<TrackId>, start: set<TrackId>, live: set<TrackId>, tombstones: set<TrackId>) {
    && live <= start
    && (forall t :: t in start - live ==> t in ids)
    && (forall t :: t in ids ==> t !in live && (t in start ==> t in tombstones))
  }

  lemma OneMore(ids: seq<TrackId>, t: TrackId, start: set<TrackId>, live: set<TrackId>, tombstones: set<TrackId>)
    requires AllDeleted(ids, start, live, tombstones) && t !in ids
    ensures t !in live ==> AllDeleted(ids + [t], start, live, tombstones)
    ensures AllDeleted(ids + [t], start, live - {t}, tombstones + {t})
    ensures t in live ==> |live - {t}| == |live| - 1
  {}

  function Names(files: seq<string>): set<string> {
    set f | f in files
  }

  lemma NamesSnoc(files: seq<string>, i: nat)
    requires i < |files|
    ensures Names(files[..i + 1]) == Names(files[..i]) + {files[i]}
  {
    assert files[..i + 1] == files[..i] + [files[i]];
  }

  lemma NothingDone(repo: string, files: seq<string>, w: World)
    ensures Progress(repo, Names(files[..0]), w, w, 0) && RowsOf(w.index, repo, Names(files[..0])) == {}
  {}

  lemma ProgressShrinks(repo: string, files: set<string>, a: World, b: World, count: nat)
    requires Progress(repo, files, a, b, count)
    ensures b.index <= a.index && a.calls <= b.calls && LostSince(a.lost, b.lost, a.calls, b.calls)
    ensures count + |b.lost| - |a.lost| == |a.live| - |b.live|
  {}

  // Deleting only indexed tracks, and the file's rows only when its tracks are all dead, is progress.
  lemma FileProgress(repo: string, file: string, a: World, b: World, ids: seq<TrackId>, purged: nat)
    requires b.live <= a.live && forall t :: t in a.live && t !in b.live ==> t in ids
    requires forall t :: t in ids ==> t in TracksOf(a.index, repo, {file})
    requires b.index == a.index || b.index == a.index - RowsOf(a.index, repo, {file})
    requires b.index != a.index ==> forall t :: t in TracksOf(a.index, repo, {file}) ==> t !in b.live
    requires LostSince(a.lost, b.lost, a.calls, b.calls) && purged + |b.lost| - |a.lost| == |a.live| - |b.live|
    ensures Progress(repo, {file}, a, b, purged)
    ensures b.index == a.index - RowsOf(a.index, repo, {file}) ==> RowsOf(b.index, repo, {file}) == {}
  {
    forall r | r in a.index - b.index
      ensures r.track !in b.live
    {
      assert r in RowsOf(a.index, repo, {file});
      assert r.track in TracksOf(a.index, repo, {file});
    }
  }

  lemma NoRowsOfFewer(index: set<Row>, fewer: set<Row>, repo: string, files: set<string>)
    requires fewer <= index && RowsOf(index, repo, files) == {}
    ensures RowsOf(fewer, repo, files) == {}
  {
    assert RowsOf(fewer, repo, files) <= RowsOf(index, repo, files);
  }

  lemma NoRowsOfBoth(index: set<Row>, fewer: set<Row>, repo: string, files: set<string>, file: string)
    requires fewer <= index && RowsOf(index, repo, files) == {} && RowsOf(fewer, repo, {file}) == {}
    ensures RowsOf(fewer, repo, files + {file}) == {}
  {
    assert RowsOf(fewer, repo, files + {file}) == RowsOf(fewer, repo, files) + RowsOf(fewer, repo, {file});
    NoRowsOfFewer(index, fewer, repo, files);
  }

  // What a delete call that goes this way tells its caller.
  function Answered(f: Fault): Outcome {
    match f
    case Works => Deleted
    case Busy => ErrBusy
    case Rejected => ErrUpstream
    case _ => Unavailable
  }

  // All that a raw delete starting at call number c does, by how its calls go.
  ghost predicate RawOutcome(script: nat -> Fault, c: nat, calls: nat, track: TrackId,
      was: map<TrackId, seq<DocId>>, tracks: map<TrackId, seq<DocId>>,
      marks: set<TrackId>, tombstones: set<TrackId>, r: Outcome) {
    if script(c) != Works then
      r == Unavailable && tracks == was && tombstones == marks && calls == c + 1
    else if track !in was then
      r == NotFound && tracks == was && tombstones == marks && calls == c + 1
    else if script(c + 1) != Works then
      && r == Unavailable && tracks == was && calls == c + 2
      && tombstones == if script(c + 1) == AnswerLost then marks + {track} else marks
    else if script(c + 2) == Works then
      r == Deleted && tracks == was - {track} && tombstones == marks + {track} && calls == c + 3
    else
      && r == (match script(c + 2) case Busy => ErrBusy case Rejected => ErrUpstream case _ => Unavailable)
      && tracks == (if script(c + 2) == AnswerLost then was - {track} else was) && calls == c + 4
      && tombstones == if script(c + 3) in {Works, AnswerLost} then marks - {track} else marks + {track}
  }

  // So whenever every call but the delete itself works, a refused or failed delete leaves no tombstone behind.
  lemma RefusalLeavesNoTombstone(script: nat -> Fault, c: nat, calls: nat, track: TrackId,
      was: map<TrackId, seq<DocId>>, tracks: map<TrackId, seq<DocId>>,
      marks: set<TrackId>, tombstones: set<TrackId>, r: Outcome)
    requires RawOutcome(script, c, calls, track, was, tracks, marks, tombstones, r)
    requires forall i :: c <= i < calls && i != c + 2 ==> script(i) == Works
    ensures r == Deleted || r == NotFound || track !in tombstones
  {}

  class Service {
    const lr: Client
    const script: nat -> Fault
    var calls: nat
    var index: set<Row>
    var tombstones: set<TrackId>
    ghost var deletes: set<nat>
    ghost var lost: set<nat>

    constructor (client: Client, faults: nat -> Fault)
      requires client.Valid()
      ensures Valid() && lr == client && script == faults && index == {} && tombstones == {} && calls == 0
    {
      lr, script, calls, index, tombstones, deletes, lost := client, faults, 0, {}, {}, {}, {};
    }

    ghost predicate Valid()
      reads this, lr
    {
      lr.Valid() && History(script, calls, deletes, lost)
    }

    ghost function State(): World
      reads this, lr
    {
      World(lr.tracks.Keys, index, calls, lost)
    }

    method NextCall() returns (f: Fault)
      modifies this`calls
      ensures f == script(old(calls)) && calls == old(calls) + 1
    {
      f := script(calls);
      calls := calls + 1;
    }

    // Inserting a row that is already there does nothing.
    method AddSource(repo: string, file: string, track: TrackId)
      modifies this`index
      ensures index == old(index) + {Row(repo, file, track)}
    {
      index := index + {Row(repo, file, track)};
    }

    // The indexed tracks of a file, each once, in no particular order.
    method TrackIDs(repo: string, file: string) returns (ok: bool, ids: seq<TrackId>)
      modifies this`calls
      ensures ok <==> script(old(calls)) == Works
      ensures ok ==> (set t | t in ids) == TracksOf(index, repo, {file})
      ensures forall i, j :: 0 <= i < j < |ids| ==> ids[i] != ids[j]
      ensures calls == old(calls) + 1
    {
      ids := [];
      var f := NextCall();
      if f != Works {
        return false, [];
      }
      var left := TracksOf(index, repo, {file});
      while left != {}
        invariant calls == old(calls) + 1 && f == Works
        invariant left !! (set t | t in ids)
        invariant left + (set t | t in ids) == TracksOf(index, repo, {file})
        invariant forall i, j :: 0 <= i < j < |ids| ==> ids[i] != ids[j]
        decreases left
      {
        var t :| t in left;
        left := left - {t};
        ids := ids + [t];
      }
      ok := true;
    }

    method DeleteByFile(repo: string, file: string) returns (ok: bool)
      modifies this`calls, this`index
      ensures index == if script(old(calls)) == Works || script(old(calls)) == AnswerLost
        then old(index) - RowsOf(old(index), repo, {file}) else old(index)
      ensures ok <==> script(old(calls)) == Works
      ensures calls == old(calls) + 1
    {
      var f := NextCall();
      ok := f == Works;
      if f == Works || f == AnswerLost {
        index := index - RowsOf(index, repo, {file});
      }
    }

    method Mark(track: TrackId) returns (ok: bool)
      modifies this`calls, this`tombstones
      ensures ok <==> script(old(calls)) == Works
      ensures tombstones == if script(old(calls)) == Works || script(old(calls)) == AnswerLost
        then old(tombstones) + {track} else old(tombstones)
      ensures calls == old(calls) + 1
    {
      var f := NextCall();
      ok := f == Works;
      if f == Works || f == AnswerLost {
        tombstones := tombstones + {track};
      }
    }

    // Best effort: the caller ignores a failure.
    method Unmark(track: TrackId)
      modifies this`calls, this`tombstones
      ensures tombstones == if script(old(calls)) == Works || script(old(calls)) == AnswerLost
        then old(tombstones) - {track} else old(tombstones)
      ensures calls == old(calls) + 1
    {
      var f := NextCall();
      if f == Works || f == AnswerLost {
        tombstones := tombstones - {track};
      }
    }

    method TrackStatus(track: TrackId) returns (answer: Lookup)
      requires lr.Valid()
      modifies this`calls
      ensures answer == if script(old(calls)) != Works then NoAnswer
        else if track in lr.tracks then Found(lr.tracks[track]) else Missing
      ensures calls == old(calls) + 1
    {
      var f := NextCall();
      if f != Works {
        return NoAnswer;
      }
      var found, ids := lr.TrackStatus(track);
      answer := if found then Found(ids) else Missing;
    }

    // The number of a delete call, and how it goes.
    method NextDelete() returns (f: Fault)
      requires History(script, calls, deletes, lost)
      modifies this`calls, this`deletes, this`lost
      ensures History(script, calls, deletes, lost) && LostSince(old(lost), lost, old(calls), calls)
      ensures f == script(old(calls)) && calls == old(calls) + 1 && deletes == old(deletes) + {old(calls)}
      ensures f == AnswerLost ==> lost == old(lost) + {old(calls)} && |lost| == |old(lost)| + 1
      ensures f != AnswerLost ==> lost == old(lost)
    {
      deletes := deletes + {calls};
      f := NextCall();
      if f == AnswerLost {
        lost := lost + {calls - 1};
      }
    }

    method DropTrack(ids: seq<DocId>, ghost track: TrackId) returns (found: bool)
      requires lr.Valid() && track in lr.tracks && ids == lr.tracks[track]
      modifies lr`docs, lr`tracks
      ensures lr.Valid() && found && lr.tracks == old(lr.tracks) - {track}
    {
      TrackGone(lr.docs, lr.tracks, track);
      found := lr.DeleteDocs(ids);
    }

    // The upstream delete of all of one live track's documents.
    method DeleteDocs(ids: seq<DocId>, ghost track: TrackId) returns (answer: Outcome)
      requires Valid() && track in lr.tracks && ids == lr.tracks[track]
      modifies this`calls, this`deletes, this`lost, lr`docs, lr`tracks
      ensures Valid() && calls == old(calls) + 1 && deletes == old(deletes) + {old(calls)}
      ensures LostSince(old(lost), lost, old(calls), calls)
      ensures answer == Answered(script(old(calls)))
      ensures script(old(calls)) == Works || script(old(calls)) == AnswerLost ==> lr.tracks == old(lr.tracks) - {track}
      ensures script(old(calls)) != Works && script(old(calls)) != AnswerLost ==> lr.tracks == old(lr.tracks)
      ensures script(old(calls)) == AnswerLost ==> lost == old(lost) + {old(calls)} && |lost| == |old(lost)| + 1
      ensures script(old(calls)) != AnswerLost ==> lost == old(lost)
    {
      hide Inverse, History, LostSince;
      var f := NextDelete();
      match f
      case Works =>
        var found := DropTrack(ids, track);
        answer := if found then Deleted else NotFound;
      case AnswerLost =>
        var found := DropTrack(ids, track);
        answer := Unavailable;
      case Fails =>
        answer := Unavailable;
      case Busy =>
        answer := ErrBusy;
      case Rejected =>
        answer := ErrUpstream;
    }

    // Tombstone first, then the upstream delete; anything but an accepted delete takes the tombstone back.
    // Up to four calls fix the outcome: the look-up, the mark, the delete and, unless that succeeds, the rollback.
    method DeleteMemoryRaw(track: TrackId) returns (r: Outcome)
      requires Valid()
      modifies this`calls, this`deletes, this`lost, this`tombstones, lr`docs, lr`tracks
      ensures Valid() && LostSince(old(lost), lost, old(calls), calls)
      ensures RawOutcome(script, old(calls), calls, track, old(lr.tracks), lr.tracks, old(tombstones), tombstones, r)
      ensures r == Deleted ==> track in old(lr.tracks) && lr.tracks == old(lr.tracks) - {track} && lost == old(lost)
      ensures r == Deleted ==> tombstones == old(tombstones) + {track}
      ensures r == NotFound ==> track !in old(lr.tracks) && lr.tracks == old(lr.tracks) && lost == old(lost)
      ensures r == NotFound ==> tombstones == old(tombstones)
      ensures r !in {Deleted, NotFound} ==>
        || (lr.tracks == old(lr.tracks) && lost == old(lost))
        || (track in old(lr.tracks) && lr.tracks == old(lr.tracks) - {track} && |lost| == |old(lost)| + 1)
      ensures r !in {Deleted, NotFound} ==> exists i :: old(calls) <= i < calls && script(i) != Works
      ensures tombstones - {track} == old(tombstones) - {track}
    {
      hide Inverse, History, LostSince;
      var answer := TrackStatus(track);
      HistoryLater(script, old(calls), calls, deletes, lost);
      if !answer.Found? {
        return if answer.Missing? then NotFound else Unavailable;
      }
      var marked := Mark(track);
      HistoryLater(script, old(calls), calls, deletes, lost);
      if !marked {
        return Unavailable;
      }
      ghost var from := calls;
      r := DeleteMarked(track, answer.ids);
      LostWider(old(lost), lost, old(calls), from, calls, calls);
    }

    // The upstream delete of a memory whose tombstone is in place, and the rollback.
    method DeleteMarked(track: TrackId, ids: seq<DocId>) returns (r: Outcome)
      requires Valid() && track in lr.tracks && ids == lr.tracks[track] && track in tombstones
      modifies this`calls, this`deletes, this`lost, this`tombstones, lr`docs, lr`tracks
      ensures Valid() && LostSince(old(lost), lost, old(calls), calls) && r != NotFound
      ensures calls == old(calls) + if script(old(calls)) == Works then 1 else 2
      ensures r == Answered(script(old(calls)))
      ensures lr.tracks == if script(old(calls)) == Works || script(old(calls)) == AnswerLost
        then old(lr.tracks) - {track} else old(lr.tracks)
      ensures tombstones == if r != Deleted && script(old(calls) + 1) in {Works, AnswerLost}
        then old(tombstones) - {track} else old(tombstones)
      ensures script(old(calls)) == AnswerLost ==> |lost| == |old(lost)| + 1
      ensures script(old(calls)) != AnswerLost ==> lost == old(lost)
    {
      hide Inverse, History, LostSince;
      r := DeleteDocs(ids, track);
      HistoryLater(script, calls, calls + 1, deletes, lost);
      LostWider(old(lost), lost, old(calls), old(calls), calls, calls + 1);
      if r != Deleted {
        Unmark(track);
      }
    }

    // Deletes memories one by one. One that is already gone is skipped; any other failure stops here.
    method DeleteEach(ids: seq<TrackId>) returns (purged: nat, ok: bool)
      requires Valid() && forall i, j :: 0 <= i < j < |ids| ==> ids[i] != ids[j]
      modifies this`calls, this`deletes, this`lost, this`tombstones, lr`docs, lr`tracks
      ensures Valid() && lr.tracks.Keys <= old(lr.tracks).Keys
      ensures forall t :: t in old(lr.tracks) && t !in lr.tracks ==> t in ids
      ensures ok ==> AllDeleted(ids, old(lr.tracks).Keys, lr.tracks.Keys, tombstones) && lost == old(lost)
      ensures LostSince(old(lost), lost, old(calls), calls)
      ensures purged + |lost| - |old(lost)| == |old(lr.tracks).Keys| - |lr.tracks.Keys|
      ensures !ok ==> exists i :: old(calls) <= i < calls && script(i) != Works
    {
      purged := 0;
      ghost var start, live := lr.tracks.Keys, lr.tracks.Keys;
      for i := 0 to |ids|
        invariant Valid() && live == lr.tracks.Keys
        invariant AllDeleted(ids[..i], start, live, tombstones)
        invariant calls >= old(calls) && lost == old(lost) && purged == |start| - |live|
      {
        assert ids[..i + 1] == ids[..i] + [ids[i]] && ids[i] !in ids[..i];
        OneMore(ids[..i], ids[i], start, live, tombstones);
        var r := DeleteMemoryRaw(ids[i]);
        if r == NotFound {
          continue;
        }
        live := lr.tracks.Keys;
        if r != Deleted {
          forall t | t in start && t !in live
            ensures t in ids
          {
            assert t in ids[..i] || t == ids[i];
          }
          return purged, false;
        }
        purged := purged + 1;
      }
      assert ids[..|ids|] == ids;
      ok := true;
    }

    // Deletes the file's memories, then its index rows. A failure leaves the index untouched and
    // returns the count so far. A success returns the number of live memories the file owned, and so does
    // every call count the deaths when no delete answer is lost.
    method DeleteMemoriesBySource(repo: string, file: string) returns (purged: nat, ok: bool)
      requires Valid()
      modifies this`calls, this`deletes, this`lost, this`tombstones, this`index, lr`docs, lr`tracks
      ensures Valid()
      ensures Progress(repo, {file}, old(State()), State(), purged)
      ensures ok ==> RowsOf(index, repo, {file}) == {}
      ensures ok ==> TracksOf(old(index), repo, {file}) * old(lr.tracks).Keys <= tombstones
      ensures !ok ==> exists i :: old(calls) <= i < calls && script(i) != Works
      ensures ok ==> lost == old(lost) && purged == |Owned(old(State()), repo, {file})|
      ensures (forall i :: old(calls) <= i < calls ==> script(i) != AnswerLost) ==>
        lost == old(lost) && purged == |old(lr.tracks).Keys| - |lr.tracks.Keys|
    {
      hide Inverse, History, LostSince, Progress, RowsOf, TracksOf, Owned;
      ghost var before := State();
      var read, ids := TrackIDs(repo, file);
      HistoryLater(script, before.calls, calls, deletes, lost);
      if !read {
        FileProgress(repo, file, before, State(), [], 0);
        CountsAreDeaths(before, 0);
        return 0, false;
      }
      purged, ok := DeleteEach(ids);
      LostWider(before.lost, lost, before.calls, before.calls + 1, calls, calls + 1);
      LostWider(before.lost, lost, before.calls, before.calls + 1, calls, calls);
      if ok {
        HistoryLater(script, calls, calls + 1, deletes, lost);
        ok := DeleteByFile(repo, file);
      }
      FileProgress(repo, file, before, State(), ids, purged);
      if ok {
        DoneCounts(repo, {file}, before, State(), purged);
      }
      CountsAreDeaths(before, purged);
    }

    lemma CountsAreDeaths(before: World, count: nat)
      requires Valid() && LostSince(before.lost, lost, before.calls, calls)
      requires count + |lost| - |before.lost| == |before.live| - |lr.tracks.Keys|
      ensures (forall i :: before.calls <= i < calls ==> script(i) != AnswerLost) ==>
        lost == before.lost && count == |before.live| - |lr.tracks.Keys|
    {
      if forall i :: before.calls <= i < calls ==> script(i) != AnswerLost {
        NothingLost(script, before.lost, lost, before.calls, calls);
      }
    }

    // File by file, stopping at the first failure. The total includes what the failing file got done.
    method DeleteMemoriesBySources(repo: string, files: seq<string>) returns (total: nat, reached: nat, ok: bool)
      requires Valid()
      modifies this`calls, this`deletes, this`lost, this`tombstones, this`index, lr`docs, lr`tracks
      ensures Valid()
      ensures reached <= |files| && (ok <==> reached == |files|)
      ensures Progress(repo, Names(files[..if ok then reached else reached + 1]), old(State()), State(), total)
      ensures RowsOf(index, repo, Names(files[..reached])) == {}
      ensures !ok ==> exists i :: old(calls) <= i < calls && script(i) != Works
      ensures ok ==> lost == old(lost) && total == |Owned(old(State()), repo, Names(files))|
      ensures (forall i :: old(calls) <= i < calls ==> script(i) != AnswerLost) ==>
        lost == old(lost) && total == |old(lr.tracks).Keys| - |lr.tracks.Keys|
    {
      hide Progress, RowsOf, Names, Owned, LostSince, Inverse;
      total := 0;
      NothingDone(repo, files, State());
      for i := 0 to |files|
        invariant Valid() && lost == old(lost) && calls >= old(calls)
        invariant Progress(repo, Names(files[..i]), old(State()), State(), total)
        invariant RowsOf(index, repo, Names(files[..i])) == {}
      {
        NamesSnoc(files, i);
        ghost var before := State();
        ProgressWider(repo, Names(files[..i]), Names(files[..i + 1]), old(State()), before, total);
        var n, done := DeleteMemoriesBySource(repo, files[i]);
        ProgressWider(repo, {files[i]}, Names(files[..i + 1]), before, State(), n);
        ProgressTrans(repo, Names(files[..i + 1]), old(State()), before, State(), total, n);
        total := total + n;
        ProgressShrinks(repo, Names(files[..i + 1]), old(State()), State(), total);
        ProgressShrinks(repo, {files[i]}, before, State(), n);
        if !done {
          NoRowsOfFewer(before.index, index, repo, Names(files[..i]));
          CountsAreDeaths(old(State()), total);
          return total, i, false;
        }
        NoRowsOfBoth(before.index, index, repo, Names(files[..i]), files[i]);
      }
      assert files[..|files|] == files;
      DoneCounts(repo, Names(files), old(State()), State(), total);
      ProgressShrinks(repo, Names(files), old(State()), State(), total);
      CountsAreDeaths(old(State()), total);
      reached, ok := |files|, true;
    }

    method PurgeTry(repo: string, files: seq<string>) returns (n: nat, ok: bool, ghost t: Try)
      requires Valid()
      modifies this`calls, this`deletes, this`lost, this`tombstones, this`index, lr`docs, lr`tracks
      ensures Valid() && t == Try(old(State()), State(), n)
      ensures Progress(repo, Names(files), t.start, t.end, n)
      ensures ok ==> RowsOf(index, repo, Names(files)) == {}
    {
      hide Progress, RowsOf, Names, Owned, LostSince, Inverse;
      ghost var before := State();
      var reached;
      n, reached, ok := DeleteMemoriesBySources(repo, files);
      ghost var part := if ok then reached else reached + 1;
      NamesPart(files, part);
      ProgressWider(repo, Names(files[..part]), Names(files), before, State(), n);
      t := Try(before, State(), n);
      assert ok ==> files[..reached] == files;
    }

    lemma AllDone(repo: string, files: set<string>, first: World, total: nat)
      requires Valid() && Progress(repo, files, first, State(), total) && RowsOf(index, repo, files) == {}
      ensures first.live - lr.tracks.Keys == Owned(first, repo, files)
      ensures total + |lost| - |first.lost| == |Owned(first, repo, files)|
      ensures (forall i :: first.calls <= i < calls ==> script(i) != AnswerLost) ==>
        total == |Owned(first, repo, files)|
    {
      DoneCounts(repo, files, first, State(), total);
      ProgressShrinks(repo, files, first, State(), total);
      hide Progress, RowsOf, Owned;
      CountsAreDeaths(first, total);
    }

    // A client that purges again after a failure, at most `most` times: its runs are tries, and once one of them
    // succeeds the counts add up over all of them.
    method PurgeUntilDone(repo: string, files: seq<string>, most: nat)
      returns (total: nat, done: bool, ghost tries: seq<Try>)
      requires Valid()
      modifies this`calls, this`deletes, this`lost, this`tombstones, this`index, lr`docs, lr`tracks
      ensures Valid() && |tries| <= most && Tries(repo, Names(files), tries) && total == Sum(tries)
      ensures tries != [] ==> tries[0].start == old(State()) && tries[|tries| - 1].end == State()
      ensures done ==> tries != [] && RowsOf(index, repo, Names(files)) == {}
      ensures done ==> old(lr.tracks).Keys - lr.tracks.Keys == Owned(old(State()), repo, Names(files))
      ensures done ==> total + |lost| - |old(lost)| == |Owned(old(State()), repo, Names(files))|
      ensures done && (forall i :: old(calls) <= i < calls ==> script(i) != AnswerLost) ==>
        total == |Owned(old(State()), repo, Names(files))|
    {
      hide Progress, RowsOf, Names, Owned, LostSince, Inverse, Tries, Sum;
      total, done, tries := 0, false, [];
      ghost var first := State();
      FirstTry(repo, Names(files), first);
      for i := 0 to most
        invariant Valid() && |tries| == i && Tries(repo, Names(files), tries) && total == Sum(tries)
        invariant State() == (if tries == [] then first else tries[|tries| - 1].end)
        invariant tries != [] ==> tries[0].start == first
        invariant Progress(repo, Names(files), first, State(), total)
      {
        var n, ok, t := PurgeTry(repo, files);
        ProgressTrans(repo, Names(files), first, t.start, t.end, total, n);
        OneMoreTry(repo, Names(files), tries, t);
        tries := tries + [t];
        total := total + n;
        if ok {
          AllDone(repo, Names(files), first, total);
          return total, true, tries;
        }
      }
    }
  }

  // ---------- any number of tries ----------

  // A client that keeps calling: each try takes one world to another and returns a count.
  datatype Try = Try(start: World, end: World, count: nat)

  // What may happen between two tries: anything, except to the rows of these files and to the tracks they had.
  ghost predicate Aside(repo: string, files: set<string>, tracks: set<TrackId>, a: World, b: World) {
    RowsOf(b.index, repo, files) == RowsOf(a.index, repo, files) && b.live * tracks == a.live * tracks
  }

  ghost predicate Tries(repo: string, files: set<string>, tries: seq<Try>) {
    && (forall i :: 0 <= i < |tries| ==> Progress(repo, files, tries[i].start, tries[i].end, tries[i].count))
    && (forall i :: 0 < i < |tries| ==>
         Aside(repo, files, TracksOf(tries[0].start.index, repo, files), tries[i - 1].end, tries[i].start))
  }

  lemma NamesPart(files: seq<string>, n: nat)
    requires n <= |files|
    ensures Names(files[..n]) <= Names(files)
  {}

  lemma FirstTry(repo: string, files: set<string>, w: World)
    ensures Tries(repo, files, []) && Sum([]) == 0 && Progress(repo, files, w, w, 0)
  {}

  // A try that starts where the last one ended.
  lemma OneMoreTry(repo: string, files: set<string>, tries: seq<Try>, t: Try)
    requires Tries(repo, files, tries) && Progress(repo, files, t.start, t.end, t.count)
    requires tries != [] ==> t.start == tries[|tries| - 1].end
    ensures Tries(repo, files, tries + [t]) && Sum(tries + [t]) == Sum(tries) + t.count
  {
    hide Progress, TracksOf, RowsOf;
    var more := tries + [t];
    assert more[..|tries|] == tries;
    forall i | 0 < i < |more|
      ensures Aside(repo, files, TracksOf(more[0].start.index, repo, files), more[i - 1].end, more[i].start)
    {
      assert i < |tries| ==> more[i - 1] == tries[i - 1] && more[i] == tries[i];
    }
  }

  lemma TriesInit(repo: string, files: set<string>, tries: seq<Try>)
    requires Tries(repo, files, tries) && tries != []
    ensures var n := |tries| - 1;
      && Tries(repo, files, tries[..n])
      && Progress(repo, files, tries[n].start, tries[n].end, tries[n].count)
      && (n > 0 ==>
           Aside(repo, files, TracksOf(tries[0].start.index, repo, files), tries[n - 1].end, tries[n].start))
  {
    hide Progress, TracksOf, Aside;
  }

  function Sum(tries: seq<Try>): nat {
    if tries == [] then 0 else Sum(tries[..|tries| - 1]) + tries[|tries| - 1].count
  }

  // How many delete answers the tries lost, and the memories that died in them.
  function Lost(tries: seq<Try>): int {
    if tries == [] then 0 else
      Lost(tries[..|tries| - 1]) + |tries[|tries| - 1].end.lost| - |tries[|tries| - 1].start.lost|
  }

  function Deaths(tries: seq<Try>): set<TrackId> {
    if tries == [] then {} else
      Deaths(tries[..|tries| - 1]) + (tries[|tries| - 1].start.live - tries[|tries| - 1].end.live)
  }

  lemma ProgressOwned(repo: string, files: set<string>, a: World, b: World, count: nat)
    requires Progress(repo, files, a, b, count)
    ensures Owned(b, repo, files) <= Owned(a, repo, files)
    ensures a.live - b.live == Owned(a, repo, files) - Owned(b, repo, files)
    ensures count + |b.lost| - |a.lost| == |Owned(a, repo, files)| - |Owned(b, repo, files)|
    ensures TracksOf(b.index, repo, files) <= TracksOf(a.index, repo, files) && b.live <= a.live
  {
    assert RowsOf(b.index, repo, files) <= RowsOf(a.index, repo, files);
    forall t | t in Owned(a, repo, files) && t in b.live
      ensures t in Owned(b, repo, files)
    {
      var r :| r in RowsOf(a.index, repo, files) && r.track == t;
      assert r in RowsOf(b.index, repo, files);
    }
    assert a.live == b.live + (Owned(a, repo, files) - Owned(b, repo, files));
    assert Owned(a, repo, files) == Owned(b, repo, files) + (Owned(a, repo, files) - Owned(b, repo, files));
  }

  lemma {:induction false} TriesOwned(repo: string, files: set<string>, tries: seq<Try>)
    requires Tries(repo, files, tries) && tries != []
    ensures var a, b := tries[0].start, tries[|tries| - 1].end;
      && TracksOf(b.index, repo, files) <= TracksOf(a.index, repo, files)
      && Owned(b, repo, files) <= Owned(a, repo, files)
      && Deaths(tries) == Owned(a, repo, files) - Owned(b, repo, files) && Deaths(tries) !! b.live
      && Sum(tries) + Lost(tries) == |Owned(a, repo, files)| - |Owned(b, repo, files)|
    decreases |tries|
  {
    var n := |tries| - 1;
    TriesInit(repo, files, tries);
    var a, b, c := tries[0].start, tries[n].start, tries[n].end;
    ProgressOwned(repo, files, b, c, tries[n].count);
    hide Progress, RowsOf, TracksOf, Tries;
    if n > 0 {
      TriesOwned(repo, files, tries[..n]);
      AsideOwned(repo, files, TracksOf(a.index, repo, files), tries[n - 1].end, b);
      assert Deaths(tries) == Deaths(tries[..n]) + (b.live - c.live);
      DeathsLast(Deaths(tries[..n]), TracksOf(a.index, repo, files), tries[n - 1].end, b, c);
    } else {
      assert tries[..n] == [];
    }
  }

  // The deaths so far are still dead when the last try starts, and stay so.
  lemma DeathsLast(dead: set<TrackId>, tracks: set<TrackId>, before: World, b: World, c: World)
    requires dead <= tracks && dead !! before.live && b.live * tracks == before.live * tracks && c.live <= b.live
    ensures dead !! b.live && dead + (b.live - c.live) !! c.live
  {
    forall t | t in dead
      ensures t !in b.live
    {
      assert t in b.live ==> t in b.live * tracks;
    }
  }

  lemma AsideOwned(repo: string, files: set<string>, tracks: set<TrackId>, a: World, b: World)
    requires Aside(repo, files, tracks, a, b) && TracksOf(a.index, repo, files) <= tracks
    ensures TracksOf(b.index, repo, files) == TracksOf(a.index, repo, files) && b.live * tracks == a.live * tracks
    ensures Owned(b, repo, files) == Owned(a, repo, files)
  {
    forall t | t in TracksOf(a.index, repo, files)
      ensures t in b.live <==> t in a.live
    {
      assert t in b.live * tracks <==> t in a.live * tracks;
    }
  }

  // The answers in `lost` are lost ones, and no try makes a call whose answer gets lost.
  ghost predicate NothingLostIn(script: nat -> Fault, tries: seq<Try>) {
    forall i, c :: 0 <= i < |tries| && tries[i].start.calls <= c < tries[i].end.calls ==> script(c) != AnswerLost
  }

  ghost predicate LostAreLost(script: nat -> Fault, tries: seq<Try>) {
    forall i, c :: 0 <= i < |tries| && c in tries[i].end.lost ==> script(c) == AnswerLost
  }

  lemma {:induction false} NoneLost(script: nat -> Fault, repo: string, files: set<string>, tries: seq<Try>)
    requires Tries(repo, files, tries) && LostAreLost(script, tries) && NothingLostIn(script, tries)
    ensures Lost(tries) == 0
    decreases |tries|
  {
    if tries != [] {
      var n := |tries| - 1;
      NoneLost(script, repo, files, tries[..n]);
      ProgressShrinks(repo, files, tries[n].start, tries[n].end, tries[n].count);
      NothingLost(script, tries[n].start.lost, tries[n].end.lost, tries[n].start.calls, tries[n].end.calls);
    }
  }

  // However often it was cut short, and whatever was done to other memories between the tries: once the listed
  // files have no rows left, exactly the memories they owned at the start have died in the tries, none of them
  // is live, and the returned counts add up to their number when no delete answer was lost; in general the lost
  // answers make up the difference.
  lemma PurgeAddsUp(script: nat -> Fault, repo: string, files: set<string>, tries: seq<Try>)
    requires Tries(repo, files, tries) && tries != [] && LostAreLost(script, tries)
    requires RowsOf(tries[|tries| - 1].end.index, repo, files) == {}
    ensures var owned := Owned(tries[0].start, repo, files);
      && Deaths(tries) == owned && owned !! tries[|tries| - 1].end.live
      && Sum(tries) + Lost(tries) == |owned|
      && (NothingLostIn(script, tries) ==> Sum(tries) == |owned|)
  {
    TriesOwned(repo, files, tries);
    if NothingLostIn(script, tries) {
      NoneLost(script, repo, files, tries);
    }
  }

  // A live memory never loses its index row to a purge, so a later try can still find it.
  lemma {:induction false} LiveStaysIndexed(repo: string, files: set<string>, tries: seq<Try>, r: Row)
    requires Tries(repo, files, tries) && tries != []
    requires r in tries[0].start.index && r.track in tries[|tries| - 1].end.live
    requires forall i :: 0 < i < |tries| && r in tries[i - 1].end.index ==> r in tries[i].start.index
    ensures r in tries[|tries| - 1].end.index
    decreases |tries|
  {
    var n := |tries| - 1;
    TriesInit(repo, files, tries);
    if n > 0 && r.repo == repo && r.file in files {
      TriesOwned(repo, files, tries[..n]);
      var tracks := TracksOf(tries[0].start.index, repo, files);
      assert r in RowsOf(tries[0].start.index, repo, files);
      assert r.track in tracks && r.track in tries[n].start.live * tracks;
      LiveStaysIndexed(repo, files, tries[..n], r);
      assert r in tries[n - 1].end.index;
    } else if n > 0 {
      OthersStayIndexed(repo, files, tries[..n], r);
      assert r in tries[n - 1].end.index;
    }
  }

  lemma {:induction false} OthersStayIndexed(repo: string, files: set<string>, tries: seq<Try>, r: Row)
    requires Tries(repo, files, tries) && tries != []
    requires r in tries[0].start.index && !(r.repo == repo && r.file in files)
    requires forall i :: 0 < i < |tries| && r in tries[i - 1].end.index ==> r in tries[i].start.index
    ensures r in tries[|tries| - 1].end.index
    decreases |tries|
  {
    var n := |tries| - 1;
    TriesInit(repo, files, tries);
    assert r !in RowsOf(tries[n].start.index, repo, files);
    if n > 0 {
      OthersStayIndexed(repo, files, tries[..n], r);
      assert r in tries[n - 1].end.index;
    }
  }
}
