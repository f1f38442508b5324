// The in-memory upstream: documents, and for every track the list of its documents.
module LightragFake {

  type DocId = nat
  type TrackId = nat

  function Without(ids: seq<DocId>, gone: set<DocId>): seq<DocId> {
    if ids == [] then []
    else (if ids[0] in gone then [] else [ids[0]]) + Without(ids[1..], gone)
  }

  lemma {:induction false} WithoutKeeps(ids: seq<DocId>, gone: set<DocId>, d: DocId)
    ensures d in Without(ids, gone) <==> d in ids && d !in gone
  {
    if ids != [] {
      WithoutKeeps(ids[1..], gone, d);
    }
  }

  lemma {:induction false} WithoutTwice(ids: seq<DocId>, a: set<DocId>, b: set<DocId>)
    ensures Without(Without(ids, a), b) == Without(ids, a + b)
  {
    if ids != [] {
      WithoutTwice(ids[1..], a, b);
      if ids[0] !in a {
        assert Without(ids, a) == [ids[0]] + Without(ids[1..], a);
        assert Without(ids, a)[1..] == Without(ids[1..], a);
      } else {
        assert Without(ids, a) == Without(ids[1..], a);
      }
    }
  }

  lemma {:induction false} WithoutNone(ids: seq<DocId>, gone: set<DocId>)
    requires forall d :: d in ids ==> d !in gone
    ensures Without(ids, gone) == ids
  {
    if ids != [] {
      WithoutNone(ids[1..], gone);
    }
  }

  lemma {:induction false} WithoutSnoc(ids: seq<DocId>, i: nat, gone: set<DocId>)
    requires i < |ids|
    ensures Without(ids[..i + 1], gone) == Without(ids[..i], gone) + if ids[i] in gone then [] else [ids[i]]
  {
    if i > 0 {
      WithoutSnoc(ids[1..], i - 1, gone);
      assert ids[1..][..i - 1] == ids[..i][1..] && ids[1..][..i] == ids[..i + 1][1..];
    }
  }

  // The tracks that still have documents, with their remaining documents in order.
  function Remaining(tracks: map<TrackId, seq<DocId>>, gone: set<DocId>): map<TrackId, seq<DocId>> {
    map t | t in tracks && Without(tracks[t], gone) != [] :: Without(tracks[t], gone)
  }

  // A missing key reads as an empty list.
  function Listed(tracks: map<TrackId, seq<DocId>>, t: TrackId): seq<DocId> {
    if t in tracks then tracks[t] else []
  }

  function Elems(ids: seq<DocId>): set<DocId> {
    set d | d in ids
  }

  lemma ElemsSnoc(ids: seq<DocId>, i: nat)
    requires i < |ids|
    ensures Elems(ids[..i + 1]) == Elems(ids[..i]) + {ids[i]}
  {
    assert ids[..i + 1] == ids[..i] + [ids[i]];
  }

  lemma LessTwice(docs: map<DocId, TrackId>, a: set<DocId>, b: set<DocId>)
    ensures docs - a - b == docs - (a + b)
  {}

  // The two maps are inverse to each other: a document's track lists it, and only it.
  ghost predicate Inverse(docs: map<DocId, TrackId>, tracks: map<TrackId, seq<DocId>>) {
    && (forall t :: t in tracks ==> tracks[t] != [])
    && (forall t, d :: t in tracks && d in tracks[t] ==> d in docs && docs[d] == t)
    && (forall d :: d in docs ==> docs[d] in tracks && d in tracks[docs[d]])
  }

  lemma RemainingInverse(docs: map<DocId, TrackId>, tracks: map<TrackId, seq<DocId>>, gone: set<DocId>)
    requires Inverse(docs, tracks)
    ensures Inverse(docs - gone, Remaining(tracks, gone))
  {
    hide Without;
    var left := Remaining(tracks, gone);
    forall t, d | t in left && d in left[t]
      ensures d in docs - gone && (docs - gone)[d] == t
    {
      WithoutKeeps(tracks[t], gone, d);
    }
    forall d | d in docs - gone
      ensures docs[d] in left && d in left[docs[d]]
    {
      WithoutKeeps(tracks[docs[d]], gone, d);
    }
  }

  lemma RemainingNone(docs: map<DocId, TrackId>, tracks: map<TrackId, seq<DocId>>)
    requires Inverse(docs, tracks)
    ensures Remaining(tracks, {}) == tracks
  {
    forall t | t in tracks
      ensures Without(tracks[t], {}) == tracks[t]
    {
      WithoutNone(tracks[t], {});
    }
  }

  lemma RemainingTwice(tracks: map<TrackId, seq<DocId>>, a: set<DocId>, b: set<DocId>)
    ensures Remaining(Remaining(tracks, a), b) == Remaining(tracks, a + b)
  {
    forall t | t in tracks
      ensures Without(Without(tracks[t], a), b) == Without(tracks[t], a + b)
    {
      WithoutTwice(tracks[t], a, b);
    }
  }

  // Taking one document off its own track's list is taking it off everywhere.
  lemma RemainingOne(docs: map<DocId, TrackId>, tracks: map<TrackId, seq<DocId>>, d: DocId)
    requires Inverse(docs, tracks) && d in docs
    ensures Remaining(tracks, {d}) == Relisted(tracks, docs[d], Without(tracks[docs[d]], {d}))
  {
    var next := Relisted(tracks, docs[d], Without(tracks[docs[d]], {d}));
    forall t | t in tracks && t != docs[d]
      ensures Without(tracks[t], {d}) == tracks[t]
    {
      assert d !in tracks[t];
      WithoutNone(tracks[t], {d});
    }
    assert Remaining(tracks, {d}).Keys == next.Keys;
  }

  function Relisted(tracks: map<TrackId, seq<DocId>>, t: TrackId, list: seq<DocId>): map<TrackId, seq<DocId>> {
    if list == [] then tracks - {t} else tracks[t := list]
  }

  lemma UnknownDoc(docs: map<DocId, TrackId>, tracks: map<TrackId, seq<DocId>>, d: DocId)
    requires Inverse(docs, tracks) && d !in docs
    ensures Remaining(tracks, {d}) == tracks
  {
    forall t | t in tracks
      ensures Without(tracks[t], {d}) == tracks[t]
    {
      assert d !in tracks[t];
      WithoutNone(tracks[t], {d});
    }
  }

  class Client {
    var docs: map<DocId, TrackId>
    var tracks: map<TrackId, seq<DocId>>
    var nextId: nat

    ghost predicate Valid()
      reads this
    {
      && Inverse(docs, tracks)
      && (forall d :: d in docs ==> d <= nextId)
      && (forall t :: t in tracks ==> t <= nextId)
    }

    constructor ()
      ensures Valid() && docs == map[] && tracks == map[]
    {
      docs, tracks, nextId := map[], map[], 0;
    }

    method InsertText() returns (track: TrackId)
      requires Valid()
      modifies this
      ensures Valid()
      ensures track !in old(tracks)
      ensures exists d ::
        d !in old(docs) && tracks == old(tracks)[track := [d]] && docs == old(docs)[d := track]
    {
      nextId := nextId + 1;
      track := nextId;
      nextId := nextId + 1;
      var d := nextId;
      docs := docs[d := track];
      assert track !in tracks;
      assert Listed(tracks, track) + [d] == [d];
      tracks := tracks[track := Listed(tracks, track) + [d]];
      assert tracks == old(tracks)[track := [d]] && docs == old(docs)[d := track];
    }

    // The documents of a track; none when the track is unknown, which the upstream answers with a 404.
    method TrackStatus(track: TrackId) returns (found: bool, ids: seq<DocId>)
      requires Valid()
      ensures found <==> track in tracks
      ensures ids == if found then tracks[track] else []
      ensures found ==> ids != []
    {
      found := track in tracks;
      ids := if found then tracks[track] else [];
    }

    // All or nothing: an unknown id anywhere in the list leaves everything in place.
    method DeleteDocs(ids: seq<DocId>) returns (found: bool)
      requires Valid()
      modifies this`docs, this`tracks
      ensures Valid()
      ensures found <==> forall d :: d in ids ==> d in old(docs)
      ensures docs == if found then old(docs) - Elems(ids) else old(docs)
      ensures tracks == if found then Remaining(old(tracks), Elems(ids)) else old(tracks)
    {
      found := AllKnown(ids);
      if found {
        DeleteAll(ids);
      }
    }

    method AllKnown(ids: seq<DocId>) returns (known: bool)
      ensures known <==> forall d :: d in ids ==> d in docs
    {
      for i := 0 to |ids|
        invariant forall j :: 0 <= j < i ==> ids[j] in docs
      {
        if ids[i] !in docs {
          return false;
        }
      }
      return true;
    }

    method DeleteAll(ids: seq<DocId>)
      requires Valid()
      modifies this`docs, this`tracks
      ensures Valid()
      ensures docs == old(docs) - Elems(ids) && tracks == Remaining(old(tracks), Elems(ids))
    {
      ghost var gone: set<DocId> := {};
      RemainingNone(docs, tracks);
      for i := 0 to |ids|
        invariant Valid() && gone == Elems(ids[..i])
        invariant docs == old(docs) - gone && tracks == Remaining(old(tracks), gone)
      {
        RemainingTwice(old(tracks), gone, {ids[i]});
        LessTwice(old(docs), gone, {ids[i]});
        ElemsSnoc(ids, i);
        DeleteOne(ids[i]);
        gone := gone + {ids[i]};
      }
      assert ids[..|ids|] == ids;
    }

    method DeleteOne(d: DocId)
      requires Valid()
      modifies this`docs, this`tracks
      ensures Valid()
      ensures docs == old(docs) - {d} && tracks == Remaining(old(tracks), {d})
    {
      RemainingInverse(docs, tracks, {d});
      if d in docs {
        RemainingOne(docs, tracks, d);
        var t := docs[d];
        docs := docs - {d};
        var filtered := Filtered(tracks[t], d);
        tracks := Relisted(tracks, t, filtered);
      } else {
        UnknownDoc(docs, tracks, d);
      }
    }

    static method Filtered(list: seq<DocId>, d: DocId) returns (r: seq<DocId>)
      ensures r == Without(list, {d})
    {
      r := [];
      for j := 0 to |list|
        invariant r == Without(list[..j], {d})
      {
        WithoutSnoc(list, j, {d});
        if list[j] != d {
          r := r + [list[j]];
        }
      }
      assert list[..|list|] == list;
    }
  }
}
