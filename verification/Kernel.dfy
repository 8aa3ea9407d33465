/** The loops of the kernel (src/arrangement.rs). */
module Kernel {
  import opened Numbers
  import opened Outcomes
  import opened Ordering
  import opened Arrangement

  /** The members of a set in ascending order, as an ordered map iterates over its keys. */
  method AscendingKeys(keys: set<U64>) returns (r: seq<U64>)
    ensures TotalOrder(IdLte)
    ensures r == Ascending(IdLte, keys)
  {
    IdOrder();
    r := [];
    var rest := keys;
    while rest != {}
      invariant rest <= keys
      invariant StrictlySorted(IdLte, r)
      invariant forall id :: id in r <==> id in keys - rest
      decreases |rest|
    {
      var id :| id in rest;
      r := InsertSorted(IdLte, r, id);
      rest := rest - {id};
    }
    AscendingUnique(IdLte, r, Ascending(IdLte, keys));
  }

  /** Keeps the first mention of every existing track. */
  method RetainKnown(order: seq<TrackId>, present: set<TrackId>) returns (kept: seq<TrackId>, seen: set<TrackId>)
    ensures kept == Retained(order, present)
    ensures seen == Elements(kept)
  {
    kept, seen := [], {};
    for i := 0 to |order|
      invariant kept == Retained(order[..i], present)
      invariant seen == Elements(kept)
    {
      assert order[..i + 1][..i] == order[..i];
      if order[i] in present && order[i] !in seen {
        ElementsOfConcat(kept, [order[i]]);
        kept := kept + [order[i]];
        seen := seen + {order[i]};
      }
    }
    assert order[..|order|] == order;
  }

  /** `added` lists, in ascending order, the members of `keys` that were not seen. */
  ghost predicate ListsUnseen(added: seq<U64>, keys: seq<U64>, seen: set<U64>) {
    && StrictlySorted(IdLte, added)
    && forall id :: id in added <==> id in keys && id !in seen
  }

  lemma ListsOneMore(added: seq<U64>, keys: seq<U64>, seen: set<U64>, i: nat)
    requires i < |keys| && StrictlySorted(IdLte, keys)
    requires ListsUnseen(added, keys[..i], seen)
    ensures ListsUnseen(if keys[i] in seen then added else added + [keys[i]], keys[..i + 1], seen)
  {
    assert keys[..i + 1] == keys[..i] + [keys[i]];
    forall k | 0 <= k < |added| ensures IdLte(added[k], keys[i]) && added[k] != keys[i] {
      assert added[k] in keys[..i];
      var j :| 0 <= j < i && keys[..i][j] == added[k];
    }
  }

  /** The existing tracks that were not seen, in identity order. */
  method UnseenTracks(present: set<TrackId>, seen: set<TrackId>) returns (added: seq<TrackId>)
    ensures TotalOrder(IdLte)
    ensures added == Ascending(IdLte, present - seen)
  {
    var keys := AscendingKeys(present);
    added := [];
    for i := 0 to |keys|
      invariant ListsUnseen(added, keys[..i], seen)
    {
      ListsOneMore(added, keys, seen, i);
      if keys[i] !in seen {
        added := added + [keys[i]];
      }
    }
    assert keys[..|keys|] == keys;
    AscendingUnique(IdLte, added, Ascending(IdLte, present - seen));
  }

  method NormalizeOrder(order: seq<TrackId>, tracks: map<TrackId, Track>) returns (r: seq<TrackId>)
    ensures r == NormalizedOrder(order, tracks.Keys)
  {
    var kept, seen := RetainKnown(order, tracks.Keys);
    var added := UnseenTracks(tracks.Keys, seen);
    r := kept + added;
  }

  /** The places of the track's clips among the given identities. */
  ghost predicate PlacesAmong(
    places: seq<(Frame, ClipId)>, keys: seq<ClipId>, clips: map<ClipId, Clip>, track: TrackId)
  {
    forall p: (Frame, ClipId) :: p in places <==>
      p.1 in keys && p.1 in clips && clips[p.1].trackId == track && p.0 == clips[p.1].placement.start
  }

  lemma PlaceOneMore(
    places: seq<(Frame, ClipId)>, keys: seq<ClipId>, i: nat, clips: map<ClipId, Clip>, track: TrackId)
    requires i < |keys| && keys[i] in clips && PlacesAmong(places, keys[..i], clips, track)
    ensures PlacesAmong(
      if clips[keys[i]].trackId == track then places + [(clips[keys[i]].placement.start, keys[i])] else places,
      keys[..i + 1], clips, track)
  {
    assert keys[..i + 1] == keys[..i] + [keys[i]];
  }

  lemma AllPlaces(places: seq<(Frame, ClipId)>, keys: seq<ClipId>, clips: map<ClipId, Clip>, track: TrackId)
    requires PlacesAmong(places, keys, clips, track) && forall id :: id in clips ==> id in keys
    ensures Elements(places) == PlacesOnTrack(clips, track)
  {}

  /** Collects the clips of one track and sorts them by start and then by identity. */
  method IndexClips(clips: map<ClipId, Clip>, track: TrackId) returns (r: seq<ClipId>)
    ensures r == ClipIndex(clips, track)
  {
    PlaceOrder();
    var places: seq<(Frame, ClipId)> := [];
    assert PlacesAmong(places, [], clips, track);
    hide PlacesAmong, PlacesOnTrack;
    var keys := AscendingKeys(clips.Keys);
    for i := 0 to |keys|
      invariant PlacesAmong(places, keys[..i], clips, track)
    {
      assert keys[i] in keys;
      PlaceOneMore(places, keys, i, clips, track);
      if clips[keys[i]].trackId == track {
        places := places + [(clips[keys[i]].placement.start, keys[i])];
      }
    }
    assert keys[..|keys|] == keys;
    var sorted := SortDedup(PlaceLte, places);
    AllPlaces(places, keys, clips, track);
    r := Identities(sorted);
  }

  method IndexTracks(before: map<TrackId, Track>, clips: map<ClipId, Clip>) returns (tracks: map<TrackId, Track>)
    ensures tracks == Indexed(before, clips)
  {
    tracks := before;
    var rest := before.Keys;
    while rest != {}
      invariant rest <= before.Keys && tracks.Keys == before.Keys
      invariant forall id :: id in before ==>
        tracks[id] == if id in rest then before[id] else Reindexed(before[id], id, clips)
      decreases |rest|
    {
      var id :| id in rest;
      var index := IndexClips(clips, id);
      tracks := tracks[id := tracks[id].(clipIds := index)];
      rest := rest - {id};
    }
  }

  /** Rebuilds the track order and every clip index of a candidate state. */
  method NormalizeIndexes(s: State) returns (r: State)
    ensures r == Normalized(s)
  {
    var order := NormalizeOrder(s.trackOrder, s.tracks);
    var tracks := IndexTracks(s.tracks, s.clips);
    r := s.(trackOrder := order, tracks := tracks);
  }

  /** Runs the operations on a clone, normalizes once and validates once. */
  method Commit(operations: seq<Operation>, s: State) returns (r: Result<State, ArrangementError>)
    ensures r == Committed(operations, s)
    ensures r.Ok? ==> Valid(r.value) && ApplyAll(operations, s).Ok?
  {
    var candidate := s;
    for i := 0 to |operations|
      invariant ApplyAll(operations[..i], s) == Ok(candidate)
    {
      assert operations[..i + 1][..i] == operations[..i];
      var applied := operations[i].Apply(candidate);
      if applied.Err? {
        StopsAt(operations, s, i);
        return Err(applied.error);
      }
      candidate := applied.value;
    }
    assert operations[..|operations|] == operations;
    candidate := NormalizeIndexes(candidate);
    if Valid(candidate) {
      r := Ok(candidate);
    } else {
      r := Err(ValidationFailed);
    }
  }

  /** The first refused operation decides the whole list. */
  lemma {:induction false} StopsAt(operations: seq<Operation>, s: State, i: nat)
    requires i < |operations|
    requires ApplyAll(operations[..i + 1], s).Err?
    ensures ApplyAll(operations, s) == ApplyAll(operations[..i + 1], s)
    decreases |operations|
  {
    if i + 1 < |operations| {
      var front := operations[..|operations| - 1];
      assert front[..i + 1] == operations[..i + 1];
      StopsAt(front, s, i);
    } else {
      assert operations[..i + 1] == operations;
    }
  }
}
