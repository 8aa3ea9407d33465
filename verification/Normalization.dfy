/** Index normalization (src/arrangement.rs). */
module Normalization {
  import opened Ordering
  import opened Arrangement

  /** Every clip is stored under its own identity. */
  predicate KeyedById(clips: map<ClipId, Clip>) {
    forall id :: id in clips ==> clips[id].id == id
  }

  function PlacesOf(ids: seq<ClipId>, clips: map<ClipId, Clip>): seq<(Frame, ClipId)>
    requires forall id :: id in ids ==> id in clips
  {
    seq(|ids|, i requires 0 <= i < |ids| => assert ids[i] in ids; PlaceOf(clips[ids[i]]))
  }

  /** The index holds exactly the clips of the track, once each, by start and then by identity. */
  lemma ClipIndexSorted(clips: map<ClipId, Clip>, track: TrackId)
    requires KeyedById(clips)
    ensures var index := ClipIndex(clips, track);
      && OrderMatches(index, ClipsOnTrack(clips, track))
      && (forall id :: id in index ==> id in clips)
      && (forall i, j :: 0 <= i < j < |index| ==> PlaceLte(PlaceOf(clips[index[i]]), PlaceOf(clips[index[j]])))
  {
    PlaceOrder();
    var places := Ascending(PlaceLte, PlacesOnTrack(clips, track));
    var index := ClipIndex(clips, track);
    forall i | 0 <= i < |index|
      ensures index[i] in ClipsOnTrack(clips, track) && PlaceOf(clips[index[i]]) == places[i]
    {
      assert places[i] in places;
    }
    forall id | id in ClipsOnTrack(clips, track) ensures id in index {
      var place := (clips[id].placement.start, id);
      assert place in PlacesOnTrack(clips, track);
      var i :| 0 <= i < |places| && places[i] == place;
      assert index[i] == id;
    }
    assert Elements(index) == ClipsOnTrack(clips, track);
  }

  /** A validated index is the normalized one: the order leaves no freedom. */
  lemma ClipIndexUnique(id: TrackId, track: Track, clips: map<ClipId, Clip>)
    requires KeyedById(clips)
    requires ValidTrack(id, track, clips)
    ensures ClipIndex(clips, id) == track.clipIds
  {
    PlaceOrder();
    var places := PlacesOf(track.clipIds, clips);
    var ascending := Ascending(PlaceLte, PlacesOnTrack(clips, id));
    NeighboursSuffice(PlaceLte, places);
    assert forall i :: 0 <= i < |places| ==> places[i].1 == track.clipIds[i];
    assert StrictlySorted(PlaceLte, places);
    forall p ensures p in places <==> p in ascending {
      if p in places {
        var i :| 0 <= i < |places| && places[i] == p;
        assert track.clipIds[i] in ClipsOnTrack(clips, id);
        assert p in PlacesOnTrack(clips, id);
      }
      if p in ascending {
        assert p in PlacesOnTrack(clips, id);
        assert p.1 in ClipsOnTrack(clips, id);
        var i :| 0 <= i < |track.clipIds| && track.clipIds[i] == p.1;
        assert places[i] == p;
      }
    }
    AscendingUnique(PlaceLte, places, ascending);
    assert ClipIndex(clips, id) == track.clipIds;
  }

  /** A validated list names the clips of its track by start, and those that start together by identity. */
  lemma ListInOrder(id: TrackId, track: Track, clips: map<ClipId, Clip>, i: nat, j: nat)
    requires KeyedById(clips) && ValidTrack(id, track, clips) && i < j < |track.clipIds|
    ensures track.clipIds[i] in clips && track.clipIds[j] in clips
    ensures var a, b := clips[track.clipIds[i]], clips[track.clipIds[j]];
      && a.trackId == id
      && (a.placement.start < b.placement.start || (a.placement.start == b.placement.start && a.id < b.id))
  {
    assert track.clipIds[i] in Elements(track.clipIds) && track.clipIds[j] in Elements(track.clipIds);
    ClipIndexUnique(id, track, clips);
    ClipIndexSorted(clips, id);
  }

  lemma {:induction false} RetainedProperties(order: seq<TrackId>, present: set<TrackId>)
    ensures Distinct(Retained(order, present))
    ensures Elements(Retained(order, present)) == Elements(order) * present
  {
    if order != [] {
      var front, id := order[..|order| - 1], order[|order| - 1];
      RetainedProperties(front, present);
      assert order == front + [id];
      assert Elements(order) == Elements(front) + {id};
      var kept := Retained(front, present);
      assert Elements(kept + [id]) == Elements(kept) + {id};
    }
  }

  lemma {:induction false} RetainedAll(order: seq<TrackId>, present: set<TrackId>)
    requires Distinct(order) && Elements(order) <= present
    ensures Retained(order, present) == order
  {
    if order != [] {
      var front, id := order[..|order| - 1], order[|order| - 1];
      assert order == front + [id];
      assert Elements(order) == Elements(front) + {id};
      RetainedAll(front, present);
    }
  }

  /** Whatever the order listed, the normalized order mentions every track exactly once. */
  lemma NormalizedOrderMatches(order: seq<TrackId>, present: set<TrackId>)
    ensures OrderMatches(NormalizedOrder(order, present), present)
  {
    RetainedProperties(order, present);
    IdOrder();
    var kept := Retained(order, present);
    var added := Ascending(IdLte, present - Elements(kept));
    var whole := kept + added;
    forall i, j | 0 <= i < j < |whole| ensures whole[i] != whole[j] {
      if i < |kept| <= j {
        assert whole[i] in kept && whole[j] in added;
      }
    }
    assert Elements(kept + added) == Elements(kept) + Elements(added);
    assert Elements(added) == present - Elements(kept);
  }

  lemma NormalizedOrderIdentity(order: seq<TrackId>, present: set<TrackId>)
    requires OrderMatches(order, present)
    ensures NormalizedOrder(order, present) == order
  {
    RetainedAll(order, present);
    IdOrder();
    assert present - Elements(order) == {};
    AscendingOfNone();
  }

  lemma AscendingOfNone()
    requires TotalOrder(IdLte)
    ensures Ascending(IdLte, {}) == []
  {}

  /** Validation accepts only normalized states. */
  lemma NormalizedIdentity(s: State)
    requires Valid(s)
    ensures Normalized(s) == s
  {
    NormalizedOrderIdentity(s.trackOrder, s.tracks.Keys);
    forall id | id in s.tracks ensures Normalized(s).tracks[id] == s.tracks[id] {
      assert ValidTrack(id, s.tracks[id], s.clips);
      ValidKeyed(s);
      ClipIndexUnique(id, s.tracks[id], s.clips);
    }
    assert Normalized(s).tracks == s.tracks;
  }

  lemma ValidKeyed(s: State)
    requires Valid(s)
    ensures KeyedById(s.clips)
  {
    forall id | id in s.clips ensures s.clips[id].id == id {
      assert ValidClip(id, s.clips[id], s.tracks);
    }
  }

  /** Validity does not depend on how far the counters have run ahead. */
  lemma ValidWithLaterCounters(s: State, t: State)
    requires Valid(s)
    requires t.Content() == s.Content()
    requires s.nextTrackId <= t.nextTrackId && s.nextClipId <= t.nextClipId
    ensures Valid(t)
  {
    assert t.tracks == s.tracks && t.clips == s.clips && t.markers == s.markers by {
      assert t.Content().tracks == s.Content().tracks;
      assert t.Content().clips == s.Content().clips;
      assert t.Content().markers == s.Content().markers;
    }
    assert t.Content().trackOrder == s.Content().trackOrder;
    assert t.Content().sampleRate == s.Content().sampleRate;
    assert t.Content().schemaVersion == s.Content().schemaVersion;
  }

  // ----- the order that an undo leaves

  /**
   * The members of the order that are not kept stand behind all that are, in ascending identity. Normalization puts
   * a track that comes back behind the others, so this is where it must have stood.
   */
  predicate DroppedStandLast(order: seq<TrackId>, kept: set<TrackId>) {
    forall i, j :: 0 <= i < j < |order| && order[i] !in kept ==> order[j] !in kept && IdLte(order[i], order[j])
  }

  lemma {:induction false} RetainedConcat(front: seq<TrackId>, back: seq<TrackId>, present: set<TrackId>)
    requires forall id :: id in back ==> id !in present
    ensures Retained(front + back, present) == Retained(front, present)
  {
    if back == [] {
      assert front + back == front;
    } else {
      var whole := front + back;
      assert whole[..|whole| - 1] == front + back[..|back| - 1];
      assert back[|back| - 1] in back;
      RetainedConcat(front, back[..|back| - 1], present);
    }
  }

  /** Of an order without repetition exactly the kept members stay, in place. */
  lemma {:induction false} RetainedOfDistinct(order: seq<TrackId>, kept: set<TrackId>)
    requires Distinct(order)
    ensures forall id :: id in Retained(order, kept) <==> id in order && id in kept
    ensures Distinct(Retained(order, kept))
    ensures (forall id :: id in order ==> id in kept) ==> Retained(order, kept) == order
  {
    if order != [] {
      var front, last := order[..|order| - 1], order[|order| - 1];
      assert order == front + [last];
      RetainedOfDistinct(front, kept);
      assert last !in front;
    }
  }

  /** What comes of an order when only some members are kept and then all are there again. */
  lemma OrderAfterReturn(order: seq<TrackId>, all: set<TrackId>, kept: set<TrackId>)
    requires OrderMatches(order, all)
    ensures TotalOrder(IdLte)
    ensures NormalizedOrder(NormalizedOrder(order, kept), all) == Retained(order, kept) + Ascending(IdLte, all - kept)
  {
    IdOrder();
    var stayed := Retained(order, kept);
    var added := Ascending(IdLte, kept - Elements(stayed));
    RetainedOfDistinct(order, kept);
    assert forall id :: id in all <==> id in order by { assert Elements(order) == all; }
    RetainedConcat(stayed, added, all);
    RetainedOfDistinct(stayed, all);
    assert all - Elements(stayed) == all - kept;
  }

  /** The members behind the kept ones are the dropped ones, ascending. */
  ghost predicate DroppedBehind(order: seq<TrackId>, kept: set<TrackId>, n: int) {
    && 0 <= n <= |order| && Retained(order, kept) == order[..n]
    && (forall id :: id in order[n..] ==> id !in kept)
    && StrictlySorted(IdLte, order[n..])
  }

  lemma AllKept(order: seq<TrackId>, kept: set<TrackId>)
    requires Distinct(order) && DroppedStandLast(order, kept)
    requires order != [] && order[|order| - 1] in kept
    ensures DroppedBehind(order, kept, |order|)
  {
    forall id | id in order ensures id in kept {
      var i :| 0 <= i < |order| && order[i] == id;
    }
    RetainedOfDistinct(order, kept);
    assert order[..|order|] == order;
  }

  lemma OneMoreDropped(front: seq<TrackId>, last: TrackId, kept: set<TrackId>, n: nat)
    requires Distinct(front + [last]) && DroppedStandLast(front + [last], kept)
    requires last !in kept && DroppedBehind(front, kept, n)
    ensures DroppedBehind(front + [last], kept, n)
  {
    var order := front + [last];
    assert order[..|order| - 1] == front && order[|order| - 1] == last;
    assert order[..n] == front[..n] && order[n..] == front[n..] + [last];
    forall i | n <= i < |front| ensures IdLte(front[i], last) && front[i] != last {
      assert front[n..][i - n] in front[n..];
      assert order[i] == front[i] && order[|front|] == last;
    }
  }

  /** The members that are kept, in order, and behind them the others. */
  lemma {:induction false} DroppedSplit(order: seq<TrackId>, kept: set<TrackId>) returns (n: nat)
    requires Distinct(order) && DroppedStandLast(order, kept)
    ensures DroppedBehind(order, kept, n)
  {
    if order == [] {
      n := 0;
    } else if order[|order| - 1] in kept {
      AllKept(order, kept);
      n := |order|;
    } else {
      var front, last := order[..|order| - 1], order[|order| - 1];
      n := DroppedSplit(front, kept);
      assert order == front + [last];
      hide DroppedBehind;
      OneMoreDropped(front, last, kept, n);
    }
  }

  lemma ReturnMeansDroppedLast(order: seq<TrackId>, all: set<TrackId>, kept: set<TrackId>, back: seq<TrackId>)
    requires Distinct(order) && StrictlySorted(IdLte, back) && forall id :: id in back <==> id in all - kept
    requires Retained(order, kept) + back == order
    ensures DroppedStandLast(order, kept)
  {
    var stayed := Retained(order, kept);
    RetainedOfDistinct(order, kept);
    assert forall k :: 0 <= k < |stayed| ==> stayed[k] in stayed && order[k] == stayed[k];
    forall i, j | 0 <= i < j < |order| && order[i] !in kept
      ensures order[j] !in kept && IdLte(order[i], order[j])
    {
      assert order[i] == back[i - |stayed|] && order[j] == back[j - |stayed|];
      assert back[j - |stayed|] in back;
    }
  }

  lemma DroppedLastMeansReturn(order: seq<TrackId>, all: set<TrackId>, kept: set<TrackId>, back: seq<TrackId>)
    requires OrderMatches(order, all) && DroppedStandLast(order, kept)
    requires StrictlySorted(IdLte, back) && forall id :: id in back <==> id in all - kept
    ensures Retained(order, kept) + back == order
  {
    hide DroppedStandLast;
    var n := DroppedSplit(order, kept);
    RetainedOfDistinct(order, kept);
    assert order == order[..n] + order[n..];
    forall id ensures id in order[n..] <==> id in back {
      assert id in order <==> id in Elements(order);
      assert id in order <==> id in order[..n] || id in order[n..];
    }
    IdOrder();
    AscendingUnique(IdLte, order[n..], back);
  }

  /** The order comes back exactly when the members that were gone stood last, in ascending identity. */
  lemma OrderReturnsExactly(order: seq<TrackId>, all: set<TrackId>, kept: set<TrackId>)
    requires OrderMatches(order, all)
    ensures NormalizedOrder(NormalizedOrder(order, kept), all) == order <==> DroppedStandLast(order, kept)
  {
    hide NormalizedOrder, DroppedStandLast, OrderMatches;
    OrderAfterReturn(order, all, kept);
    var back := Ascending(IdLte, all - kept);
    MatchesDistinct(order, all);
    if Retained(order, kept) + back == order { ReturnMeansDroppedLast(order, all, kept, back); }
    if DroppedStandLast(order, kept) { DroppedLastMeansReturn(order, all, kept, back); }
  }

  lemma MatchesDistinct(order: seq<TrackId>, all: set<TrackId>)
    requires OrderMatches(order, all)
    ensures Distinct(order)
  {}

  // ----- the smallest arrangement with a clip

  /** One track, and on it one clip, both with identity 1. */
  function OneClipState(track: Track, clip: Clip): State {
    NewState(48000).(
      tracks := map[1 := track], clips := map[1 := clip], trackOrder := [1], nextTrackId := 2, nextClipId := 2)
  }

  lemma OneClipStateValid(name: string, clip: Clip)
    requires clip.id == 1 && clip.trackId == 1 && clip.gainDb == 0.0
    requires ValidFades(clip.fades, clip.placement.Len())
    requires clip.content.AudioContent? ==> ValidAudio(clip.content.audio, clip.placement.Len())
    ensures Valid(OneClipState(NewTrack(1, name, clip.content.Kind()).(clipIds := [1]), clip))
  {
    var s := OneClipState(NewTrack(1, name, clip.content.Kind()).(clipIds := [1]), clip);
    assert Elements([1]) == {1};
    assert s.tracks.Keys == {1};
    assert ClipsOnTrack(s.clips, 1) == {1} by { assert s.clips[1].trackId == 1; }
    assert ValidTrack(1, s.tracks[1], s.clips);
    assert ValidClip(1, s.clips[1], s.tracks);
  }
}
