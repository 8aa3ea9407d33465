/** What the kernel accepts (src/arrangement.rs). */
module Acceptance {
  import opened Outcomes
  import opened Numbers
  import opened Ordering
  import opened StretchRatios
  import opened Arrangement
  import opened Normalization

  /** Track attributes that have nothing to do with clips. */
  predicate SoundTrack(id: TrackId, track: Track) {
    && track.id == id
    && ValidDb(track.gainDb)
    && -1.0 <= track.pan <= 1.0
    && (track.color.Some? ==> track.color.value <= 0x00ff_ffff)
  }

  /** No two different clips of one rejecting track share a frame. */
  predicate NoRejectedOverlap(clips: map<ClipId, Clip>, tracks: map<TrackId, Track>) {
    forall a, b :: a in clips && b in clips && a != b
      && clips[a].trackId == clips[b].trackId
      && clips[a].trackId in tracks && tracks[clips[a].trackId].overlap == Reject
      ==> !clips[a].placement.Intersects(clips[b].placement)
  }

  /** Everything validation asks for except the indexes. */
  predicate Sound(s: State) {
    && s.schemaVersion == SCHEMA_VERSION
    && s.sampleRate != 0
    && ValidCounters(s)
    && (forall at :: at in s.markers ==> ValidMarker(s.markers[at]))
    && (forall id :: id in s.tracks ==> SoundTrack(id, s.tracks[id]))
    && (forall id :: id in s.clips ==> ValidClip(id, s.clips[id], s.tracks))
  }

  ghost predicate IndexDisjoint(index: seq<ClipId>, clips: map<ClipId, Clip>) {
    forall i, j :: 0 <= i < j < |index| && index[i] in clips && index[j] in clips ==>
      !clips[index[i]].placement.Intersects(clips[index[j]].placement)
  }

  /** Rejecting tracks have disjoint rebuilt indexes. */
  ghost predicate RejectingIndexesDisjoint(tracks: map<TrackId, Track>, clips: map<ClipId, Clip>) {
    forall id :: id in tracks && tracks[id].overlap == Reject ==> IndexDisjoint(ClipIndex(clips, id), clips)
  }

  /** Along an index sorted by start, disjoint neighbours make all pairs disjoint. */
  lemma NeighboursDisjointSuffice(index: seq<ClipId>, clips: map<ClipId, Clip>)
    requires forall id :: id in index ==> id in clips
    requires forall i, j :: 0 <= i < j < |index| ==> PlaceLte(PlaceOf(clips[index[i]]), PlaceOf(clips[index[j]]))
    requires forall i :: 0 < i < |index| ==>
      !clips[index[i - 1]].placement.Intersects(clips[index[i]].placement)
    ensures IndexDisjoint(index, clips)
  {
    forall i, j | 0 <= i < j < |index|
      ensures !clips[index[i]].placement.Intersects(clips[index[j]].placement)
    {
      var next := i + 1;
      assert index[next] in clips && index[i] in clips && index[j] in clips;
      var first, second := clips[index[next - 1]].placement, clips[index[next]].placement;
      assert !first.Intersects(second);
      assert PlaceLte(PlaceOf(clips[index[i]]), PlaceOf(clips[index[next]]));
      assert first.start <= second.start < second.end;
      assert first.end <= second.start;
      if next < j { assert PlaceLte(PlaceOf(clips[index[next]]), PlaceOf(clips[index[j]])); }
    }
  }

  /** The rebuilt index of a track passes validation exactly when a rejecting track has no overlap. */
  lemma ReindexedValid(id: TrackId, track: Track, clips: map<ClipId, Clip>)
    requires KeyedById(clips) && SoundTrack(id, track)
    ensures ValidTrack(id, Reindexed(track, id, clips), clips) <==>
      (track.overlap == Reject ==> IndexDisjoint(ClipIndex(clips, id), clips))
  {
    ClipIndexSorted(clips, id);
    var index := ClipIndex(clips, id);
    var rebuilt := Reindexed(track, id, clips);
    if track.overlap == Reject {
      if ValidTrack(id, rebuilt, clips) {
        forall i | 0 < i < |index| ensures !clips[index[i - 1]].placement.Intersects(clips[index[i]].placement) {
          assert rebuilt.clipIds[i] == index[i];
        }
        NeighboursDisjointSuffice(index, clips);
      }
    }
  }

  /** Any two clips of the track are disjoint. */
  ghost predicate TrackDisjoint(id: TrackId, clips: map<ClipId, Clip>) {
    forall a, b :: a in clips && b in clips && a != b && clips[a].trackId == clips[b].trackId == id
      ==> !clips[a].placement.Intersects(clips[b].placement)
  }

  lemma IndexDisjointMeans(id: TrackId, clips: map<ClipId, Clip>)
    requires KeyedById(clips)
    ensures IndexDisjoint(ClipIndex(clips, id), clips) <==> TrackDisjoint(id, clips)
  {
    hide ClipIndex, KeyedById;
    ClipIndexSorted(clips, id);
    var index := ClipIndex(clips, id);
    if IndexDisjoint(index, clips) { IndexCoversTrack(id, clips, index); }
    if TrackDisjoint(id, clips) { TrackCoversIndex(id, clips, index); }
  }

  lemma IndexCoversTrack(id: TrackId, clips: map<ClipId, Clip>, index: seq<ClipId>)
    requires OrderMatches(index, ClipsOnTrack(clips, id)) && IndexDisjoint(index, clips)
    ensures TrackDisjoint(id, clips)
  {
    forall a, b | a in clips && b in clips && a != b && clips[a].trackId == clips[b].trackId == id
      ensures !clips[a].placement.Intersects(clips[b].placement)
    {
      assert a in ClipsOnTrack(clips, id) && b in ClipsOnTrack(clips, id);
      assert a in Elements(index) && b in Elements(index);
      var i :| 0 <= i < |index| && index[i] == a;
      var j :| 0 <= j < |index| && index[j] == b;
      if i < j {
        assert !clips[index[i]].placement.Intersects(clips[index[j]].placement);
      } else {
        assert !clips[index[j]].placement.Intersects(clips[index[i]].placement);
      }
    }
  }

  lemma TrackCoversIndex(id: TrackId, clips: map<ClipId, Clip>, index: seq<ClipId>)
    requires OrderMatches(index, ClipsOnTrack(clips, id)) && TrackDisjoint(id, clips)
    ensures IndexDisjoint(index, clips)
  {
    forall i, j | 0 <= i < j < |index| && index[i] in clips && index[j] in clips
      ensures !clips[index[i]].placement.Intersects(clips[index[j]].placement)
    {
      assert index[i] in Elements(index) && index[j] in Elements(index);
      assert index[i] in ClipsOnTrack(clips, id) && index[j] in ClipsOnTrack(clips, id);
    }
  }

  lemma KeyedBySound(s: State)
    requires Sound(s)
    ensures KeyedById(s.clips)
  {
    forall id | id in s.clips ensures s.clips[id].id == id {
      assert ValidClip(id, s.clips[id], s.tracks);
    }
  }

  lemma TracksValidExactly(tracks: map<TrackId, Track>, clips: map<ClipId, Clip>)
    requires KeyedById(clips)
    requires forall id :: id in tracks ==> SoundTrack(id, tracks[id])
    ensures (forall id :: id in tracks ==> ValidTrack(id, Indexed(tracks, clips)[id], clips))
       <==> RejectingIndexesDisjoint(tracks, clips)
  {
    hide ValidTrack, SoundTrack, IndexDisjoint;
    forall id | id in tracks
      ensures ValidTrack(id, Indexed(tracks, clips)[id], clips) <==>
        (tracks[id].overlap == Reject ==> IndexDisjoint(ClipIndex(clips, id), clips))
    {
      ReindexedValid(id, tracks[id], clips);
    }
  }

  lemma IndexesMeanNoOverlap(tracks: map<TrackId, Track>, clips: map<ClipId, Clip>)
    requires KeyedById(clips)
    ensures RejectingIndexesDisjoint(tracks, clips) <==> NoRejectedOverlap(clips, tracks)
  {
    hide ClipIndex, IndexDisjoint, KeyedById;
    if RejectingIndexesDisjoint(tracks, clips) {
      forall a, b | a in clips && b in clips && a != b && clips[a].trackId == clips[b].trackId
        && clips[a].trackId in tracks && tracks[clips[a].trackId].overlap == Reject
        ensures !clips[a].placement.Intersects(clips[b].placement)
      {
        IndexDisjointMeans(clips[a].trackId, clips);
      }
    }
    if NoRejectedOverlap(clips, tracks) {
      forall id | id in tracks && tracks[id].overlap == Reject ensures IndexDisjoint(ClipIndex(clips, id), clips) {
        IndexDisjointMeans(id, clips);
      }
    }
  }

  /** Only the rebuilt indexes of a sound state can fail validation. */
  lemma OnlyIndexesCanFail(raw: State)
    requires Sound(raw)
    ensures Valid(Normalized(raw)) <==>
      forall id :: id in raw.tracks ==> ValidTrack(id, Indexed(raw.tracks, raw.clips)[id], raw.clips)
  {
    hide ValidTrack, ValidMarker, ValidDb, ValidFades, ValidAudio, NormalizedOrder, OrderMatches;
    var n := Normalized(raw);
    NormalizedOrderMatches(raw.trackOrder, raw.tracks.Keys);
    assert n.tracks.Keys == raw.tracks.Keys;
    forall id | id in raw.clips ensures ValidClip(id, n.clips[id], n.tracks) {
      assert ValidClip(id, raw.clips[id], raw.tracks);
    }
    assert ValidCounters(n);
  }

  /** The kernel accepts a sound raw state exactly when no rejecting track holds two overlapping clips,
      although validation looks at neighbours only. */
  lemma AcceptedExactlyWithoutRejectedOverlap(raw: State)
    requires Sound(raw)
    ensures Valid(Normalized(raw)) <==> NoRejectedOverlap(raw.clips, raw.tracks)
  {
    hide ValidTrack, ValidClip, Valid, Normalized;
    KeyedBySound(raw);
    OnlyIndexesCanFail(raw);
    TracksValidExactly(raw.tracks, raw.clips);
    IndexesMeanNoOverlap(raw.tracks, raw.clips);
  }

  /** A valid state is sound and free of rejected overlaps. */
  lemma ValidIsSound(s: State)
    requires Valid(s)
    ensures Sound(s) && NoRejectedOverlap(s.clips, s.tracks)
  {
    forall id | id in s.tracks ensures SoundTrack(id, s.tracks[id]) {
      assert ValidTrack(id, s.tracks[id], s.clips);
    }
    NormalizedIdentity(s);
    assert Sound(s);
    AcceptedExactlyWithoutRejectedOverlap(s);
  }

  // ----- what validation asks, said without its loops

  ghost predicate EachOnce(order: seq<U64>, members: set<U64>) {
    && (forall id :: id in order <==> id in members)
    && (forall i, j :: 0 <= i < j < |order| ==> order[i] != order[j])
  }

  predicate PlainName(name: string) {
    && 1 <= |Trimmed(name)| <= 64
    && forall c :: c in name ==> ' ' <= c && c as int != 127
  }

  /** The list holds just the clips of the track, by start and then by identity; on a rejecting track none overlap. */
  ghost predicate TrackFits(id: TrackId, track: Track, clips: map<ClipId, Clip>) {
    && track.id == id && -144.0 <= track.gainDb <= 48.0 && -1.0 <= track.pan <= 1.0
    && (track.color.Some? ==> track.color.value <= 16777215)
    && EachOnce(track.clipIds, set c | c in clips && clips[c].trackId == id)
    && (forall i, j :: 0 <= i < j < |track.clipIds| && track.clipIds[i] in clips && track.clipIds[j] in clips ==>
         var a, b := clips[track.clipIds[i]], clips[track.clipIds[j]];
         && (a.placement.start < b.placement.start || (a.placement.start == b.placement.start && a.id < b.id))
         && (track.overlap == Reject ==> a.placement.end <= b.placement.start))
  }

  predicate FadeFits(fade: Option<Fade>, len: U64) {
    fade.Some? ==>
      && 1 <= fade.value.duration <= len
      && 0.0 <= fade.value.phaseStart < fade.value.phaseEnd <= 1.0
  }

  /** The clip is as long as its source lasts at its ratio. */
  predicate LastsAsLong(audio: AudioRegion, len: U64) {
    var ratio := audio.playback.ratio;
    && ratio.sourceFrames > 0 && ratio.projectFrames > 0
    && len * ratio.sourceFrames == (audio.source.end - audio.source.start) * ratio.projectFrames
  }

  predicate ClipFits(id: ClipId, clip: Clip, tracks: map<TrackId, Track>) {
    && clip.id == id && clip.trackId in tracks && -144.0 <= clip.gainDb <= 48.0
    && (tracks[clip.trackId].kind == Hybrid || tracks[clip.trackId].kind == clip.content.Kind())
    && FadeFits(clip.fades.fadeIn, clip.placement.Len()) && FadeFits(clip.fades.fadeOut, clip.placement.Len())
    && (clip.content.AudioContent? ==> LastsAsLong(clip.content.audio, clip.placement.Len()))
  }

  ghost predicate Fits(s: State) {
    && s.schemaVersion == 1 && s.sampleRate > 0
    && EachOnce(s.trackOrder, s.tracks.Keys)
    && s.nextTrackId > 0 && s.nextClipId > 0
    && (forall id :: id in s.tracks ==> 0 < id < s.nextTrackId)
    && (forall id :: id in s.clips ==> 0 < id < s.nextClipId)
    && (forall at :: at in s.markers ==> PlainName(s.markers[at].name))
    && (forall id :: id in s.tracks ==> TrackFits(id, s.tracks[id], s.clips))
    && (forall id :: id in s.clips ==> ClipFits(id, s.clips[id], s.tracks))
  }

  lemma EachOnceExactly(order: seq<U64>, members: set<U64>)
    ensures EachOnce(order, members) <==> OrderMatches(order, members)
  {
    assert forall id :: id in order <==> id in Elements(order);
  }

  lemma PlainNameExactly(marker: Marker)
    ensures PlainName(marker.name) <==> ValidMarker(marker)
  {
    hide Trimmed;
    if ValidMarker(marker) {
      forall c | c in marker.name ensures ' ' <= c && c as int != 127 {
        var i :| 0 <= i < |marker.name| && marker.name[i] == c;
        assert !IsControl(marker.name[i]);
      }
    }
    if PlainName(marker.name) {
      forall i | 0 <= i < |marker.name| ensures !IsControl(marker.name[i]) { assert marker.name[i] in marker.name; }
    }
  }

  lemma Products(len: nat, frames: nat, source: int, project: nat)
    ensures source * project == project * source && len * frames >= 0
    ensures source < 0 && project > 0 ==> source * project < 0
  {}

  lemma LastsExactly(audio: AudioRegion, len: U64)
    requires len > 0
    ensures LastsAsLong(audio, len) <==> ValidAudio(audio, len)
  {
    var ratio, source := audio.playback.ratio, audio.source.Len();
    Products(len, ratio.sourceFrames, source, ratio.projectFrames);
    if ratio.NonZero() && source >= 0 {
      SourceOffsetExact(ratio, len, source);
      hide StretchRatio.SourceOffset;
    }
  }

  lemma ClipFitsExactly(id: ClipId, clip: Clip, tracks: map<TrackId, Track>)
    ensures ClipFits(id, clip, tracks) <==> ValidClip(id, clip, tracks)
  {
    if clip.content.AudioContent? { LastsExactly(clip.content.audio, clip.placement.Len()); }
    hide LastsAsLong, ValidAudio;
  }

  lemma TrackFitsValid(id: TrackId, track: Track, clips: map<ClipId, Clip>)
    requires KeyedById(clips) && TrackFits(id, track, clips)
    ensures ValidTrack(id, track, clips)
  {
    EachOnceExactly(track.clipIds, ClipsOnTrack(clips, id));
  }

  lemma ValidTrackFits(id: TrackId, track: Track, clips: map<ClipId, Clip>)
    requires KeyedById(clips) && ValidTrack(id, track, clips)
    ensures TrackFits(id, track, clips)
  {
    EachOnceExactly(track.clipIds, ClipsOnTrack(clips, id));
    forall i, j | 0 <= i < j < |track.clipIds|
      ensures track.clipIds[i] in clips && track.clipIds[j] in clips
      ensures var a, b := clips[track.clipIds[i]], clips[track.clipIds[j]];
        && (a.placement.start < b.placement.start || (a.placement.start == b.placement.start && a.id < b.id))
        && (track.overlap == Reject ==> a.placement.end <= b.placement.start)
    {
      ListInOrder(id, track, clips, i, j);
      if track.overlap == Reject {
        assert track.clipIds[i] != track.clipIds[j];
        RejectingListDisjoint(id, track, clips, i, j);
      }
    }
    assert ClipsOnTrack(clips, id) == set c | c in clips && clips[c].trackId == id;
    hide ValidTrack, NeighboursInOrder, EachOnce;
  }

  lemma RejectingListDisjoint(id: TrackId, track: Track, clips: map<ClipId, Clip>, i: nat, j: nat)
    requires KeyedById(clips) && ValidTrack(id, track, clips) && track.overlap == Reject
    requires i < j < |track.clipIds|
    ensures track.clipIds[i] in clips && track.clipIds[j] in clips
    ensures clips[track.clipIds[i]].placement.end <= clips[track.clipIds[j]].placement.start
  {
    ClipIndexUnique(id, track, clips);
    ClipIndexSorted(clips, id);
    forall k | 0 < k < |track.clipIds|
      ensures !clips[track.clipIds[k - 1]].placement.Intersects(clips[track.clipIds[k]].placement)
    {}
    NeighboursDisjointSuffice(track.clipIds, clips);
    assert PlaceLte(PlaceOf(clips[track.clipIds[i]]), PlaceOf(clips[track.clipIds[j]]));
    assert !clips[track.clipIds[i]].placement.Intersects(clips[track.clipIds[j]].placement);
  }

  /** A state is valid exactly when everything in it fits, taken pair by pair and in plain numbers. */
  lemma ValidMeansFits(s: State)
    ensures Valid(s) <==> Fits(s)
  {
    EachOnceExactly(s.trackOrder, s.tracks.Keys);
    forall id | id in s.clips ensures ClipFits(id, s.clips[id], s.tracks) <==> ValidClip(id, s.clips[id], s.tracks) {
      ClipFitsExactly(id, s.clips[id], s.tracks);
    }
    hide ValidClip, ClipFits;
    forall at | at in s.markers ensures PlainName(s.markers[at].name) <==> ValidMarker(s.markers[at]) {
      PlainNameExactly(s.markers[at]);
    }
    hide EachOnce, OrderMatches, PlainName, ValidMarker, TrackFits, ValidTrack;
    if KeyedById(s.clips) { TracksFitExactly(s); }
    if forall id :: id in s.clips ==> ClipFits(id, s.clips[id], s.tracks) {
      forall id | id in s.clips ensures s.clips[id].id == id { FittingKeyed(id, s.clips[id], s.tracks); }
    }
  }

  lemma FittingKeyed(id: ClipId, clip: Clip, tracks: map<TrackId, Track>)
    requires ClipFits(id, clip, tracks)
    ensures clip.id == id
  {}

  lemma TracksFitExactly(s: State)
    requires KeyedById(s.clips)
    ensures forall id :: id in s.tracks ==>
      (TrackFits(id, s.tracks[id], s.clips) <==> ValidTrack(id, s.tracks[id], s.clips))
  {
    hide TrackFits, ValidTrack, KeyedById;
    forall id | id in s.tracks
      ensures TrackFits(id, s.tracks[id], s.clips) <==> ValidTrack(id, s.tracks[id], s.clips)
    {
      if TrackFits(id, s.tracks[id], s.clips) { TrackFitsValid(id, s.tracks[id], s.clips); }
      if ValidTrack(id, s.tracks[id], s.clips) { ValidTrackFits(id, s.tracks[id], s.clips); }
    }
  }
}
