/** State, operations, validation (src/arrangement.rs). */
module Arrangement {
  import opened Numbers
  import opened Outcomes
  import opened Ordering
  import opened StretchRatios

  type TrackId = U64
  type ClipId = U64
  type Frame = I64

  const SCHEMA_VERSION := 1

  datatype ArrangementError =
    | EmptyRange
    | EmptyOperation
    | EmptyTransaction
    | StaleOperation
    | IdOverflow
    | RevisionOverflow
    | TimeOverflow
    | ValidationFailed
    | MissingTrack(track: TrackId)
    | MissingClip(clip: ClipId)
    | LockedClip(locked: ClipId)
    | InvalidTrackIndex(index: nat)
    | InvalidTrim
    | InvalidSplit
    | InvalidFade
    | SourceOutOfBounds
    | WarpedEditRequiresCompiler
    | Stretch(cause: StretchError)

  /** A half-open range in project frames. */
  datatype FrameBounds = FrameBounds(start: Frame, end: Frame) {
    predicate NonEmpty() {
      start < end
    }

    /** The length saturates at the largest signed value. */
    function Len(): (n: U64)
      requires NonEmpty()
      ensures n > 0
      ensures n == end - start || (n == I64_MAX && end - start > I64_MAX)
    {
      Saturate(end - start)
    }

    predicate Contains(frame: Frame) {
      start <= frame < end
    }

    predicate Intersects(other: FrameBounds) {
      start < other.end && other.start < end
    }
  }

  type FrameRange = r: FrameBounds | r.NonEmpty() witness FrameBounds(0, 1)

  function NewFrameRange(start: Frame, end: Frame): Result<FrameRange, ArrangementError> {
    if start >= end then Err(EmptyRange) else Ok(FrameBounds(start, end))
  }

  function FrameRangeFromLen(start: Frame, len: U64): Result<FrameRange, ArrangementError> {
    if len == 0 || len > I64_MAX then Err(EmptyRange)
    else if !FitsI64(start + len) then Err(ArrangementError.TimeOverflow)
    else Ok(FrameBounds(start, start + len))
  }

  datatype SourceRange = SourceRange(start: U64, end: U64) {
    function Len(): int {
      end - start
    }
  }

  datatype TrackKind = Audio | Pattern | Automation | Hybrid | Group

  datatype OverlapPolicy = Mix | Reject | Crossfade

  datatype Track = Track(
    id: TrackId, name: string, kind: TrackKind, overlap: OverlapPolicy, clipIds: seq<ClipId>,
    muted: bool, solo: bool, locked: bool, gainDb: real, pan: real, color: Option<nat>)

  function NewTrack(id: TrackId, name: string, kind: TrackKind): Track {
    Track(id, name, kind, Mix, [], false, false, false, 0.0, 0.0, None)
  }

  datatype StretchAlgorithm = Resample | PreservePitch | PhaseVocoder | Granular | External(code: nat)

  datatype Playback = Playback(
    ratio: StretchRatio, preservePitch: bool, pitchSemitones: real, reverse: bool,
    algorithm: StretchAlgorithm)

  function DefaultPlayback(ratio: StretchRatio): Playback {
    Playback(ratio, true, 0.0, false, PreservePitch)
  }

  /** warped tells whether the clip carries warp markers, which every destructive edit refuses. */
  datatype AudioRegion = AudioRegion(asset: U64, source: SourceRange, playback: Playback, warped: bool)

  datatype ClipContent =
    | AudioContent(audio: AudioRegion)
    | PatternContent(pattern: U64, patternOffset: U64, patternLooped: bool)
    | AutomationContent(parameter: U64, automationOffset: U64, automationLooped: bool)
  {
    function Kind(): TrackKind {
      match this
      case AudioContent(_) => Audio
      case PatternContent(_, _, _) => Pattern
      case AutomationContent(_, _, _) => Automation
    }
  }

  datatype FadeCurve = Linear | EqualPower | SmoothStep

  datatype Fade = Fade(duration: U64, curve: FadeCurve, phaseStart: real, phaseEnd: real)

  datatype ClipFades = ClipFades(fadeIn: Option<Fade>, fadeOut: Option<Fade>)

  const NO_FADES := ClipFades(None, None)

  datatype Clip = Clip(
    id: ClipId, trackId: TrackId, name: string, placement: FrameRange, content: ClipContent,
    fades: ClipFades, gainDb: real, muted: bool, locked: bool)

  datatype Marker = Marker(name: string)

  datatype State = State(
    schemaVersion: nat, sampleRate: nat,
    tracks: map<TrackId, Track>, clips: map<ClipId, Clip>, trackOrder: seq<TrackId>,
    nextTrackId: U64, nextClipId: U64, markers: map<Frame, Marker>)
  {
    /** Everything but the two identity counters, which never rewind. */
    function Content(): State {
      this.(nextTrackId := 1, nextClipId := 1)
    }
  }

  function NewState(sampleRate: nat): State {
    State(SCHEMA_VERSION, sampleRate, map[], map[], [], 1, 1, map[])
  }

  // ----- validation

  predicate ValidDb(value: real) {
    -144.0 <= value <= 48.0
  }

  const MAX_MARKER_NAME := 64

  predicate IsBlank(c: char) {
    c == ' ' || '\t' <= c <= '\r'
  }

  predicate IsControl(c: char) {
    c < ' ' || c == 127 as char
  }

  function Trimmed(name: string): string {
    if name == "" then ""
    else if IsBlank(name[0]) then Trimmed(name[1..])
    else if IsBlank(name[|name| - 1]) then Trimmed(name[..|name| - 1])
    else name
  }

  /** Of a name, trimming takes away blanks in front and behind, all of them and nothing else. */
  lemma {:induction false} TrimmedIsBetweenBlanks(name: string) returns (front: nat, back: nat)
    ensures front + |Trimmed(name)| + back == |name|
    ensures Trimmed(name) == name[front..|name| - back]
    ensures forall i :: 0 <= i < front || |name| - back <= i < |name| ==> IsBlank(name[i])
    ensures Trimmed(name) != "" ==> !IsBlank(Trimmed(name)[0]) && !IsBlank(Trimmed(name)[|Trimmed(name)| - 1])
    decreases |name|
  {
    front, back := 0, 0;
    if name != "" {
      if IsBlank(name[0]) {
        front, back := TrimmedIsBetweenBlanks(name[1..]);
        front := front + 1;
      } else if IsBlank(name[|name| - 1]) {
        front, back := TrimmedIsBetweenBlanks(name[..|name| - 1]);
        back := back + 1;
      }
    }
  }

  predicate ValidMarker(marker: Marker) {
    var trimmed := Trimmed(marker.name);
    && trimmed != ""
    && |trimmed| <= MAX_MARKER_NAME
    && forall i :: 0 <= i < |marker.name| ==> !IsControl(marker.name[i])
  }

  predicate ValidFade(fade: Fade, clipLen: U64) {
    && 0 < fade.duration <= clipLen
    && 0.0 <= fade.phaseStart <= 1.0
    && 0.0 <= fade.phaseEnd <= 1.0
    && fade.phaseStart < fade.phaseEnd
  }

  predicate ValidFades(fades: ClipFades, clipLen: U64) {
    && (fades.fadeIn.Some? ==> ValidFade(fades.fadeIn.value, clipLen))
    && (fades.fadeOut.Some? ==> ValidFade(fades.fadeOut.value, clipLen))
  }

  /** The placement maps exactly onto the whole source range. */
  predicate ValidAudio(audio: AudioRegion, placementLen: U64) {
    && audio.playback.ratio.NonZero()
    && audio.playback.ratio.SourceOffset(placementLen).Ok?
    && audio.playback.ratio.SourceOffset(placementLen).value == audio.source.Len()
  }

  /** A list that mentions every expected member exactly once. */
  predicate OrderMatches(order: seq<U64>, expected: set<U64>) {
    Distinct(order) && Elements(order) == expected
  }

  function ClipsOnTrack(clips: map<ClipId, Clip>, track: TrackId): set<ClipId> {
    set id | id in clips && clips[id].trackId == track
  }

  /** Lexicographic order on (start, clip identity), the order of a track's clip index. */
  predicate PlaceLte(a: (Frame, ClipId), b: (Frame, ClipId)) {
    a.0 < b.0 || (a.0 == b.0 && a.1 <= b.1)
  }

  function PlaceOf(clip: Clip): (Frame, ClipId) {
    (clip.placement.start, clip.id)
  }

  /** Only neighbours in the index are compared. */
  predicate NeighboursInOrder(track: Track, clips: map<ClipId, Clip>)
    requires forall id :: id in track.clipIds ==> id in clips
  {
    forall i :: 0 < i < |track.clipIds| ==>
      var prior, clip := clips[track.clipIds[i - 1]], clips[track.clipIds[i]];
      && PlaceLte(PlaceOf(prior), PlaceOf(clip))
      && (track.overlap == Reject ==> !prior.placement.Intersects(clip.placement))
  }

  predicate ValidTrack(id: TrackId, track: Track, clips: map<ClipId, Clip>) {
    && track.id == id
    && ValidDb(track.gainDb)
    && -1.0 <= track.pan <= 1.0
    && (track.color.Some? ==> track.color.value <= 0x00ff_ffff)
    && OrderMatches(track.clipIds, ClipsOnTrack(clips, id))
    && (forall c :: c in track.clipIds ==> c in clips)
    && NeighboursInOrder(track, clips)
  }

  predicate ValidClip(id: ClipId, clip: Clip, tracks: map<TrackId, Track>) {
    && clip.id == id
    && clip.trackId in tracks
    && ValidDb(clip.gainDb)
    && (tracks[clip.trackId].kind == Hybrid || tracks[clip.trackId].kind == clip.content.Kind())
    && ValidFades(clip.fades, clip.placement.Len())
    && (clip.content.AudioContent? ==> ValidAudio(clip.content.audio, clip.placement.Len()))
  }

  predicate ValidCounters(s: State) {
    && s.nextTrackId != 0 && s.nextClipId != 0
    && (forall id :: id in s.tracks ==> 0 < id < s.nextTrackId)
    && (forall id :: id in s.clips ==> 0 < id < s.nextClipId)
  }

  predicate Valid(s: State) {
    && s.schemaVersion == SCHEMA_VERSION
    && s.sampleRate != 0
    && OrderMatches(s.trackOrder, s.tracks.Keys)
    && ValidCounters(s)
    && (forall at :: at in s.markers ==> ValidMarker(s.markers[at]))
    && (forall id :: id in s.tracks ==> ValidTrack(id, s.tracks[id], s.clips))
    && (forall id :: id in s.clips ==> ValidClip(id, s.clips[id], s.tracks))
  }

  // ----- index normalization

  lemma PlaceOrder()
    ensures TotalOrder(PlaceLte)
  {}

  predicate IdLte(a: U64, b: U64) {
    a <= b
  }

  lemma IdOrder()
    ensures TotalOrder(IdLte)
  {}

  function PlacesOnTrack(clips: map<ClipId, Clip>, track: TrackId): set<(Frame, ClipId)> {
    set id | id in clips && clips[id].trackId == track :: (clips[id].placement.start, id)
  }

  function Identities(places: seq<(Frame, ClipId)>): (ids: seq<ClipId>) {
    seq(|places|, i requires 0 <= i < |places| => places[i].1)
  }

  /** The clip identities of a track, by start and then by identity. */
  ghost function ClipIndex(clips: map<ClipId, Clip>, track: TrackId): seq<ClipId> {
    PlaceOrder();
    Identities(Ascending(PlaceLte, PlacesOnTrack(clips, track)))
  }

  /** Keeps the first mention of each listed member that exists. */
  function Retained(order: seq<TrackId>, present: set<TrackId>): seq<TrackId> {
    if order == [] then []
    else
      var front := Retained(order[..|order| - 1], present);
      var id := order[|order| - 1];
      if id in present && id !in front then front + [id] else front
  }

  /** Unlisted tracks follow the listed ones in identity order. */
  ghost function NormalizedOrder(order: seq<TrackId>, present: set<TrackId>): seq<TrackId> {
    var kept := Retained(order, present);
    IdOrder();
    kept + Ascending(IdLte, present - Elements(kept))
  }

  ghost function Reindexed(track: Track, id: TrackId, clips: map<ClipId, Clip>): Track {
    track.(clipIds := ClipIndex(clips, id))
  }

  ghost function Indexed(tracks: map<TrackId, Track>, clips: map<ClipId, Clip>): map<TrackId, Track> {
    map id | id in tracks :: Reindexed(tracks[id], id, clips)
  }

  ghost function Normalized(s: State): State {
    s.(trackOrder := NormalizedOrder(s.trackOrder, s.tracks.Keys), tracks := Indexed(s.tracks, s.clips))
  }

  // ----- operations

  datatype Operation =
    | PutTrack(trackBefore: Option<Track>, trackAfter: Option<Track>)
    | PutClip(clipBefore: Option<Clip>, clipAfter: Option<Clip>)
    | SetTrackOrder(orderBefore: seq<TrackId>, orderAfter: seq<TrackId>)
    | PutMarker(at: Frame, markerBefore: Option<Marker>, markerAfter: Option<Marker>)
  {
    function Inverse(): Operation {
      match this
      case PutTrack(before, after) => PutTrack(after, before)
      case PutClip(before, after) => PutClip(after, before)
      case SetTrackOrder(before, after) => SetTrackOrder(after, before)
      case PutMarker(at, before, after) => PutMarker(at, after, before)
    }

    predicate IsNoop() {
      match this
      case PutTrack(before, after) => before == after
      case PutClip(before, after) => before == after
      case SetTrackOrder(before, after) => before == after
      case PutMarker(_, before, after) => before == after
    }

    /** The two images of one replacement describe the same entity. */
    predicate KeepsIdentity() {
      match this
      case PutTrack(before, after) => before.Some? && after.Some? ==> before.value.id == after.value.id
      case PutClip(before, after) => before.Some? && after.Some? ==> before.value.id == after.value.id
      case _ => true
    }

    function Apply(s: State): Result<State, ArrangementError> {
      match this
      case PutTrack(before, after) =>
        if before.None? && after.None? then Err(EmptyOperation)
        else
          var id := if before.Some? then before.value.id else after.value.id;
          if Lookup(s.tracks, id) != before then Err(StaleOperation)
          else if after.Some? && after.value.id + 1 > U64_MAX then Err(IdOverflow)
          else Ok(s.(tracks := Put(s.tracks, id, after),
                     nextTrackId := if after.None? then s.nextTrackId else Max(s.nextTrackId, after.value.id + 1)))
      case PutClip(before, after) =>
        if before.None? && after.None? then Err(EmptyOperation)
        else
          var id := if before.Some? then before.value.id else after.value.id;
          if Lookup(s.clips, id) != before then Err(StaleOperation)
          else if after.Some? && after.value.id + 1 > U64_MAX then Err(IdOverflow)
          else Ok(s.(clips := Put(s.clips, id, after),
                     nextClipId := if after.None? then s.nextClipId else Max(s.nextClipId, after.value.id + 1)))
      case SetTrackOrder(before, after) =>
        if s.trackOrder != before then Err(StaleOperation) else Ok(s.(trackOrder := after))
      case PutMarker(at, before, after) =>
        if before.None? && after.None? then Err(EmptyOperation)
        else if Lookup(s.markers, at) != before then Err(StaleOperation)
        else Ok(s.(markers := Put(s.markers, at, after)))
    }
  }

  function ApplyAll(operations: seq<Operation>, s: State): Result<State, ArrangementError> {
    if operations == [] then Ok(s)
    else
      var front :- ApplyAll(operations[..|operations| - 1], s);
      operations[|operations| - 1].Apply(front)
  }

  function Inverted(operations: seq<Operation>): (r: seq<Operation>)
    ensures |r| == |operations|
  {
    if operations == [] then []
    else [operations[|operations| - 1].Inverse()] + Inverted(operations[..|operations| - 1])
  }

  /** Raw operations, then one normalization and one validation; a failure changes nothing. */
  ghost function Committed(operations: seq<Operation>, s: State): Result<State, ArrangementError> {
    var raw :- ApplyAll(operations, s);
    var candidate := Normalized(raw);
    if Valid(candidate) then Ok(candidate) else Err(ValidationFailed)
  }

  /** The kernel that project controllers use. */
  ghost function ApplyOperations(operations: seq<Operation>, s: State): Result<State, ArrangementError> {
    if operations == [] then Err(EmptyTransaction) else Committed(operations, s)
  }
}
