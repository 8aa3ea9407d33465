/** The move gesture and its preview. */
module MovePreview {
  import opened Numbers
  import opened Outcomes
  import opened Arrangement
  import opened Snap

  /** What a gesture remembers of a clip when the pointer goes down. */
  datatype ClipBaseline = ClipBaseline(
    id: ClipId, track: TrackId, placement: FrameRange, kind: TrackKind, locked: bool, trackLocked: bool)

  function Baseline(s: State, id: ClipId): Option<ClipBaseline> {
    if id !in s.clips then None
    else
      var clip := s.clips[id];
      Some(ClipBaseline(id, clip.trackId, clip.placement, clip.content.Kind(), clip.locked,
                        clip.trackId in s.tracks && s.tracks[clip.trackId].locked))
  }

  datatype ClipMove = ClipMove(clipId: ClipId, fromTrack: TrackId, toTrack: TrackId, from: FrameRange, to: FrameRange) {
    predicate Moves() {
      from != to || fromTrack != toTrack
    }
  }

  datatype Diagnostic =
    | NoTrack(track: TrackId)
    | ClipLocked(clip: ClipId)
    | TrackLocked(lockedTrack: TrackId)
    | Incompatible(mismatched: ClipId, with: TrackId)
    | TrackMappingOutOfRange(unmapped: ClipId)
    | FrameOverflow
    | RejectingOverlap(on: TrackId, first: ClipId, second: ClipId)

  datatype Preview = Preview(moves: seq<ClipMove>, diagnostics: seq<Diagnostic>)

  /** The gesture as preview and commit see it; `baselines` are in ascending identity order. */
  datatype MoveGesture = MoveGesture(
    anchor: ClipId, baselines: seq<ClipBaseline>, pointerTrack: Option<TrackId>,
    rawDelta: I64, snapping: Option<SnapContext>)

  function MovingIds(baselines: seq<ClipBaseline>): set<ClipId> {
    set b | b in baselines :: b.id
  }

  /** The frame offset of the gesture: the raw motion, or the motion that lands an edge on a guide. */
  function MoveDelta(gesture: MoveGesture): I64 {
    if gesture.snapping.None? then gesture.rawDelta
    else
      var clips := seq(|gesture.baselines|, i requires 0 <= i < |gesture.baselines| =>
        MovingClip(gesture.baselines[i].id, gesture.baselines[i].placement));
      SnapMovingEdges(gesture.snapping.value, clips, gesture.rawDelta, MovingIds(gesture.baselines)).0
  }

  function TrackIndex(s: State, track: TrackId): Option<nat> {
    IndexIn(s.trackOrder, track)
  }

  function IndexIn(order: seq<TrackId>, track: TrackId): (r: Option<nat>)
    ensures r.Some? ==> r.value < |order| && order[r.value] == track
    ensures r.None? ==> track !in order
  {
    if order == [] then None
    else if order[0] == track then Some(0)
    else
      match IndexIn(order[1..], track)
      case None => None
      case Some(i) => Some(i + 1)
  }

  function AnchorTrack(gesture: MoveGesture): Option<TrackId> {
    FindTrack(gesture.baselines, gesture.anchor)
  }

  function FindTrack(baselines: seq<ClipBaseline>, id: ClipId): Option<TrackId> {
    if baselines == [] then None
    else if baselines[0].id == id then Some(baselines[0].track)
    else FindTrack(baselines[1..], id)
  }

  function RequestedTrack(gesture: MoveGesture): Option<TrackId> {
    if gesture.pointerTrack.Some? then gesture.pointerTrack else AnchorTrack(gesture)
  }

  /** How many places down the track order the gesture moves, or nothing when a track is unlisted. */
  function TrackDelta(s: State, gesture: MoveGesture): Option<int> {
    match (AnchorTrack(gesture), RequestedTrack(gesture))
    case (Some(from), Some(to)) =>
      (match (TrackIndex(s, to), TrackIndex(s, from))
       case (Some(t), Some(f)) => var places: int := t as int - f; Some(places)
       case _ => None)
    case _ => Some(0)
  }

  function EditableDiagnostics(s: State, clip: ClipBaseline): seq<Diagnostic> {
    (if clip.locked then [ClipLocked(clip.id)] else []) +
    (if clip.track !in s.tracks then [NoTrack(clip.track)]
     else if s.tracks[clip.track].locked then [TrackLocked(clip.track)] else [])
  }

  function DestinationDiagnostics(s: State, clip: ClipBaseline, destination: TrackId): seq<Diagnostic> {
    if destination !in s.tracks then [NoTrack(destination)]
    else
      var track := s.tracks[destination];
      (if track.locked then [TrackLocked(destination)] else []) +
      (if track.kind != Hybrid && track.kind != clip.kind then [Incompatible(clip.id, destination)] else [])
  }

  /** One clip of the gesture: at most one move, and what stands in its way. */
  function PreviewClip(s: State, clip: ClipBaseline, trackDelta: Option<int>, requested: Option<TrackId>, delta: I64)
    : Preview
  {
    var editable := EditableDiagnostics(s, clip);
    if trackDelta.None? then
      Preview([], editable + [NoTrack(if requested.Some? then requested.value else clip.track)])
    else
      match TrackIndex(s, clip.track)
      case None => Preview([], editable + [NoTrack(clip.track)])
      case Some(index) =>
        var destinationIndex := index + trackDelta.value;
        if !(0 <= destinationIndex < |s.trackOrder|) then Preview([], editable + [TrackMappingOutOfRange(clip.id)])
        else
          var destination := s.trackOrder[destinationIndex];
          var found := editable + DestinationDiagnostics(s, clip, destination);
          if !FitsI64(clip.placement.start + delta) || !FitsI64(clip.placement.end + delta)
          then Preview([], found + [FrameOverflow])
          else
            var to := FrameBounds(clip.placement.start + delta, clip.placement.end + delta);
            Preview([ClipMove(clip.id, clip.track, destination, clip.placement, to)], found)
  }

  function PreviewClips(
    s: State, baselines: seq<ClipBaseline>, trackDelta: Option<int>, requested: Option<TrackId>, delta: I64): Preview
  {
    if baselines == [] then Preview([], [])
    else
      var front := PreviewClips(s, baselines[..|baselines| - 1], trackDelta, requested, delta);
      var last := PreviewClip(s, baselines[|baselines| - 1], trackDelta, requested, delta);
      Preview(front.moves + last.moves, front.diagnostics + last.diagnostics)
  }

  /** A moved clip against a clip that stays, on a rejecting destination. */
  predicate HitsStanding(s: State, moving: set<ClipId>, move: ClipMove, other: ClipId)
  {
    && move.toTrack in s.tracks && s.tracks[move.toTrack].overlap == Reject
    && other in s.clips && other !in moving
    && move.to.Intersects(s.clips[other].placement)
  }

  predicate HitsMoved(s: State, move: ClipMove, other: ClipMove) {
    && move.toTrack in s.tracks && s.tracks[move.toTrack].overlap == Reject
    && other.toTrack == move.toTrack
    && move.to.Intersects(other.to)
  }

  function Overlap(track: TrackId, a: ClipId, b: ClipId): Diagnostic {
    RejectingOverlap(track, if a <= b then a else b, if a <= b then b else a)
  }

  function StandingOverlaps(s: State, moving: set<ClipId>, move: ClipMove, index: seq<ClipId>): seq<Diagnostic> {
    if index == [] then []
    else
      StandingOverlaps(s, moving, move, index[..|index| - 1]) +
      (if HitsStanding(s, moving, move, index[|index| - 1])
       then [Overlap(move.toTrack, move.clipId, index[|index| - 1])] else [])
  }

  function MovedOverlaps(s: State, move: ClipMove, later: seq<ClipMove>): seq<Diagnostic> {
    if later == [] then []
    else
      MovedOverlaps(s, move, later[..|later| - 1]) +
      (if HitsMoved(s, move, later[|later| - 1])
       then [Overlap(move.toTrack, move.clipId, later[|later| - 1].clipId)] else [])
  }

  /** The overlaps of move number i with the standing clips of its destination and with the later moves. */
  function OverlapsOf(s: State, moving: set<ClipId>, moves: seq<ClipMove>, i: nat): seq<Diagnostic>
    requires i < |moves|
  {
    (if moves[i].toTrack in s.tracks
     then StandingOverlaps(s, moving, moves[i], s.tracks[moves[i].toTrack].clipIds) else [])
    + MovedOverlaps(s, moves[i], moves[i + 1..])
  }

  function OverlapDiagnostics(s: State, moving: set<ClipId>, moves: seq<ClipMove>, count: nat): seq<Diagnostic>
    requires count <= |moves|
  {
    if count == 0 then []
    else OverlapDiagnostics(s, moving, moves, count - 1) + OverlapsOf(s, moving, moves, count - 1)
  }

  /** The whole preview, before its diagnostics are sorted for display. */
  function PreviewMove(s: State, gesture: MoveGesture): Preview {
    var patch :=
      PreviewClips(s, gesture.baselines, TrackDelta(s, gesture), RequestedTrack(gesture), MoveDelta(gesture));
    var overlaps := OverlapDiagnostics(s, MovingIds(gesture.baselines), patch.moves, |patch.moves|);
    Preview(patch.moves, patch.diagnostics + overlaps)
  }

  // ----- the loops

  method ComputeStanding(s: State, moving: set<ClipId>, move: ClipMove, index: seq<ClipId>)
    returns (diagnostics: seq<Diagnostic>)
    requires move.toTrack in s.tracks && s.tracks[move.toTrack].overlap == Reject
    ensures diagnostics == StandingOverlaps(s, moving, move, index)
  {
    diagnostics := [];
    for j := 0 to |index|
      invariant diagnostics == StandingOverlaps(s, moving, move, index[..j])
    {
      assert index[..j + 1][..j] == index[..j];
      var other := index[j];
      if other in s.clips && other !in moving && move.to.Intersects(s.clips[other].placement) {
        diagnostics := diagnostics + [Overlap(move.toTrack, move.clipId, other)];
      }
    }
    assert index[..|index|] == index;
  }

  method ComputeMoved(s: State, move: ClipMove, later: seq<ClipMove>) returns (diagnostics: seq<Diagnostic>)
    requires move.toTrack in s.tracks && s.tracks[move.toTrack].overlap == Reject
    ensures diagnostics == MovedOverlaps(s, move, later)
  {
    diagnostics := [];
    for j := 0 to |later|
      invariant diagnostics == MovedOverlaps(s, move, later[..j])
    {
      assert later[..j + 1][..j] == later[..j];
      if later[j].toTrack == move.toTrack && move.to.Intersects(later[j].to) {
        diagnostics := diagnostics + [Overlap(move.toTrack, move.clipId, later[j].clipId)];
      }
    }
    assert later[..|later|] == later;
  }

  method ComputeOverlaps(s: State, moving: set<ClipId>, moves: seq<ClipMove>) returns (diagnostics: seq<Diagnostic>)
    ensures diagnostics == OverlapDiagnostics(s, moving, moves, |moves|)
  {
    diagnostics := [];
    for i := 0 to |moves|
      invariant diagnostics == OverlapDiagnostics(s, moving, moves, i)
    {
      var move := moves[i];
      ghost var before := diagnostics;
      if move.toTrack in s.tracks && s.tracks[move.toTrack].overlap == Reject {
        var standing := ComputeStanding(s, moving, move, s.tracks[move.toTrack].clipIds);
        var moved := ComputeMoved(s, move, moves[i + 1..]);
        diagnostics := diagnostics + standing + moved;
        assert diagnostics == before + (standing + moved);
      } else {
        NoRejectNoOverlap(s, moving, moves, i);
      }
    }
  }

  lemma {:induction false} NoStanding(s: State, moving: set<ClipId>, move: ClipMove, index: seq<ClipId>)
    requires !(move.toTrack in s.tracks && s.tracks[move.toTrack].overlap == Reject)
    ensures StandingOverlaps(s, moving, move, index) == []
  {
    if index != [] { NoStanding(s, moving, move, index[..|index| - 1]); }
  }

  lemma {:induction false} NoMoved(s: State, move: ClipMove, later: seq<ClipMove>)
    requires !(move.toTrack in s.tracks && s.tracks[move.toTrack].overlap == Reject)
    ensures MovedOverlaps(s, move, later) == []
  {
    if later != [] { NoMoved(s, move, later[..|later| - 1]); }
  }

  lemma NoRejectNoOverlap(s: State, moving: set<ClipId>, moves: seq<ClipMove>, i: nat)
    requires i < |moves|
    requires !(moves[i].toTrack in s.tracks && s.tracks[moves[i].toTrack].overlap == Reject)
    ensures OverlapsOf(s, moving, moves, i) == []
  {
    if moves[i].toTrack in s.tracks { NoStanding(s, moving, moves[i], s.tracks[moves[i].toTrack].clipIds); }
    NoMoved(s, moves[i], moves[i + 1..]);
  }

  method ComputePreview(s: State, gesture: MoveGesture) returns (patch: Preview)
    ensures patch == PreviewMove(s, gesture)
  {
    var moves: seq<ClipMove>, diagnostics: seq<Diagnostic> := [], [];
    var trackDelta, requested, delta := TrackDelta(s, gesture), RequestedTrack(gesture), MoveDelta(gesture);
    for i := 0 to |gesture.baselines|
      invariant Preview(moves, diagnostics) == PreviewClips(s, gesture.baselines[..i], trackDelta, requested, delta)
    {
      assert gesture.baselines[..i + 1][..i] == gesture.baselines[..i];
      var one := PreviewClip(s, gesture.baselines[i], trackDelta, requested, delta);
      moves, diagnostics := moves + one.moves, diagnostics + one.diagnostics;
    }
    assert gesture.baselines[..|gesture.baselines|] == gesture.baselines;
    var overlaps := ComputeOverlaps(s, MovingIds(gesture.baselines), moves);
    patch := Preview(moves, diagnostics + overlaps);
  }
}
