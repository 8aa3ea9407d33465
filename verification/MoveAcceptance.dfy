/**
 * A move preview without diagnostics is accepted by the kernel, and one that reports only overlaps is refused
 * (src/arrangement_interaction.rs, src/arrangement_actions.rs).
 */
module MoveAcceptance {
  import opened Numbers
  import opened Outcomes
  import opened Ordering
  import opened Arrangement
  import opened Normalization
  import opened Acceptance
  import opened MovePreview

  // ----- lowering

  datatype LoweringError =
    | InvalidEdit
    | StaleGesture
    | NoSuchClip(clip: ClipId)
    | NoSuchTrack(track: TrackId)
    | ClipIsLocked(lockedClip: ClipId)
    | TrackIsLocked(lockedTrack: TrackId)
    | KindMismatch(on: TrackId)
    | IdentityExhausted
    | Domain(cause: ArrangementError)

  function RequireCompatibleTrack(s: State, track: TrackId, kind: TrackKind): Result<Track, LoweringError> {
    if track !in s.tracks then Err(NoSuchTrack(track))
    else if s.tracks[track].locked then Err(TrackIsLocked(track))
    else if s.tracks[track].kind != Hybrid && s.tracks[track].kind != kind then Err(KindMismatch(track))
    else Ok(s.tracks[track])
  }

  function LowerableClip(s: State, id: ClipId): (r: Result<Clip, LoweringError>)
    ensures r.Ok? ==> id in s.clips && r.value == s.clips[id]
  {
    if id !in s.clips then Err(NoSuchClip(id))
    else if s.clips[id].locked then Err(ClipIsLocked(id))
    else
      var home :- RequireCompatibleTrack(s, s.clips[id].trackId, s.clips[id].content.Kind());
      Ok(s.clips[id])
  }

  function Relocated(clip: Clip, move: ClipMove): Clip {
    clip.(trackId := move.toTrack, placement := move.to)
  }

  function LowerMove(s: State, move: ClipMove): Result<Operation, LoweringError> {
    var before :- LowerableClip(s, move.clipId);
    if before.trackId != move.fromTrack || before.placement != move.from then Err(StaleGesture)
    else
      var destination :- RequireCompatibleTrack(s, move.toTrack, before.content.Kind());
      Ok(PutClip(Some(before), Some(Relocated(before, move))))
  }

  function LowerEach(s: State, moves: seq<ClipMove>): (r: Result<seq<Operation>, LoweringError>)
    ensures r.Ok? ==> |r.value| == |moves|
  {
    if moves == [] then Ok([])
    else
      var front :- LowerEach(s, moves[..|moves| - 1]);
      var last :- LowerMove(s, moves[|moves| - 1]);
      Ok(front + [last])
  }

  function LowerMoves(s: State, moves: seq<ClipMove>): Result<seq<Operation>, LoweringError> {
    if moves == [] then Err(InvalidEdit) else LowerEach(s, moves)
  }

  /** What pointer-up commits: the moves that change something. */
  function CommittedMoves(moves: seq<ClipMove>): (r: seq<ClipMove>)
    ensures forall m :: m in r <==> m in moves && m.Moves()
  {
    if moves == [] then []
    else
      var front, last := CommittedMoves(moves[..|moves| - 1]), moves[|moves| - 1];
      assert moves == moves[..|moves| - 1] + [last];
      if last.Moves() then front + [last] else front
  }

  // ----- what lowering asks and makes

  /** An unlocked track that takes this kind of content. */
  predicate Takes(s: State, track: TrackId, kind: TrackKind) {
    && track in s.tracks && !s.tracks[track].locked
    && (s.tracks[track].kind == Hybrid || s.tracks[track].kind == kind)
  }

  /** The clip is where the move found it, unlocked, and both tracks take it. */
  predicate Movable(s: State, move: ClipMove) {
    && move.clipId in s.clips && !s.clips[move.clipId].locked
    && s.clips[move.clipId].trackId == move.fromTrack && s.clips[move.clipId].placement == move.from
    && Takes(s, move.fromTrack, s.clips[move.clipId].content.Kind())
    && Takes(s, move.toTrack, s.clips[move.clipId].content.Kind())
  }

  /** A refusal to lower a move names a fault that is there. */
  predicate MoveFault(s: State, move: ClipMove, error: LoweringError) {
    match error
    case NoSuchClip(id) => id == move.clipId && id !in s.clips
    case ClipIsLocked(id) => id == move.clipId && id in s.clips && s.clips[id].locked
    case NoSuchTrack(t) => t !in s.tracks && AtEitherEnd(s, move, t)
    case TrackIsLocked(t) => t in s.tracks && s.tracks[t].locked && AtEitherEnd(s, move, t)
    case KindMismatch(t) =>
      && t in s.tracks && AtEitherEnd(s, move, t)
      && s.tracks[t].kind != Hybrid && s.tracks[t].kind != s.clips[move.clipId].content.Kind()
    case StaleGesture =>
      && move.clipId in s.clips
      && (s.clips[move.clipId].trackId != move.fromTrack || s.clips[move.clipId].placement != move.from)
    case _ => false
  }

  predicate AtEitherEnd(s: State, move: ClipMove, t: TrackId) {
    move.clipId in s.clips && (t == s.clips[move.clipId].trackId || t == move.toTrack)
  }

  /** The operation changes the track and the placement of the clip, as the move says. */
  predicate Makes(s: State, move: ClipMove, op: Operation) {
    && move.clipId in s.clips
    && var clip := s.clips[move.clipId];
    op == PutClip(Some(clip), Some(clip.(trackId := move.toTrack, placement := move.to)))
  }

  lemma LowerMoveExactly(s: State, move: ClipMove)
    ensures LowerMove(s, move).Ok? <==> Movable(s, move)
    ensures LowerMove(s, move).Ok? ==> Makes(s, move, LowerMove(s, move).value)
    ensures LowerMove(s, move).Err? ==> MoveFault(s, move, LowerMove(s, move).error)
  {}

  /**
   * Moves lower exactly when there are any and all of them can be made, each to one operation that changes the track
   * and the placement of its clip; otherwise the first that cannot be made is refused for a fault of its own.
   */
  lemma {:induction false} MovesLowerExactly(s: State, moves: seq<ClipMove>)
    ensures LowerEach(s, moves).Ok? <==> forall m :: m in moves ==> Movable(s, m)
    ensures LowerEach(s, moves).Ok? ==>
      forall i :: 0 <= i < |moves| ==> Makes(s, moves[i], LowerEach(s, moves).value[i])
    ensures LowerEach(s, moves).Err? ==> exists i :: FirstUnmovable(s, moves, i, LowerEach(s, moves).error)
    ensures LowerMoves(s, moves) == if moves == [] then Err(InvalidEdit) else LowerEach(s, moves)
  {
    hide LowerMove, Movable, MoveFault, Makes;
    if moves != [] {
      var front, last := moves[..|moves| - 1], moves[|moves| - 1];
      assert moves == front + [last];
      MovesLowerExactly(s, front);
      LowerMoveExactly(s, last);
      if LowerEach(s, front).Err? {
        var i :| FirstUnmovable(s, front, i, LowerEach(s, front).error);
        assert FirstUnmovable(s, moves, i, LowerEach(s, front).error);
      } else if LowerMove(s, last).Err? {
        forall j | 0 <= j < |front| ensures Movable(s, moves[j]) { assert front[j] in front; }
        assert FirstUnmovable(s, moves, |front|, LowerMove(s, last).error);
      }
    }
  }

  /** The error is a fault of this move, and all moves before it can be made. */
  predicate FirstUnmovable(s: State, moves: seq<ClipMove>, i: int, error: LoweringError) {
    && 0 <= i < |moves| && MoveFault(s, moves[i], error)
    && forall j :: 0 <= j < i ==> Movable(s, moves[j])
  }

  // ----- the preview describes the moves

  /** The gesture was started on this very state. */
  ghost predicate StartedOn(s: State, gesture: MoveGesture) {
    && (forall b :: b in gesture.baselines ==> Baseline(s, b.id) == Some(b))
    && (forall i, j :: 0 <= i < j < |gesture.baselines| ==> gesture.baselines[i].id != gesture.baselines[j].id)
  }

  /** A move that lowering accepts and that keeps the clip's length. */
  predicate Acceptable(s: State, move: ClipMove, delta: I64) {
    && move.clipId in s.clips
    && move.fromTrack == s.clips[move.clipId].trackId
    && move.from == s.clips[move.clipId].placement
    && move.to.start == move.from.start + delta
    && move.to.end == move.from.end + delta
    && LowerMove(s, move).Ok?
  }

  lemma PreviewClipAcceptable(
    s: State, clip: ClipBaseline, trackDelta: Option<int>, requested: Option<TrackId>, delta: I64)
    requires Valid(s) && Baseline(s, clip.id) == Some(clip)
    requires PreviewClip(s, clip, trackDelta, requested, delta).diagnostics == []
    ensures var moves := PreviewClip(s, clip, trackDelta, requested, delta).moves;
      |moves| == 1 && moves[0].clipId == clip.id && Acceptable(s, moves[0], delta)
  {
    assert ValidClip(clip.id, s.clips[clip.id], s.tracks);
  }

  lemma {:induction false} PreviewClipsAcceptable(
    s: State, baselines: seq<ClipBaseline>, trackDelta: Option<int>, requested: Option<TrackId>, delta: I64)
    requires Valid(s)
    requires forall b :: b in baselines ==> Baseline(s, b.id) == Some(b)
    requires PreviewClips(s, baselines, trackDelta, requested, delta).diagnostics == []
    ensures var moves := PreviewClips(s, baselines, trackDelta, requested, delta).moves;
      && |moves| == |baselines|
      && forall i :: 0 <= i < |moves| ==> moves[i].clipId == baselines[i].id && Acceptable(s, moves[i], delta)
  {
    hide Valid, PreviewClip, Acceptable, Baseline;
    if baselines != [] {
      var front := baselines[..|baselines| - 1];
      assert baselines[|baselines| - 1] in baselines;
      PreviewClipsAcceptable(s, front, trackDelta, requested, delta);
      PreviewClipAcceptable(s, baselines[|baselines| - 1], trackDelta, requested, delta);
    }
  }

  // ----- the effect of the lowered moves

  predicate DistinctClips(moves: seq<ClipMove>) {
    forall i, j :: 0 <= i < j < |moves| ==> moves[i].clipId != moves[j].clipId
  }

  function MoveOf(moves: seq<ClipMove>, id: ClipId): (r: Option<ClipMove>)
    ensures r.Some? ==> r.value in moves && r.value.clipId == id
    ensures r.None? ==> forall m :: m in moves ==> m.clipId != id
  {
    if moves == [] then None
    else
      var last := moves[|moves| - 1];
      assert moves == moves[..|moves| - 1] + [last];
      if last.clipId == id then Some(last) else MoveOf(moves[..|moves| - 1], id)
  }

  lemma MoveOfMember(moves: seq<ClipMove>, move: ClipMove)
    requires DistinctClips(moves) && move in moves
    ensures MoveOf(moves, move.clipId) == Some(move)
  {
    var found := MoveOf(moves, move.clipId).value;
    var i :| 0 <= i < |moves| && moves[i] == move;
    var j :| 0 <= j < |moves| && moves[j] == found;
  }

  /** Every clip where the moves leave it. */
  function AfterMoves(clips: map<ClipId, Clip>, moves: seq<ClipMove>): map<ClipId, Clip> {
    map id | id in clips ::
      var move := MoveOf(moves, id);
      if move.None? then clips[id] else Relocated(clips[id], move.value)
  }

  lemma OneMoreMove(clips: map<ClipId, Clip>, moves: seq<ClipMove>)
    requires moves != [] && DistinctClips(moves) && moves[|moves| - 1].clipId in clips
    ensures var front, last := moves[..|moves| - 1], moves[|moves| - 1];
      && AfterMoves(clips, front)[last.clipId] == clips[last.clipId]
      && AfterMoves(clips, moves)
         == Put(AfterMoves(clips, front), last.clipId, Some(Relocated(clips[last.clipId], last)))
  {
    var front, last := moves[..|moves| - 1], moves[|moves| - 1];
    assert forall i :: 0 <= i < |front| ==> front[i] == moves[i] && moves[i].clipId != last.clipId;
  }

  lemma ReplacementApplies(s: State, id: ClipId, before: Clip, after: Clip)
    requires id in s.clips && s.clips[id] == before && before.id == id == after.id
    requires id < s.nextClipId
    ensures PutClip(Some(before), Some(after)).Apply(s) == Ok(s.(clips := Put(s.clips, id, Some(after))))
  {}

  lemma {:induction false} LoweredMovesApply(s: State, moves: seq<ClipMove>)
    requires ValidCounters(s) && KeyedById(s.clips) && DistinctClips(moves)
    requires LowerEach(s, moves).Ok?
    ensures ApplyAll(LowerEach(s, moves).value, s) == Ok(s.(clips := AfterMoves(s.clips, moves)))
  {
    if moves == [] {
      assert AfterMoves(s.clips, moves) == s.clips;
    } else {
      var front, last := moves[..|moves| - 1], moves[|moves| - 1];
      LoweredMovesApply(s, front);
      var operations := LowerEach(s, moves).value;
      assert operations[..|operations| - 1] == LowerEach(s, front).value;
      OneMoreMove(s.clips, moves);
      var middle := s.(clips := AfterMoves(s.clips, front));
      ReplacementApplies(middle, last.clipId, s.clips[last.clipId], Relocated(s.clips[last.clipId], last));
    }
  }

  lemma LowerEachAccepts(s: State, moves: seq<ClipMove>)
    requires forall m :: m in moves ==> LowerMove(s, m).Ok?
    ensures LowerEach(s, moves).Ok?
  {}

  /** Dropping the moves that move nothing drops nothing. */
  lemma IdleMovesChangeNothing(s: State, moves: seq<ClipMove>, delta: I64)
    requires DistinctClips(moves)
    requires forall m :: m in moves ==> Acceptable(s, m, delta)
    ensures DistinctClips(CommittedMoves(moves))
    ensures AfterMoves(s.clips, CommittedMoves(moves)) == AfterMoves(s.clips, moves)
  {
    CommittedStayDistinct(moves);
    forall id | id in s.clips
      ensures AfterMoves(s.clips, CommittedMoves(moves))[id] == AfterMoves(s.clips, moves)[id]
    {
      var move := MoveOf(moves, id);
      if move.Some? {
        assert Acceptable(s, move.value, delta);
        if move.value.Moves() {
          MoveOfMember(CommittedMoves(moves), move.value);
        } else {
          var kept := MoveOf(CommittedMoves(moves), id);
          if kept.Some? { MoveOfMember(moves, kept.value); }
        }
      }
    }
  }

  lemma {:induction false} CommittedStayDistinct(moves: seq<ClipMove>)
    requires DistinctClips(moves)
    ensures DistinctClips(CommittedMoves(moves))
  {
    if moves != [] {
      var front := moves[..|moves| - 1];
      CommittedStayDistinct(front);
      var kept := CommittedMoves(front);
      forall i | 0 <= i < |kept| ensures kept[i].clipId != moves[|moves| - 1].clipId {
        assert kept[i] in front;
      }
    }
  }

  lemma AfterMovesSound(s: State, moves: seq<ClipMove>, delta: I64)
    requires Valid(s) && DistinctClips(moves)
    requires forall m :: m in moves ==> Acceptable(s, m, delta)
    ensures Sound(s.(clips := AfterMoves(s.clips, moves)))
  {
    ValidIsSound(s);
    var clips := AfterMoves(s.clips, moves);
    forall id | id in clips ensures ValidClip(id, clips[id], s.tracks) { MovedClipValid(s, moves, delta, id); }
  }

  lemma MovedClipValid(s: State, moves: seq<ClipMove>, delta: I64, id: ClipId)
    requires Valid(s) && id in s.clips
    requires forall m :: m in moves ==> Acceptable(s, m, delta)
    ensures ValidClip(id, AfterMoves(s.clips, moves)[id], s.tracks)
  {
    assert ValidClip(id, s.clips[id], s.tracks);
    hide Valid;
    var move := MoveOf(moves, id);
    if move.Some? {
      assert Acceptable(s, move.value, delta);
      assert AfterMoves(s.clips, moves)[id].placement.Len() == s.clips[id].placement.Len();
    }
  }

  // ----- the overlap diagnostics are exactly the rejected overlaps

  lemma {:induction false} NoStandingOverlaps(s: State, moving: set<ClipId>, move: ClipMove, index: seq<ClipId>)
    ensures StandingOverlaps(s, moving, move, index) == [] <==>
      forall other :: other in index ==> !HitsStanding(s, moving, move, other)
  {
    hide HitsStanding;
    if index != [] {
      var front, last := index[..|index| - 1], index[|index| - 1];
      NoStandingOverlaps(s, moving, move, front);
      assert index == front + [last];
    }
  }

  lemma {:induction false} NoMovedOverlaps(s: State, move: ClipMove, later: seq<ClipMove>)
    ensures MovedOverlaps(s, move, later) == [] <==> forall other :: other in later ==> !HitsMoved(s, move, other)
  {
    hide HitsMoved;
    if later != [] {
      var front, last := later[..|later| - 1], later[|later| - 1];
      NoMovedOverlaps(s, move, front);
      assert later == front + [last];
    }
  }

  lemma {:induction false} NoOverlapDiagnostics(s: State, moving: set<ClipId>, moves: seq<ClipMove>, count: nat)
    requires count <= |moves|
    ensures OverlapDiagnostics(s, moving, moves, count) == [] <==>
      forall i :: 0 <= i < count ==> OverlapsOf(s, moving, moves, i) == []
  {
    hide OverlapsOf;
    if count > 0 { NoOverlapDiagnostics(s, moving, moves, count - 1); }
  }

  /** No moved clip meets a clip that stays. */
  ghost predicate ClearOfStanding(s: State, moving: set<ClipId>, moves: seq<ClipMove>) {
    forall i, other ::
      0 <= i < |moves| && moves[i].toTrack in s.tracks && other in s.tracks[moves[i].toTrack].clipIds
      ==> !HitsStanding(s, moving, moves[i], other)
  }

  /** No two moved clips meet. */
  ghost predicate ClearOfEachOther(s: State, moves: seq<ClipMove>) {
    forall i, j :: 0 <= i < j < |moves| ==> !HitsMoved(s, moves[i], moves[j])
  }

  lemma ClearExactlyWithoutOverlapDiagnostics(s: State, moving: set<ClipId>, moves: seq<ClipMove>)
    ensures OverlapDiagnostics(s, moving, moves, |moves|) == [] <==>
      ClearOfStanding(s, moving, moves) && ClearOfEachOther(s, moves)
  {
    hide HitsStanding, HitsMoved, OverlapsOf, OverlapDiagnostics;
    NoOverlapDiagnostics(s, moving, moves, |moves|);
    forall i | 0 <= i < |moves| ensures OverlapsOf(s, moving, moves, i) == [] <==> ClearAt(s, moving, moves, i) {
      ClearAtExactly(s, moving, moves, i);
    }
    ClearEverywhere(s, moving, moves);
  }

  lemma ClearEverywhere(s: State, moving: set<ClipId>, moves: seq<ClipMove>)
    ensures ClearOfStanding(s, moving, moves) && ClearOfEachOther(s, moves) <==>
      forall i :: 0 <= i < |moves| ==> ClearAt(s, moving, moves, i)
  {
    hide HitsStanding, HitsMoved;
    if forall i :: 0 <= i < |moves| ==> ClearAt(s, moving, moves, i) {
      forall i, other | 0 <= i < |moves| && moves[i].toTrack in s.tracks && other in s.tracks[moves[i].toTrack].clipIds
        ensures !HitsStanding(s, moving, moves[i], other)
      {
        assert ClearAt(s, moving, moves, i);
      }
      forall i, j | 0 <= i < j < |moves| ensures !HitsMoved(s, moves[i], moves[j]) {
        assert ClearAt(s, moving, moves, i);
      }
    }
  }

  /** The i-th moved clip meets neither a clip that stays nor a later moved one. */
  ghost predicate ClearAt(s: State, moving: set<ClipId>, moves: seq<ClipMove>, i: nat)
    requires i < |moves|
  {
    && (moves[i].toTrack in s.tracks ==>
         forall other :: other in s.tracks[moves[i].toTrack].clipIds ==> !HitsStanding(s, moving, moves[i], other))
    && (forall j :: i < j < |moves| ==> !HitsMoved(s, moves[i], moves[j]))
  }

  lemma ClearAtExactly(s: State, moving: set<ClipId>, moves: seq<ClipMove>, i: nat)
    requires i < |moves|
    ensures OverlapsOf(s, moving, moves, i) == [] <==> ClearAt(s, moving, moves, i)
  {
    hide HitsStanding, HitsMoved, StandingOverlaps, MovedOverlaps;
    if moves[i].toTrack in s.tracks {
      NoStandingOverlaps(s, moving, moves[i], s.tracks[moves[i].toTrack].clipIds);
    }
    NoMovedOverlaps(s, moves[i], moves[i + 1..]);
    assert forall j :: i < j < |moves| ==> moves[i + 1..][j - i - 1] == moves[j];
  }

  // ----- the two together

  lemma OnTrackIndex(s: State, id: ClipId)
    requires Valid(s) && id in s.clips
    ensures s.clips[id].trackId in s.tracks
    ensures id in s.tracks[s.clips[id].trackId].clipIds
  {
    assert ValidClip(id, s.clips[id], s.tracks);
    var track := s.clips[id].trackId;
    assert ValidTrack(track, s.tracks[track], s.clips);
    assert id in ClipsOnTrack(s.clips, track);
    assert id in Elements(s.tracks[track].clipIds);
  }

  ghost predicate MovesOf(moving: set<ClipId>, moves: seq<ClipMove>) {
    && DistinctClips(moves)
    && forall id :: id in moving <==> MoveOf(moves, id).Some?
  }

  /** Two clips share a frame of a rejecting track after the moves. */
  predicate MeetAfter(s: State, moves: seq<ClipMove>, a: ClipId, b: ClipId) {
    var clips := AfterMoves(s.clips, moves);
    && a in clips && b in clips && a != b
    && clips[a].trackId == clips[b].trackId
    && clips[a].trackId in s.tracks && s.tracks[clips[a].trackId].overlap == Reject
    && clips[a].placement.Intersects(clips[b].placement)
  }

  lemma MovedMeetsStanding(s: State, moving: set<ClipId>, moves: seq<ClipMove>, a: ClipId, b: ClipId)
    requires Valid(s) && MovesOf(moving, moves) && ClearOfStanding(s, moving, moves)
    requires a in moving && b !in moving
    ensures !MeetAfter(s, moves, a, b) && !MeetAfter(s, moves, b, a)
  {
    var move := MoveOf(moves, a).value;
    var i :| 0 <= i < |moves| && moves[i] == move;
    if b in s.clips {
      OnTrackIndex(s, b);
      assert MoveOf(moves, b).None?;
      if s.clips[b].trackId == move.toTrack { assert !HitsStanding(s, moving, moves[i], b); }
    }
  }

  lemma MovedMeetsMoved(s: State, moving: set<ClipId>, moves: seq<ClipMove>, a: ClipId, b: ClipId)
    requires MovesOf(moving, moves) && ClearOfEachOther(s, moves)
    requires a in moving && b in moving
    ensures !MeetAfter(s, moves, a, b)
  {
    var first, second := MoveOf(moves, a).value, MoveOf(moves, b).value;
    var i :| 0 <= i < |moves| && moves[i] == first;
    var j :| 0 <= j < |moves| && moves[j] == second;
    if i < j { assert !HitsMoved(s, moves[i], moves[j]); }
    if j < i { assert !HitsMoved(s, moves[j], moves[i]); }
  }

  lemma StandingMeetsStanding(s: State, moving: set<ClipId>, moves: seq<ClipMove>, a: ClipId, b: ClipId)
    requires NoRejectedOverlap(s.clips, s.tracks) && MovesOf(moving, moves)
    requires a !in moving && b !in moving
    ensures !MeetAfter(s, moves, a, b)
  {
    assert MoveOf(moves, a).None? && MoveOf(moves, b).None?;
  }

  /** A preview that found the way clear leaves no rejected overlap. */
  lemma ClearMeansNoRejectedOverlap(s: State, moving: set<ClipId>, moves: seq<ClipMove>)
    requires Valid(s) && MovesOf(moving, moves)
    requires ClearOfStanding(s, moving, moves) && ClearOfEachOther(s, moves)
    ensures NoRejectedOverlap(AfterMoves(s.clips, moves), s.tracks)
  {
    hide Valid, AfterMoves, MovesOf, ClearOfStanding, ClearOfEachOther;
    ValidIsSound(s);
    var clips := AfterMoves(s.clips, moves);
    forall a, b | a in clips && b in clips && a != b
      && clips[a].trackId == clips[b].trackId
      && clips[a].trackId in s.tracks && s.tracks[clips[a].trackId].overlap == Reject
      ensures !clips[a].placement.Intersects(clips[b].placement)
    {
      if a in moving && b in moving {
        MovedMeetsMoved(s, moving, moves, a, b);
      } else if a in moving {
        MovedMeetsStanding(s, moving, moves, a, b);
      } else if b in moving {
        MovedMeetsStanding(s, moving, moves, b, a);
      } else {
        StandingMeetsStanding(s, moving, moves, a, b);
      }
      assert !MeetAfter(s, moves, a, b);
    }
  }

  /** Conversely, a reported overlap is a real one. */
  lemma NoRejectedOverlapMeansClear(s: State, moving: set<ClipId>, moves: seq<ClipMove>)
    requires Valid(s) && MovesOf(moving, moves)
    requires forall m :: m in moves ==> m.clipId in s.clips
    requires NoRejectedOverlap(AfterMoves(s.clips, moves), s.tracks)
    ensures ClearOfStanding(s, moving, moves) && ClearOfEachOther(s, moves)
  {
    var clips := AfterMoves(s.clips, moves);
    forall i, other |
      0 <= i < |moves| && moves[i].toTrack in s.tracks && other in s.tracks[moves[i].toTrack].clipIds
      ensures !HitsStanding(s, moving, moves[i], other)
    {
      if other in s.clips && other !in moving {
        MoveOfMember(moves, moves[i]);
        var track := moves[i].toTrack;
        assert ValidTrack(track, s.tracks[track], s.clips);
        assert other in Elements(s.tracks[track].clipIds);
        assert other in ClipsOnTrack(s.clips, track);
        assert MoveOf(moves, other).None?;
        assert clips[other] == s.clips[other];
        assert clips[moves[i].clipId] == Relocated(s.clips[moves[i].clipId], moves[i]);
      }
    }
    forall i, j | 0 <= i < j < |moves| ensures !HitsMoved(s, moves[i], moves[j]) {
      MoveOfMember(moves, moves[i]);
      MoveOfMember(moves, moves[j]);
      assert clips[moves[i].clipId] == Relocated(s.clips[moves[i].clipId], moves[i]);
      assert clips[moves[j].clipId] == Relocated(s.clips[moves[j].clipId], moves[j]);
    }
  }

  /** The moves of a gesture without editing diagnostics: one acceptable move per clip. */
  lemma GestureMoves(s: State, gesture: MoveGesture, moves: seq<ClipMove>)
    requires Valid(s) && StartedOn(s, gesture)
    requires var patch :=
        PreviewClips(s, gesture.baselines, TrackDelta(s, gesture), RequestedTrack(gesture), MoveDelta(gesture));
      patch.diagnostics == [] && patch.moves == moves
    ensures |moves| == |gesture.baselines|
    ensures MovesOf(MovingIds(gesture.baselines), moves)
    ensures forall m :: m in moves ==> Acceptable(s, m, MoveDelta(gesture))
  {
    hide Valid, PreviewClips, Acceptable, Baseline, MoveDelta, TrackDelta, RequestedTrack;
    PreviewClipsAcceptable(s, gesture.baselines, TrackDelta(s, gesture), RequestedTrack(gesture), MoveDelta(gesture));
    var moving := MovingIds(gesture.baselines);
    forall id ensures id in moving <==> MoveOf(moves, id).Some? {
      if id in moving {
        var i :| 0 <= i < |gesture.baselines| && gesture.baselines[i].id == id;
        assert moves[i] in moves && moves[i].clipId == id;
      }
      if MoveOf(moves, id).Some? {
        var i :| 0 <= i < |moves| && moves[i] == MoveOf(moves, id).value;
        assert gesture.baselines[i] in gesture.baselines && gesture.baselines[i].id == id;
      }
    }
  }

  /** The part of a preview that does not concern overlaps is clean. */
  predicate OnlyOverlapsReported(s: State, gesture: MoveGesture) {
    var patch :=
      PreviewClips(s, gesture.baselines, TrackDelta(s, gesture), RequestedTrack(gesture), MoveDelta(gesture));
    patch.diagnostics == []
  }

  /** The kernel's answer to acceptable moves hangs on rejected overlaps alone. */
  lemma AcceptableMovesCommit(s: State, moves: seq<ClipMove>, delta: I64)
    requires Valid(s) && DistinctClips(moves)
    requires forall m :: m in moves ==> Acceptable(s, m, delta)
    ensures var committed := CommittedMoves(moves);
      var lowered := LowerEach(s, committed);
      && lowered.Ok?
      && (Committed(lowered.value, s).Ok? <==> NoRejectedOverlap(AfterMoves(s.clips, moves), s.tracks))
      && (Committed(lowered.value, s).Ok? ==> Committed(lowered.value, s).value.clips == AfterMoves(s.clips, moves))
      && (Committed(lowered.value, s).Err? ==> Committed(lowered.value, s) == Err(ValidationFailed))
  {
    hide Valid, Normalized, Acceptable, AfterMoves, Sound, NoRejectedOverlap;
    var committed := CommittedMoves(moves);
    forall m | m in committed ensures LowerMove(s, m).Ok? {
      AcceptableLowers(s, m, delta);
    }
    LowerEachAccepts(s, committed);
    IdleMovesChangeNothing(s, moves, delta);
    ValidBasics(s);
    LoweredMovesApply(s, committed);
    AfterMovesSound(s, moves, delta);
    var raw := s.(clips := AfterMoves(s.clips, moves));
    AcceptedExactlyWithoutRejectedOverlap(raw);
    NormalizedKeepsClips(raw);
  }

  lemma AcceptableLowers(s: State, move: ClipMove, delta: I64)
    requires Acceptable(s, move, delta)
    ensures LowerMove(s, move).Ok? && move.clipId in s.clips
  {}

  lemma ValidBasics(s: State)
    requires Valid(s)
    ensures ValidCounters(s) && KeyedById(s.clips)
  {
    ValidKeyed(s);
  }

  lemma NormalizedKeepsClips(s: State)
    ensures Normalized(s).clips == s.clips
  {}

  /** Whenever nothing but overlaps is reported, the gesture lowers, and the kernel accepts it exactly when no
      overlap is reported; then every clip stands where the preview showed it and no rejecting track has an overlap. */
  lemma PreviewPredictsKernel(s: State, gesture: MoveGesture)
    requires Valid(s) && StartedOn(s, gesture) && OnlyOverlapsReported(s, gesture)
    requires CommittedMoves(PreviewMove(s, gesture).moves) != []
    ensures var lowered := LowerMoves(s, CommittedMoves(PreviewMove(s, gesture).moves));
      && lowered.Ok?
      && (ApplyOperations(lowered.value, s).Ok? <==> PreviewMove(s, gesture).diagnostics == [])
      && (ApplyOperations(lowered.value, s).Ok? ==>
           var after := ApplyOperations(lowered.value, s).value;
           && Valid(after)
           && after.clips == AfterMoves(s.clips, PreviewMove(s, gesture).moves)
           && NoRejectedOverlap(after.clips, after.tracks))
      && (ApplyOperations(lowered.value, s).Err? ==> ApplyOperations(lowered.value, s) == Err(ValidationFailed))
  {
    hide Valid, StartedOn, PreviewClips, Acceptable, AfterMoves, MovesOf, NoRejectedOverlap, OverlapDiagnostics,
         MoveDelta, TrackDelta, RequestedTrack, LowerEach, Normalized, ApplyAll;
    var moves, moving := PreviewMove(s, gesture).moves, MovingIds(gesture.baselines);
    GestureMoves(s, gesture, moves);
    MovesDistinct(moving, moves);
    AcceptableMovesCommit(s, moves, MoveDelta(gesture));
    ClearExactlyWithoutOverlapDiagnostics(s, moving, moves);
    if PreviewMove(s, gesture).diagnostics == [] {
      ClearMeansNoRejectedOverlap(s, moving, moves);
    }
    var lowered := LowerEach(s, CommittedMoves(moves)).value;
    if Committed(lowered, s).Ok? {
      forall m | m in moves ensures m.clipId in s.clips { AcceptableLowers(s, m, MoveDelta(gesture)); }
      NoRejectedOverlapMeansClear(s, moving, moves);
      ValidIsSound(Committed(lowered, s).value);
    }
  }

  lemma MovesDistinct(moving: set<ClipId>, moves: seq<ClipMove>)
    requires MovesOf(moving, moves)
    ensures DistinctClips(moves)
  {}

  /** A preview without any diagnostic is always accepted. */
  lemma CleanPreviewIsAccepted(s: State, gesture: MoveGesture)
    requires Valid(s) && StartedOn(s, gesture)
    requires PreviewMove(s, gesture).diagnostics == []
    requires CommittedMoves(PreviewMove(s, gesture).moves) != []
    ensures var lowered := LowerMoves(s, CommittedMoves(PreviewMove(s, gesture).moves));
      lowered.Ok? && ApplyOperations(lowered.value, s).Ok?
  {
    hide Valid, StartedOn, OverlapDiagnostics, PreviewClips;
    PreviewPredictsKernel(s, gesture);
  }
}
