/** What a move preview says. */
module PreviewMeanings {
  import opened Numbers
  import opened Outcomes
  import opened Arrangement
  import opened Snap
  import opened MovePreview

  // ----- how far down the track order

  predicate FirstAt(order: seq<TrackId>, track: TrackId, place: int) {
    0 <= place < |order| && order[place] == track && track !in order[..place]
  }

  /** The track of the clip that the gesture holds. */
  predicate Home(gesture: MoveGesture, track: TrackId) {
    exists i :: 0 <= i < |gesture.baselines|
      && gesture.baselines[i].id == gesture.anchor && gesture.baselines[i].track == track
      && forall j :: 0 <= j < i ==> gesture.baselines[j].id != gesture.anchor
  }

  /** The track that the held clip is to go to: the one under the pointer, or its own. */
  predicate Goal(gesture: MoveGesture, track: TrackId) {
    if gesture.pointerTrack.Some? then track == gesture.pointerTrack.value else Home(gesture, track)
  }

  /** Every clip moves as many places as lie between the held clip's track and its goal; none if nothing is held. */
  ghost predicate Shifts(s: State, gesture: MoveGesture, places: int) {
    if exists track :: Home(gesture, track) then
      exists home, goal, from, to :: LeadsTo(s, gesture, home, goal, from, to) && places == to - from
    else places == 0
  }

  predicate LeadsTo(s: State, gesture: MoveGesture, home: TrackId, goal: TrackId, from: int, to: int) {
    && Home(gesture, home) && Goal(gesture, goal)
    && FirstAt(s.trackOrder, home, from) && FirstAt(s.trackOrder, goal, to)
  }

  /** The place of the clip's track, and the shift that the gesture gives it. */
  ghost predicate ShiftedPlace(s: State, gesture: MoveGesture, clip: ClipBaseline, place: int) {
    exists places, from :: Shifts(s, gesture, places) && FirstAt(s.trackOrder, clip.track, from)
      && place == from + places
  }

  ghost predicate Lands(s: State, gesture: MoveGesture, clip: ClipBaseline, track: TrackId) {
    exists place :: ShiftedPlace(s, gesture, clip, place)
      && 0 <= place < |s.trackOrder| && s.trackOrder[place] == track
  }

  lemma {:induction false} IndexInIsFirst(order: seq<TrackId>, track: TrackId)
    ensures IndexIn(order, track).Some? <==> track in order
    ensures IndexIn(order, track).Some? ==> FirstAt(order, track, IndexIn(order, track).value)
  {
    if order != [] && order[0] != track {
      IndexInIsFirst(order[1..], track);
      if IndexIn(order, track).Some? {
        var i := IndexIn(order[1..], track).value;
        assert order[..i + 1] == [order[0]] + order[1..][..i];
      }
    }
  }

  lemma FirstIsUnique(order: seq<TrackId>, track: TrackId, a: int, b: int)
    requires FirstAt(order, track, a) && FirstAt(order, track, b)
    ensures a == b
  {}

  lemma {:induction false} FindTrackIsHome(baselines: seq<ClipBaseline>, gesture: MoveGesture)
    requires gesture.baselines == baselines
    ensures forall track: TrackId :: Home(gesture, track) <==> FindTrack(baselines, gesture.anchor) == Some(track)
    decreases |baselines|
  {
    if baselines != [] {
      var rest := gesture.(baselines := baselines[1..]);
      FindTrackIsHome(baselines[1..], rest);
      forall track: TrackId ensures Home(gesture, track) <==> FindTrack(baselines, gesture.anchor) == Some(track) {
        HomeStep(gesture, rest, track);
      }
    }
  }

  lemma HomeStep(gesture: MoveGesture, rest: MoveGesture, track: TrackId)
    requires gesture.baselines != [] && rest == gesture.(baselines := gesture.baselines[1..])
    ensures Home(gesture, track) <==>
      if gesture.baselines[0].id == gesture.anchor then gesture.baselines[0].track == track else Home(rest, track)
  {
    var baselines := gesture.baselines;
    if Home(gesture, track) {
      var i :| 0 <= i < |baselines| && baselines[i].id == gesture.anchor && baselines[i].track == track
        && forall j :: 0 <= j < i ==> baselines[j].id != gesture.anchor;
      if i > 0 {
        assert rest.baselines[i - 1] == baselines[i];
        assert forall j :: 0 <= j < i - 1 ==> rest.baselines[j] == baselines[j + 1];
      }
    }
    if baselines[0].id != gesture.anchor && Home(rest, track) {
      var i :| 0 <= i < |rest.baselines| && rest.baselines[i].id == gesture.anchor && rest.baselines[i].track == track
        && forall j :: 0 <= j < i ==> rest.baselines[j].id != gesture.anchor;
      assert baselines[i + 1] == rest.baselines[i];
      forall j | 0 <= j < i + 1 ensures baselines[j].id != gesture.anchor {
        if j > 0 { assert baselines[j] == rest.baselines[j - 1]; }
      }
    }
  }

  /** The computed shift is the only one, and where none is computed there is none. */
  lemma ShiftsExactly(s: State, gesture: MoveGesture)
    ensures forall places :: Shifts(s, gesture, places) <==> TrackDelta(s, gesture) == Some(places)
    ensures TrackDelta(s, gesture).None? ==>
      RequestedTrack(gesture).Some? && forall t :: Goal(gesture, t) <==> t == RequestedTrack(gesture).value
  {
    FindTrackIsHome(gesture.baselines, gesture);
    hide Home, IndexIn, FindTrack, FirstAt;
    if AnchorTrack(gesture).Some? {
      var home, goal := AnchorTrack(gesture).value, RequestedTrack(gesture).value;
      assert Home(gesture, home);
      assert forall t :: Goal(gesture, t) <==> t == goal;
      IndexInIsFirst(s.trackOrder, home);
      IndexInIsFirst(s.trackOrder, goal);
      forall places ensures Shifts(s, gesture, places) <==> TrackDelta(s, gesture) == Some(places) {
        ShiftIs(s, gesture, home, goal, places);
      }
    }
  }

  lemma ShiftIs(s: State, gesture: MoveGesture, home: TrackId, goal: TrackId, places: int)
    requires forall t :: Home(gesture, t) <==> t == home
    requires forall t :: Goal(gesture, t) <==> t == goal
    requires AnchorTrack(gesture) == Some(home) && RequestedTrack(gesture) == Some(goal)
    ensures Shifts(s, gesture, places) <==> TrackDelta(s, gesture) == Some(places)
  {
    hide Home, Goal, IndexIn, FindTrack, FirstAt;
    IndexInIsFirst(s.trackOrder, home);
    IndexInIsFirst(s.trackOrder, goal);
    assert Home(gesture, home) && Goal(gesture, goal);
    if Shifts(s, gesture, places) {
      var h, g, from, to :| LeadsTo(s, gesture, h, g, from, to) && places == to - from;
      FirstListed(s.trackOrder, home, from);
      FirstListed(s.trackOrder, goal, to);
      FirstIsUnique(s.trackOrder, home, from, IndexIn(s.trackOrder, home).value);
      FirstIsUnique(s.trackOrder, goal, to, IndexIn(s.trackOrder, goal).value);
    }
    if TrackDelta(s, gesture) == Some(places) {
      assert LeadsTo(
        s, gesture, home, goal, IndexIn(s.trackOrder, home).value, IndexIn(s.trackOrder, goal).value);
    }
  }

  lemma FirstListed(order: seq<TrackId>, track: TrackId, place: int)
    requires FirstAt(order, track, place)
    ensures track in order
  {}

  /** The shifted place of a clip, when there is one. */
  lemma PlaceExactly(s: State, gesture: MoveGesture, clip: ClipBaseline)
    ensures forall place :: ShiftedPlace(s, gesture, clip, place) <==>
      && TrackDelta(s, gesture).Some? && TrackIndex(s, clip.track).Some?
      && place == TrackIndex(s, clip.track).value + TrackDelta(s, gesture).value
    ensures TrackIndex(s, clip.track).Some? <==> clip.track in s.trackOrder
  {
    ShiftsExactly(s, gesture);
    IndexInIsFirst(s.trackOrder, clip.track);
    hide Shifts, TrackDelta, FirstAt, IndexIn;
    forall place ensures ShiftedPlace(s, gesture, clip, place) <==>
      && TrackDelta(s, gesture).Some? && TrackIndex(s, clip.track).Some?
      && place == TrackIndex(s, clip.track).value + TrackDelta(s, gesture).value
    {
      if ShiftedPlace(s, gesture, clip, place) {
        var places, from :| Shifts(s, gesture, places) && FirstAt(s.trackOrder, clip.track, from)
          && place == from + places;
        FirstListed(s.trackOrder, clip.track, from);
        FirstIsUnique(s.trackOrder, clip.track, from, IndexIn(s.trackOrder, clip.track).value);
      }
      if TrackDelta(s, gesture).Some? && TrackIndex(s, clip.track).Some?
        && place == TrackIndex(s, clip.track).value + TrackDelta(s, gesture).value
      {
        assert Shifts(s, gesture, TrackDelta(s, gesture).value);
        assert FirstAt(s.trackOrder, clip.track, TrackIndex(s, clip.track).value);
      }
    }
  }

  // ----- how many frames

  /** The place of one edge of a clip, moved by the raw motion of the pointer as far as frames can be addressed. */
  function MovedEdge(gesture: MoveGesture, clip: ClipBaseline, atEnd: bool): Frame {
    Saturate((if atEnd then clip.placement.end else clip.placement.start) + gesture.rawDelta)
  }

  /** The guide is in reach of a moved edge, and on no edge of a clip that moves. */
  ghost predicate Attracts(gesture: MoveGesture, context: SnapContext, clip: ClipBaseline, atEnd: bool, guide: Guide) {
    && clip in gesture.baselines
    && InReach(context, MovedEdge(gesture, clip, atEnd), (set b | b in gesture.baselines :: b.id), guide)
  }

  /** The first of the guides in reach of one edge. */
  ghost predicate EdgeTakes(gesture: MoveGesture, context: SnapContext, clip: ClipBaseline, atEnd: bool, guide: Guide) {
    && Attracts(gesture, context, clip, atEnd, guide)
    && forall other :: Attracts(gesture, context, clip, atEnd, other) ==>
         NoWorse(MovedEdge(gesture, clip, atEnd), guide, other)
  }

  function Correction(gesture: MoveGesture, clip: ClipBaseline, atEnd: bool, guide: Guide): I64 {
    Saturate(guide.frame - MovedEdge(gesture, clip, atEnd))
  }

  /** The smaller correction, or an equal one of a lower clip, or of the same clip at its start rather than its end. */
  predicate ComesFirst(correction: I64, a: ClipBaseline, aEnd: bool, other: I64, b: ClipBaseline, bEnd: bool) {
    || Abs(correction) < Abs(other)
    || (Abs(correction) == Abs(other) && (a.id < b.id || (a.id == b.id && (aEnd ==> bEnd))))
  }

  /** The edge and guide that decide the move. */
  ghost predicate Decides(gesture: MoveGesture, context: SnapContext, clip: ClipBaseline, atEnd: bool, guide: Guide) {
    && EdgeTakes(gesture, context, clip, atEnd, guide)
    && forall c, e, g :: EdgeTakes(gesture, context, c, e, g) ==>
         ComesFirst(Correction(gesture, clip, atEnd, guide), clip, atEnd, Correction(gesture, c, e, g), c, e)
  }

  /** Without snapping, or with no guide in reach, the raw motion; otherwise the motion to the deciding guide. */
  ghost predicate MovesBy(gesture: MoveGesture, delta: I64) {
    match gesture.snapping
    case None => delta == gesture.rawDelta
    case Some(context) =>
      || (delta == gesture.rawDelta && forall clip, e, g :: !Attracts(gesture, context, clip, e, g))
      || exists clip, e, g :: Decides(gesture, context, clip, e, g)
           && delta == Saturate(gesture.rawDelta + Correction(gesture, clip, e, g))
  }

  function MovingClips(gesture: MoveGesture): (clips: seq<MovingClip>)
    ensures |clips| == |gesture.baselines|
    ensures forall i :: 0 <= i < |clips| ==>
      clips[i] == MovingClip(gesture.baselines[i].id, gesture.baselines[i].placement)
  {
    seq(|gesture.baselines|, i requires 0 <= i < |gesture.baselines| =>
      MovingClip(gesture.baselines[i].id, gesture.baselines[i].placement))
  }

  function SnapOf(gesture: MoveGesture, context: SnapContext, i: nat, edge: nat): Option<EdgeSnap>
    requires i < |gesture.baselines|
  {
    SnapEdge(context, MovingClips(gesture)[i], edge, gesture.rawDelta, MovingIds(gesture.baselines))
  }

  /** The computed snap of an edge is the guide that the edge takes. */
  lemma SnapOfEdge(gesture: MoveGesture, context: SnapContext, i: nat, edge: nat)
    requires i < |gesture.baselines| && edge < 2
    ensures var clip, atEnd, snap := gesture.baselines[i], edge == 1, SnapOf(gesture, context, i, edge);
      && (snap.None? ==> forall g :: !Attracts(gesture, context, clip, atEnd, g))
      && (snap.Some? ==>
           && snap.value.clip == clip.id && snap.value.edge == edge
           && EdgeTakes(gesture, context, clip, atEnd, snap.value.result.guide)
           && snap.value.result.Adjustment() == Correction(gesture, clip, atEnd, snap.value.result.guide))
  {
    hide Resolve, InReach, NoWorse;
    var clip := gesture.baselines[i];
    assert MovedEdge(gesture, clip, edge == 1) == Proposed(MovingClips(gesture)[i], edge, gesture.rawDelta);
    ResolveFindsFirst(context, MovedEdge(gesture, clip, edge == 1), MovingIds(gesture.baselines));
  }

  /** An edge that takes a guide has a snap, with that guide's correction. */
  lemma TakenHasSnap(gesture: MoveGesture, context: SnapContext, i: nat, edge: nat, guide: Guide)
    requires i < |gesture.baselines| && edge < 2
    requires EdgeTakes(gesture, context, gesture.baselines[i], edge == 1, guide)
    ensures var snap := SnapOf(gesture, context, i, edge);
      snap.Some? && snap.value.result.guide == guide
  {
    SnapOfEdge(gesture, context, i, edge);
    var snap := SnapOf(gesture, context, i, edge);
    var clip := gesture.baselines[i];
    NoWorseIsTotal(MovedEdge(gesture, clip, edge == 1), guide, snap.value.result.guide, guide);
  }

  lemma MoveDeltaExactly(gesture: MoveGesture)
    ensures MovesBy(gesture, MoveDelta(gesture))
  {
    if gesture.snapping.Some? {
      hide SnapEdge, BestEdge, Attracts, EdgeTakes, Correction;
      var context, moving := gesture.snapping.value, MovingIds(gesture.baselines);
      var clips := MovingClips(gesture);
      var best := BestEdge(context, clips, gesture.rawDelta, moving);
      BestEdgeIsCheapest(context, clips, gesture.rawDelta, moving);
      if best.None? {
        forall clip, e, g ensures !Attracts(gesture, context, clip, e, g) {
          NothingAttracts(gesture, context, clip, e, g);
        }
      } else {
        BestDecides(gesture, context, best.value);
      }
    }
  }

  lemma NothingAttracts(gesture: MoveGesture, context: SnapContext, clip: ClipBaseline, e: bool, g: Guide)
    requires BestEdge(context, MovingClips(gesture), gesture.rawDelta, MovingIds(gesture.baselines)).None?
    ensures !Attracts(gesture, context, clip, e, g)
  {
    if Attracts(gesture, context, clip, e, g) {
      var i :| 0 <= i < |gesture.baselines| && gesture.baselines[i] == clip;
      hide SnapEdge, BestEdge, Attracts, EdgeTakes, FromSomeEdge;
      BestEdgeIsCheapest(context, MovingClips(gesture), gesture.rawDelta, MovingIds(gesture.baselines));
      var edge: nat := if e then 1 else 0;
      assert IsEdge(MovingClips(gesture), i, edge);
      SnapOfEdge(gesture, context, i, edge);
    }
  }

  lemma BestDecides(gesture: MoveGesture, context: SnapContext, best: EdgeSnap)
    requires BestEdge(context, MovingClips(gesture), gesture.rawDelta, MovingIds(gesture.baselines)) == Some(best)
    ensures exists clip, e, g ::
      Decides(gesture, context, clip, e, g) && best.result.Adjustment() == Correction(gesture, clip, e, g)
  {
    hide SnapEdge, BestEdge, Attracts, EdgeTakes, Correction, SnapResult.Adjustment;
    var clips, moving := MovingClips(gesture), MovingIds(gesture.baselines);
    BestEdgeIsCheapest(context, clips, gesture.rawDelta, moving);
    var i, edge: nat :|
      IsEdge(clips, i, edge) && SnapEdge(context, clips[i], edge, gesture.rawDelta, moving) == Some(best);
    SnapOfEdge(gesture, context, i, edge);
    var clip, guide := gesture.baselines[i], best.result.guide;
    forall c, e, g | EdgeTakes(gesture, context, c, e, g)
      ensures ComesFirst(
        Correction(gesture, clip, edge == 1, guide), clip, edge == 1, Correction(gesture, c, e, g), c, e)
    {
      BestFirst(gesture, context, best, c, e, g);
    }
    assert Decides(gesture, context, clip, edge == 1, guide);
  }

  lemma BestFirst(gesture: MoveGesture, context: SnapContext, best: EdgeSnap, c: ClipBaseline, e: bool, g: Guide)
    requires BestEdge(context, MovingClips(gesture), gesture.rawDelta, MovingIds(gesture.baselines)) == Some(best)
    requires EdgeTakes(gesture, context, c, e, g)
    ensures var adjustment := Abs(best.result.Adjustment());
      var other := Abs(Correction(gesture, c, e, g));
      adjustment < other
      || (adjustment == other && (best.clip < c.id || (best.clip == c.id && best.edge <= if e then 1 else 0)))
  {
    var i :| 0 <= i < |gesture.baselines| && gesture.baselines[i] == c;
    hide SnapEdge, BestEdge, Attracts, EdgeTakes, Correction, SnapResult.Adjustment, FromSomeEdge;
    BestEdgeIsCheapest(context, MovingClips(gesture), gesture.rawDelta, MovingIds(gesture.baselines));
    var edge: nat := if e then 1 else 0;
    assert IsEdge(MovingClips(gesture), i, edge);
    TakenHasSnap(gesture, context, i, edge, g);
    SnapOfEdge(gesture, context, i, edge);
    assert SnapOf(gesture, context, i, edge) ==
      SnapEdge(context, MovingClips(gesture)[i], edge, gesture.rawDelta, MovingIds(gesture.baselines));
  }

  // ----- one clip

  ghost predicate Unmapped(s: State, gesture: MoveGesture) {
    forall places :: !Shifts(s, gesture, places)
  }

  /** The clip, unless its shifted place lies outside the order or a frame cannot be addressed. */
  ghost predicate Moves(s: State, gesture: MoveGesture, delta: I64, clip: ClipBaseline, move: ClipMove) {
    && Lands(s, gesture, clip, move.toTrack)
    && move.clipId == clip.id && move.fromTrack == clip.track && move.from == clip.placement
    && move.to.start == clip.placement.start + delta && move.to.end == clip.placement.end + delta
  }

  /** What stands in the way of one clip by itself. */
  ghost predicate Hinders(s: State, gesture: MoveGesture, delta: I64, clip: ClipBaseline, d: Diagnostic) {
    match d
    case ClipLocked(id) => id == clip.id && clip.locked
    case TrackLocked(t) =>
      t in s.tracks && s.tracks[t].locked && (t == clip.track || Lands(s, gesture, clip, t))
    case NoTrack(t) =>
      || (t !in s.tracks && (t == clip.track || Lands(s, gesture, clip, t)))
      || (if Unmapped(s, gesture) then Goal(gesture, t) else t == clip.track && t !in s.trackOrder)
    case TrackMappingOutOfRange(id) =>
      id == clip.id && exists place :: ShiftedPlace(s, gesture, clip, place) && !(0 <= place < |s.trackOrder|)
    case Incompatible(id, t) =>
      && id == clip.id && Lands(s, gesture, clip, t)
      && t in s.tracks && s.tracks[t].kind != Hybrid && s.tracks[t].kind != clip.kind
    case FrameOverflow =>
      && (exists t :: Lands(s, gesture, clip, t))
      && !(FitsI64(clip.placement.start + delta) && FitsI64(clip.placement.end + delta))
    case RejectingOverlap(_, _, _) => false
  }

  function PreviewOf(s: State, gesture: MoveGesture, delta: I64, clip: ClipBaseline): Preview {
    PreviewClip(s, clip, TrackDelta(s, gesture), RequestedTrack(gesture), delta)
  }

  /** Where the clip lands, by the computed shift. */
  lemma LandsAt(s: State, gesture: MoveGesture, clip: ClipBaseline, t: TrackId)
    ensures Lands(s, gesture, clip, t) <==>
      && TrackDelta(s, gesture).Some? && TrackIndex(s, clip.track).Some?
      && var place := TrackIndex(s, clip.track).value + TrackDelta(s, gesture).value;
      0 <= place < |s.trackOrder| && s.trackOrder[place] == t
  {
    hide ShiftedPlace, TrackDelta, IndexIn;
    PlaceExactly(s, gesture, clip);
  }

  lemma ClipMovesExactly(s: State, gesture: MoveGesture, delta: I64, clip: ClipBaseline, move: ClipMove)
    ensures move in PreviewOf(s, gesture, delta, clip).moves <==> Moves(s, gesture, delta, clip, move)
  {
    hide TrackDelta, TrackIndex, Lands, EditableDiagnostics, DestinationDiagnostics;
    LandsAt(s, gesture, clip, move.toTrack);
  }

  lemma UnmappedExactly(s: State, gesture: MoveGesture)
    ensures Unmapped(s, gesture) <==> TrackDelta(s, gesture).None?
    ensures Unmapped(s, gesture) ==>
      RequestedTrack(gesture).Some? && forall t: TrackId :: Goal(gesture, t) <==> t == RequestedTrack(gesture).value
  {
    hide Shifts, TrackDelta, Goal;
    ShiftsExactly(s, gesture);
    if TrackDelta(s, gesture).Some? { assert Shifts(s, gesture, TrackDelta(s, gesture).value); }
  }

  lemma ClipReportsExactly(s: State, gesture: MoveGesture, delta: I64, clip: ClipBaseline, d: Diagnostic)
    ensures d in PreviewOf(s, gesture, delta, clip).diagnostics <==> Hinders(s, gesture, delta, clip, d)
  {
    hide TrackDelta, TrackIndex, Lands, ShiftedPlace, Unmapped, Goal, RequestedTrack;
    UnmappedExactly(s, gesture);
    PlaceExactly(s, gesture, clip);
    forall t: TrackId { LandsAt(s, gesture, clip, t); }
    if TrackDelta(s, gesture).None? || TrackIndex(s, clip.track).None? {
      assert forall t: TrackId :: !Lands(s, gesture, clip, t);
      assert forall place :: !ShiftedPlace(s, gesture, clip, place);
    } else {
      var place := TrackIndex(s, clip.track).value + TrackDelta(s, gesture).value;
      assert ShiftedPlace(s, gesture, clip, place);
      if 0 <= place < |s.trackOrder| {
        ReportsAtPlace(s, gesture, delta, clip, place, d);
      }
    }
  }

  /** A clip that lands somewhere. */
  lemma ReportsAtPlace(s: State, gesture: MoveGesture, delta: I64, clip: ClipBaseline, place: int, d: Diagnostic)
    requires TrackDelta(s, gesture).Some? && TrackIndex(s, clip.track).Some?
    requires place == TrackIndex(s, clip.track).value + TrackDelta(s, gesture).value
    requires 0 <= place < |s.trackOrder|
    ensures d in PreviewOf(s, gesture, delta, clip).diagnostics <==> Hinders(s, gesture, delta, clip, d)
  {
    hide TrackDelta, TrackIndex, Lands, ShiftedPlace, Unmapped, Goal, RequestedTrack;
    UnmappedExactly(s, gesture);
    PlaceExactly(s, gesture, clip);
    forall t: TrackId { LandsAt(s, gesture, clip, t); }
    var destination := s.trackOrder[place];
    assert Lands(s, gesture, clip, destination);
    ShownAt(s, clip, destination, delta, d);
    assert Hinders(s, gesture, delta, clip, d) <==> HindersAt(s, clip, destination, delta, d);
  }

  /** What stands in the way of a clip on its way to one track. */
  predicate HindersAt(s: State, clip: ClipBaseline, destination: TrackId, delta: I64, d: Diagnostic) {
    match d
    case ClipLocked(id) => id == clip.id && clip.locked
    case TrackLocked(t) => t in s.tracks && s.tracks[t].locked && (t == clip.track || t == destination)
    case NoTrack(t) => t !in s.tracks && (t == clip.track || t == destination)
    case TrackMappingOutOfRange(_) => false
    case Incompatible(id, t) =>
      && id == clip.id && t == destination
      && t in s.tracks && s.tracks[t].kind != Hybrid && s.tracks[t].kind != clip.kind
    case FrameOverflow => !(FitsI64(clip.placement.start + delta) && FitsI64(clip.placement.end + delta))
    case RejectingOverlap(_, _, _) => false
  }

  lemma ShownAt(s: State, clip: ClipBaseline, destination: TrackId, delta: I64, d: Diagnostic)
    ensures var found := EditableDiagnostics(s, clip) + DestinationDiagnostics(s, clip, destination);
      var fits := FitsI64(clip.placement.start + delta) && FitsI64(clip.placement.end + delta);
      d in (if fits then found else found + [FrameOverflow]) <==> HindersAt(s, clip, destination, delta, d)
  {
    var editable, there := EditableDiagnostics(s, clip), DestinationDiagnostics(s, clip, destination);
    assert d in editable + there <==> d in editable || d in there;
  }

  // ----- all clips

  function PreviewsOf(s: State, gesture: MoveGesture, delta: I64, baselines: seq<ClipBaseline>): Preview {
    PreviewClips(s, baselines, TrackDelta(s, gesture), RequestedTrack(gesture), delta)
  }

  lemma {:induction false} AllClipsExactly(
      s: State, gesture: MoveGesture, delta: I64, baselines: seq<ClipBaseline>, d: Diagnostic, move: ClipMove)
    ensures d in PreviewsOf(s, gesture, delta, baselines).diagnostics <==>
      exists clip :: clip in baselines && Hinders(s, gesture, delta, clip, d)
    ensures move in PreviewsOf(s, gesture, delta, baselines).moves <==>
      exists clip :: clip in baselines && Moves(s, gesture, delta, clip, move)
  {
    hide Hinders, Moves, PreviewClip;
    if baselines != [] {
      var front, last := baselines[..|baselines| - 1], baselines[|baselines| - 1];
      assert baselines == front + [last];
      AllClipsExactly(s, gesture, delta, front, d, move);
      ClipReportsExactly(s, gesture, delta, last, d);
      ClipMovesExactly(s, gesture, delta, last, move);
    }
  }

  // ----- overlaps

  /** Two ranges of frames on one rejecting track share a frame. */
  predicate Clash(s: State, track: TrackId, a: FrameRange, b: FrameRange) {
    && track in s.tracks && s.tracks[track].overlap == Reject
    && a.start < b.end && b.start < a.end
  }

  predicate Names(d: Diagnostic, track: TrackId, a: ClipId, b: ClipId) {
    && d.RejectingOverlap? && d.on == track
    && d.first <= d.second && {d.first, d.second} == {a, b}
  }

  lemma NamesExactly(d: Diagnostic, track: TrackId, a: ClipId, b: ClipId)
    ensures Names(d, track, a, b) <==> d == Overlap(track, a, b)
  {
    if Names(d, track, a, b) {
      assert d.first in {a, b} && d.second in {a, b} && a in {d.first, d.second} && b in {d.first, d.second};
    }
  }

  predicate StandsInWay(s: State, moving: set<ClipId>, move: ClipMove, other: ClipId) {
    && move.toTrack in s.tracks && other in s.tracks[move.toTrack].clipIds
    && other in s.clips && other !in moving
    && Clash(s, move.toTrack, move.to, s.clips[other].placement)
  }

  predicate MovesInto(s: State, moves: seq<ClipMove>, i: int, j: int) {
    && 0 <= i < j < |moves| && moves[i].toTrack == moves[j].toTrack
    && Clash(s, moves[i].toTrack, moves[i].to, moves[j].to)
  }

  /** A moved clip and a standing one, or two moved clips, would share a frame of a rejecting track. */
  ghost predicate Overlapping(s: State, moving: set<ClipId>, moves: seq<ClipMove>, d: Diagnostic) {
    || (exists i, other :: 0 <= i < |moves| && StandsInWay(s, moving, moves[i], other)
          && Names(d, moves[i].toTrack, moves[i].clipId, other))
    || (exists i, j :: MovesInto(s, moves, i, j) && Names(d, moves[i].toTrack, moves[i].clipId, moves[j].clipId))
  }

  lemma {:induction false} StandingExactly(
      s: State, moving: set<ClipId>, move: ClipMove, index: seq<ClipId>, d: Diagnostic)
    ensures d in StandingOverlaps(s, moving, move, index) <==>
      exists other ::
        other in index && HitsStanding(s, moving, move, other) && d == Overlap(move.toTrack, move.clipId, other)
  {
    hide HitsStanding, Overlap;
    if index != [] {
      var front, last := index[..|index| - 1], index[|index| - 1];
      assert index == front + [last];
      StandingExactly(s, moving, move, front, d);
    }
  }

  lemma {:induction false} MovedExactly(s: State, move: ClipMove, later: seq<ClipMove>, d: Diagnostic)
    ensures d in MovedOverlaps(s, move, later) <==>
      exists other ::
        other in later && HitsMoved(s, move, other) && d == Overlap(move.toTrack, move.clipId, other.clipId)
  {
    hide HitsMoved, Overlap;
    if later != [] {
      var front, last := later[..|later| - 1], later[|later| - 1];
      assert later == front + [last];
      MovedExactly(s, move, front, d);
    }
  }

  ghost predicate OverlapsAt(s: State, moving: set<ClipId>, moves: seq<ClipMove>, i: nat, d: Diagnostic)
    requires i < |moves|
  {
    || (exists other :: StandsInWay(s, moving, moves[i], other) && Names(d, moves[i].toTrack, moves[i].clipId, other))
    || (exists j :: MovesInto(s, moves, i, j) && Names(d, moves[i].toTrack, moves[i].clipId, moves[j].clipId))
  }

  lemma OverlapsAtExactly(s: State, moving: set<ClipId>, moves: seq<ClipMove>, i: nat, d: Diagnostic)
    requires i < |moves|
    ensures d in OverlapsOf(s, moving, moves, i) <==> OverlapsAt(s, moving, moves, i, d)
  {
    hide StandingOverlaps, MovedOverlaps, Names, Overlap;
    var move, later := moves[i], moves[i + 1..];
    if move.toTrack in s.tracks { StandingExactly(s, moving, move, s.tracks[move.toTrack].clipIds, d); }
    MovedExactly(s, move, later, d);
    forall other: ClipId
      ensures Names(d, move.toTrack, move.clipId, other) <==> d == Overlap(move.toTrack, move.clipId, other)
    {
      NamesExactly(d, move.toTrack, move.clipId, other);
    }
    assert forall j :: i < j < |moves| ==> later[j - i - 1] == moves[j];
    assert forall j :: MovesInto(s, moves, i, j) ==> moves[j] in later && HitsMoved(s, move, moves[j]);
    forall other | other in later && HitsMoved(s, move, other)
      ensures exists j :: MovesInto(s, moves, i, j) && moves[j] == other
    {
      var k :| 0 <= k < |later| && later[k] == other;
      assert MovesInto(s, moves, i, i + 1 + k);
    }
  }

  lemma {:induction false} OverlapsExactly(
      s: State, moving: set<ClipId>, moves: seq<ClipMove>, count: nat, d: Diagnostic)
    requires count <= |moves|
    ensures d in OverlapDiagnostics(s, moving, moves, count) <==>
      exists i :: 0 <= i < count && OverlapsAt(s, moving, moves, i, d)
  {
    hide OverlapsAt, OverlapsOf;
    if count > 0 {
      OverlapsExactly(s, moving, moves, count - 1, d);
      OverlapsAtExactly(s, moving, moves, count - 1, d);
    }
  }

  lemma OverlappingSomewhere(s: State, moving: set<ClipId>, moves: seq<ClipMove>, d: Diagnostic)
    ensures Overlapping(s, moving, moves, d) <==> exists i :: 0 <= i < |moves| && OverlapsAt(s, moving, moves, i, d)
  {
    hide StandsInWay, Names;
    if exists i :: 0 <= i < |moves| && OverlapsAt(s, moving, moves, i, d) {
      var i :| 0 <= i < |moves| && OverlapsAt(s, moving, moves, i, d);
    }
    if exists i, j :: MovesInto(s, moves, i, j) && Names(d, moves[i].toTrack, moves[i].clipId, moves[j].clipId) {
      var i, j :| MovesInto(s, moves, i, j) && Names(d, moves[i].toTrack, moves[i].clipId, moves[j].clipId);
      assert OverlapsAt(s, moving, moves, i, d);
    }
    if exists i :: 0 <= i < |moves| &&
        exists other :: StandsInWay(s, moving, moves[i], other) && Names(d, moves[i].toTrack, moves[i].clipId, other)
    {
      var i :| 0 <= i < |moves| &&
        exists other :: StandsInWay(s, moving, moves[i], other) && Names(d, moves[i].toTrack, moves[i].clipId, other);
      assert OverlapsAt(s, moving, moves, i, d);
    }
  }

  // ----- the whole preview

  /**
   * A preview moves exactly the clips of the gesture that land on a track of the order, by one number of frames, and
   * reports exactly what hinders one of them and which clips would overlap.
   */
  lemma PreviewSays(s: State, gesture: MoveGesture) returns (delta: I64)
    ensures MovesBy(gesture, delta)
    ensures forall move :: move in PreviewMove(s, gesture).moves <==>
      exists clip :: clip in gesture.baselines && Moves(s, gesture, delta, clip, move)
    ensures forall d :: d in PreviewMove(s, gesture).diagnostics <==>
      || (exists clip :: clip in gesture.baselines && Hinders(s, gesture, delta, clip, d))
      || Overlapping(s, (set b | b in gesture.baselines :: b.id), PreviewMove(s, gesture).moves, d)
  {
    hide MovesBy, Hinders, Moves, PreviewClips, Overlapping, OverlapDiagnostics, OverlapsAt;
    MoveDeltaExactly(gesture);
    delta := MoveDelta(gesture);
    hide MoveDelta;
    var patch, moving := PreviewsOf(s, gesture, delta, gesture.baselines), MovingIds(gesture.baselines);
    forall move ensures move in patch.moves <==>
      exists clip :: clip in gesture.baselines && Moves(s, gesture, delta, clip, move)
    {
      AllClipsExactly(s, gesture, delta, gesture.baselines, FrameOverflow, move);
    }
    forall d ensures d in PreviewMove(s, gesture).diagnostics <==>
      || (exists clip :: clip in gesture.baselines && Hinders(s, gesture, delta, clip, d))
      || Overlapping(s, moving, patch.moves, d)
    {
      AllClipsExactly(s, gesture, delta, gesture.baselines, d, ClipMove(0, 0, 0, FrameBounds(0, 1), FrameBounds(0, 1)));
      OverlapsExactly(s, moving, patch.moves, |patch.moves|, d);
      OverlappingSomewhere(s, moving, patch.moves, d);
    }
  }

  /** The clip that the gesture holds is the one at this place of its clips. */
  predicate Holds(gesture: MoveGesture, i: int) {
    && 0 <= i < |gesture.baselines| && gesture.baselines[i].id == gesture.anchor
    && forall j :: 0 <= j < i ==> gesture.baselines[j].id != gesture.anchor
  }

  lemma {:induction false} CleanClips(s: State, gesture: MoveGesture, delta: I64, baselines: seq<ClipBaseline>)
    requires PreviewsOf(s, gesture, delta, baselines).diagnostics == []
    ensures var moves := PreviewsOf(s, gesture, delta, baselines).moves;
      && |moves| == |baselines|
      && forall i :: 0 <= i < |moves| ==> Moves(s, gesture, delta, baselines[i], moves[i])
  {
    hide Moves, PreviewClip;
    if baselines != [] {
      var front, last := baselines[..|baselines| - 1], baselines[|baselines| - 1];
      assert baselines == front + [last];
      CleanClips(s, gesture, delta, front);
      CleanClip(s, gesture, delta, last);
    }
  }

  lemma CleanClip(s: State, gesture: MoveGesture, delta: I64, clip: ClipBaseline)
    requires PreviewOf(s, gesture, delta, clip).diagnostics == []
    ensures var moves := PreviewOf(s, gesture, delta, clip).moves;
      |moves| == 1 && Moves(s, gesture, delta, clip, moves[0])
  {
    var moves := PreviewOf(s, gesture, delta, clip).moves;
    assert |moves| == 1;
    hide Moves, PreviewClip;
    ClipMovesExactly(s, gesture, delta, clip, moves[0]);
  }

  lemma HeldIsHome(gesture: MoveGesture, i: nat, track: TrackId)
    requires Holds(gesture, i)
    ensures Home(gesture, track) <==> track == gesture.baselines[i].track
  {
    if Home(gesture, track) {
      var j :| Holds(gesture, j) && gesture.baselines[j].track == track;
    }
  }

  /** The held clip lands on its goal. */
  lemma HeldClipReachesGoal(s: State, gesture: MoveGesture, i: nat, track: TrackId)
    requires Holds(gesture, i) && Lands(s, gesture, gesture.baselines[i], track)
    ensures Goal(gesture, track)
  {
    var held := gesture.baselines[i].track;
    HeldIsHome(gesture, i, held);
    hide Home, FirstAt, Holds, Goal, Shifts;
    var places := LandedPlaces(s, gesture, gesture.baselines[i], track);
    var goal, from, to := ShiftToGoal(s, gesture, i, places);
    LandsOnGoal(s.trackOrder, held, places, goal, from, to, track);
  }

  lemma ShiftToGoal(s: State, gesture: MoveGesture, i: nat, places: int) returns (goal: TrackId, from: int, to: int)
    requires Holds(gesture, i) && Home(gesture, gesture.baselines[i].track) && Shifts(s, gesture, places)
    ensures Goal(gesture, goal) && places == to - from
    ensures FirstAt(s.trackOrder, gesture.baselines[i].track, from) && FirstAt(s.trackOrder, goal, to)
  {
    assert exists track :: Home(gesture, track);
    assert exists h, g, f, t :: LeadsTo(s, gesture, h, g, f, t) && places == t - f;
    hide FirstAt, Goal, Holds, Home;
    var home;
    home, goal, from, to :| LeadsTo(s, gesture, home, goal, from, to) && places == to - from;
    HeldIsHome(gesture, i, home);
  }

  lemma LandsOnGoal(
      order: seq<TrackId>, held: TrackId, places: int, goal: TrackId, from: int, to: int, track: TrackId)
    requires Downward(order, held, places, track) && places == to - from
    requires FirstAt(order, held, from) && FirstAt(order, goal, to)
    ensures track == goal
  {
    var at :| FirstAt(order, held, at) && 0 <= at + places < |order| && order[at + places] == track;
    FirstIsUnique(order, held, at, from);
  }

  /**
   * A preview without diagnostics moves every clip of the gesture, in order: the held clip to its goal, every other
   * clip as many places down the track order, and all of them by one number of frames.
   */
  lemma CleanPreviewMoves(s: State, gesture: MoveGesture) returns (places: int, delta: I64)
    requires PreviewMove(s, gesture).diagnostics == [] && gesture.baselines != []
    ensures Shifts(s, gesture, places) && MovesBy(gesture, delta)
    ensures var moves := PreviewMove(s, gesture).moves;
      && |moves| == |gesture.baselines|
      && (forall i :: 0 <= i < |moves| ==>
           && var clip, move := gesture.baselines[i], moves[i];
           && move.clipId == clip.id && move.fromTrack == clip.track && move.from == clip.placement
           && move.to.start == clip.placement.start + delta && move.to.end == clip.placement.end + delta
           && Downward(s.trackOrder, clip.track, places, move.toTrack)
           && (Holds(gesture, i) ==> Goal(gesture, move.toTrack)))
  {
    hide MovesBy, PreviewClips, OverlapDiagnostics, Lands, Shifts, TrackDelta, Holds, Goal;
    MoveDeltaExactly(gesture);
    delta := MoveDelta(gesture);
    hide MoveDelta;
    CleanClips(s, gesture, delta, gesture.baselines);
    ShiftsExactly(s, gesture);
    var moves := PreviewMove(s, gesture).moves;
    assert Moves(s, gesture, delta, gesture.baselines[0], moves[0]);
    places := LandedPlaces(s, gesture, gesture.baselines[0], moves[0].toTrack);
    forall i | 0 <= i < |moves|
      ensures Downward(s.trackOrder, gesture.baselines[i].track, places, moves[i].toTrack)
      ensures Holds(gesture, i) ==> Goal(gesture, moves[i].toTrack)
    {
      assert Moves(s, gesture, delta, gesture.baselines[i], moves[i]);
      var other := LandedPlaces(s, gesture, gesture.baselines[i], moves[i].toTrack);
      assert other == places;
      if Holds(gesture, i) { HeldClipReachesGoal(s, gesture, i, moves[i].toTrack); }
    }
  }

  /** The second track stands the given number of places behind the first one in the order. */
  predicate Downward(order: seq<TrackId>, from: TrackId, places: int, to: TrackId) {
    exists i :: FirstAt(order, from, i) && 0 <= i + places < |order| && order[i + places] == to
  }

  lemma LandedPlaces(s: State, gesture: MoveGesture, clip: ClipBaseline, track: TrackId) returns (places: int)
    requires Lands(s, gesture, clip, track)
    ensures Shifts(s, gesture, places) && Downward(s.trackOrder, clip.track, places, track)
  {
    hide Shifts, FirstAt;
    var place :| ShiftedPlace(s, gesture, clip, place)
      && 0 <= place < |s.trackOrder| && s.trackOrder[place] == track;
    var shift, from :| Shifts(s, gesture, shift) && FirstAt(s.trackOrder, clip.track, from) && place == from + shift;
    places := shift;
  }
}
