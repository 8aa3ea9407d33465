/** The transactions of the edit methods (src/arrangement.rs). */
module EditPlans {
  import opened Numbers
  import opened Outcomes
  import opened Ordering
  import opened StretchRatios
  import opened Arrangement
  import opened Normalization
  import opened UndoLaw
  import opened ClipEdits

  datatype Edit =
    | CreateTrack(trackName: string, kind: TrackKind)
    | DeleteTrack(deleted: TrackId)
    | ReorderTrack(reordered: TrackId, newIndex: nat)
    | SetOverlapPolicy(policed: TrackId, policy: OverlapPolicy)
    | CreateAudioClip(
        audioTrack: TrackId, audioName: string, audioPlacement: FrameRange, asset: U64, source: SourceRange)
    | CreatePatternClip(patternTrack: TrackId, patternName: string, patternPlacement: FrameRange, pattern: U64)
    | CreateAutomationClip(curveTrack: TrackId, curveName: string, curvePlacement: FrameRange, parameter: U64)
    | DeleteClip(removed: ClipId)
    | MoveClip(moved: ClipId, toTrack: TrackId, start: Frame)
    | TrimLeft(trimmedLeft: ClipId, newStart: Frame)
    | TrimRight(trimmedRight: ClipId, newEnd: Frame)
    | SlipClip(slipped: ClipId, delta: I64)
    | Split(cut: ClipId, at: Frame)
    | DuplicateClip(copied: ClipId, copyStart: Frame)
    | StretchResize(stretched: ClipId, stretchEnd: Frame, algorithm: StretchAlgorithm, preservePitch: bool)
    | SetFades(faded: ClipId, fades: ClipFades)
    | PutMarkerAt(markerFrame: Frame, marker: Option<Marker>)
  {
    predicate EditsTracks() {
      CreateTrack? || DeleteTrack? || ReorderTrack? || SetOverlapPolicy?
    }

    predicate ReplacesOneClip() {
      MoveClip? || TrimLeft? || TrimRight? || SlipClip? || StretchResize? || SetFades?
    }
  }

  datatype Created = Nothing | NewTrackId(track: TrackId) | NewClipId(clip: ClipId)

  datatype Plan = Plan(operations: seq<Operation>, created: Created)

  type PlanResult = Result<Plan, ArrangementError>

  function EditableClip(s: State, id: ClipId): (r: Result<Clip, ArrangementError>)
    requires Valid(s)
    ensures r.Ok? ==> id in s.clips && r.value == s.clips[id] && SoundClip(r.value)
  {
    if id !in s.clips then Err(MissingClip(id))
    else
      var clip := s.clips[id];
      assert ValidClip(id, clip, s.tracks);
      if clip.locked || s.tracks[clip.trackId].locked then Err(LockedClip(id)) else Ok(clip)
  }

  predicate LeavesTracks(operations: seq<Operation>) {
    forall op :: op in operations ==> op.PutClip? || op.PutMarker?
  }

  /** A planned transaction that touches clips and markers only. */
  predicate ClipPlan(r: PlanResult) {
    r.Ok? ==> r.value.operations != [] && LeavesTracks(r.value.operations) && KeepIdentities(r.value.operations)
  }

  /** A planned transaction that ends by putting a clip under the next free identity. */
  predicate CreatesClip(s: State, r: PlanResult) {
    r.Ok? ==>
      && r.value.created == NewClipId(s.nextClipId)
      && r.value.operations != []
      && var last := r.value.operations[|r.value.operations| - 1];
      && last.PutClip? && last.clipBefore.None? && last.clipAfter.Some? && last.clipAfter.value.id == s.nextClipId
  }

  function ReplaceClip(before: Clip, after: ClipResult): (r: PlanResult)
    requires after.Ok? ==> after.value.id == before.id
    ensures ClipPlan(r) && (r.Ok? ==> r.value.created == Nothing)
  {
    if after.Err? then Err(after.error)
    else Ok(Plan([PutClip(Some(before), Some(after.value))], Nothing))
  }

  function PlanNewClip(s: State, track: TrackId, name: string, placement: FrameRange, content: ClipContent)
    : (r: PlanResult)
    ensures ClipPlan(r) && CreatesClip(s, r)
  {
    if track !in s.tracks then Err(MissingTrack(track))
    else if s.nextClipId + 1 > U64_MAX then Err(IdOverflow)
    else
      var clip := Clip(s.nextClipId, track, name, placement, content, NO_FADES, 0.0, false, false);
      Ok(Plan([PutClip(None, Some(clip))], NewClipId(s.nextClipId)))
  }

  function PlanNewAudioClip(
    s: State, track: TrackId, name: string, placement: FrameRange, asset: U64, source: SourceRange): (r: PlanResult)
    ensures ClipPlan(r) && CreatesClip(s, r)
  {
    if source.start >= source.end then Err(EmptyRange)
    else
      var ratio := NewRatio(source.Len(), placement.Len());
      if ratio.Err? then Err(Stretch(ratio.error))
      else PlanNewClip(s, track, name, placement,
                       AudioContent(AudioRegion(asset, source, DefaultPlayback(ratio.value), false)))
  }

  function Removals(ids: seq<ClipId>, clips: map<ClipId, Clip>): (r: seq<Operation>)
    requires forall id :: id in ids ==> id in clips
    ensures |r| == |ids|
  {
    seq(|ids|, i requires 0 <= i < |ids| => assert ids[i] in ids; PutClip(Some(clips[ids[i]]), None))
  }

  function Without(order: seq<TrackId>, id: TrackId): seq<TrackId> {
    if order == [] then []
    else
      var front, last := Without(order[..|order| - 1], id), order[|order| - 1];
      if last == id then front else front + [last]
  }

  function PlanDeleteTrack(s: State, id: TrackId): PlanResult
    requires Valid(s)
  {
    if id !in s.tracks then Err(MissingTrack(id))
    else
      assert ValidTrack(id, s.tracks[id], s.clips);
      Ok(Plan(Removals(s.tracks[id].clipIds, s.clips)
              + [PutTrack(Some(s.tracks[id]), None), SetTrackOrder(s.trackOrder, Without(s.trackOrder, id))], Nothing))
  }

  function IndexOf(order: seq<TrackId>, id: TrackId): (i: nat)
    requires id in order
    ensures i < |order| && order[i] == id && id !in order[..i]
  {
    if order[0] == id then 0 else 1 + IndexOf(order[1..], id)
  }

  /** The order with one member taken out and put back at another index. */
  function Moved(order: seq<TrackId>, from: nat, to: nat): seq<TrackId>
    requires from < |order| && to < |order|
  {
    var rest := order[..from] + order[from + 1..];
    rest[..to] + [order[from]] + rest[to..]
  }

  function PlanReorder(s: State, id: TrackId, newIndex: nat): PlanResult
    requires Valid(s)
  {
    if id !in s.tracks then Err(MissingTrack(id))
    else if newIndex >= |s.trackOrder| then Err(InvalidTrackIndex(newIndex))
    else
      assert id in Elements(s.trackOrder);
      Ok(Plan([SetTrackOrder(s.trackOrder, Moved(s.trackOrder, IndexOf(s.trackOrder, id), newIndex))], Nothing))
  }

  function PlanNewTrack(s: State, name: string, kind: TrackKind): PlanResult {
    if s.nextTrackId + 1 > U64_MAX then Err(IdOverflow)
    else
      var id := s.nextTrackId;
      Ok(Plan([PutTrack(None, Some(NewTrack(id, name, kind))), SetTrackOrder(s.trackOrder, s.trackOrder + [id])],
              NewTrackId(id)))
  }

  function PlanSplit(s: State, id: ClipId, at: Frame): (r: PlanResult)
    requires Valid(s)
    ensures ClipPlan(r) && CreatesClip(s, r)
  {
    var before :- EditableClip(s, id);
    if !SplitBoundaryOk(before, at) then Err(InvalidSplit)
    else if s.nextClipId + 1 > U64_MAX then Err(IdOverflow)
    else
      var halves :- SplitClip(before, at, s.nextClipId);
      Ok(Plan([PutClip(Some(before), Some(halves.0)), PutClip(None, Some(halves.1))], NewClipId(s.nextClipId)))
  }

  function PlanDuplicate(s: State, id: ClipId, start: Frame): (r: PlanResult)
    ensures ClipPlan(r) && CreatesClip(s, r)
  {
    if id !in s.clips then Err(MissingClip(id))
    else if s.nextClipId + 1 > U64_MAX then Err(IdOverflow)
    else
      var placement :- FrameRangeFromLen(start, s.clips[id].placement.Len());
      Ok(Plan([PutClip(None, Some(s.clips[id].(id := s.nextClipId, placement := placement)))], NewClipId(s.nextClipId)))
  }

  function PlanTrackEdit(s: State, edit: Edit): PlanResult
    requires Valid(s)
    requires edit.EditsTracks()
  {
    match edit
    case CreateTrack(name, kind) => PlanNewTrack(s, name, kind)
    case DeleteTrack(id) => PlanDeleteTrack(s, id)
    case ReorderTrack(id, index) => PlanReorder(s, id, index)
    case SetOverlapPolicy(id, policy) =>
      if id !in s.tracks then Err(MissingTrack(id))
      else Ok(Plan([PutTrack(Some(s.tracks[id]), Some(s.tracks[id].(overlap := policy)))], Nothing))
  }

  /** The edit methods that replace one clip by another image of it. */
  function PlanReplacement(s: State, edit: Edit): (r: PlanResult)
    requires Valid(s)
    requires edit.ReplacesOneClip()
    ensures ClipPlan(r) && (r.Ok? ==> r.value.created == Nothing)
  {
    match edit
    case MoveClip(id, track, start) =>
      if track !in s.tracks then Err(MissingTrack(track))
      else
        var before :- EditableClip(s, id);
        ReplaceClip(before, MovedClip(before, track, start))
    case TrimLeft(id, start) =>
      var before :- EditableClip(s, id);
      ReplaceClip(before, TrimLeftClip(before, start))
    case TrimRight(id, end) =>
      var before :- EditableClip(s, id);
      ReplaceClip(before, TrimRightClip(before, end))
    case SlipClip(id, delta) =>
      var before :- EditableClip(s, id);
      ReplaceClip(before, SlippedClip(before, delta))
    case StretchResize(id, end, algorithm, preservePitch) =>
      var before :- EditableClip(s, id);
      ReplaceClip(before, StretchedClip(before, end, algorithm, preservePitch))
    case SetFades(id, fades) =>
      var before :- EditableClip(s, id);
      if !ValidFades(fades, before.placement.Len()) then Err(InvalidFade)
      else ReplaceClip(before, Ok(before.(fades := fades)))
  }

  /** The edit methods that add or remove clips, and the marker edit. */
  function PlanAddition(s: State, edit: Edit): (r: PlanResult)
    requires Valid(s)
    requires !edit.EditsTracks() && !edit.ReplacesOneClip()
    ensures ClipPlan(r) && (r.Ok? ==> r.value.created == Nothing || CreatesClip(s, r))
  {
    match edit
    case CreateAudioClip(track, name, placement, asset, source) =>
      PlanNewAudioClip(s, track, name, placement, asset, source)
    case CreatePatternClip(track, name, placement, pattern) =>
      PlanNewClip(s, track, name, placement, PatternContent(pattern, 0, false))
    case CreateAutomationClip(track, name, placement, parameter) =>
      PlanNewClip(s, track, name, placement, AutomationContent(parameter, 0, false))
    case DeleteClip(id) =>
      var before :- EditableClip(s, id);
      Ok(Plan([PutClip(Some(before), None)], Nothing))
    case Split(id, at) => PlanSplit(s, id, at)
    case DuplicateClip(id, start) => PlanDuplicate(s, id, start)
    case PutMarkerAt(at, marker) =>
      Ok(Plan([PutMarker(at, Lookup(s.markers, at), marker)], Nothing))
  }

  function PlanEdit(s: State, edit: Edit): PlanResult
    requires Valid(s)
  {
    if edit.EditsTracks() then PlanTrackEdit(s, edit)
    else if edit.ReplacesOneClip() then PlanReplacement(s, edit)
    else PlanAddition(s, edit)
  }

  // ----- planned transactions survive normalization

  lemma {:induction false} LeftTracks(operations: seq<Operation>, s: State)
    requires LeavesTracks(operations) && ApplyAll(operations, s).Ok?
    ensures ApplyAll(operations, s).value.tracks == s.tracks
    ensures ApplyAll(operations, s).value.trackOrder == s.trackOrder
    ensures TouchedTracks(operations) == {} && !TouchesOrder(operations)
  {
    if operations != [] {
      var front, op := operations[..|operations| - 1], operations[|operations| - 1];
      assert op in operations;
      LeftTracks(front, s);
      assert forall other :: other in operations ==> other.PutClip? || other.PutMarker?;
    }
  }

  /** Edits of clips and markers alone never disturb what normalization rewrites. */
  lemma ClipEditsSurvive(operations: seq<Operation>, s: State)
    requires Valid(s) && LeavesTracks(operations) && ApplyAll(operations, s).Ok?
    ensures Survives(operations, s)
  {
    LeftTracks(operations, s);
    NormalizedOrderIdentity(s.trackOrder, s.tracks.Keys);
  }

  lemma {:induction false} WithoutElements(order: seq<TrackId>, id: TrackId)
    ensures Elements(Without(order, id)) == Elements(order) - {id}
    ensures Distinct(order) ==> Distinct(Without(order, id))
  {
    if order != [] {
      var front, last := order[..|order| - 1], order[|order| - 1];
      WithoutElements(front, id);
      assert order == front + [last];
      assert Elements(order) == Elements(front) + {last};
      var kept := Without(front, id);
      assert Elements(kept + [last]) == Elements(kept) + {last};
      assert Distinct(order) ==> last !in Elements(front);
    }
  }

  lemma MovedMatches(order: seq<TrackId>, from: nat, to: nat, present: set<TrackId>)
    requires from < |order| && to < |order|
    requires OrderMatches(order, present)
    ensures OrderMatches(Moved(order, from, to), present)
  {
    var rest, moved, id := order[..from] + order[from + 1..], Moved(order, from, to), order[from];
    assert order == order[..from] + [id] + order[from + 1..];
    assert rest == rest[..to] + rest[to..];
    ElementsOfConcat(order[..from] + [id], order[from + 1..]);
    ElementsOfConcat(order[..from], [id]);
    ElementsOfConcat(order[..from], order[from + 1..]);
    ElementsOfConcat(rest[..to], rest[to..]);
    ElementsOfConcat(rest[..to] + [id], rest[to..]);
    ElementsOfConcat(rest[..to], [id]);
    assert Elements(moved) == Elements(order);
    DistinctByCount(order);
    DistinctByCount(moved);
  }

  lemma AppendedMatches(order: seq<TrackId>, id: TrackId, present: set<TrackId>)
    requires OrderMatches(order, present) && id !in present
    ensures OrderMatches(order + [id], present + {id})
  {
    assert forall x :: x in order ==> x in Elements(order);
    assert Elements(order + [id]) == Elements(order) + {id};
  }

  lemma NewTrackSurvives(s: State, name: string, kind: TrackKind)
    requires Valid(s) && PlanNewTrack(s, name, kind).Ok?
    requires ApplyAll(PlanNewTrack(s, name, kind).value.operations, s).Ok?
    ensures Survives(PlanNewTrack(s, name, kind).value.operations, s)
  {
    var operations := PlanNewTrack(s, name, kind).value.operations;
    var id := s.nextTrackId;
    TwoOperations(operations[0], operations[1], s);
    var raw := ApplyAll(operations, s).value;
    AppendedMatches(s.trackOrder, id, s.tracks.Keys);
    assert raw.tracks.Keys == s.tracks.Keys + {id};
    NormalizedOrderIdentity(raw.trackOrder, raw.tracks.Keys);
    assert ClipsOnTrack(s.clips, id) == {} by {
      forall c | c in s.clips ensures s.clips[c].trackId != id {
        assert ValidClip(c, s.clips[c], s.tracks);
      }
    }
    EmptyIndex(s.clips, id);
    assert TouchesOrder(operations) by { assert operations[1] in operations; }
    assert TouchedTracks(operations) == {id};
  }

  lemma EmptyIndex(clips: map<ClipId, Clip>, id: TrackId)
    requires ClipsOnTrack(clips, id) == {}
    ensures ClipIndex(clips, id) == []
  {
    PlaceOrder();
    assert forall c :: c in clips && clips[c].trackId == id ==> c in ClipsOnTrack(clips, id);
    assert PlacesOnTrack(clips, id) == {};
  }

  lemma TwoOperations(first: Operation, second: Operation, s: State)
    ensures ApplyAll([first, second], s) ==
      (var once := first.Apply(s); if once.Err? then once else second.Apply(once.value))
    ensures TouchedTracks([first, second]) == TouchedTrack(first) + TouchedTrack(second)
  {
    var both := [first, second];
    assert both[..1] == [first];
    assert both[..1][..0] == [];
    assert ApplyAll([], s) == Ok(s);
    assert ApplyAll([first], s) == first.Apply(s);
    assert TouchedTracks([first]) == TouchedTrack(first);
  }

  lemma {:induction false} TouchedInTwo(front: seq<Operation>, back: seq<Operation>)
    ensures TouchedTracks(front + back) == TouchedTracks(front) + TouchedTracks(back)
  {
    if back == [] {
      assert front + back == front;
    } else {
      var whole := front + back;
      assert whole[..|whole| - 1] == front + back[..|back| - 1];
      TouchedInTwo(front, back[..|back| - 1]);
    }
  }

  lemma DeletedTrackSurvives(s: State, id: TrackId)
    requires Valid(s) && PlanDeleteTrack(s, id).Ok?
    requires ApplyAll(PlanDeleteTrack(s, id).value.operations, s).Ok?
    ensures Survives(PlanDeleteTrack(s, id).value.operations, s)
  {
    var operations := PlanDeleteTrack(s, id).value.operations;
    var track := s.tracks[id];
    assert ValidTrack(id, track, s.clips);
    var removals := Removals(track.clipIds, s.clips);
    var drop, reorder := PutTrack(Some(track), None), SetTrackOrder(s.trackOrder, Without(s.trackOrder, id));
    assert operations == removals + [drop, reorder];
    AppliedInTwo(removals, [drop, reorder], s);
    TouchedInTwo(removals, [drop, reorder]);
    LeftTracks(removals, s);
    var emptied := ApplyAll(removals, s).value;
    TwoOperations(drop, reorder, emptied);
    var raw := ApplyAll(operations, s).value;
    WithoutElements(s.trackOrder, id);
    assert raw.tracks.Keys == s.tracks.Keys - {id};
    NormalizedOrderIdentity(raw.trackOrder, raw.tracks.Keys);
    assert TouchesOrder(operations) by { assert operations[|operations| - 1] == reorder; assert reorder in operations; }
    assert TouchedTracks(operations) == {id};
  }

  lemma ReplacedTrackSurvives(s: State, id: TrackId, after: Track)
    requires Valid(s) && id in s.tracks && after.id == id && after.clipIds == s.tracks[id].clipIds
    ensures var operations := [PutTrack(Some(s.tracks[id]), Some(after))];
      ApplyAll(operations, s).Ok? && Survives(operations, s)
  {
    var op := PutTrack(Some(s.tracks[id]), Some(after));
    OneOperation(op, s);
    var raw := op.Apply(s).value;
    assert ValidTrack(id, s.tracks[id], s.clips);
    ValidKeyed(s);
    ClipIndexUnique(id, s.tracks[id], s.clips);
    assert raw.tracks.Keys == s.tracks.Keys;
    NormalizedOrderIdentity(s.trackOrder, s.tracks.Keys);
  }

  lemma OneOperation(op: Operation, s: State)
    ensures ApplyAll([op], s) == op.Apply(s)
    ensures TouchedTracks([op]) == TouchedTrack(op)
    ensures TouchesOrder([op]) <==> op.SetTrackOrder?
  {
    assert [op][..0] == [];
    assert ApplyAll([], s) == Ok(s);
    assert op in [op];
  }

  lemma ReorderedSurvives(s: State, id: TrackId, newIndex: nat)
    requires Valid(s) && PlanReorder(s, id, newIndex).Ok?
    ensures var operations := PlanReorder(s, id, newIndex).value.operations;
      ApplyAll(operations, s).Ok? && Survives(operations, s)
  {
    assert id in Elements(s.trackOrder);
    var op := PlanReorder(s, id, newIndex).value.operations[0];
    OneOperation(op, s);
    MovedMatches(s.trackOrder, IndexOf(s.trackOrder, id), newIndex, s.tracks.Keys);
    NormalizedOrderIdentity(op.orderAfter, s.tracks.Keys);
  }

  lemma PlansKeepIdentities(s: State, edit: Edit)
    requires Valid(s) && PlanEdit(s, edit).Ok?
    ensures PlanEdit(s, edit).value.operations != []
    ensures KeepIdentities(PlanEdit(s, edit).value.operations)
  {
    if edit.SetOverlapPolicy? {
      assert ValidTrack(edit.policed, s.tracks[edit.policed], s.clips);
    }
  }

  /** Every edit method builds only transactions that undo restores exactly. */
  lemma PlansSurvive(s: State, edit: Edit)
    requires Valid(s) && PlanEdit(s, edit).Ok?
    requires ApplyAll(PlanEdit(s, edit).value.operations, s).Ok?
    ensures Survives(PlanEdit(s, edit).value.operations, s)
  {
    if edit.CreateTrack? {
      NewTrackSurvives(s, edit.trackName, edit.kind);
    } else if edit.DeleteTrack? {
      DeletedTrackSurvives(s, edit.deleted);
    } else if edit.ReorderTrack? {
      ReorderedSurvives(s, edit.reordered, edit.newIndex);
    } else if edit.SetOverlapPolicy? {
      assert ValidTrack(edit.policed, s.tracks[edit.policed], s.clips);
      ReplacedTrackSurvives(s, edit.policed, s.tracks[edit.policed].(overlap := edit.policy));
    } else {
      ClipEditsSurvive(PlanEdit(s, edit).value.operations, s);
    }
  }
}
