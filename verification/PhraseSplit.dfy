/**
 * Splitting every selected clip at one boundary: the keyboard planner, its lowering, and the kernel
 * (src/arrangement_keyboard.rs, src/arrangement_actions.rs).
 */
module PhraseSplit {
  import opened Numbers
  import opened Outcomes
  import opened Ordering
  import opened StretchRatios
  import opened Arrangement
  import opened Normalization
  import opened UndoLaw
  import opened Acceptance
  import opened ContentEdits
  import opened ClipEdits
  import opened Snap
  import opened MoveAcceptance

  // ----- planning

  datatype PlanError =
    | EmptySelection
    | SelectedClipMissing(clip: ClipId)
    | SelectedClipLocked(locked: ClipId)
    | HomeTrackMissing(track: TrackId)
    | HomeTrackLocked(lockedTrack: TrackId)
    | InvalidBoundary(outside: ClipId)
    | NoMoreIdentities

  datatype SplitEdit = SplitEdit(clip: ClipId, boundary: Frame)

  datatype PhrasePlan = PhrasePlan(
    edits: seq<SplitEdit>, rightIds: seq<ClipId>, primary: Option<ClipId>, revealed: FrameRange)

  function Editable(s: State, id: ClipId): Option<PlanError> {
    if id !in s.clips then Some(SelectedClipMissing(id))
    else
      var clip := s.clips[id];
      if clip.locked then Some(SelectedClipLocked(id))
      else if clip.trackId !in s.tracks then Some(HomeTrackMissing(clip.trackId))
      else if s.tracks[clip.trackId].locked then Some(HomeTrackLocked(clip.trackId))
      else None
  }

  function FirstMissing(s: State, selected: seq<ClipId>): Option<ClipId> {
    if selected == [] then None
    else if selected[0] !in s.clips then Some(selected[0])
    else FirstMissing(s, selected[1..])
  }

  function SnappedBoundary(proposed: Frame, selected: seq<ClipId>, snap: Option<SnapContext>): Frame {
    if snap.None? then proposed
    else
      match Resolve(snap.value, proposed, Elements(selected))
      case None => proposed
      case Some(result) => result.snapped
  }

  /** The clips planned so far, the identities predicted for their right halves, and the furthest end. */
  datatype Draft = Draft(edits: seq<SplitEdit>, rightIds: seq<ClipId>, nextId: U64, revealEnd: Frame)

  function DraftStep(s: State, draft: Draft, id: ClipId, boundary: Frame): (r: Result<Draft, PlanError>)
    ensures r.Ok? ==> r.value.revealEnd >= draft.revealEnd && r.value.revealEnd > boundary
  {
    var refusal := Editable(s, id);
    if refusal.Some? then Err(refusal.value)
    else if !SplitBoundaryOk(s.clips[id], boundary) then Err(InvalidBoundary(id))
    else if draft.nextId + 1 > U64_MAX then Err(NoMoreIdentities)
    else
      Ok(Draft(draft.edits + [SplitEdit(id, boundary)], draft.rightIds + [draft.nextId], draft.nextId + 1,
               Max(draft.revealEnd, s.clips[id].placement.end)))
  }

  function DraftAll(s: State, selected: seq<ClipId>, boundary: Frame): (r: Result<Draft, PlanError>)
    ensures r.Ok? && selected != [] ==> r.value.revealEnd > boundary
  {
    if selected == [] then Ok(Draft([], [], s.nextClipId, boundary))
    else
      var front :- DraftAll(s, selected[..|selected| - 1], boundary);
      DraftStep(s, front, selected[|selected| - 1], boundary)
  }

  /** `selected` lists the selection in ascending identity order. */
  function PlanPhraseSplit(
    s: State, selected: seq<ClipId>, proposed: Frame, snap: Option<SnapContext>): Result<PhrasePlan, PlanError>
  {
    if selected == [] then Err(EmptySelection)
    else
      var missing := FirstMissing(s, selected);
      if missing.Some? then Err(SelectedClipMissing(missing.value))
      else
        var boundary := SnappedBoundary(proposed, selected, snap);
        var draft :- DraftAll(s, selected, boundary);
        var primary := if draft.rightIds == [] then None else Some(draft.rightIds[0]);
        Ok(PhrasePlan(draft.edits, draft.rightIds, primary, FrameBounds(boundary, draft.revealEnd)))
  }

  /** The planner's loop over the selection. */
  method ComputeDraft(s: State, selected: seq<ClipId>, boundary: Frame) returns (r: Result<Draft, PlanError>)
    ensures r == DraftAll(s, selected, boundary)
  {
    var edits: seq<SplitEdit>, rightIds: seq<ClipId> := [], [];
    var nextId: U64, revealEnd: Frame := s.nextClipId, boundary;
    for i := 0 to |selected|
      invariant DraftAll(s, selected[..i], boundary) == Ok(Draft(edits, rightIds, nextId, revealEnd))
    {
      assert selected[..i + 1][..i] == selected[..i];
      var step := DraftStep(s, Draft(edits, rightIds, nextId, revealEnd), selected[i], boundary);
      if step.Err? {
        DraftStops(s, selected, boundary, i);
        return Err(step.error);
      }
      edits, rightIds := edits + [SplitEdit(selected[i], boundary)], rightIds + [nextId];
      nextId, revealEnd := nextId + 1, Max(revealEnd, s.clips[selected[i]].placement.end);
    }
    assert selected[..|selected|] == selected;
    r := Ok(Draft(edits, rightIds, nextId, revealEnd));
  }

  lemma {:induction false} DraftStops(s: State, selected: seq<ClipId>, boundary: Frame, i: nat)
    requires i < |selected| && DraftAll(s, selected[..i + 1], boundary).Err?
    ensures DraftAll(s, selected, boundary) == DraftAll(s, selected[..i + 1], boundary)
    decreases |selected|
  {
    if i + 1 < |selected| {
      var front := selected[..|selected| - 1];
      assert front[..i + 1] == selected[..i + 1];
      DraftStops(s, front, boundary, i);
    } else {
      assert selected[..i + 1] == selected;
    }
  }

  // ----- lowering

  function TakeId(next: U64): Result<(ClipId, U64), LoweringError> {
    if next == 0 || next + 1 > U64_MAX then Err(IdentityExhausted) else Ok((next, next + 1))
  }

  function SplitContentError(content: ClipContent, offset: U64): Option<LoweringError>
    requires Mappable(content)
  {
    match SplitContent(content, offset)
    case Ok(_) => None
    case Err(error) => Some(Domain(error))
  }

  /** One member of the phrase must be editable, cut inside, and cut between two source frames. */
  function PreflightMember(s: State, edit: SplitEdit): Option<LoweringError>
    requires SoundClips(s)
  {
    match LowerableClip(s, edit.clip)
    case Err(error) => Some(error)
    case Ok(clip) =>
      if !SplitBoundaryOk(clip, edit.boundary) then Some(InvalidEdit)
      else SplitContentError(clip.content, Distance(clip.placement.start, edit.boundary))
  }

  function PreflightAll(s: State, edits: seq<SplitEdit>): Option<LoweringError>
    requires SoundClips(s)
  {
    if edits == [] then None
    else
      var front := PreflightAll(s, edits[..|edits| - 1]);
      if front.Some? then front
      else if exists i :: 0 <= i < |edits| - 1 && edits[i].clip == edits[|edits| - 1].clip then Some(InvalidEdit)
      else PreflightMember(s, edits[|edits| - 1])
  }

  /** Commands of the phrase so far, and the allocator cursor. */
  datatype Built = Built(operations: seq<Operation>, nextClip: U64)

  function LowerSplit(s: State, built: Built, edit: SplitEdit): Result<Built, LoweringError>
    requires SoundClips(s)
  {
    var before :- LowerableClip(s, edit.clip);
    if !SplitBoundaryOk(before, edit.boundary) then Err(InvalidEdit)
    else
      match SplitContentError(before.content, Distance(before.placement.start, edit.boundary))
      case Some(error) => Err(error)
      case None =>
        var (id, next) :- TakeId(built.nextClip);
        var (left, right) := SplitClip(before, edit.boundary, id).value;
        Ok(Built(built.operations + [PutClip(Some(before), Some(left)), PutClip(None, Some(right))], next))
  }

  function LowerSplits(s: State, edits: seq<SplitEdit>): Result<Built, LoweringError>
    requires SoundClips(s)
  {
    if edits == [] then Ok(Built([], s.nextClipId))
    else
      var front :- LowerSplits(s, edits[..|edits| - 1]);
      LowerSplit(s, front, edits[|edits| - 1])
  }

  function LowerPhrase(s: State, edits: seq<SplitEdit>): Result<Built, LoweringError>
    requires SoundClips(s)
  {
    if edits == [] then Err(InvalidEdit)
    else
      var refusal := PreflightAll(s, edits);
      if refusal.Some? then Err(refusal.value) else LowerSplits(s, edits)
  }

  // ----- where the cut falls

  /**
   * The boundary is the proposed frame, unless a guide is in reach that lies on no edge of a selected clip; then it is
   * the frame of such a guide before which no other comes.
   */
  lemma BoundaryIsFirstGuide(proposed: Frame, selected: seq<ClipId>, snap: Option<SnapContext>)
    ensures var at := SnappedBoundary(proposed, selected, snap);
      && (snap.None? ==> at == proposed)
      && (snap.Some? && (forall g :: !InReach(snap.value, proposed, Elements(selected), g)) ==> at == proposed)
      && (snap.Some? && (exists g :: InReach(snap.value, proposed, Elements(selected), g)) ==>
           exists first: Guide :: first.frame == at && FirstInReach(snap.value, proposed, Elements(selected), first))
  {
    hide Resolve, InReach, NoWorse;
    if snap.Some? {
      ResolveFindsFirst(snap.value, proposed, Elements(selected));
      if Resolve(snap.value, proposed, Elements(selected)).Some? {
        var first := Resolve(snap.value, proposed, Elements(selected)).value.guide;
        assert FirstInReach(snap.value, proposed, Elements(selected), first);
      }
    }
  }

  ghost predicate FirstInReach(context: SnapContext, proposed: Frame, excluded: set<ClipId>, first: Guide) {
    && InReach(context, proposed, excluded, first)
    && (forall g :: InReach(context, proposed, excluded, g) ==> NoWorse(proposed, first, g))
  }

  /** A selected clip that is missing is reported before anything else, the first of them if there are several. */
  lemma {:induction false} FirstMissingIs(s: State, selected: seq<ClipId>, i: nat)
    requires i < |selected| && selected[i] !in s.clips && forall j :: 0 <= j < i ==> selected[j] in s.clips
    ensures FirstMissing(s, selected) == Some(selected[i])
  {
    if i > 0 {
      assert forall j :: 0 <= j < i - 1 ==> selected[1..][j] == selected[j + 1];
      FirstMissingIs(s, selected[1..], i - 1);
    }
  }

  lemma MissingReportedFirst(
      s: State, selected: seq<ClipId>, proposed: Frame, snap: Option<SnapContext>, i: nat)
    requires i < |selected| && selected[i] !in s.clips && forall j :: 0 <= j < i ==> selected[j] in s.clips
    ensures PlanPhraseSplit(s, [], proposed, snap) == Err(EmptySelection)
    ensures PlanPhraseSplit(s, selected, proposed, snap) == Err(SelectedClipMissing(selected[i]))
  {
    FirstMissingIs(s, selected, i);
  }

  /** What the planner asks of one member of the selection. */
  predicate Plannable(s: State, id: ClipId, boundary: Frame) {
    && id in s.clips && !s.clips[id].locked
    && s.clips[id].trackId in s.tracks && !s.tracks[s.clips[id].trackId].locked
    && s.clips[id].placement.start < boundary < s.clips[id].placement.end
  }

  lemma {:induction false} DraftSucceedsExactly(s: State, selected: seq<ClipId>, boundary: Frame)
    ensures DraftAll(s, selected, boundary).Ok? <==>
      && (forall id :: id in selected ==> Plannable(s, id, boundary))
      && s.nextClipId + |selected| <= U64_MAX
  {
    if selected != [] {
      var front, last := selected[..|selected| - 1], selected[|selected| - 1];
      assert selected == front + [last];
      DraftSucceedsExactly(s, front, boundary);
      assert last in selected && forall id :: id in selected <==> id in front || id == last;
      assert Plannable(s, last, boundary) <==>
        Editable(s, last).None? && SplitBoundaryOk(s.clips[last], boundary);
      if DraftAll(s, front, boundary).Ok? { DraftShape(s, front, boundary); }
      assert DraftAll(s, selected, boundary).Ok? ==> Plannable(s, last, boundary);
    }
  }

  lemma {:induction false} FirstMissingExactly(s: State, selected: seq<ClipId>)
    ensures FirstMissing(s, selected).None? <==> forall id :: id in selected ==> id in s.clips
  {
    if selected != [] {
      FirstMissingExactly(s, selected[1..]);
      assert selected == [selected[0]] + selected[1..];
    }
  }

  /**
   * A plan is made exactly for a selection that is not empty, none of whose clips is locked or sits on a locked
   * track, all of which hold the boundary inside, and for which identities are left.
   */
  lemma PlanSucceedsExactly(s: State, selected: seq<ClipId>, proposed: Frame, snap: Option<SnapContext>)
    ensures PlanPhraseSplit(s, selected, proposed, snap).Ok? <==>
      && selected != []
      && (forall id :: id in selected ==> Plannable(s, id, SnappedBoundary(proposed, selected, snap)))
      && s.nextClipId + |selected| <= U64_MAX
  {
    hide DraftAll, SnappedBoundary, FirstMissing, Plannable;
    FirstMissingExactly(s, selected);
    DraftSucceedsExactly(s, selected, SnappedBoundary(proposed, selected, snap));
    if forall id :: id in selected ==> Plannable(s, id, SnappedBoundary(proposed, selected, snap)) {
      PlannableKnown(s, selected, SnappedBoundary(proposed, selected, snap));
    }
  }

  lemma PlannableKnown(s: State, selected: seq<ClipId>, boundary: Frame)
    requires forall id :: id in selected ==> Plannable(s, id, boundary)
    ensures forall id :: id in selected ==> id in s.clips
  {}

  /** Why the planner refuses a member of the selection. */
  predicate MemberFault(s: State, id: ClipId, boundary: Frame, error: PlanError) {
    match error
    case SelectedClipMissing(c) => c == id && id !in s.clips
    case SelectedClipLocked(c) => c == id && id in s.clips && s.clips[id].locked
    case HomeTrackMissing(t) => id in s.clips && t == s.clips[id].trackId && t !in s.tracks
    case HomeTrackLocked(t) =>
      id in s.clips && t == s.clips[id].trackId && t in s.tracks && s.tracks[t].locked
    case InvalidBoundary(c) =>
      c == id && id in s.clips && !(s.clips[id].placement.start < boundary < s.clips[id].placement.end)
    case _ => false
  }

  /** The first member that cannot be planned is refused for a fault of its own, or there is no identity for it. */
  lemma {:induction false} DraftRefusalNamesFault(s: State, selected: seq<ClipId>, boundary: Frame)
    requires DraftAll(s, selected, boundary).Err?
    ensures exists i :: FirstRefused(s, selected, boundary, i, DraftAll(s, selected, boundary).error)
  {
    var front := selected[..|selected| - 1];
    if DraftAll(s, front, boundary).Err? {
      DraftRefusalNamesFault(s, front, boundary);
      hide DraftAll, MemberFault, Plannable;
      var i :| FirstRefused(s, front, boundary, i, DraftAll(s, front, boundary).error);
      assert FirstRefused(s, selected, boundary, i, DraftAll(s, front, boundary).error);
    } else {
      LastRefused(s, selected, boundary);
    }
  }

  lemma LastRefused(s: State, selected: seq<ClipId>, boundary: Frame)
    requires selected != [] && DraftAll(s, selected[..|selected| - 1], boundary).Ok?
    requires DraftAll(s, selected, boundary).Err?
    ensures FirstRefused(s, selected, boundary, |selected| - 1, DraftAll(s, selected, boundary).error)
  {
    var front, last := selected[..|selected| - 1], selected[|selected| - 1];
    DraftSucceedsExactly(s, front, boundary);
    DraftShape(s, front, boundary);
    StepRefused(s, DraftAll(s, front, boundary).value, last, boundary);
    hide DraftAll, Plannable, MemberFault, DraftStep;
    forall j | 0 <= j < |front| ensures Plannable(s, selected[j], boundary) { assert selected[j] in front; }
  }

  lemma StepRefused(s: State, draft: Draft, id: ClipId, boundary: Frame)
    requires DraftStep(s, draft, id, boundary).Err?
    ensures var error := DraftStep(s, draft, id, boundary).error;
      MemberFault(s, id, boundary, error) || (error == NoMoreIdentities && draft.nextId >= U64_MAX)
  {}

  predicate FirstRefused(s: State, selected: seq<ClipId>, boundary: Frame, i: int, error: PlanError) {
    && 0 <= i < |selected|
    && (forall j :: 0 <= j < i ==> Plannable(s, selected[j], boundary))
    && (MemberFault(s, selected[i], boundary, error)
        || (error == NoMoreIdentities && s.nextClipId + i >= U64_MAX))
  }

  /** The part of the arrangement to be shown reaches from the boundary to the furthest end of a selected clip. */
  lemma RevealedReachesFurthest(s: State, selected: seq<ClipId>, proposed: Frame, snap: Option<SnapContext>)
    requires PlanPhraseSplit(s, selected, proposed, snap).Ok?
    ensures var revealed := PlanPhraseSplit(s, selected, proposed, snap).value.revealed;
      && revealed.start == SnappedBoundary(proposed, selected, snap)
      && (forall id :: id in selected ==> id in s.clips && s.clips[id].placement.end <= revealed.end)
      && (exists id :: id in selected && s.clips[id].placement.end == revealed.end)
  {
    DraftReachesFurthest(s, selected, SnappedBoundary(proposed, selected, snap));
  }

  lemma {:induction false} DraftReachesFurthest(s: State, selected: seq<ClipId>, boundary: Frame)
    requires selected != [] && DraftAll(s, selected, boundary).Ok?
    ensures var end := DraftAll(s, selected, boundary).value.revealEnd;
      && (forall id :: id in selected ==> id in s.clips && s.clips[id].placement.end <= end)
      && (exists id :: id in selected && s.clips[id].placement.end == end)
  {
    var front, last := selected[..|selected| - 1], selected[|selected| - 1];
    assert selected == front + [last] && last in selected;
    assert last in s.clips && s.clips[last].placement.end > boundary;
    if front != [] {
      DraftReachesFurthest(s, front, boundary);
    } else {
      assert DraftAll(s, front, boundary) == Ok(Draft([], [], s.nextClipId, boundary));
    }
  }

  // ----- the planner predicts the lowering

  /** The plan lists the selection in order, with consecutive identities from the allocator cursor. */
  lemma {:induction false} DraftShape(s: State, selected: seq<ClipId>, boundary: Frame)
    requires DraftAll(s, selected, boundary).Ok?
    ensures var draft := DraftAll(s, selected, boundary).value;
      && |draft.edits| == |draft.rightIds| == |selected|
      && draft.nextId == s.nextClipId + |selected|
      && (forall i :: 0 <= i < |selected| ==>
           && draft.edits[i] == SplitEdit(selected[i], boundary)
           && draft.rightIds[i] == s.nextClipId + i
           && Editable(s, selected[i]).None?
           && SplitBoundaryOk(s.clips[selected[i]], boundary)
           && s.clips[selected[i]].placement.end <= draft.revealEnd)
  {
    if selected != [] {
      DraftShape(s, selected[..|selected| - 1], boundary);
    }
  }

  /**
   * The boundary falls inside the clip: on a source frame of unwarped audio, or where the offset of pattern or
   * automation content still has room.
   */
  predicate Cuttable(s: State, id: ClipId, boundary: Frame)
    requires SoundClips(s)
  {
    && id in s.clips
    && SplitBoundaryOk(s.clips[id], boundary)
    && CutsExactly(s.clips[id].content, Distance(s.clips[id].placement.start, boundary))
  }

  lemma CuttableSplits(s: State, id: ClipId, boundary: Frame)
    requires SoundClips(s) && id in s.clips && SplitBoundaryOk(s.clips[id], boundary)
    ensures Mappable(s.clips[id].content)
    ensures Cuttable(s, id, boundary) <==>
      SplitContent(s.clips[id].content, Distance(s.clips[id].placement.start, boundary)).Ok?
  {
    var clip := s.clips[id];
    SplitSucceedsExactly(clip.content, clip.placement.Len(), Distance(clip.placement.start, boundary));
  }

  lemma EditableIsLowerable(s: State, id: ClipId)
    requires Valid(s) && Editable(s, id).None?
    ensures LowerableClip(s, id) == Ok(s.clips[id])
  {
    assert ValidClip(id, s.clips[id], s.tracks);
  }

  // ----- which edits lower

  /** One edit of a phrase can be lowered: the clip may be edited, and the cut falls where it can be cut. */
  predicate CanSplit(s: State, edit: SplitEdit)
    requires SoundClips(s)
  {
    && edit.clip in s.clips && !s.clips[edit.clip].locked
    && Takes(s, s.clips[edit.clip].trackId, s.clips[edit.clip].content.Kind())
    && s.clips[edit.clip].placement.start < edit.boundary < s.clips[edit.clip].placement.end
    && Cuttable(s, edit.clip, edit.boundary)
  }

  predicate DistinctTargets(edits: seq<SplitEdit>) {
    forall i, j :: 0 <= i < j < |edits| ==> edits[i].clip != edits[j].clip
  }

  lemma PreflightMemberExactly(s: State, edit: SplitEdit)
    requires SoundClips(s)
    ensures PreflightMember(s, edit).None? <==> CanSplit(s, edit)
    ensures PreflightMember(s, edit).None? ==> LowerableClip(s, edit.clip) == Ok(s.clips[edit.clip])
  {
    if edit.clip in s.clips && SplitBoundaryOk(s.clips[edit.clip], edit.boundary) {
      CuttableSplits(s, edit.clip, edit.boundary);
      hide SplitContent, CutsExactly;
    }
  }

  lemma {:induction false} PreflightExactly(s: State, edits: seq<SplitEdit>)
    requires SoundClips(s)
    ensures PreflightAll(s, edits).None? <==> DistinctTargets(edits) && forall e :: e in edits ==> CanSplit(s, e)
  {
    hide SoundClips, PreflightMember, CanSplit;
    if edits != [] {
      var front, last := edits[..|edits| - 1], edits[|edits| - 1];
      assert edits == front + [last];
      PreflightExactly(s, front);
      PreflightMemberExactly(s, last);
      OneMoreTarget(edits);
      hide DistinctTargets;
    }
  }

  lemma OneMoreTarget(edits: seq<SplitEdit>)
    requires edits != []
    ensures DistinctTargets(edits) <==>
      && DistinctTargets(edits[..|edits| - 1])
      && !exists i :: 0 <= i < |edits| - 1 && edits[i].clip == edits[|edits| - 1].clip
  {}

  lemma {:induction false} SplitsLowerExactly(s: State, edits: seq<SplitEdit>)
    requires SoundClips(s) && forall e :: e in edits ==> CanSplit(s, e)
    ensures LowerSplits(s, edits).Ok? <==> s.nextClipId + |edits| <= U64_MAX
    ensures LowerSplits(s, edits).Ok? ==> LowerSplits(s, edits).value.nextClip == s.nextClipId + |edits|
  {
    if edits != [] {
      var front, last := edits[..|edits| - 1], edits[|edits| - 1];
      assert edits == front + [last];
      SplitsLowerExactly(s, front);
      PreflightMemberExactly(s, last);
      hide CanSplit, LowerableClip, SplitContent;
      assert s.nextClipId > 0;
    }
  }

  /**
   * A phrase of any edits lowers exactly when there are some, no clip is named twice, every one of them can be split,
   * and the identities suffice.
   */
  lemma PhraseLowersExactly(s: State, edits: seq<SplitEdit>)
    requires SoundClips(s)
    ensures LowerPhrase(s, edits).Ok? <==>
      && edits != [] && DistinctTargets(edits) && (forall e :: e in edits ==> CanSplit(s, e))
      && s.nextClipId + |edits| <= U64_MAX
  {
    hide SoundClips, CanSplit, PreflightAll, LowerSplits;
    PreflightExactly(s, edits);
    if forall e :: e in edits ==> CanSplit(s, e) { SplitsLowerExactly(s, edits); }
  }

  predicate AllCuttable(s: State, selected: seq<ClipId>, boundary: Frame)
    requires SoundClips(s)
  {
    forall i :: 0 <= i < |selected| ==> Cuttable(s, selected[i], boundary)
  }

  predicate CanGrow(built: Result<Built, LoweringError>) {
    built.Ok? && 0 < built.value.nextClip < U64_MAX
  }

  /** One more member: it passes the preflight and is lowered exactly when it can be cut. */
  lemma LowersOneMore(s: State, front: seq<SplitEdit>, last: SplitEdit)
    requires SoundClips(s) && last.clip in s.clips && LowerableClip(s, last.clip) == Ok(s.clips[last.clip])
    requires SplitBoundaryOk(s.clips[last.clip], last.boundary)
    requires forall i :: 0 <= i < |front| ==> front[i].clip != last.clip
    ensures PreflightAll(s, front + [last]).None? <==>
      PreflightAll(s, front).None? && Cuttable(s, last.clip, last.boundary)
    ensures Cuttable(s, last.clip, last.boundary) && CanGrow(LowerSplits(s, front)) ==>
      && LowerSplits(s, front + [last]).Ok?
      && LowerSplits(s, front + [last]).value.nextClip == LowerSplits(s, front).value.nextClip + 1
  {
    hide SoundClips, Cuttable, SplitContent, LowerableClip, SplitClip;
    CuttableSplits(s, last.clip, last.boundary);
    var edits := front + [last];
    assert edits[..|edits| - 1] == front && edits[|edits| - 1] == last;
    assert forall i :: 0 <= i < |edits| - 1 ==> edits[i] == front[i];
  }

  /** The plan of a longer selection continues the plan of a shorter one. */
  lemma DraftOneMore(s: State, selected: seq<ClipId>, boundary: Frame)
    requires selected != [] && DraftAll(s, selected, boundary).Ok?
    ensures var front, last := selected[..|selected| - 1], selected[|selected| - 1];
      && DraftAll(s, front, boundary).Ok?
      && DraftAll(s, selected, boundary).value.edits
         == DraftAll(s, front, boundary).value.edits + [SplitEdit(last, boundary)]
      && Editable(s, last).None? && SplitBoundaryOk(s.clips[last], boundary)
      && s.nextClipId + |selected| <= U64_MAX
  {
    hide Editable;
    DraftShape(s, selected, boundary);
  }

  lemma AllCuttableOneMore(s: State, front: seq<ClipId>, last: ClipId, boundary: Frame)
    requires SoundClips(s)
    ensures AllCuttable(s, front + [last], boundary) <==> AllCuttable(s, front, boundary) && Cuttable(s, last, boundary)
  {
    hide Cuttable, SoundClips;
    var whole := front + [last];
    assert forall i :: 0 <= i < |front| ==> whole[i] == front[i];
    assert whole[|front|] == last;
  }

  /** A planned phrase lowers exactly when every member is cut on a source frame, or where its offset has room. */
  lemma {:induction false} PlannedPhraseLowers(s: State, selected: seq<ClipId>, boundary: Frame)
    requires Valid(s) && SoundClips(s) && StrictlySorted(IdLte, selected)
    requires DraftAll(s, selected, boundary).Ok?
    ensures var edits := DraftAll(s, selected, boundary).value.edits;
      && (PreflightAll(s, edits).None? <==> AllCuttable(s, selected, boundary))
      && (AllCuttable(s, selected, boundary) ==>
           LowerSplits(s, edits).Ok? && LowerSplits(s, edits).value.nextClip == s.nextClipId + |selected|)
  {
    if selected == [] {
      hide Valid, SoundClips, Cuttable;
    } else {
      hide Valid, SoundClips, LowerableClip, Editable, AllCuttable, Cuttable, PreflightAll, LowerSplits, DraftAll;
      hide StrictlySorted;
      var front, last := selected[..|selected| - 1], selected[|selected| - 1];
      assert selected == front + [last];
      SelectionFront(selected);
      DraftOneMore(s, selected, boundary);
      PlannedPhraseLowers(s, front, boundary);
      DraftShape(s, front, boundary);
      NextIdPositive(s);
      EditableIsLowerable(s, last);
      AllCuttableOneMore(s, front, last, boundary);
      LowersOneMore(s, DraftAll(s, front, boundary).value.edits, SplitEdit(last, boundary));
    }
  }

  lemma SelectionFront(selected: seq<ClipId>)
    requires selected != [] && StrictlySorted(IdLte, selected)
    ensures StrictlySorted(IdLte, selected[..|selected| - 1])
    ensures forall i :: 0 <= i < |selected| - 1 ==> selected[i] != selected[|selected| - 1]
  {}

  lemma NextIdPositive(s: State)
    requires SoundClips(s)
    ensures s.nextClipId > 0
  {}

  // ----- the kernel accepts what was planned

  /** The clips after the phrase: left halves under the old identities, right halves under the new ones. */
  ghost predicate SplitInto(s: State, selected: seq<ClipId>, at: Frame, clips: map<ClipId, Clip>)
    requires SoundClips(s)
  {
    && (forall id :: id in clips <==> id in s.clips || s.nextClipId <= id < s.nextClipId + |selected|)
    && (forall id :: id in s.clips && id !in selected ==> id in clips && clips[id] == s.clips[id])
    && (forall i :: 0 <= i < |selected| ==> HalvesAt(s, selected[i], at, s.nextClipId + i, clips))
  }

  /** One selected clip and its two halves. */
  ghost predicate HalvesAt(s: State, id: ClipId, at: Frame, rightId: int, clips: map<ClipId, Clip>)
    requires SoundClips(s)
  {
    && Cuttable(s, id, at)
    && rightId <= U64_MAX && s.nextClipId <= rightId
    && id in clips && rightId in clips
    && SplitClip(s.clips[id], at, rightId) == Ok((clips[id], clips[rightId]))
  }

  lemma HalvesKept(
    s: State, id: ClipId, at: Frame, rightId: int, clips: map<ClipId, Clip>, later: map<ClipId, Clip>)
    requires SoundClips(s) && HalvesAt(s, id, at, rightId, clips)
    requires forall other :: other in clips && (other == id || other == rightId) ==>
      other in later && later[other] == clips[other]
    ensures HalvesAt(s, id, at, rightId, later)
  {}

  /** Two puts of one member on any state that still holds the clip and not yet the new identity. */
  lemma SplitPutsApply(s: State, id: ClipId, left: Clip, right: Clip)
    requires id in s.clips && s.clips[id].id == id && left.id == id && id < s.nextClipId
    requires right.id == s.nextClipId && right.id !in s.clips && right.id + 1 <= U64_MAX
    ensures ApplyAll([PutClip(Some(s.clips[id]), Some(left)), PutClip(None, Some(right))], s)
      == Ok(s.(clips := s.clips[id := left][right.id := right], nextClipId := right.id + 1))
  {
    var first, second := PutClip(Some(s.clips[id]), Some(left)), PutClip(None, Some(right));
    var both := [first, second];
    assert both[..1] == [first];
    assert both[..1][..0] == [];
    assert ApplyAll([], s) == Ok(s);
    assert ApplyAll([first], s) == first.Apply(s);
  }

  ghost predicate Applied(s: State, selected: seq<ClipId>, at: Frame, operations: seq<Operation>, raw: State)
    requires SoundClips(s)
  {
    && ApplyAll(operations, s) == Ok(raw)
    && SplitInto(s, selected, at, raw.clips)
    && raw.nextClipId == s.nextClipId + |selected|
    && raw == s.(clips := raw.clips, nextClipId := raw.nextClipId)
  }

  lemma OneMoreSplit(s: State, selected: seq<ClipId>, at: Frame, front: Built, middle: State, last: ClipId)
    requires SoundClips(s) && last !in selected && Cuttable(s, last, at)
    requires Applied(s, selected, at, front.operations, middle)
    requires front.nextClip == s.nextClipId + |selected| && front.nextClip + 1 <= U64_MAX
    requires LowerableClip(s, last) == Ok(s.clips[last])
    ensures LowerSplit(s, front, SplitEdit(last, at)).Ok?
    ensures var built := LowerSplit(s, front, SplitEdit(last, at)).value;
      && built.nextClip == front.nextClip + 1
      && exists raw :: Applied(s, selected + [last], at, built.operations, raw)
  {
    hide SoundClips, SplitInto, Cuttable, SplitClip;
    CutGivesHalves(s, last, at, front.nextClip);
    Untouched(s, selected, at, middle.clips, last);
    var clip, rightId := s.clips[last], front.nextClip;
    var built := LowerSplit(s, front, SplitEdit(last, at)).value;
    var (left, right) := SplitClip(clip, at, rightId).value;
    AppliedInTwo(front.operations, [PutClip(Some(clip), Some(left)), PutClip(None, Some(right))], s);
    SplitPutsApply(middle, last, left, right);
    var raw := middle.(clips := middle.clips[last := left][rightId := right], nextClipId := rightId + 1);
    OneMoreDescribed(s, selected, at, middle.clips, last, left, right);
    assert Applied(s, selected + [last], at, built.operations, raw);
  }

  lemma CutGivesHalves(s: State, id: ClipId, at: Frame, rightId: ClipId)
    requires SoundClips(s) && Cuttable(s, id, at)
    ensures SoundClip(s.clips[id]) && s.clips[id].id == id && id < s.nextClipId
    ensures SplitBoundaryOk(s.clips[id], at)
    ensures SplitContentError(s.clips[id].content, Distance(s.clips[id].placement.start, at)).None?
    ensures SplitClip(s.clips[id], at, rightId).Ok?
    ensures SplitClip(s.clips[id], at, rightId).value.0.id == id
    ensures SplitClip(s.clips[id], at, rightId).value.1.id == rightId
  {
    CuttableSplits(s, id, at);
  }

  lemma Untouched(s: State, selected: seq<ClipId>, at: Frame, clips: map<ClipId, Clip>, id: ClipId)
    requires SoundClips(s) && SplitInto(s, selected, at, clips) && id in s.clips && id !in selected
    ensures id in clips && clips[id] == s.clips[id]
    ensures s.nextClipId + |selected| !in clips
    ensures s.nextClipId > 0
  {
    hide HalvesAt;
  }

  lemma OneMoreDescribed(
    s: State, selected: seq<ClipId>, at: Frame, clips: map<ClipId, Clip>, last: ClipId, left: Clip, right: Clip)
    requires SoundClips(s) && last !in selected && Cuttable(s, last, at)
    requires SplitInto(s, selected, at, clips)
    requires s.nextClipId + |selected| <= U64_MAX
    requires SplitClip(s.clips[last], at, s.nextClipId + |selected|) == Ok((left, right))
    ensures SplitInto(s, selected + [last], at, clips[last := left][s.nextClipId + |selected| := right])
  {
    hide SoundClips, HalvesAt, Cuttable, SplitClip;
    var rightId: ClipId := s.nextClipId + |selected|;
    var later, whole := clips[last := left][rightId := right], selected + [last];
    LastHalves(s, at, clips, last, rightId, left, right);
    HalvesIds(s, last, at, rightId, later);
    forall i | 0 <= i < |whole| ensures HalvesAt(s, whole[i], at, s.nextClipId + i, later) {
      if i < |selected| {
        assert whole[i] == selected[i] && selected[i] != last;
        assert HalvesAt(s, selected[i], at, s.nextClipId + i, clips);
        HalvesIds(s, selected[i], at, s.nextClipId + i, clips);
        HalvesKept(s, selected[i], at, s.nextClipId + i, clips, later);
      }
    }
    forall id | id in s.clips && id !in whole ensures id in later && later[id] == s.clips[id] {
      assert id !in selected && last in whole;
      KnownIdsBelow(s, id);
    }
  }

  lemma HalvesIds(s: State, id: ClipId, at: Frame, rightId: int, clips: map<ClipId, Clip>)
    requires SoundClips(s) && HalvesAt(s, id, at, rightId, clips)
    ensures id in s.clips && id < s.nextClipId <= rightId && id in clips && rightId in clips
  {}

  lemma KnownIdsBelow(s: State, id: ClipId)
    requires SoundClips(s) && id in s.clips
    ensures id < s.nextClipId
  {}

  lemma LastHalves(
    s: State, at: Frame, clips: map<ClipId, Clip>, last: ClipId, rightId: ClipId, left: Clip, right: Clip)
    requires SoundClips(s) && Cuttable(s, last, at) && s.nextClipId <= rightId
    requires SplitClip(s.clips[last], at, rightId) == Ok((left, right))
    ensures HalvesAt(s, last, at, rightId, clips[last := left][rightId := right])
  {}

  /** No put of the phrase is stale when it is reached: all of them apply, and the halves are where they belong. */
  lemma {:induction false} PhraseApplies(s: State, selected: seq<ClipId>, at: Frame) returns (raw: State)
    requires Valid(s) && SoundClips(s) && StrictlySorted(IdLte, selected)
    requires DraftAll(s, selected, at).Ok?
    requires AllCuttable(s, selected, at)
    ensures LowerSplits(s, DraftAll(s, selected, at).value.edits).Ok?
    ensures Applied(s, selected, at, LowerSplits(s, DraftAll(s, selected, at).value.edits).value.operations, raw)
  {
    hide Valid, SoundClips, Cuttable, LowerSplit, LowerableClip, Editable, AllCuttable, Applied;
    PlannedPhraseLowers(s, selected, at);
    if selected == [] {
      raw := s;
      NothingSplit(s, at);
    } else {
      hide DraftAll;
      var front, last := selected[..|selected| - 1], selected[|selected| - 1];
      assert selected == front + [last];
      AllCuttableOneMore(s, front, last, at);
      DraftOneMore(s, selected, at);
      var middle := PhraseApplies(s, front, at);
      PlannedPhraseLowers(s, front, at);
      EditableIsLowerable(s, last);
      var edits := DraftAll(s, selected, at).value.edits;
      assert edits[..|edits| - 1] == DraftAll(s, front, at).value.edits && edits[|edits| - 1] == SplitEdit(last, at);
      var built := LowerSplits(s, edits[..|edits| - 1]).value;
      OneMoreSplit(s, front, at, built, middle, last);
      raw :| Applied(s, selected, at, LowerSplits(s, edits).value.operations, raw);
    }
  }

  lemma NothingSplit(s: State, at: Frame)
    requires SoundClips(s)
    ensures Applied(s, [], at, [], s)
  {}

  /** No right half of the phrase comes of a saturated length. */
  predicate AllRestsSound(s: State, selected: seq<ClipId>, at: Frame) {
    forall i :: 0 <= i < |selected| && selected[i] in s.clips ==> RestSound(s.clips[selected[i]], at)
  }

  /** The clip of the original state that a clip of the split state comes from. */
  function Origin(s: State, selected: seq<ClipId>, id: int): ClipId
    requires id in s.clips || s.nextClipId <= id < s.nextClipId + |selected|
  {
    if id in s.clips then id else selected[id - s.nextClipId]
  }

  /** What every clip of the split state keeps of its origin. */
  ghost predicate PartOf(part: Clip, id: ClipId, whole: Clip) {
    && part.id == id
    && part.trackId == whole.trackId && part.gainDb == whole.gainDb
    && part.content.Kind() == whole.content.Kind()
    && whole.placement.start <= part.placement.start && part.placement.end <= whole.placement.end
  }

  lemma PartsOfOrigins(s: State, selected: seq<ClipId>, at: Frame, clips: map<ClipId, Clip>, id: ClipId)
    requires SoundClips(s) && SplitInto(s, selected, at, clips) && id in clips
    requires forall i :: 0 <= i < |selected| ==> selected[i] in s.clips
    ensures Origin(s, selected, id) in s.clips
    ensures PartOf(clips[id], id, s.clips[Origin(s, selected, id)])
    ensures AllRestsSound(s, selected, at) ==> SoundClip(clips[id])
  {
    hide ContentAligned, HalvesAt, SplitClip, SoundClip, Cuttable, RestSound;
    if id !in s.clips || id in selected {
      var i: int;
      if id in s.clips { i :| 0 <= i < |selected| && selected[i] == id; } else { i := id - s.nextClipId; }
      HalvesAreParts(s, selected[i], at, s.nextClipId + i, clips);
    }
  }

  lemma HalvesAreParts(s: State, id: ClipId, at: Frame, rightId: int, clips: map<ClipId, Clip>)
    requires SoundClips(s) && HalvesAt(s, id, at, rightId, clips)
    ensures PartOf(clips[id], id, s.clips[id]) && PartOf(clips[rightId], rightId, s.clips[id])
    ensures SoundClip(clips[id]) && (SoundClip(clips[rightId]) <==> RestSound(s.clips[id], at))
    ensures clips[id].placement.end == at == clips[rightId].placement.start
  {
    hide ContentAligned, SplitClip, SoundClip, RestSound;
    SplitKeepsAlignment(s.clips[id], at, rightId);
  }

  lemma SplitStateSound(s: State, selected: seq<ClipId>, at: Frame, raw: State)
    requires Valid(s) && SoundClips(s) && SplitInto(s, selected, at, raw.clips)
    requires raw == s.(clips := raw.clips, nextClipId := raw.nextClipId)
    requires raw.nextClipId == s.nextClipId + |selected|
    requires (forall i :: 0 <= i < |selected| ==> selected[i] in s.clips) && AllRestsSound(s, selected, at)
    ensures Sound(raw)
  {
    ValidIsSound(s);
    forall id | id in raw.clips ensures ValidClip(id, raw.clips[id], raw.tracks) && 0 < id < raw.nextClipId {
      PartsOfOrigins(s, selected, at, raw.clips, id);
      var origin := Origin(s, selected, id);
      assert ValidClip(origin, s.clips[origin], s.tracks);
    }
  }

  /** A state in which some right half is unsound is not accepted. */
  lemma AcceptedRestsSound(s: State, selected: seq<ClipId>, at: Frame, accepted: State)
    requires SoundClips(s) && SplitInto(s, selected, at, accepted.clips) && Valid(accepted)
    ensures AllRestsSound(s, selected, at)
  {
    hide SoundClips, HalvesAt, RestSound, ValidTrack, Valid;
    forall i | 0 <= i < |selected| && selected[i] in s.clips ensures RestSound(s.clips[selected[i]], at) {
      assert HalvesAt(s, selected[i], at, s.nextClipId + i, accepted.clips);
      HalvesIds(s, selected[i], at, s.nextClipId + i, accepted.clips);
      HalvesAreParts(s, selected[i], at, s.nextClipId + i, accepted.clips);
      StoredClipSound(accepted, s.nextClipId + i);
    }
  }

  lemma StoredClipSound(s: State, id: ClipId)
    requires Valid(s) && id in s.clips
    ensures SoundClip(s.clips[id])
  {
    assert ValidClip(id, s.clips[id], s.tracks);
  }

  /** Halves of one clip touch without sharing a frame; parts of different clips stay as far apart as the clips. */
  lemma SplitStateDisjoint(s: State, selected: seq<ClipId>, at: Frame, clips: map<ClipId, Clip>)
    requires Valid(s) && SoundClips(s) && SplitInto(s, selected, at, clips)
    requires StrictlySorted(IdLte, selected)
    requires forall i :: 0 <= i < |selected| ==> selected[i] in s.clips
    ensures NoRejectedOverlap(clips, s.tracks)
  {
    hide Valid, SoundClips, SplitInto;
    ValidIsSound(s);
    forall a, b | a in clips && b in clips && a != b && clips[a].trackId == clips[b].trackId
      && clips[a].trackId in s.tracks && s.tracks[clips[a].trackId].overlap == Reject
      ensures !clips[a].placement.Intersects(clips[b].placement)
    {
      PairDisjoint(s, selected, at, clips, a, b);
    }
  }

  lemma PairDisjoint(
    s: State, selected: seq<ClipId>, at: Frame, clips: map<ClipId, Clip>, a: ClipId, b: ClipId)
    requires SoundClips(s) && SplitInto(s, selected, at, clips) && NoRejectedOverlap(s.clips, s.tracks)
    requires StrictlySorted(IdLte, selected)
    requires forall i :: 0 <= i < |selected| ==> selected[i] in s.clips
    requires a in clips && b in clips && a != b && clips[a].trackId == clips[b].trackId
    requires clips[a].trackId in s.tracks && s.tracks[clips[a].trackId].overlap == Reject
    ensures !clips[a].placement.Intersects(clips[b].placement)
  {
    hide SoundClips, HalvesAt, SoundClip, SplitClip, AllRestsSound, StrictlySorted;
    PartsOfOrigins(s, selected, at, clips, a);
    PartsOfOrigins(s, selected, at, clips, b);
    var oa, ob := Origin(s, selected, a), Origin(s, selected, b);
    if oa != ob {
      assert !s.clips[oa].placement.Intersects(s.clips[ob].placement);
    } else {
      SiblingsDisjoint(s, selected, at, clips, a, b);
    }
  }

  lemma SiblingsDisjoint(
    s: State, selected: seq<ClipId>, at: Frame, clips: map<ClipId, Clip>, a: ClipId, b: ClipId)
    requires SoundClips(s) && SplitInto(s, selected, at, clips) && StrictlySorted(IdLte, selected)
    requires a in clips && b in clips && a != b
    requires Origin(s, selected, a) == Origin(s, selected, b)
    ensures !clips[a].placement.Intersects(clips[b].placement)
  {
    hide HalvesAt, SplitClip, PartOf, SoundClips;
    var right := if a in s.clips then b else a;
    var i := right - s.nextClipId;
    assert right !in s.clips;
    assert HalvesAt(s, selected[i], at, s.nextClipId + i, clips);
    HalvesAreParts(s, selected[i], at, s.nextClipId + i, clips);
  }

  /**
   * The whole promise. A plan lowers exactly when every member can be cut. Then the kernel accepts the phrase, unless
   * a right half comes of a saturated length, and what the planner predicted is what was created: every put applies,
   * and each right half spans from the boundary to the old end.
   */
  lemma PlannedSplitHappens(s: State, selected: seq<ClipId>, proposed: Frame, snap: Option<SnapContext>)
    requires Valid(s) && StrictlySorted(IdLte, selected)
    requires PlanPhraseSplit(s, selected, proposed, snap).Ok?
    ensures SoundClips(s)
    ensures var plan := PlanPhraseSplit(s, selected, proposed, snap).value;
      var at := SnappedBoundary(proposed, selected, snap);
      var lowered := LowerPhrase(s, plan.edits);
      && (lowered.Ok? <==> AllCuttable(s, selected, at))
      && (lowered.Ok? ==>
           var accepted := ApplyOperations(lowered.value.operations, s);
           && (accepted.Ok? <==> AllRestsSound(s, selected, at))
           && (accepted.Err? ==> accepted.error == ValidationFailed)
           && (accepted.Ok? ==> Predicted(s, selected, at, plan, lowered.value, accepted.value)))
  {
    hide Valid, SoundClips, HalvesAt, Cuttable, Editable, Sound, Normalized, PreflightAll, LowerSplits;
    hide NoRejectedOverlap, SplitInto, Predicted, AllRestsSound;
    ValidSoundClips(s);
    var at := SnappedBoundary(proposed, selected, snap);
    DraftShape(s, selected, at);
    PlannedPhraseLowers(s, selected, at);
    if AllCuttable(s, selected, at) {
      var raw := PhraseApplies(s, selected, at);
      var edits := DraftAll(s, selected, at).value.edits;
      var built := LowerSplits(s, edits).value;
      PhraseCommits(s, selected, at, built.operations, raw);
      if AllRestsSound(s, selected, at) {
        PhrasePredicted(s, selected, proposed, snap, raw, built, ApplyOperations(built.operations, s).value);
      }
    }
  }

  /** The accepted state is the split, under the identities that the plan names. */
  ghost predicate Predicted(
    s: State, selected: seq<ClipId>, at: Frame, plan: PhrasePlan, lowered: Built, accepted: State)
    requires SoundClips(s)
  {
    && Valid(accepted)
    && SplitInto(s, selected, at, accepted.clips)
    && |plan.rightIds| == |selected| > 0 && lowered.nextClip == s.nextClipId + |selected|
    && plan.primary == Some(plan.rightIds[0])
    && (forall i :: 0 <= i < |selected| ==> RightHalfSpans(s, selected[i], at, plan.rightIds[i], accepted.clips))
  }

  lemma PhrasePredicted(
    s: State, selected: seq<ClipId>, proposed: Frame, snap: Option<SnapContext>, raw: State, built: Built, after: State)
    requires Valid(s) && SoundClips(s) && StrictlySorted(IdLte, selected)
    requires PlanPhraseSplit(s, selected, proposed, snap).Ok?
    requires var at := SnappedBoundary(proposed, selected, snap);
      Applied(s, selected, at, built.operations, raw) && after.clips == raw.clips && Valid(after)
    requires built.nextClip == s.nextClipId + |selected|
    ensures Predicted(s, selected, SnappedBoundary(proposed, selected, snap),
                      PlanPhraseSplit(s, selected, proposed, snap).value, built, after)
  {
    hide Valid, SoundClips, HalvesAt, SplitInto, RightHalfSpans;
    var at := SnappedBoundary(proposed, selected, snap);
    DraftShape(s, selected, at);
    forall i | 0 <= i < |selected| ensures RightHalfSpans(s, selected[i], at, s.nextClipId + i, after.clips) {
      RightHalves(s, selected, at, after.clips, i);
    }
  }

  ghost predicate RightHalfSpans(s: State, id: ClipId, at: Frame, rightId: int, clips: map<ClipId, Clip>) {
    && id in s.clips && id in clips && rightId in clips
    && clips[rightId].placement == FrameBounds(at, s.clips[id].placement.end)
    && clips[id].placement == FrameBounds(s.clips[id].placement.start, at)
    && ContentAligned(clips[id], s.clips[id])
    && (ContentAligned(clips[rightId], s.clips[id]) <==> Reachable(s.clips[id].placement.start, at))
  }

  lemma RightHalves(s: State, selected: seq<ClipId>, at: Frame, clips: map<ClipId, Clip>, i: nat)
    requires SoundClips(s) && SplitInto(s, selected, at, clips) && i < |selected|
    ensures RightHalfSpans(s, selected[i], at, s.nextClipId + i, clips)
  {
    hide SoundClips, HalvesAt, RightHalfSpans;
    assert HalvesAt(s, selected[i], at, s.nextClipId + i, clips);
    HalvesSpan(s, selected[i], at, s.nextClipId + i, clips);
  }

  lemma HalvesSpan(s: State, id: ClipId, at: Frame, rightId: int, clips: map<ClipId, Clip>)
    requires SoundClips(s) && HalvesAt(s, id, at, rightId, clips)
    ensures RightHalfSpans(s, id, at, rightId, clips)
  {
    hide ContentAligned, SplitClip, SoundClip, RestSound;
    SplitKeepsAlignment(s.clips[id], at, rightId);
  }

  lemma PhraseCommits(s: State, selected: seq<ClipId>, at: Frame, operations: seq<Operation>, raw: State)
    requires Valid(s) && SoundClips(s) && StrictlySorted(IdLte, selected) && selected != []
    requires AllCuttable(s, selected, at)
    requires Applied(s, selected, at, operations, raw)
    ensures ApplyOperations(operations, s).Ok? <==> AllRestsSound(s, selected, at)
    ensures ApplyOperations(operations, s).Ok? ==>
      ApplyOperations(operations, s).value.clips == raw.clips && Valid(ApplyOperations(operations, s).value)
    ensures ApplyOperations(operations, s).Err? ==> ApplyOperations(operations, s).error == ValidationFailed
  {
    hide Valid, SoundClips, Normalized, HalvesAt, SplitInto, Sound, AllRestsSound;
    forall i | 0 <= i < |selected| ensures selected[i] in s.clips { assert Cuttable(s, selected[i], at); }
    NormalizedKeepsClips(raw);
    if AllRestsSound(s, selected, at) {
      SplitStateSound(s, selected, at, raw);
      SplitStateDisjoint(s, selected, at, raw.clips);
      AcceptedExactlyWithoutRejectedOverlap(raw);
    }
    if Valid(Normalized(raw)) { AcceptedRestsSound(s, selected, at, Normalized(raw)); }
    assert raw != s;
  }

  // ----- a plan that is refused

  /** Two frames of audio that last one source frame: the middle of the clip falls between source frames. */
  function HalfSpeedClip(): Clip {
    var audio := AudioRegion(1, SourceRange(0, 1), DefaultPlayback(StretchRatio(1, 2)), false);
    Clip(1, 1, "Clip", FrameBounds(0, 2), AudioContent(audio), NO_FADES, 0.0, false, false)
  }

  function HalfSpeedState(): State {
    OneClipState(NewTrack(1, "Track", Audio).(clipIds := [1]), HalfSpeedClip())
  }

  /** The planner does not look at the source mapping, so a plan it makes can be refused when it is lowered. */
  lemma PlanCanBeRefused()
    ensures var s := HalfSpeedState();
      && Valid(s) && SoundClips(s)
      && PlanPhraseSplit(s, [1], 1, None).Ok?
      && LowerPhrase(s, PlanPhraseSplit(s, [1], 1, None).value.edits).Err?
  {
    hide Valid, SoundClips, PlanPhraseSplit, LowerPhrase, ApplyOperations, AllCuttable;
    var s := HalfSpeedState();
    HalfSpeedValid();
    HalfSpeedPlan(s);
    ValidSoundClips(s);
    HalfSpeedCut(s);
    PlannedSplitHappens(s, [1], 1, None);
  }

  lemma HalfSpeedValid()
    ensures Valid(HalfSpeedState())
  {
    OneClipStateValid("Track", HalfSpeedClip());
  }

  lemma HalfSpeedCut(s: State)
    requires s == HalfSpeedState() && SoundClips(s)
    ensures !AllCuttable(s, [1], 1) && StrictlySorted(IdLte, [1])
  {
    assert !Cuttable(s, [1][0], 1);
  }

  lemma HalfSpeedPlan(s: State)
    requires s == HalfSpeedState()
    ensures PlanPhraseSplit(s, [1], 1, None).Ok?
  {
    assert FirstMissing(s, [1]) == None by { assert FirstMissing(s, [1][1..]) == None; }
    assert DraftAll(s, [], 1) == Ok(Draft([], [], 2, 1));
    assert [1][..0] == [];
    assert DraftAll(s, [1], 1).Ok?;
  }
}
