/**
 * Which edits are refused, edit by edit from the arguments, and that every refusal names a fault that is there
 * (src/arrangement.rs).
 */
module EditRefusals {
  import opened Numbers
  import opened Outcomes
  import opened StretchRatios
  import opened Arrangement
  import opened Fades
  import opened ContentEdits
  import opened ClipEdits
  import opened EditPlans
  import opened Sessions
  import opened EditEffects

  predicate RoomForClip(s: State) {
    s.nextClipId < U64_MAX
  }

  /** A distance ends on a source frame of unwarped audio, or leaves the content's offset addressable. */
  predicate EdgeFits(content: ClipContent, distance: U64) {
    Mappable(content) && CutsExactly(content, distance)
  }

  /** The content may be moved under the clip: by whole source frames, and not beyond what can be addressed. */
  predicate SlipFits(content: ClipContent, delta: I64) {
    match content
    case AudioContent(audio) =>
      && EdgeFits(content, Abs(delta))
      && var shift := Abs(delta) * audio.playback.ratio.sourceFrames / audio.playback.ratio.projectFrames;
      (if delta < 0 then shift <= audio.source.start else audio.source.end + shift <= U64_MAX)
    case PatternContent(_, offset, _) => 0 <= offset + delta <= U64_MAX
    case AutomationContent(_, offset, _) => 0 <= offset + delta <= U64_MAX
  }

  /** What an edit asks of the arrangement before it becomes a transaction. */
  predicate Allowed(s: State, edit: Edit) {
    match edit
    case CreateTrack(_, _) => s.nextTrackId < U64_MAX
    case DeleteTrack(id) => id in s.tracks
    case ReorderTrack(id, index) => id in s.tracks && index < |s.trackOrder|
    case SetOverlapPolicy(id, _) => id in s.tracks
    case CreateAudioClip(track, _, _, _, source) => source.start < source.end && track in s.tracks && RoomForClip(s)
    case CreatePatternClip(track, _, _, _) => track in s.tracks && RoomForClip(s)
    case CreateAutomationClip(track, _, _, _) => track in s.tracks && RoomForClip(s)
    case DeleteClip(id) => Free(s, id)
    case MoveClip(id, track, start) =>
      Free(s, id) && track in s.tracks && start + s.clips[id].placement.Len() <= I64_MAX
    case TrimLeft(id, start) =>
      && Free(s, id)
      && var clip := s.clips[id];
      && clip.placement.start <= start < clip.placement.end
      && var distance := FramesBetween(clip.placement.start, start);
      && EdgeFits(clip.content, distance)
      && (clip.content.AudioContent? ==> distance < clip.placement.Len())
    case TrimRight(id, end) =>
      && Free(s, id)
      && var clip := s.clips[id];
      && clip.placement.start < end <= clip.placement.end
      && var distance := FramesBetween(end, clip.placement.end);
      && (clip.content.AudioContent? ==> EdgeFits(clip.content, distance) && distance < clip.placement.Len())
    case SlipClip(id, delta) => Free(s, id) && SlipFits(s.clips[id].content, delta)
    case Split(id, at) =>
      && Free(s, id) && RoomForClip(s)
      && var clip := s.clips[id];
      && clip.placement.start < at < clip.placement.end
      && EdgeFits(clip.content, FramesBetween(clip.placement.start, at))
    case DuplicateClip(id, start) =>
      id in s.clips && RoomForClip(s) && start + s.clips[id].placement.Len() <= I64_MAX
    case StretchResize(id, end, _, _) =>
      && Free(s, id)
      && s.clips[id].placement.start < end
      && (s.clips[id].content.AudioContent? ==> !s.clips[id].content.audio.warped)
    case SetFades(id, fades) => Free(s, id) && ValidFades(fades, s.clips[id].placement.Len())
    case PutMarkerAt(_, _) => true
  }

  lemma EdgeFitsExactly(content: ClipContent, len: U64, distance: U64)
    requires Mappable(content) && (content.AudioContent? ==> ValidAudio(content.audio, len))
    ensures AdvanceContent(content, distance).Ok? <==>
      EdgeFits(content, distance) && (content.AudioContent? ==> distance < len)
    ensures RetreatContentEnd(content, distance).Ok? <==>
      (content.AudioContent? ==> EdgeFits(content, distance) && distance < len)
  {
    if content.AudioContent? {
      if distance < len {
        TrimAcceptedExactlyOnSourceFrames(content, len, distance);
        SourceOffsetNeverOverflowsInside(content.audio.playback.ratio, distance, len);
      } else if AdvanceContent(content, distance).Ok? || RetreatContentEnd(content, distance).Ok? {
        AudioTrimReaches(content, len, distance);
      }
    }
  }

  lemma SourceNotEmpty(content: ClipContent, len: U64)
    requires content.AudioContent? && ValidAudio(content.audio, len) && len > 0
    ensures content.audio.source.Len() > 0
  {
    if content.audio.source.Len() == 0 { EmptySourceLastsNothing(content.audio, len); }
  }

  lemma SlipFitsExactly(clip: Clip, delta: I64)
    requires SoundClip(clip)
    ensures SlippedClip(clip, delta).Ok? <==> SlipFits(clip.content, delta)
  {
    if clip.content.AudioContent? {
      SourceNotEmpty(clip.content, clip.placement.Len());
      SlipAcceptedExactly(clip.content, delta);
    }
  }

  lemma SplitFitsExactly(clip: Clip, at: Frame, rightId: ClipId)
    requires SoundClip(clip) && SplitBoundaryOk(clip, at)
    ensures SplitClip(clip, at, rightId).Ok? <==> EdgeFits(clip.content, FramesBetween(clip.placement.start, at))
  {
    SplitSucceedsExactly(clip.content, clip.placement.Len(), FramesBetween(clip.placement.start, at));
  }

  lemma StretchFitsExactly(clip: Clip, end: Frame, algorithm: StretchAlgorithm, preservePitch: bool)
    requires SoundClip(clip)
    ensures StretchedClip(clip, end, algorithm, preservePitch).Ok? <==>
      clip.placement.start < end && (clip.content.AudioContent? ==> !clip.content.audio.warped)
  {
    if clip.content.AudioContent? && clip.placement.start < end {
      SourceNotEmpty(clip.content, clip.placement.Len());
      NewRatioIsCoprime(clip.content.audio.source.Len(), FrameBounds(clip.placement.start, end).Len());
    }
  }

  lemma ReplacementPlannedExactly(s: State, edit: Edit)
    requires Valid(s) && edit.ReplacesOneClip()
    ensures PlanReplacement(s, edit).Ok? <==> Allowed(s, edit)
  {
    hide Valid, EditableClip, EdgeFits, TrimLeftClip, TrimRightClip, SlippedClip, StretchedClip, SlipFits;
    hide ValidFades, ValidAudio, Free, SoundClip;
    var id := Target(edit);
    FreeExactly(s, id);
    if Free(s, id) {
      FreeStored(s, id);
      var clip := s.clips[id];
      match edit
      case MoveClip(_, _, _) =>
      case TrimLeft(_, start) => TrimLeftFitsExactly(clip, start);
      case TrimRight(_, end) => TrimRightFitsExactly(clip, end);
      case SlipClip(_, delta) => SlipFitsExactly(clip, delta);
      case StretchResize(_, end, algorithm, preservePitch) =>
        StretchFitsExactly(clip, end, algorithm, preservePitch);
      case SetFades(_, _) =>
    }
  }

  lemma FreeStored(s: State, id: ClipId)
    requires Valid(s) && Free(s, id)
    ensures id in s.clips && s.clips[id].id == id && SoundClip(s.clips[id]) && Mappable(s.clips[id].content)
  {
    StoredSound(s, id);
  }

  lemma TrimLeftFitsExactly(clip: Clip, start: Frame)
    requires SoundClip(clip)
    ensures TrimLeftClip(clip, start).Ok? <==>
      && clip.placement.start <= start < clip.placement.end
      && var distance := FramesBetween(clip.placement.start, start);
      && EdgeFits(clip.content, distance)
      && (clip.content.AudioContent? ==> distance < clip.placement.Len())
  {
    if clip.placement.start <= start < clip.placement.end {
      EdgeFitsExactly(clip.content, clip.placement.Len(), FramesBetween(clip.placement.start, start));
      hide EdgeFits, AdvanceContent;
    }
  }

  lemma TrimRightFitsExactly(clip: Clip, end: Frame)
    requires SoundClip(clip)
    ensures TrimRightClip(clip, end).Ok? <==>
      && clip.placement.start < end <= clip.placement.end
      && var distance := FramesBetween(end, clip.placement.end);
      && (clip.content.AudioContent? ==> EdgeFits(clip.content, distance) && distance < clip.placement.Len())
  {
    if clip.placement.start < end <= clip.placement.end {
      EdgeFitsExactly(clip.content, clip.placement.Len(), FramesBetween(end, clip.placement.end));
      hide EdgeFits, RetreatContentEnd;
    }
  }

  lemma AdditionPlannedExactly(s: State, edit: Edit)
    requires Valid(s) && !edit.EditsTracks() && !edit.ReplacesOneClip()
    ensures PlanAddition(s, edit).Ok? <==> Allowed(s, edit)
  {
    hide Valid, SplitClip, EdgeFits, NewRatio, ValidFades;
    match edit
    case CreateAudioClip(_, _, placement, _, source) =>
      if source.start < source.end { NewRatioIsCoprime(source.Len(), placement.Len()); }
    case DeleteClip(id) => FreeExactly(s, id);
    case Split(id, at) =>
      FreeExactly(s, id);
      if Free(s, id) {
        StoredSound(s, id);
        if SplitBoundaryOk(s.clips[id], at) { SplitFitsExactly(s.clips[id], at, s.nextClipId); }
      }
    case _ =>
  }

  lemma PlannedExactly(s: State, edit: Edit)
    requires Valid(s)
    ensures PlanEdit(s, edit).Ok? <==> Allowed(s, edit)
  {
    if edit.ReplacesOneClip() {
      ReplacementPlannedExactly(s, edit);
    } else if !edit.EditsTracks() {
      AdditionPlannedExactly(s, edit);
    }
  }

  /**
   * An edit that is not allowed is refused and changes nothing. One that is allowed is carried out, unless the
   * arrangement it would leave is not valid, or there is no revision left to give it.
   */
  lemma AllowedEditHappens(session: Session, edit: Edit)
    requires Valid(session.state)
    ensures var (next, outcome) := PerformStep(session, edit);
      && (outcome.Edited? || outcome.Refused?)
      && (outcome.Refused? ==> next == session)
      && (!Allowed(session.state, edit) ==> outcome.Refused?)
      && (Allowed(session.state, edit) && outcome.Refused? ==>
           || outcome.error == ValidationFailed
           || (outcome.error == RevisionOverflow && session.revision == U64_MAX))
  {
    hide Valid, Allowed, PlanEdit, ApplyAll, Normalized, Inverted;
    var s := session.state;
    PlannedExactly(s, edit);
    if PlanEdit(s, edit).Ok? {
      PlansKeepIdentities(s, edit);
      if ClearsNothing(s, edit) { ClearingIsIdle(s, edit); } else { PlanApplies(s, edit); }
    }
  }

  lemma ClearingIsIdle(s: State, edit: Edit)
    requires Valid(s) && ClearsNothing(s, edit)
    ensures PlanEdit(s, edit).Ok? && AllNoops(PlanEdit(s, edit).value.operations)
  {}

  // ----- each refusal names a fault

  predicate NamesTrack(edit: Edit, t: TrackId) {
    match edit
    case DeleteTrack(id) => t == id
    case ReorderTrack(id, _) => t == id
    case SetOverlapPolicy(id, _) => t == id
    case CreateAudioClip(track, _, _, _, _) => t == track
    case CreatePatternClip(track, _, _, _) => t == track
    case CreateAutomationClip(track, _, _, _) => t == track
    case MoveClip(_, track, _) => t == track
    case _ => false
  }

  predicate NamesClip(edit: Edit, c: ClipId) {
    if edit.ReplacesOneClip() then c == Target(edit)
    else
      match edit
      case DeleteClip(id) => c == id
      case Split(id, _) => c == id
      case DuplicateClip(id, _) => c == id
      case _ => false
  }

  /** The frames from the edge of the clip that the edit moves or cuts at, as the length of a range can say them. */
  predicate Distant(edit: Edit, clip: Clip, distance: U64) {
    match edit
    case TrimLeft(_, start) => start >= clip.placement.start && distance == FramesBetween(clip.placement.start, start)
    case TrimRight(_, end) => end <= clip.placement.end && distance == FramesBetween(end, clip.placement.end)
    case Split(_, at) => at >= clip.placement.start && distance == FramesBetween(clip.placement.start, at)
    case SlipClip(_, delta) => distance == Abs(delta)
    case _ => false
  }

  predicate OffsetOverflows(content: ClipContent, distance: U64) {
    match content
    case AudioContent(_) => false
    case PatternContent(_, offset, _) => offset + distance > U64_MAX
    case AutomationContent(_, offset, _) => offset + distance > U64_MAX
  }

  /** The fault that a refusal complains of is there. */
  ghost predicate Faulty(s: State, edit: Edit, error: ArrangementError) {
    match error
    case MissingTrack(t) => t !in s.tracks && NamesTrack(edit, t)
    case MissingClip(c) => c !in s.clips && NamesClip(edit, c)
    case LockedClip(c) => c in s.clips && NamesClip(edit, c) && !Free(s, c)
    case InvalidTrackIndex(index) => edit.ReorderTrack? && index == edit.newIndex >= |s.trackOrder|
    case IdOverflow => if edit.CreateTrack? then s.nextTrackId == U64_MAX else s.nextClipId == U64_MAX
    case EmptyRange =>
      || (edit.CreateAudioClip? && edit.source.start >= edit.source.end)
      || (edit.StretchResize? && edit.stretched in s.clips
          && s.clips[edit.stretched].placement.start >= edit.stretchEnd)
    case TimeOverflow =>
      exists c :: c in s.clips && NamesClip(edit, c)
        && ((edit.MoveClip? && edit.start + s.clips[c].placement.Len() > I64_MAX)
            || (edit.DuplicateClip? && edit.copyStart + s.clips[c].placement.Len() > I64_MAX)
            || exists d: U64 :: Distant(edit, s.clips[c], d) && OffsetOverflows(s.clips[c].content, d))
    case InvalidTrim =>
      exists c :: c in s.clips && NamesClip(edit, c)
        && (!TrimInside(edit, s.clips[c])
            || exists d: U64 :: Distant(edit, s.clips[c], d) && d >= s.clips[c].placement.Len())
    case InvalidSplit =>
      && edit.Split? && edit.cut in s.clips
      && !(s.clips[edit.cut].placement.start < edit.at < s.clips[edit.cut].placement.end)
    case InvalidFade =>
      && edit.SetFades? && edit.faded in s.clips
      && !ValidFades(edit.fades, s.clips[edit.faded].placement.Len())
    case SourceOutOfBounds =>
      edit.SlipClip? && edit.slipped in s.clips && !SlipFits(s.clips[edit.slipped].content, edit.delta)
    case WarpedEditRequiresCompiler =>
      exists c :: c in s.clips && NamesClip(edit, c)
        && s.clips[c].content.AudioContent? && s.clips[c].content.audio.warped
    case Stretch(cause) =>
      exists c, d: U64 :: c in s.clips && NamesClip(edit, c) && Distant(edit, s.clips[c], d)
        && s.clips[c].content.AudioContent? && BadlyMapped(s.clips[c].content.audio.playback.ratio, d, cause)
    case _ => false
  }

  predicate TrimInside(edit: Edit, clip: Clip) {
    match edit
    case TrimLeft(_, start) => clip.placement.start <= start < clip.placement.end
    case TrimRight(_, end) => clip.placement.start < end <= clip.placement.end
    case _ => true
  }

  /** The distance ends between two source frames, or further on in the source than can be counted. */
  predicate BadlyMapped(ratio: StretchRatio, distance: U64, cause: StretchError) {
    && ratio.NonZero()
    && var scaled := distance * ratio.sourceFrames;
    match cause
    case NonIntegralSourceBoundary => scaled % ratio.projectFrames != 0
    case TimeOverflow => scaled % ratio.projectFrames == 0 && scaled / ratio.projectFrames > U64_MAX
    case InvalidStretch => false
  }

  lemma TrackRefusalNamesFault(s: State, edit: Edit)
    requires Valid(s) && edit.EditsTracks() && PlanTrackEdit(s, edit).Err?
    ensures Faulty(s, edit, PlanTrackEdit(s, edit).error)
  {
    hide Valid;
  }

  lemma UneditableNamesFault(s: State, edit: Edit, id: ClipId)
    requires Valid(s) && NamesClip(edit, id) && EditableClip(s, id).Err?
    ensures Faulty(s, edit, EditableClip(s, id).error)
  {
    FreeExactly(s, id);
    hide Valid;
  }

  lemma UnmappedNamesFault(s: State, edit: Edit, id: ClipId, distance: U64)
    requires id in s.clips && NamesClip(edit, id) && s.clips[id].content.AudioContent?
    requires s.clips[id].content.audio.playback.ratio.NonZero()
    requires Distant(edit, s.clips[id], distance) && MapOffset(s.clips[id].content.audio, distance).Err?
    ensures Faulty(s, edit, MapOffset(s.clips[id].content.audio, distance).error)
  {
    var audio := s.clips[id].content.audio;
    if !audio.warped {
      assert BadlyMapped(audio.playback.ratio, distance, audio.playback.ratio.SourceOffset(distance).error);
    }
  }

  lemma OverflowNamesFault(s: State, edit: Edit, id: ClipId, distance: U64)
    requires id in s.clips && NamesClip(edit, id)
    requires Distant(edit, s.clips[id], distance) && OffsetOverflows(s.clips[id].content, distance)
    ensures Faulty(s, edit, ArrangementError.TimeOverflow)
  {}

  /** Why content cannot follow an edge over a distance. */
  predicate EdgeFault(content: ClipContent, len: U64, distance: U64, error: ArrangementError)
    requires Mappable(content)
  {
    || (!content.AudioContent? && OffsetOverflows(content, distance) && error == ArrangementError.TimeOverflow)
    || (content.AudioContent? && MapOffset(content.audio, distance) == Err(error))
    || (content.AudioContent? && distance >= len && error == InvalidTrim)
  }

  lemma EdgeFaultFound(content: ClipContent, len: U64, distance: U64)
    requires Mappable(content) && (content.AudioContent? ==> ValidAudio(content.audio, len))
    ensures AdvanceContent(content, distance).Err? ==>
      EdgeFault(content, len, distance, AdvanceContent(content, distance).error)
    ensures RetreatContentEnd(content, distance).Err? ==>
      EdgeFault(content, len, distance, RetreatContentEnd(content, distance).error)
  {
    if content.AudioContent? && MapOffset(content.audio, distance).Ok? && distance < len {
      TrimAcceptedExactlyOnSourceFrames(content, len, distance);
    }
  }

  lemma EdgeFaultIsFault(s: State, edit: Edit, id: ClipId, distance: U64, error: ArrangementError)
    requires id in s.clips && NamesClip(edit, id) && Distant(edit, s.clips[id], distance)
    requires Mappable(s.clips[id].content)
    requires EdgeFault(s.clips[id].content, s.clips[id].placement.Len(), distance, error)
    ensures Faulty(s, edit, error)
  {
    hide MapOffset, OffsetOverflows;
    var content := s.clips[id].content;
    if content.AudioContent? && MapOffset(content.audio, distance) == Err(error) {
      UnmappedNamesFault(s, edit, id, distance);
    } else if !content.AudioContent? {
      OverflowNamesFault(s, edit, id, distance);
    } else {
      assert distance >= s.clips[id].placement.Len();
    }
  }

  /** An edge that is moved outside of the clip. */
  lemma OutsideIsFault(s: State, edit: Edit, id: ClipId)
    requires id in s.clips && NamesClip(edit, id) && !TrimInside(edit, s.clips[id])
    ensures Faulty(s, edit, InvalidTrim)
  {}

  lemma TrimRefusalNamesFault(s: State, edit: Edit)
    requires Valid(s) && (edit.TrimLeft? || edit.TrimRight?)
    requires Free(s, Target(edit)) && PlanReplacement(s, edit).Err?
    ensures Faulty(s, edit, PlanReplacement(s, edit).error)
  {
    hide Valid, EditableClip, AdvanceContent, RetreatContentEnd, EdgeFault, Free, Faulty, ValidFades, ValidAudio;
    var id := Target(edit);
    FreeExactly(s, id);
    FreeStored(s, id);
    var clip := s.clips[id];
    if TrimInside(edit, clip) {
      var distance := if edit.TrimLeft? then FramesBetween(clip.placement.start, edit.newStart)
                      else FramesBetween(edit.newEnd, clip.placement.end);
      EdgeFaultFound(clip.content, clip.placement.Len(), distance);
      EdgeFaultIsFault(s, edit, id, distance, PlanReplacement(s, edit).error);
    } else {
      OutsideIsFault(s, edit, id);
    }
  }

  lemma SlipRefusalNamesFault(s: State, edit: Edit)
    requires Valid(s) && edit.SlipClip? && Free(s, edit.slipped) && PlanReplacement(s, edit).Err?
    ensures Faulty(s, edit, PlanReplacement(s, edit).error)
  {
    hide Valid, EditableClip, MapOffset, SlipFits, Free, SlipContent, ValidFades, ValidAudio;
    var id := edit.slipped;
    FreeExactly(s, id);
    FreeStored(s, id);
    var clip := s.clips[id];
    SlipFitsExactly(clip, edit.delta);
    SlipFaultFound(clip.content, edit.delta);
    if SlipContent(clip.content, edit.delta).error != SourceOutOfBounds {
      assert Distant(edit, clip, Abs(edit.delta));
      hide Faulty;
      UnmappedNamesFault(s, edit, id, Abs(edit.delta));
    }
  }

  lemma SlipFaultFound(content: ClipContent, delta: I64)
    requires Mappable(content) && SlipContent(content, delta).Err?
    ensures var error := SlipContent(content, delta).error;
      error == SourceOutOfBounds || (content.AudioContent? && MapOffset(content.audio, Abs(delta)) == Err(error))
  {
    hide MapOffset;
  }

  lemma SplitRefusalNamesFault(s: State, edit: Edit)
    requires Valid(s) && edit.Split? && Free(s, edit.cut) && PlanSplit(s, edit.cut, edit.at).Err?
    ensures Faulty(s, edit, PlanSplit(s, edit.cut, edit.at).error)
  {
    hide Valid, EditableClip, MapOffset, Free, SplitContent, EdgeFault, ValidFades, ValidAudio;
    var id := edit.cut;
    FreeExactly(s, id);
    FreeStored(s, id);
    var clip := s.clips[id];
    if SplitBoundaryOk(clip, edit.at) && RoomForClip(s) {
      var distance := FramesBetween(clip.placement.start, edit.at);
      assert Distant(edit, clip, distance);
      hide Faulty;
      SplitFaultFound(clip.content, distance, clip.placement.Len());
      EdgeFaultIsFault(s, edit, id, distance, SplitContent(clip.content, distance).error);
    }
  }

  lemma SplitFaultFound(content: ClipContent, distance: U64, len: U64)
    requires Mappable(content) && distance <= len
    requires content.AudioContent? ==> ValidAudio(content.audio, len)
    requires SplitContent(content, distance).Err?
    ensures EdgeFault(content, len, distance, SplitContent(content, distance).error)
  {
    SplitSucceedsExactly(content, len, distance);
  }

  lemma MoveRefusalNamesFault(s: State, edit: Edit)
    requires Valid(s) && edit.MoveClip? && Free(s, edit.moved) && PlanReplacement(s, edit).Err?
    ensures Faulty(s, edit, PlanReplacement(s, edit).error)
  {
    hide Valid, EditableClip;
    FreeExactly(s, edit.moved);
    assert NamesClip(edit, edit.moved);
  }

  lemma StretchRefusalNamesFault(s: State, edit: Edit)
    requires Valid(s) && edit.StretchResize? && Free(s, edit.stretched) && PlanReplacement(s, edit).Err?
    ensures Faulty(s, edit, PlanReplacement(s, edit).error)
  {
    hide Valid, EditableClip, ValidFades, ClampFades, ValidAudio;
    FreeExactly(s, edit.stretched);
    FreeStored(s, edit.stretched);
    assert NamesClip(edit, edit.stretched);
    StretchFitsExactly(s.clips[edit.stretched], edit.stretchEnd, edit.algorithm, edit.preservePitch);
  }

  lemma FadeRefusalNamesFault(s: State, edit: Edit)
    requires Valid(s) && edit.SetFades? && Free(s, edit.faded) && PlanReplacement(s, edit).Err?
    ensures Faulty(s, edit, PlanReplacement(s, edit).error)
  {
    hide Valid, EditableClip, ValidFades;
    FreeExactly(s, edit.faded);
  }

  lemma ReplacementRefusalNamesFault(s: State, edit: Edit)
    requires Valid(s) && edit.ReplacesOneClip() && PlanReplacement(s, edit).Err?
    ensures Faulty(s, edit, PlanReplacement(s, edit).error)
  {
    hide Valid, Faulty, SoundClip;
    var id := Target(edit);
    FreeExactly(s, id);
    if !Free(s, id) {
      UneditableNamesFault(s, edit, id);
      if edit.MoveClip? { MissingDestination(s, edit); }
    } else if edit.TrimLeft? || edit.TrimRight? {
      TrimRefusalNamesFault(s, edit);
    } else if edit.SlipClip? {
      SlipRefusalNamesFault(s, edit);
    } else if edit.MoveClip? {
      MoveRefusalNamesFault(s, edit);
    } else if edit.StretchResize? {
      StretchRefusalNamesFault(s, edit);
    } else {
      FadeRefusalNamesFault(s, edit);
    }
  }

  lemma MissingDestination(s: State, edit: Edit)
    requires edit.MoveClip?
    ensures edit.toTrack !in s.tracks ==> Faulty(s, edit, MissingTrack(edit.toTrack))
  {}

  lemma AdditionRefusalNamesFault(s: State, edit: Edit)
    requires Valid(s) && !edit.EditsTracks() && !edit.ReplacesOneClip() && PlanAddition(s, edit).Err?
    ensures Faulty(s, edit, PlanAddition(s, edit).error)
  {
    hide Valid;
    match edit
    case DeleteClip(id) => UneditableNamesFault(s, edit, id);
    case Split(id, at) =>
      FreeExactly(s, id);
      hide Faulty;
      if Free(s, id) { SplitRefusalNamesFault(s, edit); } else { UneditableNamesFault(s, edit, id); }
    case CreateAudioClip(_, _, placement, _, source) =>
      if source.start < source.end { NewRatioIsCoprime(source.Len(), placement.Len()); }
    case DuplicateClip(id, _) => assert NamesClip(edit, id);
    case _ =>
  }

  /** Whatever is refused before it becomes a transaction is refused for a fault that is there. */
  lemma RefusalNamesFault(s: State, edit: Edit)
    requires Valid(s) && PlanEdit(s, edit).Err?
    ensures Faulty(s, edit, PlanEdit(s, edit).error)
  {
    hide Valid, Faulty, PlanTrackEdit, PlanReplacement, PlanAddition;
    if edit.EditsTracks() {
      TrackRefusalNamesFault(s, edit);
    } else if edit.ReplacesOneClip() {
      ReplacementRefusalNamesFault(s, edit);
    } else {
      AdditionRefusalNamesFault(s, edit);
    }
  }
}
