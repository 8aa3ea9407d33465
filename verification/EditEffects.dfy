/** The effect of every edit. */
module EditEffects {
  import opened Numbers
  import opened Outcomes
  import opened Ordering
  import opened StretchRatios
  import opened Arrangement
  import opened Normalization
  import opened UndoLaw
  import opened Fades
  import opened ContentEdits
  import opened ClipEdits
  import opened EditPlans
  import opened Sessions

  // ----- what stays

  predicate SameSettings(before: State, after: State) {
    after.schemaVersion == before.schemaVersion && after.sampleRate == before.sampleRate
  }

  /** Tracks keep everything but their clip lists, which follow from the clips they hold. */
  predicate SameTracks(before: State, after: State) {
    && after.tracks.Keys == before.tracks.Keys
    && forall id :: id in before.tracks ==> SameButIndex(after.tracks[id], before.tracks[id])
  }

  predicate OnlyClipsChange(before: State, after: State) {
    && SameSettings(before, after) && SameTracks(before, after)
    && after.trackOrder == before.trackOrder && after.markers == before.markers
  }

  predicate OnlyTracksChange(before: State, after: State) {
    SameSettings(before, after) && after.clips == before.clips && after.markers == before.markers
  }

  /** The clip exists, and neither it nor its track is locked. */
  predicate Free(s: State, id: ClipId) {
    && id in s.clips && !s.clips[id].locked
    && s.clips[id].trackId in s.tracks && !s.tracks[s.clips[id].trackId].locked
  }

  /** One free clip has a new image, every other clip is the same. */
  predicate OneClipReplaced(before: State, after: State, id: ClipId) {
    && OnlyClipsChange(before, after)
    && Free(before, id) && id in after.clips
    && after.clips == before.clips[id := after.clips[id]]
  }

  predicate OneClipAdded(before: State, after: State, created: Created) {
    && OnlyClipsChange(before, after)
    && created == NewClipId(before.nextClipId)
    && before.nextClipId !in before.clips && before.nextClipId in after.clips
    && after.clips == before.clips[before.nextClipId := after.clips[before.nextClipId]]
  }

  // ----- orders, lengths, cuts

  /** One mention of a track is taken out, the others stay in sequence. */
  predicate TakenOut(order: seq<TrackId>, id: TrackId, rest: seq<TrackId>) {
    exists i :: 0 <= i < |order| && order[i] == id && rest == order[..i] + order[i + 1..]
  }

  /** The frames from one to another, as far as a length can say. */
  function FramesBetween(from: Frame, to: Frame): U64
    requires from <= to
  {
    if to - from <= I64_MAX then to - from else I64_MAX
  }

  // ----- fades at a cut

  predicate FadeIs(fade: Option<Fade>, duration: int, curve: FadeCurve, phaseStart: real, phaseEnd: real) {
    && fade.Some? && fade.value.duration == duration && fade.value.curve == curve
    && fade.value.phaseStart == phaseStart && fade.value.phaseEnd == phaseEnd
  }

  /** Behind a cut a fade-in is over, or goes on from the phase it has reached. */
  predicate FadeInBehind(part: Option<Fade>, whole: Option<Fade>, cut: nat) {
    match whole
    case None => part.None?
    case Some(fade) =>
      if fade.duration <= cut then part.None?
      else FadeIs(part, fade.duration - cut, fade.curve, LinearPhase(fade, cut), fade.phaseEnd)
  }

  /** Before a cut a fade-in is whole, or ends at the phase it has reached. */
  predicate FadeInBefore(part: Option<Fade>, whole: Option<Fade>, cut: nat) {
    match whole
    case None => part.None?
    case Some(fade) =>
      if fade.duration <= cut then part == whole
      else FadeIs(part, cut, fade.curve, fade.phaseStart, LinearPhase(fade, cut))
  }

  /** A fade-out that begins behind the cut is whole there; one under way goes on from the phase it has reached. */
  predicate FadeOutBehind(part: Option<Fade>, whole: Option<Fade>, total: int, cut: int)
    requires whole.Some? ==> whole.value.duration > 0
  {
    match whole
    case None => part.None?
    case Some(fade) =>
      var begin := total - fade.duration;
      if cut <= begin then part == whole
      else FadeIs(part, total - cut, fade.curve, LinearPhase(fade, cut - begin), fade.phaseEnd)
  }

  predicate FadeOutBefore(part: Option<Fade>, whole: Option<Fade>, total: int, cut: int)
    requires whole.Some? ==> whole.value.duration > 0
  {
    match whole
    case None => part.None?
    case Some(fade) =>
      var begin := total - fade.duration;
      if cut <= begin then part.None?
      else FadeIs(part, cut - begin, fade.curve, fade.phaseStart, LinearPhase(fade, cut - begin))
  }

  predicate Behind(part: ClipFades, whole: ClipFades, total: int, cut: nat)
    requires DurationsFit(whole, total)
  {
    FadeInBehind(part.fadeIn, whole.fadeIn, cut) && FadeOutBehind(part.fadeOut, whole.fadeOut, total, cut)
  }

  predicate Before(part: ClipFades, whole: ClipFades, total: int, cut: nat)
    requires DurationsFit(whole, total)
  {
    FadeInBefore(part.fadeIn, whole.fadeIn, cut) && FadeOutBefore(part.fadeOut, whole.fadeOut, total, cut)
  }

  lemma CutFades(fades: ClipFades, total: U64, cut: U64)
    requires DurationsFit(fades, total) && cut <= total
    ensures Before(SplitFades(fades, total, cut).0, fades, total, cut)
    ensures Behind(SplitFades(fades, total, cut).1, fades, total, cut)
  {}

  // ----- content at a cut

  /** The content from a later frame on: audio on the same map to the same far end, other content offset by the way. */
  ghost predicate ContentFrom(part: Clip, whole: Clip)
    requires whole.placement.start <= part.placement.start
  {
    match (part.content, whole.content)
    case (AudioContent(x), AudioContent(y)) =>
      && x == y.(source := x.source) && Aligned(x, part.placement.start, y, whole.placement.start)
      && (if y.playback.reverse then x.source.start == y.source.start else x.source.end == y.source.end)
    case (PatternContent(p, x, l), PatternContent(q, y, m)) =>
      p == q && l == m && x == y + FramesBetween(whole.placement.start, part.placement.start)
    case (AutomationContent(p, x, l), AutomationContent(q, y, m)) =>
      p == q && l == m && x == y + FramesBetween(whole.placement.start, part.placement.start)
    case _ => false
  }

  /** The content up to an earlier end: audio on the same map, other content as it was. */
  ghost predicate ContentUpTo(part: Clip, whole: Clip) {
    match (part.content, whole.content)
    case (AudioContent(x), AudioContent(y)) =>
      x == y.(source := x.source) && Aligned(x, part.placement.start, y, whole.placement.start)
    case (x, y) => x == y
  }

  /** The clip from a frame on, under a given identity. */
  ghost predicate RestOf(part: Clip, id: int, whole: Clip, from: Frame) {
    && part == whole.(id := part.id, placement := part.placement, content := part.content, fades := part.fades)
    && part.id == id
    && part.placement.start == from && part.placement.end == whole.placement.end
    && whole.placement.start <= from
    && ContentFrom(part, whole)
    && var total := whole.placement.Len();
    && DurationsFit(whole.fades, total)
    && Behind(part.fades, whole.fades, total, FramesBetween(whole.placement.start, from))
  }

  /** The clip up to a frame, `cut` frames of it by the count of its length. */
  ghost predicate FrontOf(part: Clip, whole: Clip, to: Frame, cut: nat) {
    && part == whole.(placement := part.placement, content := part.content, fades := part.fades)
    && part.placement.start == whole.placement.start && part.placement.end == to
    && ContentUpTo(part, whole)
    && var total := whole.placement.Len();
    && DurationsFit(whole.fades, total)
    && Before(part.fades, whole.fades, total, cut)
  }

  // ----- the effect of every edit

  /** The same clip elsewhere, as long as its length could say. */
  predicate Relocated(after: Clip, before: Clip, start: Frame) {
    && after == before.(id := after.id, trackId := after.trackId, placement := after.placement)
    && after.placement.start == start
    && after.placement.end == start + before.placement.Len()
  }

  ghost predicate TrackEffect(edit: Edit, created: Created, before: State, after: State)
    requires edit.EditsTracks()
  {
    match edit
    case CreateTrack(name, kind) =>
      var id := before.nextTrackId;
      && OnlyTracksChange(before, after)
      && created == NewTrackId(id) && id !in before.tracks
      && after.tracks == before.tracks[id := Track(id, name, kind, Mix, [], false, false, false, 0.0, 0.0, None)]
      && after.trackOrder == before.trackOrder + [id]
    case DeleteTrack(id) =>
      && SameSettings(before, after) && after.markers == before.markers && created == Nothing
      && id in before.tracks
      && after.clips == (map c | c in before.clips && before.clips[c].trackId != id :: before.clips[c])
      && after.tracks == before.tracks - {id}
      && TakenOut(before.trackOrder, id, after.trackOrder)
    case ReorderTrack(id, index) =>
      && OnlyTracksChange(before, after) && after.tracks == before.tracks && created == Nothing
      && |after.trackOrder| == |before.trackOrder| && index < |after.trackOrder|
      && after.trackOrder[index] == id
      && TakenOut(before.trackOrder, id, after.trackOrder[..index] + after.trackOrder[index + 1..])
    case SetOverlapPolicy(id, policy) =>
      && OnlyTracksChange(before, after) && after.trackOrder == before.trackOrder && created == Nothing
      && id in before.tracks
      && after.tracks == before.tracks[id := before.tracks[id].(overlap := policy)]
  }

  ghost predicate ReplacementEffect(edit: Edit, before: State, after: State)
    requires edit.ReplacesOneClip()
  {
    match edit
    case MoveClip(id, track, start) =>
      && OneClipReplaced(before, after, id) && track in before.tracks
      && after.clips[id].id == id && after.clips[id].trackId == track
      && Relocated(after.clips[id], before.clips[id], start)
    case TrimLeft(id, start) =>
      && OneClipReplaced(before, after, id)
      && RestOf(after.clips[id], id, before.clips[id], start)
    case TrimRight(id, end) =>
      && OneClipReplaced(before, after, id)
      && var whole := before.clips[id];
      && whole.placement.start < end <= whole.placement.end
      && var cut := whole.placement.Len() - FramesBetween(end, whole.placement.end);
      && cut >= 0 && FrontOf(after.clips[id], whole, end, cut)
    case SlipClip(id, delta) =>
      && OneClipReplaced(before, after, id)
      && after.clips[id] == before.clips[id].(content := after.clips[id].content)
      && HeardShifted(after.clips[id], before.clips[id], delta)
      && (before.clips[id].content.AudioContent? ==>
           var x, y := after.clips[id].content.audio, before.clips[id].content.audio;
           x == y.(source := x.source) && x.source.Len() == y.source.Len())
    case StretchResize(id, end, algorithm, preservePitch) =>
      && OneClipReplaced(before, after, id)
      && Stretched(after.clips[id], before.clips[id], end, algorithm, preservePitch)
    case SetFades(id, fades) =>
      && OneClipReplaced(before, after, id)
      && after.clips[id] == before.clips[id].(fades := fades)
  }

  /** A new length for the same source: the ratio in lowest terms, the algorithm and the pitch choice as asked. */
  predicate Stretched(after: Clip, before: Clip, end: Frame, algorithm: StretchAlgorithm, preservePitch: bool) {
    && after == before.(placement := after.placement, fades := after.fades, content := after.content)
    && after.placement.start == before.placement.start && after.placement.end == end
    && CutTo(after.fades.fadeIn, before.fades.fadeIn, after.placement.Len())
    && CutTo(after.fades.fadeOut, before.fades.fadeOut, after.placement.Len())
    && (if before.content.AudioContent? then
          && after.content.AudioContent?
          && var x, y := after.content.audio, before.content.audio;
          && x == y.(playback := y.playback.(
               ratio := x.playback.ratio, algorithm := algorithm, preservePitch := preservePitch))
          && MapsInLowestTerms(x, after.placement.Len())
        else after.content == before.content)
  }

  predicate MapsInLowestTerms(audio: AudioRegion, len: U64) {
    && ValidAudio(audio, len)
    && Gcd(audio.playback.ratio.sourceFrames, audio.playback.ratio.projectFrames) == 1
  }

  /** A new clip at full level, without fades, neither muted nor locked. */
  predicate NewClip(clip: Clip, id: int, track: TrackId, name: string, placement: FrameRange) {
    && clip.id == id && clip.trackId == track && clip.name == name && clip.placement == placement
    && clip.fades == ClipFades(None, None) && clip.gainDb == 0.0 && !clip.muted && !clip.locked
  }

  ghost predicate AdditionEffect(edit: Edit, created: Created, before: State, after: State)
    requires !edit.EditsTracks() && !edit.ReplacesOneClip()
  {
    match edit
    case CreateAudioClip(track, name, placement, asset, source) =>
      && OneClipAdded(before, after, created)
      && var clip := after.clips[before.nextClipId];
      && NewClip(clip, before.nextClipId, track, name, placement) && track in before.tracks
      && clip.content.AudioContent?
      && var audio := clip.content.audio;
      && audio == AudioRegion(asset, source, Playback(audio.playback.ratio, true, 0.0, false, PreservePitch), false)
      && source.start < source.end
      && MapsInLowestTerms(audio, placement.Len())
    case CreatePatternClip(track, name, placement, pattern) =>
      && OneClipAdded(before, after, created)
      && var clip := after.clips[before.nextClipId];
      && NewClip(clip, before.nextClipId, track, name, placement) && track in before.tracks
      && clip.content == PatternContent(pattern, 0, false)
    case CreateAutomationClip(track, name, placement, parameter) =>
      && OneClipAdded(before, after, created)
      && var clip := after.clips[before.nextClipId];
      && NewClip(clip, before.nextClipId, track, name, placement) && track in before.tracks
      && clip.content == AutomationContent(parameter, 0, false)
    case DeleteClip(id) =>
      && OnlyClipsChange(before, after) && created == Nothing
      && Free(before, id) && after.clips == before.clips - {id}
    case Split(id, at) =>
      && OnlyClipsChange(before, after) && created == NewClipId(before.nextClipId)
      && before.nextClipId !in before.clips && before.nextClipId in after.clips
      && Free(before, id) && id in after.clips
      && after.clips == before.clips[id := after.clips[id]][before.nextClipId := after.clips[before.nextClipId]]
      && var whole := before.clips[id];
      && whole.placement.start < at < whole.placement.end
      && FrontOf(after.clips[id], whole, at, FramesBetween(whole.placement.start, at))
      && RestOf(after.clips[before.nextClipId], before.nextClipId, whole, at)
    case DuplicateClip(id, start) =>
      && OneClipAdded(before, after, created)
      && id in before.clips
      && var copy := after.clips[before.nextClipId];
      && copy.id == before.nextClipId && copy.trackId == before.clips[id].trackId
      && Relocated(copy, before.clips[id], start)
    case PutMarkerAt(at, marker) =>
      && SameSettings(before, after) && created == Nothing
      && after.tracks == before.tracks && after.clips == before.clips && after.trackOrder == before.trackOrder
      && after.markers == (match marker case None => before.markers - {at} case Some(m) => before.markers[at := m])
  }

  /** What an edit that was carried out has made of the arrangement, and of nothing else. */
  ghost predicate Effect(edit: Edit, created: Created, before: State, after: State) {
    if edit.EditsTracks() then TrackEffect(edit, created, before, after)
    else if edit.ReplacesOneClip() then ReplacementEffect(edit, before, after) && created == Nothing
    else AdditionEffect(edit, created, before, after)
  }

  // ----- normalization only rebuilds what follows

  /** A planned transaction that applies leaves its raw result, normalized, even where it changes nothing. */
  lemma EditLeaves(session: Session, edit: Edit)
    requires Valid(session.state) && PerformStep(session, edit).1.Edited?
    ensures PlanEdit(session.state, edit).Ok?
    ensures PerformStep(session, edit).1.created == PlanEdit(session.state, edit).value.created
    ensures var s, operations := session.state, PlanEdit(session.state, edit).value.operations;
      var next := PerformStep(session, edit).0.state;
      if ApplyAll(operations, s).Ok? then next == Normalized(ApplyAll(operations, s).value)
      else next == s && AllNoops(operations)
  {
    hide Normalized, Inverted, AllNoops, ApplyAll, Valid, PlanEdit, Pushed;
    var s, operations := session.state, PlanEdit(session.state, edit).value.operations;
    if AllNoops(operations) && ApplyAll(operations, s).Ok? {
      CountersValid(s);
      NoopsKeepState(operations, s);
      NormalizedIdentity(s);
    }
  }

  lemma CountersValid(s: State)
    requires Valid(s)
    ensures ValidCounters(s)
  {}

  /** Normalization of a state whose order is whole leaves everything but the clip lists. */
  lemma NormalizedSame(raw: State)
    requires OrderMatches(raw.trackOrder, raw.tracks.Keys)
    ensures var after := Normalized(raw);
      && after == raw.(tracks := after.tracks) && SameTracks(raw, after)
  {
    NormalizedOrderIdentity(raw.trackOrder, raw.tracks.Keys);
  }

  /** The tracks that stay keep their clips; a new track has none. */
  predicate TracksEdited(s: State, raw: State) {
    && OrderMatches(raw.trackOrder, raw.tracks.Keys)
    && raw.clips == (map c | c in s.clips && s.clips[c].trackId in raw.tracks :: s.clips[c])
    && (forall id :: id in raw.tracks ==>
         if id in s.tracks then raw.tracks[id].clipIds == s.tracks[id].clipIds else raw.tracks[id].clipIds == [])
  }

  /** An edit of tracks leaves nothing for normalization to do. */
  lemma EditedTracksNormal(s: State, raw: State)
    requires Valid(s) && TracksEdited(s, raw)
    ensures Normalized(raw) == raw
  {
    NormalizedOrderIdentity(raw.trackOrder, raw.tracks.Keys);
    forall id | id in raw.tracks ensures ClipIndex(raw.clips, id) == raw.tracks[id].clipIds {
      EditedTrackIndex(s, raw, id);
    }
    hide Valid;
    assert Indexed(raw.tracks, raw.clips) == raw.tracks;
  }

  lemma EditedTrackIndex(s: State, raw: State, id: TrackId)
    requires Valid(s) && TracksEdited(s, raw) && id in raw.tracks
    ensures ClipIndex(raw.clips, id) == raw.tracks[id].clipIds
  {
    ValidKeyed(s);
    if id in s.tracks {
      assert ValidTrack(id, s.tracks[id], s.clips);
      ClipIndexUnique(id, s.tracks[id], s.clips);
      SamePlaces(s.clips, raw.clips, id);
    } else {
      forall c | c in s.clips ensures s.clips[c].trackId != id { assert ValidClip(c, s.clips[c], s.tracks); }
      EmptyIndex(raw.clips, id);
    }
  }

  lemma SamePlaces(clips: map<ClipId, Clip>, others: map<ClipId, Clip>, id: TrackId)
    requires forall c :: c in clips && clips[c].trackId == id <==> c in others && others[c].trackId == id
    requires forall c :: c in others && others[c].trackId == id ==> others[c] == clips[c]
    ensures PlacesOnTrack(others, id) == PlacesOnTrack(clips, id)
  {
    forall p ensures p in PlacesOnTrack(others, id) <==> p in PlacesOnTrack(clips, id) {}
  }

  lemma AllClipsStay(s: State, tracks: map<TrackId, Track>)
    requires Valid(s) && s.tracks.Keys <= tracks.Keys
    ensures s.clips == (map c | c in s.clips && s.clips[c].trackId in tracks :: s.clips[c])
  {
    HomesExist(s);
  }

  // ----- edits of tracks

  lemma {:induction false} WithoutTakesOut(order: seq<TrackId>, id: TrackId, i: nat)
    requires Distinct(order) && i < |order| && order[i] == id
    ensures Without(order, id) == order[..i] + order[i + 1..]
  {
    var n := |order| - 1;
    var front := order[..n];
    if i == n {
      WithoutAbsent(front, id);
      assert order[i + 1..] == [];
    } else {
      WithoutTakesOut(front, id, i);
      assert order[..i] == front[..i] && order[i + 1..] == front[i + 1..] + [order[n]];
    }
  }

  lemma {:induction false} WithoutAbsent(order: seq<TrackId>, id: TrackId)
    requires id !in order
    ensures Without(order, id) == order
  {
    if order != [] { WithoutAbsent(order[..|order| - 1], id); }
  }

  lemma MovedPlaces(order: seq<TrackId>, id: TrackId, index: nat)
    requires id in order && index < |order|
    ensures var moved := Moved(order, IndexOf(order, id), index);
      && |moved| == |order| && moved[index] == id
      && TakenOut(order, id, moved[..index] + moved[index + 1..])
  {
    var from := IndexOf(order, id);
    var rest, moved := order[..from] + order[from + 1..], Moved(order, from, index);
    assert moved[..index] == rest[..index] && moved[index + 1..] == rest[index..];
    assert moved[..index] + moved[index + 1..] == order[..from] + order[from + 1..];
  }

  lemma {:induction false} RemovalsRemove(ids: seq<ClipId>, s: State)
    requires Distinct(ids) && forall id :: id in ids ==> id in s.clips && s.clips[id].id == id
    ensures ApplyAll(Removals(ids, s.clips), s) == Ok(s.(clips := s.clips - Elements(ids)))
  {
    if ids == [] {
      assert s.clips - Elements(ids) == s.clips;
    } else {
      var front, id := ids[..|ids| - 1], ids[|ids| - 1];
      assert ids == front + [id];
      RemovalsRemove(front, s);
      var removals := Removals(ids, s.clips);
      assert removals[..|removals| - 1] == Removals(front, s.clips);
      assert Elements(ids) == Elements(front) + {id};
      assert removals[|removals| - 1] == PutClip(Some(s.clips[id]), None);
      RemoveOne(s, Elements(front), id);
    }
  }

  lemma RemoveOne(s: State, gone: set<ClipId>, id: ClipId)
    requires id in s.clips && s.clips[id].id == id && id !in gone
    ensures PutClip(Some(s.clips[id]), None).Apply(s.(clips := s.clips - gone))
      == Ok(s.(clips := s.clips - (gone + {id})))
  {
    assert s.clips - gone - {id} == s.clips - (gone + {id});
  }

  lemma CreateTrackEffect(s: State, name: string, kind: TrackKind, raw: State)
    requires Valid(s) && PlanNewTrack(s, name, kind).Ok?
    requires ApplyAll(PlanNewTrack(s, name, kind).value.operations, s) == Ok(raw)
    ensures Normalized(raw) == raw
    ensures TrackEffect(CreateTrack(name, kind), PlanNewTrack(s, name, kind).value.created, s, raw)
  {
    hide Valid, ApplyAll, OrderMatches, Normalized;
    var operations, id := PlanNewTrack(s, name, kind).value.operations, s.nextTrackId;
    TwoOperations(operations[0], operations[1], s);
    NextClipUnused(s);
    OrderMatchesKept(s);
    AppendedMatches(s.trackOrder, id, s.tracks.Keys);
    assert raw.tracks.Keys == s.tracks.Keys + {id};
    AllClipsStay(s, raw.tracks);
    EditedTracksNormal(s, raw);
  }

  lemma DeleteTrackEffect(s: State, id: TrackId, raw: State)
    requires Valid(s) && PlanDeleteTrack(s, id).Ok?
    requires ApplyAll(PlanDeleteTrack(s, id).value.operations, s) == Ok(raw)
    ensures Normalized(raw) == raw
    ensures TrackEffect(DeleteTrack(id), PlanDeleteTrack(s, id).value.created, s, raw)
  {
    hide ApplyAll, Valid, PlanDeleteTrack, Normalized, TakenOut, OrderMatches, Without;
    DeletePlanned(s, id);
    DeleteTrackApplies(s, id);
    TrackTakenOut(s, id);
    assert raw.tracks.Keys == s.tracks.Keys - {id};
    HomesExist(s);
    EditedTracksNormal(s, raw);
  }

  lemma DeletePlanned(s: State, id: TrackId)
    requires Valid(s) && PlanDeleteTrack(s, id).Ok?
    ensures id in s.tracks && PlanDeleteTrack(s, id).value.created == Nothing
  {}

  lemma HomesExist(s: State)
    requires Valid(s)
    ensures forall c :: c in s.clips ==> s.clips[c].trackId in s.tracks
  {
    forall c | c in s.clips ensures s.clips[c].trackId in s.tracks { assert ValidClip(c, s.clips[c], s.tracks); }
  }

  /** The arrangement without a track and its clips. */
  function Dropped(s: State, id: TrackId): State {
    s.(clips := map c | c in s.clips && s.clips[c].trackId != id :: s.clips[c],
       tracks := s.tracks - {id}, trackOrder := Without(s.trackOrder, id))
  }

  lemma DeleteTrackApplies(s: State, id: TrackId)
    requires Valid(s) && PlanDeleteTrack(s, id).Ok?
    ensures ApplyAll(PlanDeleteTrack(s, id).value.operations, s) == Ok(Dropped(s, id))
  {
    ListedClips(s, id);
    hide Valid, ApplyAll, Without, Operation.Apply, Removals, Elements, Distinct, Dropped;
    var track := s.tracks[id];
    var removals := Removals(track.clipIds, s.clips);
    RemovalsRemove(track.clipIds, s);
    var back := [PutTrack(Some(track), None), SetTrackOrder(s.trackOrder, Without(s.trackOrder, id))];
    assert PlanDeleteTrack(s, id).value.operations == removals + back;
    AppliedInTwo(removals, back, s);
    EmptiedTrackDropped(s, s.(clips := s.clips - Elements(track.clipIds)), id);
  }

  /** Without the clips that a track lists, just the clips of the other tracks are left. */
  lemma ListedClips(s: State, id: TrackId)
    requires Valid(s) && id in s.tracks
    ensures s.tracks[id].id == id && Distinct(s.tracks[id].clipIds)
    ensures forall c :: c in s.tracks[id].clipIds ==> c in s.clips && s.clips[c].id == c
    ensures s.clips - Elements(s.tracks[id].clipIds) == Dropped(s, id).clips
  {
    assert ValidTrack(id, s.tracks[id], s.clips);
    ValidKeyed(s);
  }

  lemma EmptiedTrackDropped(s: State, emptied: State, id: TrackId)
    requires id in s.tracks && s.tracks[id].id == id && emptied == s.(clips := Dropped(s, id).clips)
    ensures ApplyAll(
        [PutTrack(Some(s.tracks[id]), None), SetTrackOrder(s.trackOrder, Without(s.trackOrder, id))], emptied)
      == Ok(Dropped(s, id))
  {
    hide ApplyAll;
    TwoOperations(
      PutTrack(Some(s.tracks[id]), None), SetTrackOrder(s.trackOrder, Without(s.trackOrder, id)), emptied);
  }

  lemma TrackTakenOut(s: State, id: TrackId)
    requires Valid(s) && id in s.tracks
    ensures TakenOut(s.trackOrder, id, Without(s.trackOrder, id))
    ensures OrderMatches(Without(s.trackOrder, id), s.tracks.Keys - {id})
  {
    WithoutElements(s.trackOrder, id);
    assert id in Elements(s.trackOrder);
    var i :| 0 <= i < |s.trackOrder| && s.trackOrder[i] == id;
    WithoutTakesOut(s.trackOrder, id, i);
  }

  lemma ReorderTrackEffect(s: State, id: TrackId, index: nat, raw: State)
    requires Valid(s) && PlanReorder(s, id, index).Ok?
    requires ApplyAll(PlanReorder(s, id, index).value.operations, s) == Ok(raw)
    ensures Normalized(raw) == raw
    ensures TrackEffect(ReorderTrack(id, index), PlanReorder(s, id, index).value.created, s, raw)
  {
    hide ApplyAll, TakenOut, OrderMatches, Valid, PlanReorder, Normalized;
    var order := Reordered(s, id, index);
    OneOperation(SetTrackOrder(s.trackOrder, order), s);
    AllClipsStay(s, raw.tracks);
    EditedTracksNormal(s, raw);
  }

  lemma Reordered(s: State, id: TrackId, index: nat) returns (order: seq<TrackId>)
    requires Valid(s) && PlanReorder(s, id, index).Ok?
    ensures PlanReorder(s, id, index).value == Plan([SetTrackOrder(s.trackOrder, order)], Nothing)
    ensures OrderMatches(order, s.tracks.Keys)
    ensures |order| == |s.trackOrder| && index < |order| && order[index] == id
    ensures TakenOut(s.trackOrder, id, order[..index] + order[index + 1..])
  {
    assert id in Elements(s.trackOrder);
    order := Moved(s.trackOrder, IndexOf(s.trackOrder, id), index);
    MovedPlaces(s.trackOrder, id, index);
    MovedMatches(s.trackOrder, IndexOf(s.trackOrder, id), index, s.tracks.Keys);
    hide Moved, TakenOut, OrderMatches, IndexOf;
  }

  lemma SetOverlapPolicyEffect(s: State, id: TrackId, policy: OverlapPolicy, raw: State)
    requires Valid(s) && PlanTrackEdit(s, SetOverlapPolicy(id, policy)).Ok?
    requires ApplyAll(PlanTrackEdit(s, SetOverlapPolicy(id, policy)).value.operations, s) == Ok(raw)
    ensures Normalized(raw) == raw
    ensures TrackEffect(
      SetOverlapPolicy(id, policy), PlanTrackEdit(s, SetOverlapPolicy(id, policy)).value.created, s, raw)
  {
    assert ValidTrack(id, s.tracks[id], s.clips);
    OneOperation(PlanTrackEdit(s, SetOverlapPolicy(id, policy)).value.operations[0], s);
    assert raw.tracks.Keys == s.tracks.Keys;
    AllClipsStay(s, raw.tracks);
    EditedTracksNormal(s, raw);
    hide Valid;
  }

  // ----- edits of clips

  lemma ReplacesFree(s: State, id: ClipId, after: ClipResult, raw: State)
    requires Valid(s) && EditableClip(s, id).Ok? && after.Ok? && after.value.id == s.clips[id].id
    requires ApplyAll(ReplaceClip(s.clips[id], after).value.operations, s) == Ok(raw)
    ensures OneClipReplaced(s, Normalized(raw), id) && Normalized(raw).clips[id] == after.value
    ensures SoundClip(s.clips[id]) && s.clips[id].id == id
  {
    hide Valid, Normalized, SoundClip, OneClipReplaced, ApplyAll, ReplaceClip;
    FreeExactly(s, id);
    StoredSound(s, id);
    OneReplaced(s, s.clips[id], after, raw);
  }

  /** The clip in a valid state passes the checks of one clip. */
  lemma StoredSound(s: State, id: ClipId)
    requires Valid(s) && id in s.clips
    ensures s.clips[id].id == id && SoundClip(s.clips[id])
    ensures DurationsFit(s.clips[id].fades, s.clips[id].placement.Len())
  {
    assert ValidClip(id, s.clips[id], s.tracks);
  }

  lemma FreeExactly(s: State, id: ClipId)
    requires Valid(s)
    ensures EditableClip(s, id).Ok? <==> Free(s, id)
    ensures EditableClip(s, id).Ok? ==> EditableClip(s, id).value == s.clips[id]
  {
    if id in s.clips { assert ValidClip(id, s.clips[id], s.tracks); }
  }

  lemma TrimLeftEffect(clip: Clip, start: Frame)
    requires SoundClip(clip) && TrimLeftClip(clip, start).Ok?
    ensures RestOf(TrimLeftClip(clip, start).value, clip.id, clip, start)
  {
    TrimLeftKeepsAlignment(clip, start);
    CutFades(clip.fades, clip.placement.Len(), FramesBetween(clip.placement.start, start));
  }

  lemma TrimRightEffect(clip: Clip, end: Frame)
    requires SoundClip(clip) && TrimRightClip(clip, end).Ok?
    ensures clip.placement.start < end <= clip.placement.end
    ensures var cut := clip.placement.Len() - FramesBetween(end, clip.placement.end);
      cut >= 0 && FrontOf(TrimRightClip(clip, end).value, clip, end, cut)
  {
    TrimRightKeepsAlignment(clip, end);
    CutFades(clip.fades, clip.placement.Len(), clip.placement.Len() - FramesBetween(end, clip.placement.end));
  }

  lemma SplitEffect(clip: Clip, at: Frame, rightId: ClipId)
    requires SoundClip(clip) && SplitBoundaryOk(clip, at) && SplitClip(clip, at, rightId).Ok?
    requires SoundClip(SplitClip(clip, at, rightId).value.1)
    ensures var (left, right) := SplitClip(clip, at, rightId).value;
      FrontOf(left, clip, at, FramesBetween(clip.placement.start, at)) && RestOf(right, rightId, clip, at)
  {
    SplitKeepsAlignment(clip, at, rightId);
    CutFades(clip.fades, clip.placement.Len(), FramesBetween(clip.placement.start, at));
  }

  lemma StretchEffect(clip: Clip, end: Frame, algorithm: StretchAlgorithm, preservePitch: bool)
    requires SoundClip(clip) && StretchedClip(clip, end, algorithm, preservePitch).Ok?
    ensures Stretched(StretchedClip(clip, end, algorithm, preservePitch).value, clip, end, algorithm, preservePitch)
  {
    StretchKeepsSource(clip, end, algorithm, preservePitch);
  }

  /** One clip replaced by another image of it, and the clip lists rebuilt. */
  lemma OneReplaced(s: State, before: Clip, after: ClipResult, raw: State)
    requires Valid(s) && Free(s, before.id) && s.clips[before.id] == before
    requires after.Ok? && after.value.id == before.id
    requires ApplyAll(ReplaceClip(before, after).value.operations, s) == Ok(raw)
    ensures OneClipReplaced(s, Normalized(raw), before.id)
    ensures Normalized(raw).clips[before.id] == after.value
  {
    hide Valid, Normalized, OrderMatches, ApplyAll, SoundClip;
    OrderMatchesKept(s);
    var op := PutClip(Some(before), Some(after.value));
    assert ReplaceClip(before, after).value.operations == [op];
    OneOperation(op, s);
    assert raw == s.(clips := s.clips[before.id := after.value], nextClipId := raw.nextClipId);
    NormalizedSame(raw);
  }

  lemma OrderMatchesKept(s: State)
    requires Valid(s)
    ensures OrderMatches(s.trackOrder, s.tracks.Keys)
  {}

  lemma SlipEffect(clip: Clip, delta: I64)
    requires SoundClip(clip) && SlippedClip(clip, delta).Ok?
    ensures var after := SlippedClip(clip, delta).value;
      && after == clip.(content := after.content) && HeardShifted(after, clip, delta)
      && (clip.content.AudioContent? ==>
           && after.content.AudioContent?
           && var x, y := after.content.audio, clip.content.audio;
           x == y.(source := x.source) && x.source.Len() == y.source.Len())
  {
    SlipMovesContent(clip, delta);
  }

  lemma AudioClipEffect(source: SourceRange, placement: FrameRange)
    requires source.start < source.end && NewRatio(source.Len(), placement.Len()).Ok?
    ensures forall asset: U64 ::
      var playback := Playback(NewRatio(source.Len(), placement.Len()).value, true, 0.0, false, PreservePitch);
      MapsInLowestTerms(AudioRegion(asset, source, playback, false), placement.Len())
  {
    NewRatioMapsWholeClip(source.Len(), placement.Len());
    NewRatioIsCoprime(source.Len(), placement.Len());
  }

  lemma ReplacementEffects(s: State, edit: Edit, raw: State)
    requires Valid(s) && edit.ReplacesOneClip() && PlanReplacement(s, edit).Ok?
    requires ApplyAll(PlanReplacement(s, edit).value.operations, s) == Ok(raw)
    ensures ReplacementEffect(edit, s, Normalized(raw))
  {
    hide Valid, Normalized, SoundClip, OneClipReplaced, ApplyAll, TrimLeftClip, TrimRightClip, SlippedClip;
    hide StretchedClip, RestOf, FrontOf, HeardShifted, Stretched, ValidFades, EditableClip;
    match edit
    case MoveClip(id, track, start) =>
      ReplacesFree(s, id, MovedClip(s.clips[id], track, start), raw);
    case TrimLeft(id, start) =>
      ReplacesFree(s, id, TrimLeftClip(s.clips[id], start), raw);
      TrimLeftEffect(s.clips[id], start);
    case TrimRight(id, end) =>
      ReplacesFree(s, id, TrimRightClip(s.clips[id], end), raw);
      TrimRightEffect(s.clips[id], end);
    case SlipClip(id, delta) =>
      ReplacesFree(s, id, SlippedClip(s.clips[id], delta), raw);
      SlipEffect(s.clips[id], delta);
    case StretchResize(id, end, algorithm, preservePitch) =>
      ReplacesFree(s, id, StretchedClip(s.clips[id], end, algorithm, preservePitch), raw);
      StretchEffect(s.clips[id], end, algorithm, preservePitch);
    case SetFades(id, fades) =>
      ReplacesFree(s, id, Ok(s.clips[id].(fades := fades)), raw);
  }

  // ----- new clips, removed clips, markers

  /** A state that differs in its clips alone, normalized. */
  lemma ClipsChanged(s: State, raw: State)
    requires Valid(s) && raw == s.(clips := raw.clips, nextClipId := raw.nextClipId)
    ensures OnlyClipsChange(s, Normalized(raw)) && Normalized(raw).clips == raw.clips
  {
    OrderMatchesKept(s);
    hide Valid, OrderMatches, Normalized;
    NormalizedSame(raw);
  }

  lemma NextClipUnused(s: State)
    requires Valid(s)
    ensures s.nextClipId !in s.clips && s.nextTrackId !in s.tracks
  {}

  lemma OneAdded(s: State, clip: Clip, raw: State)
    requires Valid(s) && clip.id == s.nextClipId
    requires ApplyAll([PutClip(None, Some(clip))], s) == Ok(raw)
    ensures OneClipAdded(s, Normalized(raw), NewClipId(s.nextClipId)) && Normalized(raw).clips[s.nextClipId] == clip
  {
    hide Valid, Normalized, ApplyAll;
    NextClipUnused(s);
    OneOperation(PutClip(None, Some(clip)), s);
    assert raw.clips == s.clips[s.nextClipId := clip];
    ClipsChanged(s, raw);
  }

  lemma NewClipEffects(s: State, edit: Edit, raw: State)
    requires Valid(s) && (edit.CreateAudioClip? || edit.CreatePatternClip? || edit.CreateAutomationClip?)
    requires PlanAddition(s, edit).Ok?
    requires ApplyAll(PlanAddition(s, edit).value.operations, s) == Ok(raw)
    ensures AdditionEffect(edit, PlanAddition(s, edit).value.created, s, Normalized(raw))
  {
    hide Valid, Normalized, ApplyAll, OneClipAdded, NewRatio, MapsInLowestTerms;
    var clip := PlanAddition(s, edit).value.operations[0].clipAfter.value;
    assert PlanAddition(s, edit).value.operations == [PutClip(None, Some(clip))];
    OneAdded(s, clip, raw);
    if edit.CreateAudioClip? { AudioClipEffect(edit.source, edit.audioPlacement); }
  }

  lemma DuplicateEffect(s: State, id: ClipId, start: Frame, raw: State)
    requires Valid(s) && PlanDuplicate(s, id, start).Ok?
    requires ApplyAll(PlanDuplicate(s, id, start).value.operations, s) == Ok(raw)
    ensures AdditionEffect(DuplicateClip(id, start), PlanDuplicate(s, id, start).value.created, s, Normalized(raw))
  {
    hide Valid, Normalized, ApplyAll, OneClipAdded;
    var copy := PlanDuplicate(s, id, start).value.operations[0].clipAfter.value;
    assert PlanDuplicate(s, id, start).value.operations == [PutClip(None, Some(copy))];
    OneAdded(s, copy, raw);
  }

  lemma DeleteClipEffect(s: State, id: ClipId, raw: State)
    requires Valid(s) && EditableClip(s, id).Ok?
    requires ApplyAll([PutClip(Some(s.clips[id]), None)], s) == Ok(raw)
    ensures AdditionEffect(DeleteClip(id), Nothing, s, Normalized(raw))
  {
    hide Valid, Normalized, ApplyAll, EditableClip, OnlyClipsChange;
    FreeExactly(s, id);
    StoredSound(s, id);
    OneOperation(PutClip(Some(s.clips[id]), None), s);
    assert raw.clips == s.clips - {id};
    ClipsChanged(s, raw);
  }

  /** The right half of an accepted split passes the checks, so no saturated length came in. */
  lemma SplitClipEffect(s: State, id: ClipId, at: Frame, raw: State)
    requires Valid(s) && PlanSplit(s, id, at).Ok?
    requires ApplyAll(PlanSplit(s, id, at).value.operations, s) == Ok(raw)
    requires Valid(Normalized(raw))
    ensures AdditionEffect(Split(id, at), PlanSplit(s, id, at).value.created, s, Normalized(raw))
  {
    hide Valid, Normalized, ApplyAll, EditableClip, OnlyClipsChange, SplitClip, RestOf, FrontOf, SoundClip;
    FreeExactly(s, id);
    StoredSound(s, id);
    NextClipUnused(s);
    var (left, right) := SplitClip(s.clips[id], at, s.nextClipId).value;
    var cut, rest := PutClip(Some(s.clips[id]), Some(left)), PutClip(None, Some(right));
    assert PlanSplit(s, id, at).value.operations == [cut, rest];
    TwoOperations(cut, rest, s);
    assert raw.clips == s.clips[id := left][s.nextClipId := right];
    ClipsChanged(s, raw);
    StoredSound(Normalized(raw), s.nextClipId);
    SplitEffect(s.clips[id], at, s.nextClipId);
  }

  lemma MarkerEffect(s: State, at: Frame, marker: Option<Marker>, raw: State)
    requires Valid(s)
    requires ApplyAll([PutMarker(at, Lookup(s.markers, at), marker)], s) == Ok(raw)
    ensures AdditionEffect(PutMarkerAt(at, marker), Nothing, s, Normalized(raw))
  {
    hide Valid, ApplyAll;
    OneOperation(PutMarker(at, Lookup(s.markers, at), marker), s);
    NormalizedIdentity(s);
    assert Normalized(raw) == Normalized(s).(markers := raw.markers);
  }

  // ----- the theorem

  lemma TrackEffects(s: State, edit: Edit, raw: State)
    requires Valid(s) && edit.EditsTracks() && PlanTrackEdit(s, edit).Ok?
    requires ApplyAll(PlanTrackEdit(s, edit).value.operations, s) == Ok(raw)
    ensures TrackEffect(edit, PlanTrackEdit(s, edit).value.created, s, Normalized(raw))
  {
    hide Valid, Normalized, ApplyAll, TrackEffect;
    match edit
    case CreateTrack(name, kind) => CreateTrackEffect(s, name, kind, raw);
    case DeleteTrack(id) => DeleteTrackEffect(s, id, raw);
    case ReorderTrack(id, index) => ReorderTrackEffect(s, id, index, raw);
    case SetOverlapPolicy(id, policy) => SetOverlapPolicyEffect(s, id, policy, raw);
  }

  lemma AdditionEffects(s: State, edit: Edit, raw: State)
    requires Valid(s) && !edit.EditsTracks() && !edit.ReplacesOneClip() && PlanAddition(s, edit).Ok?
    requires ApplyAll(PlanAddition(s, edit).value.operations, s) == Ok(raw)
    requires Valid(Normalized(raw))
    ensures AdditionEffect(edit, PlanAddition(s, edit).value.created, s, Normalized(raw))
  {
    hide Valid, Normalized, ApplyAll, AdditionEffect, EditableClip, PlanSplit, PlanDuplicate;
    match edit
    case DeleteClip(id) => FreeExactly(s, id); DeleteClipEffect(s, id, raw);
    case Split(id, at) => SplitClipEffect(s, id, at, raw);
    case DuplicateClip(id, start) => DuplicateEffect(s, id, start, raw);
    case PutMarkerAt(at, marker) => MarkerEffect(s, at, marker, raw);
    case _ => NewClipEffects(s, edit, raw);
  }

  lemma PlannedEffects(s: State, edit: Edit, raw: State)
    requires Valid(s) && PlanEdit(s, edit).Ok?
    requires ApplyAll(PlanEdit(s, edit).value.operations, s) == Ok(raw)
    requires Valid(Normalized(raw))
    ensures Effect(edit, PlanEdit(s, edit).value.created, s, Normalized(raw))
  {
    hide Valid, Normalized, ApplyAll, AdditionEffect, ReplacementEffect, TrackEffect;
    hide PlanTrackEdit, PlanReplacement, PlanAddition;
    if edit.EditsTracks() {
      TrackEffects(s, edit, raw);
    } else if edit.ReplacesOneClip() {
      ReplacementEffects(s, edit, raw);
    } else {
      AdditionEffects(s, edit, raw);
    }
  }

  // ----- planned transactions are never stale

  /** An operation on what is stored applies. */
  lemma StoredApplies(op: Operation, s: State)
    requires Valid(s)
    requires match op
      case PutTrack(before, after) =>
        before.Some? && after.Some? && before.value.id == after.value.id && Lookup(s.tracks, before.value.id) == before
      case PutClip(before, after) =>
        && before.Some? && Lookup(s.clips, before.value.id) == before
        && (after.Some? ==> after.value.id == before.value.id)
      case SetTrackOrder(before, _) => before == s.trackOrder
      case PutMarker(at, before, after) => (before.Some? || after.Some?) && Lookup(s.markers, at) == before
    ensures ApplyAll([op], s).Ok?
  {
    OneOperation(op, s);
  }

  lemma AddedApplies(clip: Clip, s: State)
    requires Valid(s) && clip.id == s.nextClipId && s.nextClipId + 1 <= U64_MAX
    ensures ApplyAll([PutClip(None, Some(clip))], s).Ok?
  {
    NextClipUnused(s);
    OneOperation(PutClip(None, Some(clip)), s);
  }

  /** Whether the edit clears a marker that is not there, which is planned, changes nothing, and is not an operation. */
  predicate ClearsNothing(s: State, edit: Edit) {
    edit.PutMarkerAt? && edit.marker.None? && edit.markerFrame !in s.markers
  }

  lemma PlanApplies(s: State, edit: Edit)
    requires Valid(s) && PlanEdit(s, edit).Ok? && !ClearsNothing(s, edit)
    ensures ApplyAll(PlanEdit(s, edit).value.operations, s).Ok?
  {
    hide Valid, ApplyAll, PlanTrackEdit, PlanReplacement, PlanAddition;
    if edit.EditsTracks() {
      TrackPlanApplies(s, edit);
    } else if edit.ReplacesOneClip() {
      ReplacementApplies(s, edit);
    } else {
      AdditionApplies(s, edit);
    }
  }

  lemma TrackPlanApplies(s: State, edit: Edit)
    requires Valid(s) && edit.EditsTracks() && PlanTrackEdit(s, edit).Ok?
    ensures ApplyAll(PlanTrackEdit(s, edit).value.operations, s).Ok?
  {
    hide Valid, ApplyAll;
    var operations := PlanTrackEdit(s, edit).value.operations;
    match edit
    case CreateTrack(_, _) =>
      NextClipUnused(s);
      TwoOperations(operations[0], operations[1], s);
    case DeleteTrack(id) => DeleteTrackApplies(s, id);
    case ReorderTrack(_, _) => StoredApplies(operations[0], s);
    case SetOverlapPolicy(id, _) =>
      StoredTrack(s, id);
      StoredApplies(operations[0], s);
  }

  lemma StoredTrack(s: State, id: TrackId)
    requires Valid(s) && id in s.tracks
    ensures s.tracks[id].id == id
  {
    assert ValidTrack(id, s.tracks[id], s.clips);
  }

  /** A replacement is one operation on the stored clip. */
  lemma ReplacementApplies(s: State, edit: Edit)
    requires Valid(s) && edit.ReplacesOneClip() && PlanReplacement(s, edit).Ok?
    ensures ApplyAll(PlanReplacement(s, edit).value.operations, s).Ok?
  {
    hide Valid, ApplyAll, SoundClip, TrimLeftClip, TrimRightClip, SlippedClip, StretchedClip, ValidFades;
    StoredSound(s, Target(edit));
    StoredApplies(PlanReplacement(s, edit).value.operations[0], s);
  }

  function Target(edit: Edit): ClipId
    requires edit.ReplacesOneClip()
  {
    match edit
    case MoveClip(id, _, _) => id
    case TrimLeft(id, _) => id
    case TrimRight(id, _) => id
    case SlipClip(id, _) => id
    case StretchResize(id, _, _, _) => id
    case SetFades(id, _) => id
  }

  lemma AdditionApplies(s: State, edit: Edit)
    requires Valid(s) && !edit.EditsTracks() && !edit.ReplacesOneClip() && PlanAddition(s, edit).Ok?
    requires !ClearsNothing(s, edit)
    ensures ApplyAll(PlanAddition(s, edit).value.operations, s).Ok?
  {
    hide Valid, ApplyAll, PlanSplit;
    var operations := PlanAddition(s, edit).value.operations;
    if edit.Split? {
      SplitApplies(s, edit.cut, edit.at);
    } else if edit.DeleteClip? {
      StoredSound(s, edit.removed);
      StoredApplies(operations[0], s);
    } else if edit.PutMarkerAt? {
      StoredApplies(operations[0], s);
    } else {
      AddedApplies(operations[0].clipAfter.value, s);
    }
  }

  lemma SplitApplies(s: State, id: ClipId, at: Frame)
    requires Valid(s) && PlanSplit(s, id, at).Ok?
    ensures ApplyAll(PlanSplit(s, id, at).value.operations, s).Ok?
  {
    hide Valid, ApplyAll, SplitClip;
    StoredSound(s, id);
    NextClipUnused(s);
    ClipBelowNext(s, id);
    var operations := PlanSplit(s, id, at).value.operations;
    TwoOperations(operations[0], operations[1], s);
  }

  lemma ClipBelowNext(s: State, id: ClipId)
    requires Valid(s) && id in s.clips
    ensures id < s.nextClipId
  {}

  /** Every edit that is carried out leaves a valid arrangement and has its effect. */
  lemma EditHasItsEffect(session: Session, edit: Edit)
    requires Valid(session.state) && PerformStep(session, edit).1.Edited?
    ensures var (next, outcome) := PerformStep(session, edit);
      Valid(next.state) && Effect(edit, outcome.created, session.state, next.state)
  {
    hide Valid, Normalized, ApplyAll, Effect, PlanEdit, AllNoops, Transact;
    EditLeaves(session, edit);
    var s, operations := session.state, PlanEdit(session.state, edit).value.operations;
    if ApplyAll(operations, s).Ok? {
      PlannedEffects(s, edit, ApplyAll(operations, s).value);
    } else {
      if !ClearsNothing(s, edit) { PlanApplies(s, edit); }
      NothingToClear(s, edit);
    }
  }

  lemma NothingToClear(s: State, edit: Edit)
    requires Valid(s) && ClearsNothing(s, edit)
    ensures PlanEdit(s, edit).Ok? && Effect(edit, PlanEdit(s, edit).value.created, s, s)
  {}

  // ----- the envelope after a cut

  /** What is left from a frame on sounds there as the whole clip did. */
  lemma RestKeepsEnvelope(part: Clip, whole: Clip, from: Frame, curves: Curves)
    requires SoundClip(whole) && Measured(whole.placement) && CutFromFull(whole.fades, whole.placement.Len())
    requires RestOf(part, part.id, whole, from) && RunsFromZeroToOne(curves)
    ensures ValidFades(part.fades, part.placement.Len())
    ensures EnvelopeMatches(part.fades, part.placement.Len(), whole.fades, whole.placement.Len(),
                            from - whole.placement.start, curves)
  {
    var total, cut := whole.placement.Len(), FramesBetween(whole.placement.start, from);
    CutFades(whole.fades, total, cut);
    assert part.fades == SplitFades(whole.fades, total, cut).1;
    hide SplitFades, Behind, EnvelopeMatches;
    CutKeepsEnvelope(whole.fades, total, cut, curves);
  }

  lemma FrontKeepsEnvelope(part: Clip, whole: Clip, to: Frame, curves: Curves)
    requires SoundClip(whole) && Measured(whole.placement) && CutFromFull(whole.fades, whole.placement.Len())
    requires whole.placement.start < to <= whole.placement.end
    requires FrontOf(part, whole, to, to - whole.placement.start) && RunsFromZeroToOne(curves)
    ensures ValidFades(part.fades, part.placement.Len())
    ensures EnvelopeMatches(part.fades, part.placement.Len(), whole.fades, whole.placement.Len(), 0, curves)
  {
    var total, cut := whole.placement.Len(), to - whole.placement.start;
    CutFades(whole.fades, total, cut);
    assert part.fades == SplitFades(whole.fades, total, cut).0;
    hide SplitFades, Before, EnvelopeMatches;
    CutKeepsEnvelope(whole.fades, total, cut, curves);
  }
}
