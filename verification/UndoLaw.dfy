/** When undo restores the state. */
module UndoLaw {
  import opened Numbers
  import opened Outcomes
  import opened Ordering
  import opened Arrangement
  import opened Normalization

  /** The same arrangement, with identity counters that may have run further ahead. */
  predicate Ahead(later: State, s: State) {
    && later.Content() == s.Content()
    && s.nextTrackId <= later.nextTrackId
    && s.nextClipId <= later.nextClipId
  }

  lemma ContentFields(a: State, b: State)
    ensures a.Content() == b.Content() <==>
      && a.schemaVersion == b.schemaVersion && a.sampleRate == b.sampleRate
      && a.tracks == b.tracks && a.clips == b.clips
      && a.trackOrder == b.trackOrder && a.markers == b.markers
  {
    var c, d := a.Content(), b.Content();
    if c == d {
      assert c.tracks == d.tracks && c.clips == d.clips && c.trackOrder == d.trackOrder
          && c.markers == d.markers && c.schemaVersion == d.schemaVersion && c.sampleRate == d.sampleRate;
    }
  }

  // ----- one operation

  /** The image that an operation expects is the stored one. */
  predicate Current(op: Operation, s: State) {
    match op
    case PutTrack(Some(track), _) => track.id in s.tracks && s.tracks[track.id] == track
    case PutTrack(None, Some(track)) => track.id !in s.tracks
    case PutClip(Some(clip), _) => clip.id in s.clips && s.clips[clip.id] == clip
    case PutClip(None, Some(clip)) => clip.id !in s.clips
    case SetTrackOrder(order, _) => s.trackOrder == order
    case PutMarker(at, Some(marker), _) => at in s.markers && s.markers[at] == marker
    case PutMarker(at, None, _) => at !in s.markers
    case _ => true
  }

  predicate HasImage(op: Operation) {
    match op
    case PutTrack(before, after) => before.Some? || after.Some?
    case PutClip(before, after) => before.Some? || after.Some?
    case SetTrackOrder(_, _) => true
    case PutMarker(_, before, after) => before.Some? || after.Some?
  }

  /** The new image has an identity after which there is another one. */
  predicate LeavesIdentities(op: Operation) {
    match op
    case PutTrack(_, Some(track)) => track.id < U64_MAX
    case PutClip(_, Some(clip)) => clip.id < U64_MAX
    case _ => true
  }

  /** One entry has the new image, or is gone; a counter runs ahead of a new image; nothing else changes. */
  predicate Done(op: Operation, s: State, t: State) {
    match op
    case PutTrack(Some(was), None) => t == s.(tracks := s.tracks - {was.id})
    case PutTrack(Some(was), Some(image)) =>
      && t == s.(tracks := s.tracks[was.id := image], nextTrackId := t.nextTrackId)
      && t.nextTrackId == (if s.nextTrackId <= image.id then image.id + 1 else s.nextTrackId)
    case PutTrack(None, Some(image)) =>
      && t == s.(tracks := s.tracks[image.id := image], nextTrackId := t.nextTrackId)
      && t.nextTrackId == (if s.nextTrackId <= image.id then image.id + 1 else s.nextTrackId)
    case PutClip(Some(was), None) => t == s.(clips := s.clips - {was.id})
    case PutClip(Some(was), Some(image)) =>
      && t == s.(clips := s.clips[was.id := image], nextClipId := t.nextClipId)
      && t.nextClipId == (if s.nextClipId <= image.id then image.id + 1 else s.nextClipId)
    case PutClip(None, Some(image)) =>
      && t == s.(clips := s.clips[image.id := image], nextClipId := t.nextClipId)
      && t.nextClipId == (if s.nextClipId <= image.id then image.id + 1 else s.nextClipId)
    case SetTrackOrder(_, order) => t == s.(trackOrder := order)
    case PutMarker(at, _, None) => t == s.(markers := s.markers - {at})
    case PutMarker(at, _, Some(marker)) => t == s.(markers := s.markers[at := marker])
    case _ => false
  }

  /** An operation applies exactly if it has an image, expects the stored one and leaves identities; then it is done. */
  lemma OperationAppliesExactly(op: Operation, s: State)
    ensures op.Apply(s).Ok? <==> HasImage(op) && Current(op, s) && LeavesIdentities(op)
    ensures op.Apply(s).Ok? ==> Done(op, s, op.Apply(s).value)
    ensures !HasImage(op) ==> op.Apply(s) == Err(EmptyOperation)
    ensures HasImage(op) && !Current(op, s) ==> op.Apply(s) == Err(StaleOperation)
    ensures HasImage(op) && Current(op, s) && !LeavesIdentities(op) ==> op.Apply(s) == Err(IdOverflow)
  {}

  // ----- redo: the forward operations replay on any later state with the same arrangement

  lemma ApplyAhead(op: Operation, s: State, later: State)
    requires Ahead(later, s)
    requires op.Apply(s).Ok?
    ensures op.Apply(later).Ok? && Ahead(op.Apply(later).value, op.Apply(s).value)
  {
    ContentFields(later, s);
    ContentFields(op.Apply(later).value, op.Apply(s).value);
  }

  lemma {:induction false} ApplyAllAhead(operations: seq<Operation>, s: State, later: State)
    requires Ahead(later, s)
    requires ApplyAll(operations, s).Ok?
    ensures ApplyAll(operations, later).Ok?
    ensures Ahead(ApplyAll(operations, later).value, ApplyAll(operations, s).value)
  {
    if operations != [] {
      var front := operations[..|operations| - 1];
      ApplyAllAhead(front, s, later);
      ApplyAhead(operations[|operations| - 1], ApplyAll(front, s).value, ApplyAll(front, later).value);
    }
  }

  /** A transaction once accepted is accepted again on the same arrangement, with the same outcome. */
  lemma RedoReplays(operations: seq<Operation>, s: State, later: State)
    requires Ahead(later, s)
    requires Committed(operations, s).Ok?
    ensures Committed(operations, later).Ok?
    ensures Ahead(Committed(operations, later).value, Committed(operations, s).value)
  {
    ApplyAllAhead(operations, s, later);
    var raw, raw' := ApplyAll(operations, s).value, ApplyAll(operations, later).value;
    ContentFields(raw', raw);
    ContentFields(Normalized(raw'), Normalized(raw));
    ValidWithLaterCounters(Normalized(raw), Normalized(raw'));
  }

  // ----- counters

  lemma ApplyCountersAdvance(op: Operation, s: State)
    requires op.Apply(s).Ok?
    ensures s.nextTrackId <= op.Apply(s).value.nextTrackId
    ensures s.nextClipId <= op.Apply(s).value.nextClipId
  {}

  lemma {:induction false} CountersAdvance(operations: seq<Operation>, s: State)
    requires ApplyAll(operations, s).Ok?
    ensures s.nextTrackId <= ApplyAll(operations, s).value.nextTrackId
    ensures s.nextClipId <= ApplyAll(operations, s).value.nextClipId
  {
    if operations != [] {
      var front := operations[..|operations| - 1];
      CountersAdvance(front, s);
      ApplyCountersAdvance(operations[|operations| - 1], ApplyAll(front, s).value);
    }
  }

  /** Every stored identity leaves room for its successor. */
  predicate Headroom(s: State) {
    && (forall id :: id in s.tracks ==> id + 1 <= U64_MAX)
    && (forall id :: id in s.clips ==> id + 1 <= U64_MAX)
  }

  lemma ApplyKeepsHeadroom(op: Operation, s: State)
    requires Headroom(s) && op.KeepsIdentity()
    requires op.Apply(s).Ok?
    ensures Headroom(op.Apply(s).value)
  {}

  lemma {:induction false} ApplyAllKeepsHeadroom(operations: seq<Operation>, s: State)
    requires Headroom(s) && KeepIdentities(operations)
    requires ApplyAll(operations, s).Ok?
    ensures Headroom(ApplyAll(operations, s).value)
  {
    if operations != [] {
      var front := operations[..|operations| - 1];
      ApplyAllKeepsHeadroom(front, s);
      ApplyKeepsHeadroom(operations[|operations| - 1], ApplyAll(front, s).value);
    }
  }

  // ----- what a transaction touches

  predicate KeepIdentities(operations: seq<Operation>) {
    forall op :: op in operations ==> op.KeepsIdentity()
  }

  function TouchedTrack(op: Operation): set<TrackId> {
    match op
    case PutTrack(Some(before), _) => {before.id}
    case PutTrack(None, Some(after)) => {after.id}
    case _ => {}
  }

  function TouchedTracks(operations: seq<Operation>): set<TrackId> {
    if operations == [] then {}
    else TouchedTracks(operations[..|operations| - 1]) + TouchedTrack(operations[|operations| - 1])
  }

  predicate TouchesOrder(operations: seq<Operation>) {
    exists op :: op in operations && op.SetTrackOrder?
  }

  predicate SameButIndex(a: Track, b: Track) {
    a == b.(clipIds := a.clipIds)
  }

  ghost predicate TracksAgree(touched: set<TrackId>, a: map<TrackId, Track>, b: map<TrackId, Track>) {
    && (forall id :: id in a <==> id in b)
    && (forall id :: id in a && id in b ==> SameButIndex(a[id], b[id]))
    && (forall id :: id in touched ==> Lookup(a, id) == Lookup(b, id))
  }

  lemma PutKeepsAgreement(
    touched: set<TrackId>, a: map<TrackId, Track>, b: map<TrackId, Track>, id: TrackId, v: Option<Track>)
    requires TracksAgree(touched, a, b)
    ensures TracksAgree(touched, Put(a, id, v), Put(b, id, v))
  {}

  /** Equal up to the indexes that normalization rewrites, and exactly equal where `touched` and `order` say. */
  ghost predicate Agree(touched: set<TrackId>, order: bool, a: State, b: State) {
    && a.schemaVersion == b.schemaVersion && a.sampleRate == b.sampleRate
    && a.clips == b.clips && a.markers == b.markers
    && TracksAgree(touched, a.tracks, b.tracks)
    && (order ==> a.trackOrder == b.trackOrder)
  }

  lemma InverseTrackStep(op: Operation, s: State, t: State, t': State, touched: set<TrackId>, order: bool)
    requires op.PutTrack? && op.KeepsIdentity() && Headroom(s)
    requires op.Apply(s) == Ok(t)
    requires Agree(touched, order, t, t')
    requires TouchedTrack(op) <= touched
    ensures var back := op.Inverse().Apply(t');
      back.Ok? && Agree(touched, order, s, back.value) && back.value.trackOrder == t'.trackOrder
  {
    var before, after := op.trackBefore, op.trackAfter;
    var id := if before.Some? then before.value.id else after.value.id;
    assert id in touched;
    PutBack(s.tracks, id, after);
    PutKeepsAgreement(touched, t.tracks, t'.tracks, id, before);
  }

  lemma InverseClipStep(op: Operation, s: State, t: State, t': State, touched: set<TrackId>, order: bool)
    requires op.PutClip? && op.KeepsIdentity() && Headroom(s)
    requires op.Apply(s) == Ok(t)
    requires Agree(touched, order, t, t')
    ensures var back := op.Inverse().Apply(t');
      back.Ok? && Agree(touched, order, s, back.value) && back.value.trackOrder == t'.trackOrder
  {
    var before, after := op.clipBefore, op.clipAfter;
    var id := if before.Some? then before.value.id else after.value.id;
    assert Lookup(t.clips, id) == after;
    var back := op.Inverse().Apply(t');
    assert back.Ok?;
    assert back.value.clips == s.clips;
  }

  /** One inverse step: it undoes the forward step on any state that agrees where the step looks. */
  lemma InverseStep(op: Operation, s: State, t: State, t': State, touched: set<TrackId>, order: bool)
    requires op.KeepsIdentity() && Headroom(s)
    requires op.Apply(s) == Ok(t)
    requires Agree(touched, order, t, t')
    requires TouchedTrack(op) <= touched
    requires op.SetTrackOrder? ==> order
    ensures var back := op.Inverse().Apply(t');
      back.Ok? && Agree(touched, order, s, back.value)
      && (!op.SetTrackOrder? ==> back.value.trackOrder == t'.trackOrder)
  {
    match op
    case PutTrack(_, _) => InverseTrackStep(op, s, t, t', touched, order);
    case PutClip(_, _) => InverseClipStep(op, s, t, t', touched, order);
    case SetTrackOrder(before, after) =>
    case PutMarker(at, before, after) =>
      var back := op.Inverse().Apply(t');
      assert Lookup(t.markers, at) == after;
      assert back.Ok?;
      assert back.value.markers == s.markers;
  }

  lemma {:induction false} InvertedSteps(
    operations: seq<Operation>, s: State, t': State, touched: set<TrackId>, order: bool)
    requires KeepIdentities(operations) && Headroom(s)
    requires ApplyAll(operations, s).Ok?
    requires Agree(touched, order, ApplyAll(operations, s).value, t')
    requires TouchedTracks(operations) <= touched
    requires TouchesOrder(operations) ==> order
    ensures var back := ApplyAll(Inverted(operations), t');
      back.Ok? && Agree(touched, order, s, back.value)
      && (!TouchesOrder(operations) ==> back.value.trackOrder == t'.trackOrder)
  {
    if operations != [] {
      var front, op := operations[..|operations| - 1], operations[|operations| - 1];
      var middle := ApplyAll(front, s).value;
      ApplyAllKeepsHeadroom(front, s);
      InverseStep(op, middle, ApplyAll(operations, s).value, t', touched, order);
      var middle' := op.Inverse().Apply(t').value;
      InvertedSteps(front, s, middle', touched, order);
      ApplyFirst(op.Inverse(), Inverted(front), t');
      if !TouchesOrder(operations) { assert op in operations; }
    }
  }

  /** Running a list is running its first part and then the rest. */
  lemma {:induction false} AppliedInTwo(front: seq<Operation>, back: seq<Operation>, s: State)
    ensures ApplyAll(front + back, s) ==
      (var once := ApplyAll(front, s); if once.Err? then once else ApplyAll(back, once.value))
  {
    if back == [] {
      assert front + back == front;
    } else {
      var whole := front + back;
      assert whole[..|whole| - 1] == front + back[..|back| - 1];
      AppliedInTwo(front, back[..|back| - 1], s);
    }
  }

  lemma ApplyFirst(op: Operation, rest: seq<Operation>, s: State)
    ensures ApplyAll([op] + rest, s) ==
      (var first := op.Apply(s); if first.Err? then first else ApplyAll(rest, first.value))
  {
    AppliedInTwo([op], rest, s);
    assert [op][..0] == [];
    assert ApplyAll([op], s) == op.Apply(s);
  }

  // ----- the exact condition

  /**
   * The track images and the order that the transaction put in place are what normalization leaves; when it leaves
   * the order alone, the tracks it removes stand last in the order, in ascending identity.
   */
  ghost predicate Survives(operations: seq<Operation>, s: State)
    requires ApplyAll(operations, s).Ok?
  {
    var raw := ApplyAll(operations, s).value;
    var committed := Normalized(raw);
    && (forall id :: id in TouchedTracks(operations) ==>
          Lookup(raw.tracks, id) == Lookup(committed.tracks, id))
    && if TouchesOrder(operations) then raw.trackOrder == committed.trackOrder
       else DroppedStandLast(s.trackOrder, raw.tracks.Keys)
  }

  lemma {:induction false} OrderUntouched(operations: seq<Operation>, s: State)
    requires ApplyAll(operations, s).Ok? && !TouchesOrder(operations)
    ensures ApplyAll(operations, s).value.trackOrder == s.trackOrder
  {
    if operations != [] {
      var front, op := operations[..|operations| - 1], operations[|operations| - 1];
      assert op in operations;
      OrderUntouched(front, s);
    }
  }

  /** A transaction that leaves the order alone gets it back exactly when what it removes stood last. */
  lemma UntouchedOrderReturnsExactly(operations: seq<Operation>, s: State)
    requires OrderMatches(s.trackOrder, s.tracks.Keys)
    requires ApplyAll(operations, s).Ok? && !TouchesOrder(operations)
    ensures var raw := ApplyAll(operations, s).value;
      NormalizedOrder(Normalized(raw).trackOrder, s.tracks.Keys) == s.trackOrder <==>
        DroppedStandLast(s.trackOrder, raw.tracks.Keys)
  {
    hide ApplyAll, NormalizedOrder, DroppedStandLast, OrderMatches, TouchesOrder;
    OrderUntouched(operations, s);
    OrderReturnsExactly(s.trackOrder, s.tracks.Keys, ApplyAll(operations, s).value.tracks.Keys);
  }

  lemma SurvivorsAgree(operations: seq<Operation>, s: State)
    requires ApplyAll(operations, s).Ok?
    requires Survives(operations, s)
    ensures Agree(TouchedTracks(operations), TouchesOrder(operations),
                  ApplyAll(operations, s).value, Normalized(ApplyAll(operations, s).value))
  {
    hide NormalizedOrder, ClipIndex, ApplyAll;
  }

  lemma AgreementIndexes(
    touched: set<TrackId>, a: map<TrackId, Track>, b: map<TrackId, Track>, clips: map<ClipId, Clip>)
    requires TracksAgree(touched, a, b)
    ensures Indexed(a, clips) == Indexed(b, clips)
  {
    forall id | id in a ensures Indexed(a, clips)[id] == Indexed(b, clips)[id] {
      assert SameButIndex(a[id], b[id]);
    }
  }

  /** Normalization erases what agreement leaves open. */
  lemma AgreementNormalizes(touched: set<TrackId>, order: bool, s: State, back: State)
    requires Normalized(s) == s
    requires Agree(touched, order, s, back)
    requires NormalizedOrder(back.trackOrder, s.tracks.Keys) == s.trackOrder
    ensures Normalized(back).Content() == s.Content()
  {
    AgreementIndexes(touched, s.tracks, back.tracks, s.clips);
    assert Normalized(s).tracks == s.tracks;
    assert s.tracks.Keys == back.tracks.Keys;
    ContentFields(Normalized(back), s);
  }

  lemma ValidHeadroom(s: State)
    requires Valid(s)
    ensures Headroom(s)
  {}

  lemma SurvivorsComeBack(operations: seq<Operation>, s: State)
    requires Headroom(s) && KeepIdentities(operations)
    requires Normalized(s) == s && OrderMatches(s.trackOrder, s.tracks.Keys)
    requires ApplyAll(operations, s).Ok?
    requires Survives(operations, s)
    ensures var committed := Normalized(ApplyAll(operations, s).value);
      var back := ApplyAll(Inverted(operations), committed);
      && back.Ok?
      && Normalized(back.value).Content() == s.Content()
      && committed.nextTrackId <= back.value.nextTrackId
      && committed.nextClipId <= back.value.nextClipId
  {
    hide Normalized, NormalizedOrder, ApplyAll, DroppedStandLast, Inverted, Headroom, OrderMatches;
    var committed := Normalized(ApplyAll(operations, s).value);
    var touched, order := TouchedTracks(operations), TouchesOrder(operations);
    SurvivorsAgree(operations, s);
    InvertedSteps(operations, s, committed, touched, order);
    CountersAdvance(Inverted(operations), committed);
    if order { NormalizedOrderIdentity(s.trackOrder, s.tracks.Keys); }
    else { UntouchedOrderReturnsExactly(operations, s); }
    AgreementNormalizes(touched, order, s, ApplyAll(Inverted(operations), committed).value);
  }

  lemma SurvivalSuffices(operations: seq<Operation>, s: State)
    requires Valid(s) && KeepIdentities(operations)
    requires Committed(operations, s).Ok?
    requires Survives(operations, s)
    ensures var undone := Committed(Inverted(operations), Committed(operations, s).value);
      && undone.Ok?
      && undone.value.Content() == s.Content()
      && Committed(operations, s).value.nextTrackId <= undone.value.nextTrackId
      && Committed(operations, s).value.nextClipId <= undone.value.nextClipId
  {
    var committed := Normalized(ApplyAll(operations, s).value);
    ValidHeadroom(s);
    NormalizedIdentity(s);
    SurvivorsComeBack(operations, s);
    CountersAdvance(operations, s);
    var back := ApplyAll(Inverted(operations), committed).value;
    ValidWithLaterCounters(s, Normalized(back));
  }

  lemma InverseStepSaw(op: Operation, s: State, t: State, t': State)
    requires op.KeepsIdentity()
    requires op.Apply(s) == Ok(t)
    requires op.Inverse().Apply(t').Ok?
    ensures forall id :: id in TouchedTrack(op) ==> Lookup(t.tracks, id) == Lookup(t'.tracks, id)
    ensures forall id :: id !in TouchedTrack(op) ==>
      && Lookup(s.tracks, id) == Lookup(t.tracks, id)
      && Lookup(op.Inverse().Apply(t').value.tracks, id) == Lookup(t'.tracks, id)
    ensures if op.SetTrackOrder? then t.trackOrder == t'.trackOrder
            else s.trackOrder == t.trackOrder && op.Inverse().Apply(t').value.trackOrder == t'.trackOrder
  {}

  /** Backwards: an accepted inverse saw, at every touched place, the image the transaction left there. */
  lemma {:induction false} AcceptedInverseSaw(operations: seq<Operation>, s: State, t': State)
    requires KeepIdentities(operations)
    requires ApplyAll(operations, s).Ok?
    requires ApplyAll(Inverted(operations), t').Ok?
    ensures forall id :: id in TouchedTracks(operations) ==>
      Lookup(ApplyAll(operations, s).value.tracks, id) == Lookup(t'.tracks, id)
    ensures if TouchesOrder(operations) then ApplyAll(operations, s).value.trackOrder == t'.trackOrder
            else ApplyAll(Inverted(operations), t').value.trackOrder == t'.trackOrder
  {
    if operations != [] {
      var front, op := operations[..|operations| - 1], operations[|operations| - 1];
      ApplyFirst(op.Inverse(), Inverted(front), t');
      var middle, middle' := ApplyAll(front, s).value, op.Inverse().Apply(t').value;
      InverseStepSaw(op, middle, ApplyAll(operations, s).value, t');
      AcceptedInverseSaw(front, s, middle');
      assert op in operations;
      assert operations == front + [op];
      assert TouchesOrder(operations) <==> TouchesOrder(front) || op.SetTrackOrder?;
    }
  }

  /** Undo succeeds and restores the arrangement exactly when the images survive normalization. */
  lemma UndoRestoresExactlyWhenImagesSurvive(operations: seq<Operation>, s: State)
    requires Valid(s) && KeepIdentities(operations)
    requires Committed(operations, s).Ok?
    ensures Survives(operations, s) <==>
      (var undone := Committed(Inverted(operations), Committed(operations, s).value);
       undone.Ok? && undone.value.Content() == s.Content())
  {
    if Survives(operations, s) {
      SurvivalSuffices(operations, s);
    }
    var undone := Committed(Inverted(operations), Committed(operations, s).value);
    if undone.Ok? && undone.value.Content() == s.Content() {
      UndoneSurvived(operations, s, undone.value);
    }
  }

  lemma UndoneSurvived(operations: seq<Operation>, s: State, undone: State)
    requires KeepIdentities(operations) && OrderMatches(s.trackOrder, s.tracks.Keys)
    requires ApplyAll(operations, s).Ok?
    requires var back := ApplyAll(Inverted(operations), Normalized(ApplyAll(operations, s).value));
      back.Ok? && undone == Normalized(back.value)
    requires undone.Content() == s.Content()
    ensures Survives(operations, s)
  {
    var committed := Normalized(ApplyAll(operations, s).value);
    AcceptedInverseSaw(operations, s, committed);
    ContentFields(undone, s);
    var back := ApplyAll(Inverted(operations), committed).value;
    assert undone.tracks.Keys == back.tracks.Keys;
    hide ApplyAll, NormalizedOrder, DroppedStandLast, OrderMatches, KeepIdentities;
    if !TouchesOrder(operations) { UntouchedOrderReturnsExactly(operations, s); }
  }

  // ----- the condition is needed

  function EmptyTrack(id: TrackId): Track {
    NewTrack(id, "Track", Pattern)
  }

  function ShortClip(id: ClipId, track: TrackId): Clip {
    Clip(id, track, "Clip", FrameBounds(0, 1), PatternContent(1, 0, false), NO_FADES, 0.0, false, false)
  }

  /** A new track and a clip on it, in one transaction. */
  function TrackWithClip(): seq<Operation> {
    [PutTrack(None, Some(EmptyTrack(1))), PutClip(None, Some(ShortClip(1, 1)))]
  }

  lemma OnlyClipIndexed()
    ensures ClipIndex(map[1 := ShortClip(1, 1)], 1) == [1]
  {
    var clips: map<ClipId, Clip> := map[1 := ShortClip(1, 1)];
    PlaceOrder();
    var places := PlacesOnTrack(clips, 1);
    assert clips[1].trackId == 1 && (clips[1].placement.start, 1) in places;
    assert forall place :: place in places <==> place == (0, 1);
    AscendingUnique(PlaceLte, Ascending(PlaceLte, places), [(0, 1)]);
  }

  lemma OnlyTrackListed()
    ensures NormalizedOrder([], {1}) == [1]
  {
    IdOrder();
    assert Retained([], {1}) == [];
    assert {1} - Elements<TrackId>([]) == {1};
    AscendingUnique(IdLte, Ascending(IdLte, {1}), [1]);
  }

  lemma TrackWithClipApplies(s: State)
    requires s == NewState(48000)
    ensures ApplyAll(TrackWithClip(), s) ==
      Ok(s.(tracks := map[1 := EmptyTrack(1)], clips := map[1 := ShortClip(1, 1)], nextTrackId := 2, nextClipId := 2))
  {
    var operations := TrackWithClip();
    assert operations[..1] == [operations[0]] && operations[..1][..0] == [];
    assert ApplyAll([operations[0]], s) == operations[0].Apply(s);
  }

  /** What the transaction leaves: the track now lists the clip. */
  function WithTrackAndClip(): State {
    OneClipState(EmptyTrack(1).(clipIds := [1]), ShortClip(1, 1))
  }

  lemma TrackWithClipNormalizes(s: State)
    requires s == NewState(48000)
    ensures ApplyAll(TrackWithClip(), s).Ok?
    ensures Normalized(ApplyAll(TrackWithClip(), s).value) == WithTrackAndClip()
  {
    TrackWithClipApplies(s);
    hide ApplyAll, NormalizedOrder, ClipIndex;
    OnlyClipIndexed();
    OnlyTrackListed();
    var raw := ApplyAll(TrackWithClip(), s).value;
    assert raw.tracks.Keys == {1};
    assert Indexed(raw.tracks, raw.clips) == map[1 := EmptyTrack(1).(clipIds := [1])];
  }

  lemma TrackWithClipCommits(s: State)
    requires s == NewState(48000)
    ensures Valid(s) && Committed(TrackWithClip(), s) == Ok(WithTrackAndClip())
  {
    TrackWithClipNormalizes(s);
    OneClipStateValid("Track", ShortClip(1, 1));
    assert Elements(s.trackOrder) == s.tracks.Keys;
  }

  lemma InverseGoesStale(committed: State)
    requires committed.tracks == map[1 := EmptyTrack(1).(clipIds := [1])]
    requires committed.clips == map[1 := ShortClip(1, 1)]
    ensures ApplyAll([PutClip(Some(ShortClip(1, 1)), None), PutTrack(Some(EmptyTrack(1)), None)], committed)
         == Err(StaleOperation)
  {
    var first, second := PutClip(Some(ShortClip(1, 1)), None), PutTrack(Some(EmptyTrack(1)), None);
    assert [first] + [second] == [first, second] && [second] + [] == [second];
    ApplyFirst(first, [second], committed);
    ApplyFirst(second, [], first.Apply(committed).value);
    assert Lookup(committed.tracks, 1).value.clipIds != EmptyTrack(1).clipIds;
  }

  /**
   * The condition is needed: putting a new track and a clip on it commits, but normalization lists the clip in the
   * track, so the image that the inverse expects is gone and undo is refused as stale.
   */
  lemma UndoCanBeRefused()
    ensures var s := NewState(48000);
      && Valid(s) && KeepIdentities(TrackWithClip()) && Committed(TrackWithClip(), s).Ok?
      && Committed(Inverted(TrackWithClip()), Committed(TrackWithClip(), s).value) == Err(StaleOperation)
  {
    hide Valid, ApplyAll, Normalized, Inverted, KeepIdentities, TrackWithClip, ShortClip, EmptyTrack;
    var s := NewState(48000);
    TrackWithClipCommits(s);
    TrackWithClipInverted();
    InverseGoesStale(WithTrackAndClip());
  }

  lemma TrackWithClipInverted()
    ensures KeepIdentities(TrackWithClip())
    ensures Inverted(TrackWithClip()) == [PutClip(Some(ShortClip(1, 1)), None), PutTrack(Some(EmptyTrack(1)), None)]
  {
    InvertedPair(TrackWithClip()[0], TrackWithClip()[1]);
  }

  lemma InvertedPair(a: Operation, b: Operation)
    ensures Inverted([a, b]) == [b.Inverse(), a.Inverse()]
  {
    assert [a, b][..1] == [a] && [a][..0] == [];
    assert Inverted([a]) == [a.Inverse()];
  }
}
