/** What holds of every run (src/arrangement.rs). */
module EditorRuns {
  import opened Arrangement
  import opened UndoLaw
  import opened EditPlans
  import opened Sessions

  /** Some line of arrangements lies under the history, so that undo and redo can walk it. */
  ghost predicate Walkable(session: Session) {
    exists line :: Follows(session, line)
  }

  lemma OpenedFollows(state: State)
    requires Valid(state)
    ensures Follows(Opened(state), Timeline([state], 0))
  {}

  /** Every run stays on a line of states. */
  lemma {:induction false} RunFollows(session: Session, line: Timeline, commands: seq<Command>) returns (last: Timeline)
    requires Follows(session, line)
    ensures Follows(Run(session, commands), last)
    ensures Behind(session.state, Run(session, commands).state)
  {
    hide Follows, Valid, Step;
    FollowsValid(session, line);
    if commands == [] {
      last := line;
    } else {
      var front, command := commands[..|commands| - 1], commands[|commands| - 1];
      var before := RunFollows(session, line, front);
      FollowsValid(Run(session, front), before);
      StepFollows(Run(session, front), before, command);
      last := LineAfter(Run(session, front), before, command);
    }
  }

  lemma FollowsValid(session: Session, line: Timeline)
    requires Follows(session, line)
    ensures Valid(session.state)
  {}

  /** Every run from a valid state stays valid, and its history can be walked. */
  lemma RunsStayWalkable(state: State, commands: seq<Command>)
    requires Valid(state)
    ensures Walkable(Run(Opened(state), commands)) && Valid(Run(Opened(state), commands).state)
  {
    hide Follows, Valid, Run;
    OpenedFollows(state);
    var line := RunFollows(Opened(state), Timeline([state], 0), commands);
    FollowsValid(Run(Opened(state), commands), line);
  }

  /** Undo and redo are never refused, in no run whatever. */
  lemma HistoryNeverFails(state: State, commands: seq<Command>)
    requires Valid(state) && commands != []
    ensures !LastOutcome(Opened(state), commands).HistoryFailed?
  {
    OpenedFollows(state);
    var front := commands[..|commands| - 1];
    var line := RunFollows(Opened(state), Timeline([state], 0), front);
    StepFollows(Run(Opened(state), front), line, commands[|commands| - 1]);
  }

  // ----- the single steps on a walkable history

  lemma ChangeWalkable(session: Session, operations: seq<Operation>)
    requires Walkable(session)
    requires operations != [] && KeepIdentities(operations) && !AllNoops(operations)
    requires ApplyAll(operations, session.state).Ok? && Survives(operations, session.state)
    requires Transact(session, operations).Ok?
    ensures Walkable(Transact(session, operations).value)
  {
    hide Follows, Transact, Survives;
    var line :| Follows(session, line);
    ChangeFollows(session, line, operations);
  }

  /** An accepted change whose images survive leaves the history walkable, if it was. */
  lemma StaysWalkable(session: Session, operations: seq<Operation>)
    requires operations != [] && !AllNoops(operations)
    requires Transact(session, operations).Ok? && ApplyAll(operations, session.state).Ok?
    ensures Walkable(session) && KeepIdentities(operations) && Survives(operations, session.state) ==>
      Walkable(Transact(session, operations).value)
  {
    hide Walkable, KeepIdentities, Survives, Transact, ApplyAll, AllNoops;
    if Walkable(session) && KeepIdentities(operations) && Survives(operations, session.state) {
      ChangeWalkable(session, operations);
    }
  }

  lemma SavingWalkable(session: Session)
    requires Walkable(session)
    ensures Walkable(session.(savedRevision := session.revision))
  {
    hide Valid, Joins;
    var line :| Follows(session, line);
    var saved := session.(savedRevision := session.revision);
    forall i | 0 <= i < |line.states| - 1
      ensures Joins(EntryAt(saved, i), line.states[i], line.states[i + 1], saved.state)
    {
      assert EntryAt(saved, i) == EntryAt(session, i);
    }
    assert Follows(saved, line);
  }

  lemma UndoWalkable(session: Session)
    requires Walkable(session)
    ensures Walkable(UndoStep(session).0) && UndoStep(session).1.Stepped?
  {
    hide Follows, UndoStep;
    var line :| Follows(session, line);
    UndoFollows(session, line);
  }

  lemma RedoWalkable(session: Session)
    requires Walkable(session)
    ensures Walkable(RedoStep(session).0) && RedoStep(session).1.Stepped?
  {
    hide RedoStep;
    var line :| Follows(session, line);
    hide Follows;
    RedoFollows(session, line);
  }

  lemma LimitWalkable(session: Session, limit: nat)
    requires Walkable(session)
    ensures Walkable(Limited(session, limit))
  {
    var line :| Follows(session, line);
    hide Follows, Limited, Windowed;
    LimitFollows(session, line, limit);
  }

  function Repeated(command: Command, k: nat): (commands: seq<Command>)
    ensures |commands| == k
  {
    if k == 0 then [] else Repeated(command, k - 1) + [command]
  }

  lemma RepeatedStep(session: Session, command: Command, k: nat)
    requires k > 0 && Valid(session.state)
    ensures Run(session, Repeated(command, k)) == Step(Run(session, Repeated(command, k - 1)), command).0
  {
    hide Valid, Step;
    var commands := Repeated(command, k);
    assert commands[..|commands| - 1] == Repeated(command, k - 1) && commands[|commands| - 1] == command;
  }

  lemma OneUndo(session: Session, line: Timeline)
    requires Follows(session, line) && Valid(session.state) && line.cursor > 0
    ensures Follows(Step(session, Undo).0, line.(cursor := line.cursor - 1))
  {
    hide Follows, Valid, UndoStep;
    UndoFollows(session, line);
  }

  lemma OneRedo(session: Session, line: Timeline)
    requires Follows(session, line) && Valid(session.state) && line.cursor + 1 < |line.states|
    ensures Follows(Step(session, Redo).0, line.(cursor := line.cursor + 1))
  {
    hide Follows, Valid, RedoStep;
    RedoFollows(session, line);
  }

  lemma {:induction false} UndosFollow(session: Session, line: Timeline, k: nat)
    requires Follows(session, line) && k <= line.cursor
    ensures Follows(Run(session, Repeated(Undo, k)), line.(cursor := line.cursor - k))
  {
    hide Follows, Valid, Step;
    FollowsValid(session, line);
    if k > 0 {
      hide Run, Repeated;
      RepeatedStep(session, Undo, k);
      UndosFollow(session, line, k - 1);
      OneUndo(Run(session, Repeated(Undo, k - 1)), line.(cursor := line.cursor - (k - 1)));
    }
  }

  lemma {:induction false} RedosFollow(session: Session, line: Timeline, k: nat)
    requires Follows(session, line) && line.cursor + k < |line.states|
    ensures Follows(Run(session, Repeated(Redo, k)), line.(cursor := line.cursor + k))
  {
    hide Follows, Valid, Step;
    FollowsValid(session, line);
    if k > 0 {
      hide *;
      RepeatedStep(session, Redo, k);
      RedosFollow(session, line, k - 1);
      var before := line.(cursor := line.cursor + (k - 1));
      OneRedo(Run(session, Repeated(Redo, k - 1)), before);
      assert before.(cursor := before.cursor + 1) == line.(cursor := line.cursor + k);
    }
  }

  /** Where history can be walked, k undos and then k redos lead back to the same arrangement and history. */
  lemma UndosThenRedosReturn(session: Session, k: nat)
    requires Walkable(session) && Valid(session.state) && k <= |session.undo|
    ensures var undone := Run(session, Repeated(Undo, k));
      var redone := Run(undone, Repeated(Redo, k));
      && redone.state.Content() == session.state.Content()
      && |redone.undo| == |session.undo| && |redone.redo| == |session.redo|
  {
    var line :| Follows(session, line);
    UndosFollow(session, line, k);
    RedosFollow(Run(session, Repeated(Undo, k)), line.(cursor := line.cursor - k), k);
  }

  function Edits(edits: seq<Edit>): seq<Command> {
    seq(|edits|, i requires 0 <= i < |edits| => Perform(edits[i]))
  }

  /** Every edit of the list is accepted and changes the session. */
  ghost predicate AllChange(session: Session, edits: seq<Edit>)
    requires Valid(session.state)
  {
    forall i :: 0 <= i < |edits| ==> Run(session, Edits(edits[..i])) != Run(session, Edits(edits[..i + 1]))
  }

  lemma EditsFront(edits: seq<Edit>)
    requires edits != []
    ensures var commands := Edits(edits);
      && commands[..|commands| - 1] == Edits(edits[..|edits| - 1])
      && commands[|commands| - 1] == Perform(edits[|edits| - 1])
  {}

  /** The arrangement before a list of edits stays on the line, as many places back as there are edits. */
  lemma {:induction false} EditsExtend(session: Session, line: Timeline, edits: seq<Edit>) returns (last: Timeline)
    requires Follows(session, line) && Valid(session.state)
    requires |edits| <= session.historyLimit
    requires AllChange(session, edits)
    ensures Follows(Run(session, Edits(edits)), last)
    ensures Run(session, Edits(edits)).historyLimit == session.historyLimit
    ensures last.cursor >= |edits| && |last.states| > last.cursor
    ensures last.states[last.cursor - |edits|].Content() == session.state.Content()
    ensures edits != [] ==> last.cursor == |last.states| - 1
  {
    hide Valid, Transact, Survives, Joins, PlanEdit;
    if edits == [] {
      last := line;
    } else {
      var front, edit := edits[..|edits| - 1], edits[|edits| - 1];
      AllChangeFront(session, edits);
      var before := EditsExtend(session, line, front);
      EditsFront(edits);
      var middle := Run(session, Edits(front));
      assert edits[..|edits| - 1 + 1] == edits;
      PerformFollows(middle, before, edit);
      PerformKeepsLimit(middle, edit);
      last := LineAfter(middle, before, Perform(edit));
      ExtendedKeeps(middle, before, Run(session, Edits(edits)).state, |edits|, session.state);
    }
  }

  lemma AllChangeFront(session: Session, edits: seq<Edit>)
    requires Valid(session.state) && edits != [] && AllChange(session, edits)
    ensures AllChange(session, edits[..|edits| - 1])
  {
    hide Valid, Run;
    var front := edits[..|edits| - 1];
    forall i | 0 <= i < |front| ensures Run(session, Edits(front[..i])) != Run(session, Edits(front[..i + 1])) {
      assert front[..i] == edits[..i] && front[..i + 1] == edits[..i + 1];
    }
  }

  lemma PerformKeepsLimit(session: Session, edit: Edit)
    requires Valid(session.state)
    ensures PerformStep(session, edit).0.historyLimit == session.historyLimit
  {
    hide Valid;
  }

  lemma ExtendedKeeps(session: Session, line: Timeline, changed: State, count: nat, origin: State)
    requires line.cursor < |line.states| && 0 < count <= session.historyLimit
    requires line.cursor >= count - 1
    requires session.state.Content() == line.states[line.cursor].Content()
    requires line.states[line.cursor - (count - 1)].Content() == origin.Content()
    ensures var last := Extended(line, session.state, changed, session.historyLimit);
      && last.cursor >= count && last.cursor == |last.states| - 1
      && last.states[last.cursor - count].Content() == origin.Content()
  {}

  /** k accepted edits, then k undos: exactly the arrangement before them; then k redos: exactly the one after them. */
  lemma EditsUndoneAndRedone(session: Session, edits: seq<Edit>)
    requires Walkable(session) && Valid(session.state)
    requires |edits| <= session.historyLimit
    requires AllChange(session, edits)
    ensures var edited := Run(session, Edits(edits));
      var undone := Run(edited, Repeated(Undo, |edits|));
      var redone := Run(undone, Repeated(Redo, |edits|));
      && undone.state.Content() == session.state.Content()
      && redone.state.Content() == edited.state.Content()
  {
    hide Valid, Joins, Run, Step;
    var line :| Follows(session, line);
    var last := EditsExtend(session, line, edits);
    var edited := Run(session, Edits(edits));
    UndosFollow(edited, last, |edits|);
    var undone := Run(edited, Repeated(Undo, |edits|));
    RedosFollow(undone, last.(cursor := last.cursor - |edits|), |edits|);
  }

  // ----- identities

  lemma ClipPutLast(operations: seq<Operation>, s: State, id: ClipId)
    requires operations != [] && ApplyAll(operations, s).Ok?
    requires var last := operations[|operations| - 1];
      last.PutClip? && last.clipBefore.None? && last.clipAfter.Some? && last.clipAfter.value.id == id
    ensures id in ApplyAll(operations, s).value.clips
    ensures id < ApplyAll(operations, s).value.nextClipId
  {}

  lemma NewTrackPut(s: State, name: string, kind: TrackKind)
    requires PlanNewTrack(s, name, kind).Ok?
    requires ApplyAll(PlanNewTrack(s, name, kind).value.operations, s).Ok?
    ensures s.nextTrackId in ApplyAll(PlanNewTrack(s, name, kind).value.operations, s).value.tracks
    ensures s.nextTrackId < ApplyAll(PlanNewTrack(s, name, kind).value.operations, s).value.nextTrackId
  {
    var operations := PlanNewTrack(s, name, kind).value.operations;
    TwoOperations(operations[0], operations[1], s);
  }

  /** What was handed out is the old counter, unused before, stored afterwards, and the counter moved past it. */
  predicate Fresh(created: Created, before: State, after: State) {
    match created
    case Nothing => true
    case NewClipId(clip) =>
      clip == before.nextClipId < after.nextClipId && clip in after.clips && clip !in before.clips
    case NewTrackId(track) =>
      track == before.nextTrackId < after.nextTrackId && track in after.tracks && track !in before.tracks
  }

  /** An identity an edit hands out is the counter's value, unused so far, and the counter moves past it. */
  lemma CreatedIsFresh(session: Session, edit: Edit)
    requires Valid(session.state)
    ensures var (next, outcome) := PerformStep(session, edit);
      outcome.Edited? ==> Fresh(outcome.created, session.state, next.state)
  {
    hide Valid, PlanEdit, Transact;
    var (next, outcome) := PerformStep(session, edit);
    if outcome.Edited? && outcome.created != Nothing {
      NotAllNoops(session.state, edit);
      TransactedState(session, PlanEdit(session.state, edit).value.operations);
      PlannedIsFresh(session.state, edit);
    }
  }

  lemma TransactedState(session: Session, operations: seq<Operation>)
    requires !AllNoops(operations) && Transact(session, operations).Ok?
    ensures ApplyAll(operations, session.state).Ok?
    ensures Transact(session, operations).value.state == Normalized(ApplyAll(operations, session.state).value)
  {
    hide Valid, Normalized, ApplyAll;
  }

  lemma PlannedIsFresh(s: State, edit: Edit)
    requires Valid(s) && PlanEdit(s, edit).Ok? && PlanEdit(s, edit).value.created != Nothing
    requires ApplyAll(PlanEdit(s, edit).value.operations, s).Ok?
    ensures Fresh(PlanEdit(s, edit).value.created, s, Normalized(ApplyAll(PlanEdit(s, edit).value.operations, s).value))
  {
    hide Valid, ApplyAll;
    NextIdsUnused(s);
    if edit.CreateTrack? {
      NewTrackPut(s, edit.trackName, edit.kind);
    } else {
      assert !edit.EditsTracks() && !edit.ReplacesOneClip();
      ClipPutLast(PlanEdit(s, edit).value.operations, s, s.nextClipId);
    }
  }

  lemma NextIdsUnused(s: State)
    requires Valid(s)
    ensures s.nextClipId !in s.clips && s.nextTrackId !in s.tracks
  {}

  /** A transaction that creates something is never taken for a no-op. */
  lemma NotAllNoops(s: State, edit: Edit)
    requires Valid(s) && PlanEdit(s, edit).Ok? && PlanEdit(s, edit).value.created != Nothing
    ensures !AllNoops(PlanEdit(s, edit).value.operations)
  {
    hide Valid;
    var operations := PlanEdit(s, edit).value.operations;
    if edit.CreateTrack? {
      assert operations[0] in operations;
    } else {
      assert operations[|operations| - 1] in operations;
    }
  }

  /** Clip identities handed out later in a run are strictly greater, whatever was undone in between. */
  lemma ClipIdsIncrease(state: State, first: seq<Command>, between: seq<Command>, a: Edit, b: Edit)
    requires Valid(state)
    requires var early := LastOutcome(Opened(state), first + [Perform(a)]);
      early.Edited? && early.created.NewClipId?
    requires var late := LastOutcome(Opened(state), first + [Perform(a)] + between + [Perform(b)]);
      late.Edited? && late.created.NewClipId?
    ensures LastOutcome(Opened(state), first + [Perform(a)]).created.clip
          < LastOutcome(Opened(state), first + [Perform(a)] + between + [Perform(b)]).created.clip
  {
    hide Valid, PerformStep, Follows;
    var upToA := first + [Perform(a)];
    assert upToA[..|upToA| - 1] == first;
    var beforeA, afterA := Run(Opened(state), first), Run(Opened(state), upToA);
    CreatedIsFresh(beforeA, a);
    var whole := upToA + between + [Perform(b)];
    assert whole[..|whole| - 1] == upToA + between;
    var beforeB := Run(Opened(state), upToA + between);
    RunInTwo(Opened(state), upToA, between);
    OpenedFollows(state);
    var line := RunFollows(Opened(state), Timeline([state], 0), upToA);
    var later := RunFollows(afterA, line, between);
    CreatedIsFresh(beforeB, b);
  }

  lemma TrackIdsIncrease(state: State, first: seq<Command>, between: seq<Command>, a: Edit, b: Edit)
    requires Valid(state)
    requires var early := LastOutcome(Opened(state), first + [Perform(a)]);
      early.Edited? && early.created.NewTrackId?
    requires var late := LastOutcome(Opened(state), first + [Perform(a)] + between + [Perform(b)]);
      late.Edited? && late.created.NewTrackId?
    ensures LastOutcome(Opened(state), first + [Perform(a)]).created.track
          < LastOutcome(Opened(state), first + [Perform(a)] + between + [Perform(b)]).created.track
  {
    hide Valid, PerformStep, Follows;
    var upToA := first + [Perform(a)];
    assert upToA[..|upToA| - 1] == first;
    var beforeA, afterA := Run(Opened(state), first), Run(Opened(state), upToA);
    CreatedIsFresh(beforeA, a);
    var whole := upToA + between + [Perform(b)];
    assert whole[..|whole| - 1] == upToA + between;
    var beforeB := Run(Opened(state), upToA + between);
    RunInTwo(Opened(state), upToA, between);
    OpenedFollows(state);
    var line := RunFollows(Opened(state), Timeline([state], 0), upToA);
    var later := RunFollows(afterA, line, between);
    CreatedIsFresh(beforeB, b);
  }

  lemma {:induction false} RunInTwo(session: Session, first: seq<Command>, second: seq<Command>)
    requires Valid(session.state)
    ensures Run(session, first + second) == Run(Run(session, first), second)
  {
    hide Valid, Step;
    if second == [] {
      assert first + second == first;
    } else {
      var whole := first + second;
      assert whole[..|whole| - 1] == first + second[..|second| - 1];
      RunInTwo(session, first, second[..|second| - 1]);
    }
  }
}
