/** What a revision number says of the state (src/arrangement.rs). */
module Revisions {
  import opened Outcomes
  import opened Ordering
  import opened Arrangement
  import opened Normalization
  import opened EditPlans
  import opened Sessions
  import opened EditorRuns

  /** The state counts as changed when its revision is not the one that was saved. */
  predicate IsDirty(session: Session) {
    session.revision != session.savedRevision
  }

  // ----- the revisions along the line

  /** The revision of a place on the line. */
  function RevisionAt(session: Session, k: int): int {
    session.revision - |session.undo| + k
  }

  predicate EntryCounts(session: Session, i: nat)
    requires i < |session.undo| + |session.redo|
  {
    && EntryAt(session, i).beforeRevision == RevisionAt(session, i)
    && EntryAt(session, i).afterRevision == RevisionAt(session, i + 1)
  }

  /** The entries of both stacks lead from each revision to the next one. */
  predicate Consecutive(session: Session) {
    forall i :: 0 <= i < |session.undo| + |session.redo| ==> EntryCounts(session, i)
  }

  /** Wherever the line has a place of the given revision, it holds the given arrangement. */
  predicate Holds(session: Session, line: Timeline, revision: int, content: State) {
    forall k :: 0 <= k < |line.states| && RevisionAt(session, k) == revision ==> line.states[k].Content() == content
  }

  predicate Changes(session: Session, command: Command, next: Session) {
    command.Perform? && next != session
  }

  lemma UndoCounts(session: Session, line: Timeline)
    requires Follows(session, line) && Consecutive(session) && line.cursor > 0
    ensures var next := UndoStep(session).0;
      Consecutive(next) && next.revision == session.revision - 1 && |next.undo| == |session.undo| - 1
  {
    hide Valid, Joins, Committed;
    UndoFollows(session, line);
    var next := UndoStep(session).0;
    assert EntryCounts(session, |session.undo| - 1);
    forall i | 0 <= i < |next.undo| + |next.redo| ensures EntryCounts(next, i) {
      assert EntryAt(next, i) == EntryAt(session, i);
      assert EntryCounts(session, i);
    }
  }

  lemma RedoCounts(session: Session, line: Timeline)
    requires Follows(session, line) && Consecutive(session) && line.cursor < |line.states| - 1
    ensures var next := RedoStep(session).0;
      Consecutive(next) && next.revision == session.revision + 1 && |next.undo| == |session.undo| + 1
  {
    hide Valid, Joins, Committed;
    RedoFollows(session, line);
    var next := RedoStep(session).0;
    assert EntryCounts(session, |session.undo|);
    forall i | 0 <= i < |next.undo| + |next.redo| ensures EntryCounts(next, i) {
      assert EntryAt(next, i) == EntryAt(session, i);
      assert EntryCounts(session, i);
    }
  }

  lemma LimitCounts(session: Session, limit: nat)
    requires Consecutive(session)
    ensures Consecutive(Limited(session, limit))
    ensures RevisionAt(Limited(session, limit), 0) == RevisionAt(session, Dropped(|session.undo|, limit))
  {
    var next := Limited(session, limit);
    forall i | 0 <= i < |next.undo| + |next.redo| ensures EntryCounts(next, i) {
      LimitedEntry(session, limit, i);
      assert EntryCounts(session, i + Dropped(|session.undo|, limit));
    }
  }

  lemma ChangeCounts(session: Session, entry: Entry, next: Session)
    requires Consecutive(session)
    requires session.historyLimit == 0 ==> session.undo == []
    requires entry.beforeRevision == session.revision && entry.afterRevision == session.revision + 1
    requires next.undo == Pushed(session, entry) && next.redo == [] && next.revision == session.revision + 1
    ensures Consecutive(next)
    ensures RevisionAt(next, 0) == RevisionAt(session, Dropped(|session.undo| + 1, session.historyLimit))
  {
    var dropped := Dropped(|session.undo| + 1, session.historyLimit);
    forall i | 0 <= i < |next.undo| + |next.redo| ensures EntryCounts(next, i) {
      PushedEntry(session, entry, next, i);
      if i + dropped < |session.undo| {
        assert EntryAt(session, i + dropped) == session.undo[i + dropped];
        assert EntryCounts(session, i + dropped);
      }
    }
  }

  // ----- one step

  /** A step keeps the count, and keeps what a revision holds unless it is a change applied below that revision. */
  lemma StepKeepsRevision(session: Session, line: Timeline, command: Command, revision: int, content: State)
    requires Follows(session, line) && Consecutive(session) && Holds(session, line, revision, content)
    requires Changes(session, command, Step(session, command).0) ==> session.revision >= revision
    ensures Consecutive(Step(session, command).0)
    ensures Holds(Step(session, command).0, LineAfter(session, line, command), revision, content)
  {
    hide Valid, Follows, UndoStep, RedoStep, PerformStep, Consecutive, Holds, Limited;
    FollowsShape(session, line);
    match command {
      case Perform(edit) =>
        if Step(session, command).0 != session { PerformKeepsRevision(session, line, edit, revision, content); }
      case Undo =>
        if line.cursor > 0 {
          UndoCounts(session, line);
          SamePlacesHold(session, UndoStep(session).0, line, line.(cursor := line.cursor - 1), revision, content);
        } else {
          UndoFollows(session, line);
        }
      case Redo =>
        if line.cursor < |line.states| - 1 {
          RedoCounts(session, line);
          SamePlacesHold(session, RedoStep(session).0, line, line.(cursor := line.cursor + 1), revision, content);
        } else {
          RedoFollows(session, line);
        }
      case SetHistoryLimit(limit) => LimitKeepsRevision(session, line, limit, revision, content);
      case MarkSaved => SavingKeepsRevision(session, line, revision, content);
    }
  }

  /** Where the line and the revisions of its places stay, so does what a revision holds. */
  lemma SamePlacesHold(
    session: Session, next: Session, line: Timeline, moved: Timeline, revision: int, content: State)
    requires Holds(session, line, revision, content) && moved.states == line.states
    requires next.revision - |next.undo| == session.revision - |session.undo|
    ensures Holds(next, moved, revision, content)
  {
    assert forall k :: RevisionAt(next, k) == RevisionAt(session, k);
  }

  lemma SavingKeepsRevision(session: Session, line: Timeline, revision: int, content: State)
    requires Consecutive(session) && Holds(session, line, revision, content)
    ensures var next := session.(savedRevision := session.revision);
      Consecutive(next) && Holds(next, line, revision, content)
  {
    var next := session.(savedRevision := session.revision);
    SamePlacesHold(session, next, line, line, revision, content);
    forall i | 0 <= i < |next.undo| + |next.redo| ensures EntryCounts(next, i) {
      assert EntryAt(next, i) == EntryAt(session, i) && EntryCounts(session, i);
    }
  }

  lemma LimitKeepsRevision(session: Session, line: Timeline, limit: nat, revision: int, content: State)
    requires line.cursor == |session.undo| < |line.states|
    requires Consecutive(session) && Holds(session, line, revision, content)
    ensures Consecutive(Limited(session, limit))
    ensures Holds(Limited(session, limit), Windowed(line, limit, limit), revision, content)
  {
    hide Consecutive;
    LimitCounts(session, limit);
    var next, window := Limited(session, limit), Windowed(line, limit, limit);
    var dropped := Dropped(|session.undo|, limit);
    forall k | 0 <= k < |window.states| && RevisionAt(next, k) == revision
      ensures window.states[k].Content() == content
    {
      assert RevisionAt(session, k + dropped) == revision && window.states[k] == line.states[k + dropped];
    }
  }

  lemma FollowsShape(session: Session, line: Timeline)
    requires Follows(session, line)
    ensures Valid(session.state)
    ensures line.cursor == |session.undo| && |line.states| == |session.undo| + |session.redo| + 1
    ensures session.state.Content() == line.states[line.cursor].Content()
    ensures session.historyLimit == 0 ==> session.undo == [] && session.redo == []
  {
    hide Valid, Joins;
  }

  lemma PerformKeepsRevision(session: Session, line: Timeline, edit: Edit, revision: int, content: State)
    requires Follows(session, line) && Consecutive(session) && Holds(session, line, revision, content)
    requires Valid(session.state) && PerformStep(session, edit).0 != session
    requires session.revision >= revision
    ensures var next := PerformStep(session, edit).0;
      && Consecutive(next)
      && Holds(next, Extended(line, session.state, next.state, session.historyLimit), revision, content)
  {
    hide Valid, Joins, Committed, PlanEdit, Follows, Extended;
    FollowsShape(session, line);
    var next, limit := PerformStep(session, edit).0, session.historyLimit;
    var operations := PlanEdit(session.state, edit).value.operations;
    var entry := Entry(operations, Inverted(operations), session.revision, session.revision + 1);
    ChangeCounts(session, entry, next);
    ExtendedStates(line, session.state, next.state, limit);
    var dropped := Dropped(line.cursor + 1, limit);
    var grown := line.states[..line.cursor] + [session.state, next.state];
    var window := Extended(line, session.state, next.state, limit);
    forall k | 0 <= k < |window.states| && RevisionAt(next, k) == revision
      ensures window.states[k].Content() == content
    {
      assert window.states[k] == grown[k + dropped];
      assert RevisionAt(session, k + dropped) == revision;
      assert line.states[k + dropped].Content() == content;
    }
  }

  // ----- runs

  /** No change of the run is applied to a session whose revision is below the given one. */
  ghost predicate NoChangeBelow(session: Session, commands: seq<Command>, revision: int)
    requires Valid(session.state)
  {
    forall i :: 0 <= i < |commands| ==> NotBelow(Run(session, commands[..i]), commands[i], revision)
  }

  ghost predicate NotBelow(session: Session, command: Command, revision: int)
    requires Valid(session.state)
  {
    Changes(session, command, Step(session, command).0) ==> session.revision >= revision
  }

  lemma NoChangeBelowFront(session: Session, commands: seq<Command>, revision: int)
    requires Valid(session.state) && commands != [] && NoChangeBelow(session, commands, revision)
    ensures NoChangeBelow(session, commands[..|commands| - 1], revision)
    ensures NotBelow(Run(session, commands[..|commands| - 1]), commands[|commands| - 1], revision)
  {
    hide Valid, Run, NotBelow;
    var front := commands[..|commands| - 1];
    forall i | 0 <= i < |front| ensures NotBelow(Run(session, front[..i]), front[i], revision) {
      assert front[..i] == commands[..i] && front[i] == commands[i];
    }
  }

  lemma {:induction false} RunKeepsRevision(
    session: Session, line: Timeline, commands: seq<Command>, revision: int, content: State) returns (last: Timeline)
    requires Follows(session, line) && Consecutive(session) && Holds(session, line, revision, content)
    requires Valid(session.state) && NoChangeBelow(session, commands, revision)
    ensures Follows(Run(session, commands), last) && Consecutive(Run(session, commands))
    ensures Holds(Run(session, commands), last, revision, content)
  {
    hide Valid, Follows, Step, Consecutive, Holds;
    if commands == [] {
      last := line;
    } else {
      var front, command := commands[..|commands| - 1], commands[|commands| - 1];
      NoChangeBelowFront(session, commands, revision);
      var before := RunKeepsRevision(session, line, front, revision, content);
      hide NoChangeBelow;
      StepFollows(Run(session, front), before, command);
      StepKeepsRevision(Run(session, front), before, command, revision, content);
      last := LineAfter(Run(session, front), before, command);
    }
  }

  lemma OpenedCounts(state: State)
    requires Valid(state)
    ensures Consecutive(Opened(state))
  {}

  /** In every run the entries of undo and redo carry consecutive revisions around the present one. */
  lemma RunsCount(state: State, commands: seq<Command>)
    requires Valid(state)
    ensures Consecutive(Run(Opened(state), commands))
  {
    hide Valid, Follows, Consecutive, Run;
    OpenedFollows(state);
    OpenedCounts(state);
    NoneBelowZero(Opened(state), commands);
    NothingHeld(Opened(state), Timeline([state], 0));
    var last := RunKeepsRevision(Opened(state), Timeline([state], 0), commands, -1, state.Content());
  }

  lemma NoneBelowZero(session: Session, commands: seq<Command>)
    requires Valid(session.state)
    ensures NoChangeBelow(session, commands, -1)
  {
    hide Valid, Run, Step;
  }

  lemma NothingHeld(session: Session, line: Timeline)
    requires session.undo == [] && session.revision == 0
    ensures Holds(session, line, -1, session.state.Content())
  {}

  /**
   * A revision that comes up again stands for the same arrangement as long as no change in between was applied at a
   * lower revision: in particular on one line of states, where only history is walked.
   */
  lemma RevisionIdentifies(session: Session, commands: seq<Command>)
    requires Walkable(session) && Consecutive(session) && Valid(session.state)
    requires NoChangeBelow(session, commands, session.revision)
    ensures var later := Run(session, commands);
      later.revision == session.revision ==> later.state.Content() == session.state.Content()
  {
    hide Valid, Follows, Consecutive, Run, NoChangeBelow;
    var line :| Follows(session, line);
    var content := session.state.Content();
    FollowsShape(session, line);
    PresentHeld(session, line);
    var last := RunKeepsRevision(session, line, commands, session.revision, content);
    FollowsShape(Run(session, commands), last);
    assert RevisionAt(Run(session, commands), last.cursor) == Run(session, commands).revision;
  }

  lemma PresentHeld(session: Session, line: Timeline)
    requires line.cursor == |session.undo| < |line.states|
    requires session.state.Content() == line.states[line.cursor].Content()
    ensures Holds(session, line, session.revision, session.state.Content())
  {}

  // ----- what is saved

  lemma {:induction false} SavedRevisionStays(session: Session, commands: seq<Command>)
    requires Valid(session.state) && MarkSaved !in commands
    ensures Run(session, commands).savedRevision == session.savedRevision
  {
    if commands != [] {
      var front, command := commands[..|commands| - 1], commands[|commands| - 1];
      assert commands == front + [command];
      SavedRevisionStays(session, front);
      hide Valid, Run;
      StepKeepsSaved(Run(session, front), command);
    }
  }

  lemma StepKeepsSaved(session: Session, command: Command)
    requires Valid(session.state) && command != MarkSaved
    ensures Step(session, command).0.savedRevision == session.savedRevision
  {
    hide Valid, Committed, PlanEdit;
  }

  /**
   * After saving, a session that does not count as changed holds the saved arrangement, as long as no change since
   * was applied at a revision below the saved one.
   */
  lemma CleanMeansSaved(state: State, first: seq<Command>, rest: seq<Command>)
    requires Valid(state) && MarkSaved !in rest
    requires var saved := Run(Opened(state), first + [MarkSaved]);
      NoChangeBelow(saved, rest, saved.revision)
    ensures var saved := Run(Opened(state), first + [MarkSaved]);
      !IsDirty(saved) && (!IsDirty(Run(saved, rest)) ==> Run(saved, rest).state.Content() == saved.state.Content())
  {
    hide Valid, Follows, Consecutive, NoChangeBelow, Walkable;
    var commands := first + [MarkSaved];
    assert commands[..|commands| - 1] == first;
    var saved := Run(Opened(state), commands);
    hide Run;
    RunsStayWalkable(state, commands);
    RunsCount(state, commands);
    SavedRevisionStays(saved, rest);
    RevisionIdentifies(saved, rest);
  }

  // ----- a revision that comes back with another arrangement

  const SAVED_MARKER: Marker := Marker("A")
  const OTHER_MARKER: Marker := Marker("B")

  function Marked(markers: map<Frame, Marker>): State {
    NewState(48000).(markers := markers)
  }

  lemma MarkedValid(markers: map<Frame, Marker>)
    requires forall at :: at in markers ==> markers[at] == SAVED_MARKER || markers[at] == OTHER_MARKER
    ensures Valid(Marked(markers)) && Normalized(Marked(markers)) == Marked(markers)
  {
    assert ValidMarker(SAVED_MARKER) && ValidMarker(OTHER_MARKER);
    var s := Marked(markers);
    assert Elements(s.trackOrder) == s.tracks.Keys;
    NormalizedIdentity(s);
  }

  lemma MarkerPutCommits(before: Option<Marker>, after: Option<Marker>)
    requires before != after
    requires before.Some? ==> before.value == SAVED_MARKER || before.value == OTHER_MARKER
    requires after.Some? ==> after.value == SAVED_MARKER || after.value == OTHER_MARKER
    ensures var operations := [PutMarker(0, before, after)];
      Committed(operations, Marked(Put(map[], 0, before))) == Ok(Marked(Put(map[], 0, after)))
  {
    var op := PutMarker(0, before, after);
    var s, t := Marked(Put(map[], 0, before)), Marked(Put(map[], 0, after));
    MarkedValid(t.markers);
    hide Valid, Normalized;
    assert [op][..0] == [];
    assert ApplyAll([op], s) == op.Apply(s);
    assert op.Apply(s).value.markers == t.markers;
  }

  function PutMarkerCommand(marker: Marker): Command {
    Perform(PutMarkerAt(0, Some(marker)))
  }

  /** The session after one marker was put where there was none. */
  function AfterPut(session: Session, marker: Marker): Session {
    var operations := [PutMarker(0, None, Some(marker))];
    session.(
      state := Marked(map[0 := marker]), revision := 1, redo := [],
      undo := [Entry(operations, Inverted(operations), 0, 1)])
  }

  lemma PutTransacts(session: Session, marker: Marker)
    requires session.state == Marked(map[]) && session.undo == [] && session.revision == 0
    requires session.historyLimit == DEFAULT_HISTORY_LIMIT
    requires marker == SAVED_MARKER || marker == OTHER_MARKER
    ensures Transact(session, [PutMarker(0, None, Some(marker))]) == Ok(AfterPut(session, marker))
  {
    hide Valid, Committed, Inverted;
    MarkerPutCommits(None, Some(marker));
    var operations := [PutMarker(0, None, Some(marker))];
    assert operations[0] in operations && !operations[0].IsNoop();
    assert Put<Frame, Marker>(map[], 0, None) == map[];
    assert Put<Frame, Marker>(map[], 0, Some(marker)) == map[0 := marker];
    var entry := Entry(operations, Inverted(operations), 0, 1);
    assert session.undo + [entry] == [entry];
  }

  lemma PutStep(session: Session, marker: Marker)
    requires session.state == Marked(map[]) && session.undo == [] && session.revision == 0
    requires session.historyLimit == DEFAULT_HISTORY_LIMIT
    requires marker == SAVED_MARKER || marker == OTHER_MARKER
    ensures Valid(session.state) && Step(session, PutMarkerCommand(marker)).0 == AfterPut(session, marker)
  {
    hide Valid, Transact, AfterPut;
    MarkedValid(map[]);
    PutTransacts(session, marker);
    assert Lookup(session.state.markers, 0) == None;
  }

  lemma UndoPutStep(session: Session, marker: Marker)
    requires session.state == Marked(map[0 := marker]) && |session.undo| == 1 && session.redo == []
    requires session.undo[0] == AfterPut(session, marker).undo[0]
    requires marker == SAVED_MARKER || marker == OTHER_MARKER
    ensures Valid(session.state)
    ensures Step(session, Undo).0 == session.(state := Marked(map[]), undo := [], redo := session.undo, revision := 0)
  {
    hide Valid, Committed;
    MarkedValid(map[0 := marker]);
    InverseMarkerPut(marker);
    assert session.redo + [session.undo[0]] == session.undo;
    assert session.undo[..0] == [];
  }

  lemma InverseMarkerPut(marker: Marker)
    requires marker == SAVED_MARKER || marker == OTHER_MARKER
    ensures Committed(Inverted([PutMarker(0, None, Some(marker))]), Marked(map[0 := marker])) == Ok(Marked(map[]))
  {
    MarkerPutCommits(Some(marker), None);
    hide Committed;
    var op := PutMarker(0, None, Some(marker));
    assert Inverted([op]) == [op.Inverse()] by { assert [op][..0] == []; }
    assert Put<Frame, Marker>(map[], 0, None) == map[];
    assert Put<Frame, Marker>(map[], 0, Some(marker)) == map[0 := marker];
  }

  /** Put a marker, save, undo, and put another one in its place. */
  function SaveAndFork(): seq<Command> {
    [PutMarkerCommand(SAVED_MARKER), MarkSaved, Undo, PutMarkerCommand(OTHER_MARKER)]
  }

  lemma {:induction false} RunFromFirst(session: Session, first: Command, rest: seq<Command>)
    requires Valid(session.state)
    ensures Run(session, [first] + rest) == Run(Step(session, first).0, rest)
  {
    hide Valid, Step;
    RunInTwo(session, [first], rest);
    assert [first][..0] == [];
    assert Run(session, [first]) == Step(session, first).0;
  }

  /**
   * Without the condition a revision says nothing: after saving at revision 1, undoing and putting another marker,
   * revision 1 stands for another arrangement, and the session does not count as changed.
   */
  lemma CleanButChanged()
    ensures Valid(Marked(map[]))
    ensures var saved := Run(Opened(Marked(map[])), SaveAndFork()[..2]);
      var forked := Run(Opened(Marked(map[])), SaveAndFork());
      && forked.revision == saved.revision == saved.savedRevision
      && !IsDirty(forked)
      && forked.state.Content() != saved.state.Content()
  {
    hide Valid, Step, Run;
    var begun, commands := Opened(Marked(map[])), SaveAndFork();
    PutStep(begun, SAVED_MARKER);
    var put := AfterPut(begun, SAVED_MARKER);
    var saved := put.(savedRevision := 1);
    UndoPutStep(put, SAVED_MARKER);
    MarkSavedStep(put);
    UndoPutStep(saved, SAVED_MARKER);
    var undone := Step(saved, Undo).0;
    PutStep(undone, OTHER_MARKER);
    assert commands == [commands[0]] + commands[1..] && commands[1..] == [commands[1]] + commands[2..];
    assert commands[2..] == [commands[2]] + commands[3..] && commands[3..] == [commands[3]] + [];
    assert commands[..2] == [commands[0]] + [commands[1]] && [commands[1]] == [commands[1]] + [];
    RunFromFirst(begun, commands[0], commands[1..]);
    RunFromFirst(put, commands[1], commands[2..]);
    RunFromFirst(saved, commands[2], commands[3..]);
    RunFromFirst(undone, commands[3], []);
    RunFromFirst(begun, commands[0], [commands[1]]);
    RunFromFirst(put, commands[1], []);
    NothingRuns(saved);
    NothingRuns(AfterPut(undone, OTHER_MARKER));
    MarkersDiffer();
  }

  lemma MarkSavedStep(session: Session)
    requires Valid(session.state)
    ensures Step(session, MarkSaved).0 == session.(savedRevision := session.revision)
  {}

  lemma NothingRuns(session: Session)
    requires Valid(session.state)
    ensures Run(session, []) == session
  {}

  lemma MarkersDiffer()
    ensures Marked(map[0 := SAVED_MARKER]).Content() != Marked(map[0 := OTHER_MARKER]).Content()
  {
    assert SAVED_MARKER.name[0] != OTHER_MARKER.name[0];
    assert Marked(map[0 := SAVED_MARKER]).Content().markers[0] == SAVED_MARKER;
    assert Marked(map[0 := OTHER_MARKER]).Content().markers[0] == OTHER_MARKER;
  }
}
