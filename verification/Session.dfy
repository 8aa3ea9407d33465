/** The editor as a value, and its line of states. */
module Sessions {
  import opened Numbers
  import opened Outcomes
  import opened Arrangement
  import opened Normalization
  import opened UndoLaw
  import opened EditPlans

  datatype Entry = Entry(
    forward: seq<Operation>, inverse: seq<Operation>, beforeRevision: U64, afterRevision: U64)

  datatype Session = Session(
    state: State, undo: seq<Entry>, redo: seq<Entry>, revision: U64, savedRevision: U64, historyLimit: nat)

  const DEFAULT_HISTORY_LIMIT := 256

  function Opened(state: State): Session {
    Session(state, [], [], 0, 0, DEFAULT_HISTORY_LIMIT)
  }

  function Newest(entries: seq<Entry>, limit: nat): seq<Entry> {
    if |entries| > limit then entries[|entries| - limit..] else entries
  }

  function Pushed(session: Session, entry: Entry): seq<Entry> {
    if session.historyLimit > 0 then Newest(session.undo + [entry], session.historyLimit) else session.undo
  }

  predicate AllNoops(operations: seq<Operation>) {
    forall op :: op in operations ==> op.IsNoop()
  }

  type StepResult = Result<Session, ArrangementError>

  /** Applies a transaction: a no-op leaves the session alone, a change clears redo and becomes one history entry. */
  ghost function Transact(session: Session, operations: seq<Operation>): (r: StepResult)
    ensures r.Ok? && Valid(session.state) ==> Valid(r.value.state)
  {
    if operations == [] then Err(EmptyTransaction)
    else if AllNoops(operations) then Ok(session)
    else
      var candidate :- Committed(operations, session.state);
      if session.revision + 1 > U64_MAX then Err(RevisionOverflow)
      else
        var entry := Entry(operations, Inverted(operations), session.revision, session.revision + 1);
        Ok(session.(state := candidate, undo := Pushed(session, entry), redo := [], revision := session.revision + 1))
  }

  /** What a command reports. */
  datatype Outcome =
    | Edited(created: Created)
    | Refused(error: ArrangementError)
    | Stepped(revision: Option<U64>)
    | HistoryFailed(cause: ArrangementError)
    | Done

  /** Pops the newest entry; when its inverse is refused the entry is lost and the state stays. */
  ghost function UndoStep(session: Session): (r: (Session, Outcome))
    ensures Valid(session.state) ==> Valid(r.0.state)
  {
    if session.undo == [] then (session, Stepped(None))
    else
      var entry := session.undo[|session.undo| - 1];
      var popped := session.(undo := session.undo[..|session.undo| - 1]);
      match Committed(entry.inverse, session.state)
      case Err(error) => (popped, HistoryFailed(error))
      case Ok(candidate) =>
        (popped.(state := candidate, revision := entry.beforeRevision, redo := session.redo + [entry]),
         Stepped(Some(entry.beforeRevision)))
  }

  ghost function RedoStep(session: Session): (r: (Session, Outcome))
    ensures Valid(session.state) ==> Valid(r.0.state)
  {
    if session.redo == [] then (session, Stepped(None))
    else
      var entry := session.redo[|session.redo| - 1];
      var popped := session.(redo := session.redo[..|session.redo| - 1]);
      match Committed(entry.forward, session.state)
      case Err(error) => (popped, HistoryFailed(error))
      case Ok(candidate) =>
        (popped.(state := candidate, revision := entry.afterRevision, undo := session.undo + [entry]),
         Stepped(Some(entry.afterRevision)))
  }

  /** Both stacks keep the entries nearest to the present. */
  function Limited(session: Session, limit: nat): Session {
    session.(historyLimit := limit, undo := Newest(session.undo, limit), redo := Newest(session.redo, limit))
  }

  datatype Command = Perform(edit: Edit) | Undo | Redo | SetHistoryLimit(limit: nat) | MarkSaved

  ghost function PerformStep(session: Session, edit: Edit): (r: (Session, Outcome))
    requires Valid(session.state)
    ensures Valid(r.0.state)
  {
    match PlanEdit(session.state, edit)
    case Err(error) => (session, Refused(error))
    case Ok(plan) =>
      match Transact(session, plan.operations)
      case Err(error) => (session, Refused(error))
      case Ok(next) => (next, Edited(plan.created))
  }

  ghost function Step(session: Session, command: Command): (r: (Session, Outcome))
    requires Valid(session.state)
    ensures Valid(r.0.state)
  {
    match command
    case Perform(edit) => PerformStep(session, edit)
    case Undo => UndoStep(session)
    case Redo => RedoStep(session)
    case SetHistoryLimit(limit) => (Limited(session, limit), Done)
    case MarkSaved => (session.(savedRevision := session.revision), Done)
  }

  ghost function Run(session: Session, commands: seq<Command>): (r: Session)
    requires Valid(session.state)
    ensures Valid(r.state)
  {
    if commands == [] then session
    else Step(Run(session, commands[..|commands| - 1]), commands[|commands| - 1]).0
  }

  /** What the last command of a run reports. */
  ghost function LastOutcome(session: Session, commands: seq<Command>): Outcome
    requires Valid(session.state) && commands != []
  {
    Step(Run(session, commands[..|commands| - 1]), commands[|commands| - 1]).1
  }

  // ----- what a transaction leaves

  lemma NoopKeepsState(op: Operation, s: State)
    requires ValidCounters(s) && op.IsNoop() && op.Apply(s).Ok?
    ensures op.Apply(s).value == s
  {
    match op
    case PutTrack(before, _) => if before.Some? { PutBack(s.tracks, before.value.id, before); }
    case PutClip(before, _) => if before.Some? { PutBack(s.clips, before.value.id, before); }
    case SetTrackOrder(_, _) =>
    case PutMarker(at, before, _) => PutBack(s.markers, at, before);
  }

  lemma {:induction false} NoopsKeepState(operations: seq<Operation>, s: State)
    requires ValidCounters(s) && AllNoops(operations) && ApplyAll(operations, s).Ok?
    ensures ApplyAll(operations, s).value == s
  {
    hide ValidCounters;
    if operations != [] {
      var front, op := operations[..|operations| - 1], operations[|operations| - 1];
      assert op in operations;
      NoopsKeepState(front, s);
      hide Operation.Apply, Operation.IsNoop;
      NoopKeepsState(op, s);
    }
  }

  /** The newest entry takes the session from its revision to the next one. */
  predicate Recorded(session: Session, operations: seq<Operation>, next: Session) {
    && next.revision == session.revision + 1
    && next.redo == []
    && next.undo == Pushed(session, Entry(operations, Inverted(operations), session.revision, session.revision + 1))
    && next.savedRevision == session.savedRevision && next.historyLimit == session.historyLimit
  }

  /**
   * An accepted transaction leaves the arrangement that its operations commit to. It makes a history entry, or leaves
   * the session as it was; the latter only where that arrangement is the present one.
   */
  lemma TransactLeavesCommitted(session: Session, operations: seq<Operation>)
    requires Valid(session.state) && Transact(session, operations).Ok?
    ensures var next := Transact(session, operations).value;
      && (next == session || Recorded(session, operations, next))
      && (Committed(operations, session.state).Err? ==> next == session)
      && (Committed(operations, session.state).Ok? ==>
           var committed := Committed(operations, session.state).value;
           && next.state.Content() == committed.Content()
           && (next == session ==> committed.Content() == session.state.Content()))
  {
    hide Normalized, Inverted;
    if AllNoops(operations) && ApplyAll(operations, session.state).Ok? {
      NoopsKeepState(operations, session.state);
      NormalizedIdentity(session.state);
    }
    hide AllNoops, ApplyAll, Valid;
  }

  // ----- the line of states

  /** All the arrangements history can still reach, in order, and where the present is among them. */
  datatype Timeline = Timeline(states: seq<State>, cursor: nat)

  function EntryAt(session: Session, i: nat): Entry
    requires i < |session.undo| + |session.redo|
  {
    if i < |session.undo| then session.undo[i] else session.redo[|session.redo| - 1 - (i - |session.undo|)]
  }

  predicate Behind(s: State, now: State) {
    s.nextTrackId <= now.nextTrackId && s.nextClipId <= now.nextClipId
  }

  /** The entry was applied to a and made b, in a way that undo can take back. */
  ghost predicate Joins(entry: Entry, a: State, b: State, now: State) {
    && Valid(a)
    && KeepIdentities(entry.forward)
    && entry.inverse == Inverted(entry.forward)
    && Committed(entry.forward, a).Ok?
    && Committed(entry.forward, a).value.Content() == b.Content()
    && Survives(entry.forward, a)
    && Behind(a, now)
    && Behind(Committed(entry.forward, a).value, now)
  }

  ghost predicate Follows(session: Session, line: Timeline) {
    && Valid(session.state)
    && line.cursor == |session.undo|
    && |line.states| == |session.undo| + |session.redo| + 1
    && session.state.Content() == line.states[line.cursor].Content()
    && (forall i :: 0 <= i < |line.states| - 1 ==>
          Joins(EntryAt(session, i), line.states[i], line.states[i + 1], session.state))
    && (session.historyLimit == 0 ==> session.undo == [] && session.redo == [])
  }

  lemma JoinsLater(entry: Entry, a: State, b: State, b': State, now: State, later: State)
    requires Joins(entry, a, b, now) && Behind(now, later) && b'.Content() == b.Content()
    ensures Joins(entry, a, b', later)
  {}

  lemma CommittedAdvances(operations: seq<Operation>, s: State)
    requires Committed(operations, s).Ok?
    ensures Behind(s, Committed(operations, s).value)
  {
    CountersAdvance(operations, s);
  }

  /** One undo: never refused, and exactly the previous arrangement. */
  lemma UndoReturns(entry: Entry, a: State, b: State, now: State)
    requires Joins(entry, a, b, now)
    requires now.Content() == b.Content()
    ensures Committed(entry.inverse, now).Ok?
    ensures Committed(entry.inverse, now).value.Content() == a.Content()
    ensures Behind(now, Committed(entry.inverse, now).value)
  {
    SurvivalSuffices(entry.forward, a);
    RedoReplays(entry.inverse, Committed(entry.forward, a).value, now);
    CommittedAdvances(entry.inverse, now);
  }

  /** One redo: never refused, and exactly the arrangement that was undone. */
  lemma RedoReturns(entry: Entry, a: State, b: State, now: State)
    requires Joins(entry, a, b, now)
    requires now.Content() == a.Content()
    ensures Committed(entry.forward, now).Ok?
    ensures Committed(entry.forward, now).value.Content() == b.Content()
    ensures Behind(now, Committed(entry.forward, now).value)
  {
    RedoReplays(entry.forward, a, now);
    CommittedAdvances(entry.forward, now);
  }

  /** Undo moves the cursor one place back along an unchanged line. */
  lemma UndoFollows(session: Session, line: Timeline)
    requires Follows(session, line)
    ensures var (next, outcome) := UndoStep(session);
      && outcome.Stepped?
      && (line.cursor == 0 ==> next == session && outcome.revision.None?)
      && (line.cursor > 0 ==>
           && outcome.revision.Some?
           && Follows(next, line.(cursor := line.cursor - 1))
           && Behind(session.state, next.state))
  {
    hide Valid, Joins, Committed;
    if line.cursor > 0 {
      var i := line.cursor - 1;
      var entry := session.undo[i];
      assert EntryAt(session, i) == entry;
      assert Joins(EntryAt(session, i), line.states[i], line.states[i + 1], session.state);
      UndoReturns(entry, line.states[i], line.states[i + 1], session.state);
      var next := UndoStep(session).0;
      forall k | 0 <= k < |line.states| - 1
        ensures Joins(EntryAt(next, k), line.states[k], line.states[k + 1], next.state)
      {
        assert EntryAt(next, k) == EntryAt(session, k);
        JoinsLater(
          EntryAt(session, k), line.states[k], line.states[k + 1], line.states[k + 1], session.state, next.state);
      }
    }
  }

  /** Redo moves it one place forward. */
  lemma RedoFollows(session: Session, line: Timeline)
    requires Follows(session, line)
    ensures var (next, outcome) := RedoStep(session);
      && outcome.Stepped?
      && (line.cursor == |line.states| - 1 ==> next == session && outcome.revision.None?)
      && (line.cursor < |line.states| - 1 ==>
           && outcome.revision.Some?
           && Follows(next, line.(cursor := line.cursor + 1))
           && Behind(session.state, next.state))
  {
    hide Valid, Joins, Committed;
    if line.cursor < |line.states| - 1 {
      var i := line.cursor;
      var entry := session.redo[|session.redo| - 1];
      assert EntryAt(session, i) == entry;
      assert Joins(EntryAt(session, i), line.states[i], line.states[i + 1], session.state);
      RedoReturns(entry, line.states[i], line.states[i + 1], session.state);
      var next := RedoStep(session).0;
      forall k | 0 <= k < |line.states| - 1
        ensures Joins(EntryAt(next, k), line.states[k], line.states[k + 1], next.state)
      {
        assert EntryAt(next, k) == EntryAt(session, k);
        JoinsLater(
          EntryAt(session, k), line.states[k], line.states[k + 1], line.states[k + 1], session.state, next.state);
      }
    }
  }

  /** Keeping at most `limit` places before the cursor and after it. */
  function Windowed(line: Timeline, before: nat, after: nat): Timeline
    requires line.cursor < |line.states|
  {
    var drop := if line.cursor > before then line.cursor - before else 0;
    var end := Min(|line.states|, line.cursor + after + 1);
    Timeline(line.states[drop..end], line.cursor - drop)
  }

  function Dropped(count: nat, limit: nat): nat {
    if count > limit then count - limit else 0
  }

  lemma LimitedEntry(session: Session, limit: nat, k: nat)
    requires k < |Limited(session, limit).undo| + |Limited(session, limit).redo|
    ensures k + Dropped(|session.undo|, limit) < |session.undo| + |session.redo|
    ensures EntryAt(Limited(session, limit), k) == EntryAt(session, k + Dropped(|session.undo|, limit))
  {}

  lemma LimitFollows(session: Session, line: Timeline, limit: nat)
    requires Follows(session, line)
    ensures Follows(Limited(session, limit), Windowed(line, limit, limit))
  {
    hide Valid, Joins;
    var next, window := Limited(session, limit), Windowed(line, limit, limit);
    var drop := Dropped(|session.undo|, limit);
    assert |window.states| == |next.undo| + |next.redo| + 1;
    forall k | 0 <= k < |window.states| - 1
      ensures Joins(EntryAt(next, k), window.states[k], window.states[k + 1], next.state)
    {
      LimitedEntry(session, limit, k);
      assert Joins(EntryAt(session, k + drop), line.states[k + drop], line.states[k + drop + 1], session.state);
    }
  }

  /** The line after a change: everything ahead of the cursor is gone, the new arrangement is the last place. */
  function Extended(line: Timeline, present: State, changed: State, limit: nat): Timeline
    requires line.cursor < |line.states|
  {
    Windowed(Timeline(line.states[..line.cursor] + [present, changed], line.cursor + 1), limit, 0)
  }

  lemma ChangeJoins(session: Session, operations: seq<Operation>)
    requires Valid(session.state)
    requires operations != [] && KeepIdentities(operations) && !AllNoops(operations)
    requires Transact(session, operations).Ok?
    requires Survives(operations, session.state)
    ensures var next := Transact(session, operations).value;
      && Behind(session.state, next.state)
      && Joins(Entry(operations, Inverted(operations), session.revision, next.revision),
               session.state, next.state, next.state)
      && next.undo == Pushed(session, Entry(operations, Inverted(operations), session.revision, next.revision))
      && next.redo == []
      && next.historyLimit == session.historyLimit
  {
    hide Valid, Normalized, Survives;
    CommittedAdvances(operations, session.state);
  }

  /** Before the oldest places are dropped. */
  lemma GrownJoins(session: Session, line: Timeline, entry: Entry, changed: State, m: nat)
    requires Follows(session, line)
    requires Behind(session.state, changed)
    requires Joins(entry, session.state, changed, changed)
    requires m <= line.cursor
    ensures var states := line.states[..line.cursor] + [session.state, changed];
      Joins((session.undo + [entry])[m], states[m], states[m + 1], changed)
  {
    if m < line.cursor {
      assert EntryAt(session, m) == session.undo[m];
      assert Joins(EntryAt(session, m), line.states[m], line.states[m + 1], session.state);
      var states := line.states[..line.cursor] + [session.state, changed];
      JoinsLater(EntryAt(session, m), line.states[m], line.states[m + 1], states[m + 1], session.state, changed);
    }
  }

  /** A change whose images survive normalization extends the line. */
  lemma ChangeFollows(session: Session, line: Timeline, operations: seq<Operation>)
    requires Follows(session, line)
    requires operations != [] && KeepIdentities(operations) && !AllNoops(operations)
    requires Transact(session, operations).Ok?
    requires Survives(operations, session.state)
    ensures var next := Transact(session, operations).value;
      Follows(next, Extended(line, session.state, next.state, session.historyLimit))
  {
    hide Valid, Joins, Committed, Survives;
    var next := Transact(session, operations).value;
    ChangeJoins(session, operations);
    var entry := Entry(operations, Inverted(operations), session.revision, next.revision);
    PushFollows(session, line, entry, next);
  }

  lemma ExtendedStates(line: Timeline, present: State, changed: State, limit: nat)
    requires line.cursor < |line.states|
    ensures var grown := line.states[..line.cursor] + [present, changed];
      var window := Extended(line, present, changed, limit);
      && window.states == grown[Dropped(line.cursor + 1, limit)..]
      && window.cursor == |window.states| - 1 == line.cursor + 1 - Dropped(line.cursor + 1, limit)
  {}

  lemma PushedEntry(session: Session, entry: Entry, next: Session, k: nat)
    requires next.undo == Pushed(session, entry) && next.redo == [] && k < |next.undo|
    requires session.historyLimit == 0 ==> session.undo == []
    ensures var from := k + Dropped(|session.undo| + 1, session.historyLimit);
      from <= |session.undo| && EntryAt(next, k) == (session.undo + [entry])[from]
  {}

  lemma PushFollows(session: Session, line: Timeline, entry: Entry, next: Session)
    requires Follows(session, line) && Valid(next.state)
    requires Behind(session.state, next.state)
    requires Joins(entry, session.state, next.state, next.state)
    requires next.undo == Pushed(session, entry) && next.redo == [] && next.historyLimit == session.historyLimit
    ensures Follows(next, Extended(line, session.state, next.state, session.historyLimit))
  {
    hide Valid, Joins;
    var limit := session.historyLimit;
    var window := Extended(line, session.state, next.state, limit);
    ExtendedStates(line, session.state, next.state, limit);
    forall k | 0 <= k < |window.states| - 1
      ensures Joins(EntryAt(next, k), window.states[k], window.states[k + 1], next.state)
    {
      PushedEntry(session, entry, next, k);
      GrownJoins(session, line, entry, next.state, k + Dropped(line.cursor + 1, limit));
    }
  }

  /** The line after any command. */
  ghost function LineAfter(session: Session, line: Timeline, command: Command): Timeline
    requires Follows(session, line)
  {
    var next := Step(session, command).0;
    match command
    case Perform(_) =>
      if next == session then line else Extended(line, session.state, next.state, session.historyLimit)
    case Undo => if line.cursor == 0 then line else line.(cursor := line.cursor - 1)
    case Redo => if line.cursor == |line.states| - 1 then line else line.(cursor := line.cursor + 1)
    case SetHistoryLimit(limit) => Windowed(line, limit, limit)
    case MarkSaved => line
  }

  lemma PerformFollows(session: Session, line: Timeline, edit: Edit)
    requires Follows(session, line)
    ensures Follows(PerformStep(session, edit).0, LineAfter(session, line, Perform(edit)))
    ensures Behind(session.state, PerformStep(session, edit).0.state)
  {
    hide Valid, Joins, Survives;
    var next := PerformStep(session, edit).0;
    if next != session {
      var operations := PlanEdit(session.state, edit).value.operations;
      PlansKeepIdentities(session.state, edit);
      PlansSurvive(session.state, edit);
      ChangeFollows(session, line, operations);
      CommittedAdvances(operations, session.state);
    }
  }

  /** Every command keeps the session on its line; undo and redo are never refused. */
  lemma StepFollows(session: Session, line: Timeline, command: Command)
    requires Follows(session, line)
    ensures Follows(Step(session, command).0, LineAfter(session, line, command))
    ensures !Step(session, command).1.HistoryFailed?
    ensures Behind(session.state, Step(session, command).0.state)
  {
    hide Valid, Joins, Committed, Survives;
    match command
    case Perform(edit) => PerformFollows(session, line, edit);
    case Undo => UndoFollows(session, line);
    case Redo => RedoFollows(session, line);
    case SetHistoryLimit(limit) => LimitFollows(session, line, limit);
    case MarkSaved =>
      var next := Step(session, command).0;
      forall k | 0 <= k < |line.states| - 1
        ensures Joins(EntryAt(next, k), line.states[k], line.states[k + 1], next.state)
      {
        assert EntryAt(next, k) == EntryAt(session, k);
      }
  }
}
