/** The stateful editor: a state, two history stacks and a revision, changed in place (src/arrangement.rs). */
module Editor {
  import opened Numbers
  import opened Outcomes
  import opened Arrangement
  import opened UndoLaw
  import opened EditPlans
  import opened Sessions
  import opened EditEffects
  import opened EditRefusals
  import opened EditorRuns
  import Revisions
  import opened Kernel

  class ArrangementEditor {
    var state: State
    var undo: seq<Entry>
    var redo: seq<Entry>
    var revision: U64
    var savedRevision: U64
    var historyLimit: nat

    ghost function Snapshot(): Session
      reads this
    {
      Session(state, undo, redo, revision, savedRevision, historyLimit)
    }

    /** The state is valid and history can be walked from end to end. */
    ghost predicate Consistent()
      reads this
    {
      Valid(state) && Walkable(Snapshot())
    }

    constructor (initial: State)
      requires Valid(initial)
      ensures Consistent() && Snapshot() == Opened(initial)
    {
      state, undo, redo := initial, [], [];
      revision, savedRevision, historyLimit := 0, 0, DEFAULT_HISTORY_LIMIT;
      new;
      OpenedFollows(initial);
    }

    /** An editor on a valid state, with empty history; any other state is refused. */
    static method FromState(initial: State) returns (r: Result<ArrangementEditor, ArrangementError>)
      ensures r.Ok? <==> Valid(initial)
      ensures r.Ok? ==> fresh(r.value) && r.value.Consistent() && r.value.Snapshot() == Opened(initial)
      ensures r.Err? ==> r.error == ValidationFailed
    {
      if !Valid(initial) { return Err(ValidationFailed); }
      var editor := new ArrangementEditor(initial);
      r := Ok(editor);
    }

    /** Whether the revision differs from the one that was saved. */
    function IsDirty(): (dirty: bool)
      reads this
      ensures dirty == Revisions.IsDirty(Snapshot())
    {
      revision != savedRevision
    }

    method MarkSaved()
      modifies this`savedRevision
      ensures Snapshot() == old(Snapshot()).(savedRevision := old(revision))
      ensures !IsDirty()
      ensures old(Consistent()) ==> Consistent()
    {
      ghost var before := Snapshot();
      savedRevision := revision;
      if Walkable(before) { SavingWalkable(before); }
    }

    /** Drops the oldest undo entries beyond the limit. */
    method ForgetOldest(limit: nat)
      modifies this`undo
      ensures undo == Newest(old(undo), limit)
    {
      while |undo| > limit
        invariant undo == Newest(old(undo), Max(limit, |undo|))
        decreases |undo|
      {
        undo := undo[1..];
      }
    }

    /** Any transaction may be applied; one whose images survive normalization keeps history walkable. */
    method Apply(operations: seq<Operation>) returns (r: Result<U64, ArrangementError>)
      requires Valid(state)
      modifies this
      ensures Valid(state)
      ensures match Transact(old(Snapshot()), operations)
              case Ok(next) => Snapshot() == next && r == Ok(next.revision)
              case Err(error) => Snapshot() == old(Snapshot()) && r == Err(error)
      ensures old(Consistent()) && KeepIdentities(operations)
              && (ApplyAll(operations, old(state)).Ok? ==> Survives(operations, old(state)))
              ==> Consistent()
    {
      hide Valid, Normalized, Walkable, Survives, ApplyAll, Committed, KeepIdentities;
      ghost var before := Snapshot();
      if operations == [] { return Err(EmptyTransaction); }
      if AllNoops(operations) { return Ok(revision); }
      var committed := Commit(operations, state);
      if committed.Err? { return Err(committed.error); }
      if revision + 1 > U64_MAX { return Err(RevisionOverflow); }
      var entry := Entry(operations, Inverted(operations), revision, revision + 1);
      revision := revision + 1;
      state := committed.value;
      redo := [];
      if historyLimit > 0 {
        undo := undo + [entry];
        ForgetOldest(historyLimit);
      }
      StaysWalkable(before, operations);
      return Ok(revision);
    }

    /** Takes back the newest change; on a consistent editor it is never refused. */
    method Undo() returns (r: Result<Option<U64>, ArrangementError>)
      requires Valid(state)
      modifies this
      ensures Valid(state)
      ensures Snapshot() == UndoStep(old(Snapshot())).0
      ensures match UndoStep(old(Snapshot())).1
              case HistoryFailed(error) => r == Err(error)
              case Stepped(moved) => r == Ok(moved)
              case _ => false
      ensures old(Consistent()) ==> Consistent() && r.Ok?
    {
      hide Valid, Walkable, Committed;
      ghost var before := Snapshot();
      if Walkable(before) { UndoWalkable(before); }
      if undo == [] { return Ok(None); }
      var entry := undo[|undo| - 1];
      undo := undo[..|undo| - 1];
      var committed := Commit(entry.inverse, state);
      if committed.Err? { return Err(committed.error); }
      state := committed.value;
      revision := entry.beforeRevision;
      redo := redo + [entry];
      return Ok(Some(revision));
    }

    /** Brings back the change undone last. */
    method Redo() returns (r: Result<Option<U64>, ArrangementError>)
      requires Valid(state)
      modifies this
      ensures Valid(state)
      ensures Snapshot() == RedoStep(old(Snapshot())).0
      ensures match RedoStep(old(Snapshot())).1
              case HistoryFailed(error) => r == Err(error)
              case Stepped(moved) => r == Ok(moved)
              case _ => false
      ensures old(Consistent()) ==> Consistent() && r.Ok?
    {
      hide Valid, Walkable, Committed;
      ghost var before := Snapshot();
      if Walkable(before) { RedoWalkable(before); }
      if redo == [] { return Ok(None); }
      var entry := redo[|redo| - 1];
      redo := redo[..|redo| - 1];
      var committed := Commit(entry.forward, state);
      if committed.Err? { return Err(committed.error); }
      state := committed.value;
      revision := entry.afterRevision;
      undo := undo + [entry];
      return Ok(Some(revision));
    }

    method SetHistoryLimit(limit: nat)
      modifies this
      ensures Snapshot() == Limited(old(Snapshot()), limit)
      ensures old(Consistent()) ==> Consistent()
    {
      hide Valid, Walkable;
      ghost var before := Snapshot();
      historyLimit := limit;
      ForgetOldest(limit);
      if limit == 0 {
        undo, redo := [], [];
      } else if |redo| > limit {
        redo := redo[|redo| - limit..];
      }
      if Walkable(before) { LimitWalkable(before, limit); }
    }

    /**
     * Every edit method plans one transaction on the current state and applies it. What is not allowed is refused;
     * what is carried out has its effect.
     */
    method Perform(edit: Edit) returns (outcome: Outcome)
      requires Consistent()
      modifies this
      ensures Consistent()
      ensures (Snapshot(), outcome) == PerformStep(old(Snapshot()), edit)
      ensures outcome.Edited? ==> Allowed(old(state), edit) && Effect(edit, outcome.created, old(state), state)
    {
      hide Valid, Walkable, Survives, KeepIdentities, ApplyAll, Committed, Effect, Allowed;
      ghost var before := Snapshot();
      if PerformStep(before, edit).1.Edited? { EditHasItsEffect(before, edit); }
      AllowedEditHappens(before, edit);
      var plan := PlanEdit(state, edit);
      if plan.Err? { return Refused(plan.error); }
      PlansKeepIdentities(state, edit);
      if ApplyAll(plan.value.operations, state).Ok? { PlansSurvive(state, edit); }
      var applied := Apply(plan.value.operations);
      if applied.Err? { return Refused(applied.error); }
      return Edited(plan.value.created);
    }
  }
}
