/** Cancellation only withholds (src/air_query.rs). */
module QueryCancellations {
  import opened Outcomes
  import opened AspectTerms
  import opened AspectEvaluation
  import opened AirQueries

  /** Two flags read alike at every poll from n up to, not including, end. */
  ghost predicate Alike(a: nat -> bool, b: nat -> bool, n: nat, end: nat) {
    forall k: nat :: n <= k < end ==> a(k) == b(k)
  }

  lemma AlikePart(a: nat -> bool, b: nat -> bool, n: nat, end: nat, from: nat, to: nat)
    requires Alike(a, b, n, end) && n <= from && to <= end
    ensures Alike(a, b, from, to)
  {}

  lemma AlikeAt(a: nat -> bool, b: nat -> bool, n: nat, end: nat)
    requires Alike(a, b, n, end) && n < end
    ensures a(n) == b(n)
  {}

  // ----- a computation depends only on the polls it makes

  lemma {:induction false} AdmitEachAlike(
      facts: seq<FactRef>, derive: FactRef -> Option<Derivation>, a: nat -> bool, b: nat -> bool, n: nat)
    requires Alike(a, b, n, n + |facts|)
    ensures AdmitEach(facts, derive, a, n) == AdmitEach(facts, derive, b, n)
  {
    if facts != [] { AdmitEachAlike(facts[..|facts| - 1], derive, a, b, n); }
  }

  lemma {:induction false} CollectKindAlike(listed: seq<FactRef>, a: nat -> bool, b: nat -> bool, n: nat)
    requires Alike(a, b, n, CollectKind(listed, a, n).polls)
    ensures CollectKind(listed, a, n) == CollectKind(listed, b, n)
  {
    if listed != [] {
      var front := CollectKind(listed[..|listed| - 1], a, n);
      AlikePart(a, b, n, CollectKind(listed, a, n).polls, n, front.polls);
      CollectKindAlike(listed[..|listed| - 1], a, b, n);
    }
  }

  lemma {:induction false} CollectKindsAlike(
      kinds: seq<FactKind>, facts: AirFacts, a: nat -> bool, b: nat -> bool, n: nat)
    requires Alike(a, b, n, CollectKinds(kinds, facts, a, n).polls)
    ensures CollectKinds(kinds, facts, a, n) == CollectKinds(kinds, facts, b, n)
  {
    if kinds != [] {
      var end := CollectKinds(kinds, facts, a, n).polls;
      var front := CollectKinds(kinds[..|kinds| - 1], facts, a, n);
      AlikePart(a, b, n, end, n, front.polls);
      CollectKindsAlike(kinds[..|kinds| - 1], facts, a, b, n);
      if front.outcome.Ok? {
        CollectKindAlike(facts.listed(kinds[|kinds| - 1]), a, b, front.polls);
      }
    }
  }

  lemma {:induction false} PushEachAlike(
      keys: seq<FactRef>, matches: Matches, admitted: Admitted, a: nat -> bool, b: nat -> bool, n: nat)
    requires forall f :: f in keys ==> f in matches
    requires Alike(a, b, n, PushEach(keys, matches, admitted, a, n).polls)
    ensures PushEach(keys, matches, admitted, a, n) == PushEach(keys, matches, admitted, b, n)
  {
    if keys != [] {
      var front := PushEach(keys[..|keys| - 1], matches, admitted, a, n);
      AlikePart(a, b, n, PushEach(keys, matches, admitted, a, n).polls, n, front.polls);
      PushEachAlike(keys[..|keys| - 1], matches, admitted, a, b, n);
    }
  }

  lemma EvalSelectionAlike(
      aspect: Aspect, rule: string, facts: AirFacts, resolver: Resolver, universe: seq<FactRef>,
      a: nat -> bool, b: nat -> bool, n: nat)
    requires Alike(a, b, n, EvalSelection(aspect, rule, facts, resolver, universe, a, n).polls)
    ensures EvalSelection(aspect, rule, facts, resolver, universe, a, n)
         == EvalSelection(aspect, rule, facts, resolver, universe, b, n)
  {
    hide Evaluate;
    var selection := Evaluate(aspect, resolver);
    if selection.Ok? {
      AdmitEachAlike(universe, DeriveSelf(rule, InRegions(selection.value.regions, facts)), a, b, n);
    }
  }

  lemma {:induction false} EvalQueryAlike(
      query: Query, facts: AirFacts, resolver: Resolver, universe: seq<FactRef>,
      a: nat -> bool, b: nat -> bool, n: nat)
    requires Alike(a, b, n, EvalQuery(query, facts, resolver, universe, a, n).polls)
    ensures EvalQuery(query, facts, resolver, universe, a, n) == EvalQuery(query, facts, resolver, universe, b, n)
    decreases query, 1
  {
    hide Evaluate, EvalSelection, AdmitEach, MergeAdmitted, Alike;
    var end := EvalQuery(query, facts, resolver, universe, a, n).polls;
    AlikeAt(a, b, n, end);
    if !a(n) {
      match query {
        case Kind(kind) =>
          AlikePart(a, b, n, end, n + 1, end);
          AdmitEachAlike(facts.listed(kind), DeriveSelf("kind", InSequence(universe)), a, b, n + 1);
        case Within(aspect) =>
          AlikePart(a, b, n, end, n + 1, end);
          EvalSelectionAlike(aspect, "within", facts, resolver, universe, a, b, n + 1);
        case NotExplainedBy(proposal) =>
          AlikePart(a, b, n, end, n + 1, end);
          EvalSelectionAlike(
            ResidualOf(Proposal(proposal)), "not-explained-by", facts, resolver, universe, a, b, n + 1);
        case NotExplainedByComparison(comparison) =>
          AlikePart(a, b, n, end, n + 1, end);
          EvalSelectionAlike(
            ResidualOf(Comparison(comparison)), "not-explained-by", facts, resolver, universe, a, b, n + 1);
        case Related(to) =>
          var targets := EvalQuery(to, facts, resolver, universe, a, n + 1);
          AlikePart(a, b, n, end, n + 1, targets.polls);
          EvalQueryAlike(to, facts, resolver, universe, a, b, n + 1);
          if targets.outcome.Ok? {
            AlikePart(a, b, n, end, targets.polls, end);
            AdmitEachAlike(universe, DeriveRelated(facts, targets.outcome.value), a, b, targets.polls);
          }
        case And(children) =>
          if children != [] {
            var results := EvalEach(children, facts, resolver, universe, a, n + 1);
            AlikePart(a, b, n, end, n + 1, results.polls);
            EvalEachAlike(children, facts, resolver, universe, a, b, n + 1);
            if results.outcome.Ok? {
              AlikePart(a, b, n, end, results.polls, end);
              AdmitEachAlike(universe, DeriveAnd(results.outcome.value), a, b, results.polls);
            }
          }
        case Or(children) =>
          AlikePart(a, b, n, end, n + 1, end);
          EvalAnyAlike(children, facts, resolver, universe, a, b, n + 1);
        case Not(child) =>
          var excluded := EvalQuery(child, facts, resolver, universe, a, n + 1);
          AlikePart(a, b, n, end, n + 1, excluded.polls);
          EvalQueryAlike(child, facts, resolver, universe, a, b, n + 1);
          if excluded.outcome.Ok? {
            AlikePart(a, b, n, end, excluded.polls, end);
            AdmitEachAlike(universe, DeriveSelf("not", NotIn(excluded.outcome.value)), a, b, excluded.polls);
          }
      }
    }
  }

  lemma {:induction false} EvalEachAlike(
      children: seq<Query>, facts: AirFacts, resolver: Resolver, universe: seq<FactRef>,
      a: nat -> bool, b: nat -> bool, n: nat)
    requires Alike(a, b, n, EvalEach(children, facts, resolver, universe, a, n).polls)
    ensures EvalEach(children, facts, resolver, universe, a, n) == EvalEach(children, facts, resolver, universe, b, n)
    decreases children, 0
  {
    hide EvalQuery, Alike;
    if children != [] {
      var end := EvalEach(children, facts, resolver, universe, a, n).polls;
      var front := EvalEach(children[..|children| - 1], facts, resolver, universe, a, n);
      AlikePart(a, b, n, end, n, front.polls);
      EvalEachAlike(children[..|children| - 1], facts, resolver, universe, a, b, n);
      if front.outcome.Ok? {
        AlikePart(a, b, n, end, front.polls, end);
        EvalQueryAlike(children[|children| - 1], facts, resolver, universe, a, b, front.polls);
      }
    }
  }

  lemma {:induction false} EvalAnyAlike(
      children: seq<Query>, facts: AirFacts, resolver: Resolver, universe: seq<FactRef>,
      a: nat -> bool, b: nat -> bool, n: nat)
    requires Alike(a, b, n, EvalAny(children, facts, resolver, universe, a, n).polls)
    ensures EvalAny(children, facts, resolver, universe, a, n) == EvalAny(children, facts, resolver, universe, b, n)
    decreases children, 0
  {
    hide EvalQuery, PushEach, Alike;
    if children != [] {
      var end := EvalAny(children, facts, resolver, universe, a, n).polls;
      var front := EvalAny(children[..|children| - 1], facts, resolver, universe, a, n);
      AlikePart(a, b, n, end, n, front.polls);
      EvalAnyAlike(children[..|children| - 1], facts, resolver, universe, a, b, n);
      if front.outcome.Ok? {
        var last := EvalQuery(children[|children| - 1], facts, resolver, universe, a, front.polls);
        AlikePart(a, b, n, end, front.polls, last.polls);
        EvalQueryAlike(children[|children| - 1], facts, resolver, universe, a, b, front.polls);
        if last.outcome.Ok? {
          AlikePart(a, b, n, end, last.polls, end);
          PushEachAlike(Sorted(last.outcome.value.Keys), last.outcome.value, front.outcome.value, a, b, last.polls);
        }
      }
    }
  }

  lemma RunAlike(query: Query, facts: AirFacts, resolver: Resolver, a: nat -> bool, b: nat -> bool)
    requires Alike(a, b, 0, RunPolled(query, facts, resolver, a).polls)
    ensures RunPolled(query, facts, resolver, a) == RunPolled(query, facts, resolver, b)
  {
    hide EvalQuery, Entries;
    var end := RunPolled(query, facts, resolver, a).polls;
    if !a(0) {
      var universe := FactUniverse(facts, a, 1);
      AlikePart(a, b, 0, end, 1, universe.polls);
      CollectKindsAlike(KINDS, facts, a, b, 1);
      if universe.outcome.Ok? {
        var known := Sorted(universe.outcome.value);
        var matches := EvalQuery(query, facts, resolver, known, a, universe.polls);
        AlikePart(a, b, 0, end, universe.polls, matches.polls);
        EvalQueryAlike(query, facts, resolver, known, a, b, universe.polls);
      }
    }
  }

  // ----- refusals

  /** A computation that neither answers nor stops for the flag last polled it unset. */
  ghost predicate RefusedUnset<T>(r: Polled<T>, cancelled: nat -> bool) {
    r.outcome.Err? && r.outcome.error != Cancelled ==> r.polls > 0 && !cancelled(r.polls - 1)
  }

  lemma {:induction false} CollectKindRefusal(listed: seq<FactRef>, cancelled: nat -> bool, n: nat)
    ensures CollectKind(listed, cancelled, n).outcome.Err? ==>
      CollectKind(listed, cancelled, n).outcome.error == Cancelled
  {
    if listed != [] { CollectKindRefusal(listed[..|listed| - 1], cancelled, n); }
  }

  lemma {:induction false} CollectKindsRefusal(kinds: seq<FactKind>, facts: AirFacts, cancelled: nat -> bool, n: nat)
    ensures CollectKinds(kinds, facts, cancelled, n).outcome.Err? ==>
      CollectKinds(kinds, facts, cancelled, n).outcome.error == Cancelled
  {
    if kinds != [] {
      CollectKindsRefusal(kinds[..|kinds| - 1], facts, cancelled, n);
      var front := CollectKinds(kinds[..|kinds| - 1], facts, cancelled, n);
      CollectKindRefusal(facts.listed(kinds[|kinds| - 1]), cancelled, front.polls);
    }
  }

  lemma {:induction false} PushEachRefusal(
      keys: seq<FactRef>, matches: Matches, admitted: Admitted, cancelled: nat -> bool, n: nat)
    requires forall f :: f in keys ==> f in matches
    ensures PushEach(keys, matches, admitted, cancelled, n).outcome.Err? ==>
      PushEach(keys, matches, admitted, cancelled, n).outcome.error == Cancelled
  {
    if keys != [] { PushEachRefusal(keys[..|keys| - 1], matches, admitted, cancelled, n); }
  }

  lemma {:induction false} EvalQueryRefusal(
      query: Query, facts: AirFacts, resolver: Resolver, universe: seq<FactRef>, cancelled: nat -> bool, n: nat)
    ensures RefusedUnset(EvalQuery(query, facts, resolver, universe, cancelled, n), cancelled)
    decreases query, 1
  {
    hide Evaluate, AdmitEach, MergeAdmitted, EvalEach, EvalAny;
    if !cancelled(n) {
      match query {
        case Kind(kind) =>
        case Within(aspect) =>
        case NotExplainedBy(proposal) =>
        case NotExplainedByComparison(comparison) =>
        case Related(to) => EvalQueryRefusal(to, facts, resolver, universe, cancelled, n + 1);
        case And(children) => EvalEachRefusal(children, facts, resolver, universe, cancelled, n + 1);
        case Or(children) => EvalAnyRefusal(children, facts, resolver, universe, cancelled, n + 1);
        case Not(child) => EvalQueryRefusal(child, facts, resolver, universe, cancelled, n + 1);
      }
    }
  }

  lemma {:induction false} EvalEachRefusal(
      children: seq<Query>, facts: AirFacts, resolver: Resolver, universe: seq<FactRef>, cancelled: nat -> bool, n: nat)
    ensures RefusedUnset(EvalEach(children, facts, resolver, universe, cancelled, n), cancelled)
    decreases children, 0
  {
    hide EvalQuery;
    if children != [] {
      EvalEachRefusal(children[..|children| - 1], facts, resolver, universe, cancelled, n);
      var front := EvalEach(children[..|children| - 1], facts, resolver, universe, cancelled, n);
      EvalQueryRefusal(children[|children| - 1], facts, resolver, universe, cancelled, front.polls);
    }
  }

  lemma {:induction false} EvalAnyRefusal(
      children: seq<Query>, facts: AirFacts, resolver: Resolver, universe: seq<FactRef>, cancelled: nat -> bool, n: nat)
    ensures RefusedUnset(EvalAny(children, facts, resolver, universe, cancelled, n), cancelled)
    decreases children, 0
  {
    hide EvalQuery, PushEach;
    if children != [] {
      EvalAnyRefusal(children[..|children| - 1], facts, resolver, universe, cancelled, n);
      var front := EvalAny(children[..|children| - 1], facts, resolver, universe, cancelled, n);
      EvalQueryRefusal(children[|children| - 1], facts, resolver, universe, cancelled, front.polls);
      if front.outcome.Ok? {
        var last := EvalQuery(children[|children| - 1], facts, resolver, universe, cancelled, front.polls);
        if last.outcome.Ok? {
          PushEachRefusal(
            Sorted(last.outcome.value.Keys), last.outcome.value, front.outcome.value, cancelled, last.polls);
        }
      }
    }
  }

  /** Whatever a run delivers other than a cancellation, its last poll found the flag unset. */
  lemma DeliveredUnset(query: Query, facts: AirFacts, resolver: Resolver, cancelled: nat -> bool)
    requires RunCancellable(query, facts, resolver, cancelled) != Err(Cancelled)
    ensures !cancelled(RunPolled(query, facts, resolver, cancelled).polls - 1)
  {
    hide EvalQuery, Entries;
    if !cancelled(0) {
      CollectKindsRefusal(KINDS, facts, cancelled, 1);
      var universe := FactUniverse(facts, cancelled, 1);
      if universe.outcome.Ok? {
        EvalQueryRefusal(query, facts, resolver, Sorted(universe.outcome.value), cancelled, universe.polls);
      }
    }
  }

  lemma UnsetBefore(cancelled: nat -> bool, end: nat)
    requires NeverCleared(cancelled) && end > 0 && !cancelled(end - 1)
    ensures Alike(cancelled, NEVER_CANCEL, 0, end) && Alike(NEVER_CANCEL, cancelled, 0, end)
  {
    var last: nat := end - 1;
  }

  /**
   * A flag that is never cleared has all or no effect: a run is refused as cancelled when the flag is set by the
   * last poll an undisturbed run makes, and otherwise delivers just what the undisturbed run delivers. What the
   * polls inside the filters drop never shows, not even through a negation.
   */
  lemma CancellationOnlyWithholds(query: Query, facts: AirFacts, resolver: Resolver, cancelled: nat -> bool)
    requires NeverCleared(cancelled)
    ensures RunCancellable(query, facts, resolver, cancelled) ==
      if cancelled(RunPolled(query, facts, resolver, NEVER_CANCEL).polls - 1) then Err(Cancelled)
      else RunUncancelled(query, facts, resolver)
  {
    hide RunPolled;
    var undisturbed := RunPolled(query, facts, resolver, NEVER_CANCEL);
    if !cancelled(undisturbed.polls - 1) {
      UnsetBefore(cancelled, undisturbed.polls);
      RunAlike(query, facts, resolver, NEVER_CANCEL, cancelled);
    } else if RunCancellable(query, facts, resolver, cancelled) != Err(Cancelled) {
      DeliveredUnset(query, facts, resolver, cancelled);
      UnsetBefore(cancelled, RunPolled(query, facts, resolver, cancelled).polls);
      RunAlike(query, facts, resolver, cancelled, NEVER_CANCEL);
      assert false;
    }
  }
}
