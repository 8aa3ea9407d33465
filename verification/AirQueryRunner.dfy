/** Queries under a live flag (src/air_query.rs). */
module QueryRunners {
  import opened Outcomes
  import opened Ordering
  import opened AspectTerms
  import opened AspectEvaluation
  import opened AspectEvaluator
  import opened AirQueries

  /** The flag, and how often it has been polled. */
  class QueryCancellation {
    const reading: nat -> bool
    var polls: nat

    constructor (reading: nat -> bool)
      ensures this.reading == reading && polls == 0
    {
      this.reading := reading;
      polls := 0;
    }

    method IsCancelled() returns (cancelled: bool)
      modifies this
      ensures cancelled == reading(old(polls)) && polls == old(polls) + 1
    {
      cancelled := reading(polls);
      polls := polls + 1;
    }
  }

  method SortFacts(facts: set<FactRef>) returns (r: seq<FactRef>)
    ensures r == Sorted(facts)
  {
    FactOrder();
    r := [];
    var rest := facts;
    while rest != {}
      invariant rest <= facts && StrictlySorted(FactLte, r)
      invariant forall f :: f in r <==> f in facts && f !in rest
      decreases rest
    {
      var fact :| fact in rest;
      r := InsertSorted(FactLte, r, fact);
      rest := rest - {fact};
    }
    SortedUnique(facts, r);
  }

  method CollectFacts(listed: seq<FactRef>, known: set<FactRef>, flag: QueryCancellation)
    returns (r: Result<set<FactRef>, QueryError>)
    modifies flag
    ensures var spec := CollectKind(listed, flag.reading, old(flag.polls));
      && flag.polls == spec.polls
      && r == (if spec.outcome.Ok? then Ok(known + spec.outcome.value) else Err(spec.outcome.error))
  {
    var universe := known;
    ghost var start := flag.polls;
    for i := 0 to |listed|
      invariant CollectKind(listed[..i], flag.reading, start).outcome.Ok?
      invariant CollectKind(listed[..i], flag.reading, start).polls == flag.polls
      invariant universe == known + CollectKind(listed[..i], flag.reading, start).outcome.value
    {
      assert listed[..i + 1][..i] == listed[..i];
      var cancelled := flag.IsCancelled();
      if cancelled {
        CollectStops(listed, i + 1, flag.reading, start);
        return Err(Cancelled);
      }
      universe := universe + {listed[i]};
    }
    assert listed[..|listed|] == listed;
    r := Ok(universe);
  }

  /** Once a prefix is cancelled nothing further is read. */
  lemma {:induction false} CollectStops(listed: seq<FactRef>, i: nat, cancelled: nat -> bool, n: nat)
    requires i <= |listed| && CollectKind(listed[..i], cancelled, n).outcome.Err?
    ensures CollectKind(listed, cancelled, n) == CollectKind(listed[..i], cancelled, n)
  {
    if i == |listed| {
      assert listed[..i] == listed;
    } else {
      assert listed[..|listed| - 1][..i] == listed[..i];
      CollectStops(listed[..|listed| - 1], i, cancelled, n);
    }
  }

  lemma {:induction false} KindsStop(kinds: seq<FactKind>, i: nat, facts: AirFacts, cancelled: nat -> bool, n: nat)
    requires i <= |kinds| && CollectKinds(kinds[..i], facts, cancelled, n).outcome.Err?
    ensures CollectKinds(kinds, facts, cancelled, n) == CollectKinds(kinds[..i], facts, cancelled, n)
  {
    if i == |kinds| {
      assert kinds[..i] == kinds;
    } else {
      assert kinds[..|kinds| - 1][..i] == kinds[..i];
      KindsStop(kinds[..|kinds| - 1], i, facts, cancelled, n);
    }
  }

  method CollectUniverse(facts: AirFacts, flag: QueryCancellation) returns (r: Result<set<FactRef>, QueryError>)
    modifies flag
    ensures var spec := FactUniverse(facts, flag.reading, old(flag.polls));
      r == spec.outcome && flag.polls == spec.polls
  {
    hide CollectKind;
    var universe: set<FactRef> := {};
    ghost var start := flag.polls;
    for i := 0 to |KINDS|
      invariant CollectKinds(KINDS[..i], facts, flag.reading, start) == Polled(Ok(universe), flag.polls)
    {
      assert KINDS[..i + 1][..i] == KINDS[..i];
      var kind := CollectFacts(facts.listed(KINDS[i]), universe, flag);
      if kind.Err? {
        KindsStop(KINDS, i + 1, facts, flag.reading, start);
        return kind;
      }
      universe := kind.value;
    }
    assert KINDS[..|KINDS|] == KINDS;
    r := Ok(universe);
  }

  method MergePremises(fact: FactRef, derivations: seq<Derivation>) returns (premises: seq<FactRef>)
    ensures premises == MergedPremises(fact, derivations)
  {
    var all: set<FactRef> := {};
    for i := 0 to |derivations|
      invariant all == AllPremises(derivations[..i])
    {
      assert derivations[..i + 1] == derivations[..i] + [derivations[i]];
      all := all + (set f | f in derivations[i].premises);
    }
    assert derivations[..|derivations|] == derivations;
    if all == {} { return [fact]; }
    premises := SortFacts(all);
  }

  method AdmitSelf(facts: seq<FactRef>, rule: string, holds: FactRef -> bool, flag: QueryCancellation)
    returns (r: Matches)
    modifies flag
    ensures r == AdmitEach(facts, DeriveSelf(rule, holds), flag.reading, old(flag.polls))
    ensures flag.polls == old(flag.polls) + |facts|
  {
    r := map[];
    ghost var start := flag.polls;
    for i := 0 to |facts|
      invariant flag.polls == start + i
      invariant r == AdmitEach(facts[..i], DeriveSelf(rule, holds), flag.reading, start)
    {
      assert facts[..i + 1][..i] == facts[..i];
      var cancelled := flag.IsCancelled();
      if !cancelled && holds(facts[i]) { r := r[facts[i] := Derivation(rule, [facts[i]])]; }
    }
    assert facts[..|facts|] == facts;
  }

  lemma AdmitStep(facts: seq<FactRef>, i: nat, derive: FactRef -> Option<Derivation>, cancelled: nat -> bool, n: nat)
    requires i < |facts|
    ensures AdmitEach(facts[..i + 1], derive, cancelled, n) ==
      if cancelled(n + i) || derive(facts[i]).None? then AdmitEach(facts[..i], derive, cancelled, n)
      else AdmitEach(facts[..i], derive, cancelled, n)[facts[i] := derive(facts[i]).value]
  {
    assert facts[..i + 1][..i] == facts[..i];
  }

  method RelateFact(fact: FactRef, facts: AirFacts, targets: Matches) returns (r: Option<Derivation>)
    ensures r == DeriveRelated(facts, targets)(fact)
  {
    var premises := SortFacts(set g | g in facts.related(fact) && g in targets);
    r := if premises == [] then None else Some(Derivation("related", premises));
  }

  method AdmitRelated(universe: seq<FactRef>, facts: AirFacts, targets: Matches, flag: QueryCancellation)
    returns (r: Matches)
    modifies flag
    ensures r == AdmitEach(universe, DeriveRelated(facts, targets), flag.reading, old(flag.polls))
    ensures flag.polls == old(flag.polls) + |universe|
  {
    hide AdmitEach, DeriveRelated;
    r := map[];
    ghost var start := flag.polls;
    AdmitNothing(DeriveRelated(facts, targets), flag.reading, start);
    for i := 0 to |universe|
      invariant flag.polls == start + i
      invariant r == AdmitEach(universe[..i], DeriveRelated(facts, targets), flag.reading, start)
    {
      AdmitStep(universe, i, DeriveRelated(facts, targets), flag.reading, start);
      var cancelled := flag.IsCancelled();
      if !cancelled {
        var derivation := RelateFact(universe[i], facts, targets);
        if derivation.Some? { r := r[universe[i] := derivation.value]; }
      }
    }
    assert universe[..|universe|] == universe;
  }

  lemma AdmitNothing(derive: FactRef -> Option<Derivation>, cancelled: nat -> bool, n: nat)
    ensures AdmitEach([], derive, cancelled, n) == map[]
  {}

  method JoinFact(fact: FactRef, results: seq<Matches>) returns (r: Option<Derivation>)
    ensures r == DeriveAnd(results)(fact)
  {
    hide MergedPremises;
    if forall m :: m in results ==> fact in m {
      var premises := MergePremises(fact, Gather(results, fact));
      r := Some(Derivation("and", premises));
    } else {
      r := None;
    }
  }

  method AdmitAnd(universe: seq<FactRef>, results: seq<Matches>, flag: QueryCancellation) returns (r: Matches)
    modifies flag
    ensures r == AdmitEach(universe, DeriveAnd(results), flag.reading, old(flag.polls))
    ensures flag.polls == old(flag.polls) + |universe|
  {
    hide AdmitEach, DeriveAnd;
    r := map[];
    ghost var start := flag.polls;
    AdmitNothing(DeriveAnd(results), flag.reading, start);
    for i := 0 to |universe|
      invariant flag.polls == start + i
      invariant r == AdmitEach(universe[..i], DeriveAnd(results), flag.reading, start)
    {
      AdmitStep(universe, i, DeriveAnd(results), flag.reading, start);
      var cancelled := flag.IsCancelled();
      if !cancelled {
        var derivation := JoinFact(universe[i], results);
        if derivation.Some? { r := r[universe[i] := derivation.value]; }
      }
    }
    assert universe[..|universe|] == universe;
  }

  lemma PushStep(keys: seq<FactRef>, i: nat, matches: Matches, filed: Admitted, cancelled: nat -> bool, n: nat)
    requires i < |keys| && forall f :: f in keys ==> f in matches
    ensures var front := PushEach(keys[..i], matches, filed, cancelled, n);
      PushEach(keys[..i + 1], matches, filed, cancelled, n) ==
        if front.outcome.Err? then front
        else if cancelled(front.polls) then Polled(Err(Cancelled), front.polls + 1)
        else Polled(Ok(Pushed(front.outcome.value, keys[i], matches[keys[i]])), front.polls + 1)
  {
    assert keys[..i + 1][..i] == keys[..i] && keys[i] in keys;
  }

  lemma PushNothing(matches: Matches, filed: Admitted, cancelled: nat -> bool, n: nat)
    ensures PushEach([], matches, filed, cancelled, n) == Polled(Ok(filed), n)
  {}

  method FileMatches(matches: Matches, filed: Admitted, flag: QueryCancellation)
    returns (r: Result<Admitted, QueryError>)
    modifies flag
    ensures var spec := PushEach(Sorted(matches.Keys), matches, filed, flag.reading, old(flag.polls));
      r == spec.outcome && flag.polls == spec.polls
  {
    hide PushEach, Pushed;
    var keys := SortFacts(matches.Keys);
    var admitted := filed;
    ghost var start := flag.polls;
    PushNothing(matches, filed, flag.reading, start);
    for i := 0 to |keys|
      invariant PushEach(keys[..i], matches, filed, flag.reading, start) == Polled(Ok(admitted), flag.polls)
    {
      PushStep(keys, i, matches, filed, flag.reading, start);
      assert keys[i] in keys;
      var cancelled := flag.IsCancelled();
      if cancelled {
        FilingStops(keys, i + 1, matches, filed, flag.reading, start);
        return Err(Cancelled);
      }
      admitted := Pushed(admitted, keys[i], matches[keys[i]]);
    }
    assert keys[..|keys|] == keys;
    r := Ok(admitted);
  }

  lemma {:induction false} FilingStops(
      keys: seq<FactRef>, i: nat, matches: Matches, filed: Admitted, cancelled: nat -> bool, n: nat)
    requires i <= |keys| && forall f :: f in keys ==> f in matches
    requires PushEach(keys[..i], matches, filed, cancelled, n).outcome.Err?
    ensures PushEach(keys, matches, filed, cancelled, n) == PushEach(keys[..i], matches, filed, cancelled, n)
  {
    if i == |keys| {
      assert keys[..i] == keys;
    } else {
      assert keys[..|keys| - 1][..i] == keys[..i];
      FilingStops(keys[..|keys| - 1], i, matches, filed, cancelled, n);
    }
  }

  method MergeFiled(admitted: Admitted) returns (r: Matches)
    ensures r == MergeAdmitted(admitted)
  {
    r := map[];
    var rest := admitted.Keys;
    while rest != {}
      invariant rest <= admitted.Keys
      invariant r == map fact | fact in admitted && fact !in rest ::
        Derivation("or", MergedPremises(fact, admitted[fact]))
      decreases rest
    {
      var fact :| fact in rest;
      var premises := MergePremises(fact, admitted[fact]);
      r := r[fact := Derivation("or", premises)];
      rest := rest - {fact};
    }
  }

  method EvaluateSelection(
      aspect: Aspect, rule: string, facts: AirFacts, resolver: Resolver, universe: seq<FactRef>,
      flag: QueryCancellation)
    returns (r: Result<Matches, QueryError>)
    modifies flag
    ensures var spec := EvalSelection(aspect, rule, facts, resolver, universe, flag.reading, old(flag.polls));
      r == spec.outcome && flag.polls == spec.polls
  {
    hide Evaluate, AdmitEach;
    var selection := EvaluateAspect(aspect, resolver);
    if selection.Err? { return Err(Unevaluable(selection.error)); }
    var matches := AdmitSelf(universe, rule, InRegions(selection.value.regions, facts), flag);
    r := Ok(matches);
  }

  method EvaluateQuery(
      query: Query, facts: AirFacts, resolver: Resolver, universe: seq<FactRef>, flag: QueryCancellation)
    returns (r: Result<Matches, QueryError>)
    modifies flag
    ensures var spec := EvalQuery(query, facts, resolver, universe, flag.reading, old(flag.polls));
      r == spec.outcome && flag.polls == spec.polls
    decreases query, 1
  {
    hide EvalSelection, AdmitEach, EvalEach, EvalAny, MergeAdmitted;
    var cancelled := flag.IsCancelled();
    if cancelled { return Err(Cancelled); }
    match query {
      case Kind(kind) =>
        var matches := AdmitSelf(facts.listed(kind), "kind", InSequence(universe), flag);
        r := Ok(matches);
      case Within(aspect) => r := EvaluateSelection(aspect, "within", facts, resolver, universe, flag);
      case NotExplainedBy(id) =>
        r := EvaluateSelection(ResidualOf(Proposal(id)), "not-explained-by", facts, resolver, universe, flag);
      case NotExplainedByComparison(id) =>
        r := EvaluateSelection(ResidualOf(Comparison(id)), "not-explained-by", facts, resolver, universe, flag);
      case Related(to) =>
        r := EvaluateQuery(to, facts, resolver, universe, flag);
        if r.Ok? {
          var matches := AdmitRelated(universe, facts, r.value, flag);
          r := Ok(matches);
        }
      case And(children) =>
        if children == [] { return Ok(IdentityMatches(universe)); }
        var results := EvaluateEach(children, facts, resolver, universe, flag);
        if results.Err? { return Err(results.error); }
        var matches := AdmitAnd(universe, results.value, flag);
        r := Ok(matches);
      case Or(children) =>
        var admitted := EvaluateAny(children, facts, resolver, universe, flag);
        if admitted.Err? { return Err(admitted.error); }
        var matches := MergeFiled(admitted.value);
        r := Ok(matches);
      case Not(child) =>
        r := EvaluateQuery(child, facts, resolver, universe, flag);
        if r.Ok? {
          var matches := AdmitSelf(universe, "not", NotIn(r.value), flag);
          r := Ok(matches);
        }
    }
  }

  method EvaluateEach(
      children: seq<Query>, facts: AirFacts, resolver: Resolver, universe: seq<FactRef>, flag: QueryCancellation)
    returns (r: Result<seq<Matches>, QueryError>)
    modifies flag
    ensures var spec := EvalEach(children, facts, resolver, universe, flag.reading, old(flag.polls));
      r == spec.outcome && flag.polls == spec.polls
    decreases children, 0
  {
    hide EvalQuery;
    var results: seq<Matches> := [];
    ghost var start := flag.polls;
    for i := 0 to |children|
      invariant EvalEach(children[..i], facts, resolver, universe, flag.reading, start)
             == Polled(Ok(results), flag.polls)
    {
      assert children[..i + 1][..i] == children[..i];
      var matches := EvaluateQuery(children[i], facts, resolver, universe, flag);
      if matches.Err? {
        EachStops(children, i + 1, facts, resolver, universe, flag.reading, start);
        return Err(matches.error);
      }
      results := results + [matches.value];
    }
    assert children[..|children|] == children;
    r := Ok(results);
  }

  lemma {:induction false} EachStops(
      children: seq<Query>, i: nat, facts: AirFacts, resolver: Resolver, universe: seq<FactRef>,
      cancelled: nat -> bool, n: nat)
    requires i <= |children| && EvalEach(children[..i], facts, resolver, universe, cancelled, n).outcome.Err?
    ensures EvalEach(children, facts, resolver, universe, cancelled, n)
         == EvalEach(children[..i], facts, resolver, universe, cancelled, n)
  {
    hide EvalQuery;
    if i == |children| {
      assert children[..i] == children;
    } else {
      assert children[..|children| - 1][..i] == children[..i];
      EachStops(children[..|children| - 1], i, facts, resolver, universe, cancelled, n);
    }
  }

  method EvaluateAny(
      children: seq<Query>, facts: AirFacts, resolver: Resolver, universe: seq<FactRef>, flag: QueryCancellation)
    returns (r: Result<Admitted, QueryError>)
    modifies flag
    ensures var spec := EvalAny(children, facts, resolver, universe, flag.reading, old(flag.polls));
      r == spec.outcome && flag.polls == spec.polls
    decreases children, 0
  {
    hide EvalQuery, PushEach;
    var admitted: Admitted := map[];
    ghost var start := flag.polls;
    for i := 0 to |children|
      invariant EvalAny(children[..i], facts, resolver, universe, flag.reading, start)
             == Polled(Ok(admitted), flag.polls)
    {
      assert children[..i + 1][..i] == children[..i];
      var matches := EvaluateQuery(children[i], facts, resolver, universe, flag);
      if matches.Err? {
        AnyStops(children, i + 1, facts, resolver, universe, flag.reading, start);
        return Err(matches.error);
      }
      var filed := FileMatches(matches.value, admitted, flag);
      if filed.Err? {
        AnyStops(children, i + 1, facts, resolver, universe, flag.reading, start);
        return filed;
      }
      admitted := filed.value;
    }
    assert children[..|children|] == children;
    r := Ok(admitted);
  }

  lemma {:induction false} AnyStops(
      children: seq<Query>, i: nat, facts: AirFacts, resolver: Resolver, universe: seq<FactRef>,
      cancelled: nat -> bool, n: nat)
    requires i <= |children| && EvalAny(children[..i], facts, resolver, universe, cancelled, n).outcome.Err?
    ensures EvalAny(children, facts, resolver, universe, cancelled, n)
         == EvalAny(children[..i], facts, resolver, universe, cancelled, n)
  {
    hide EvalQuery, PushEach;
    if i == |children| {
      assert children[..i] == children;
    } else {
      assert children[..|children| - 1][..i] == children[..i];
      AnyStops(children[..|children| - 1], i, facts, resolver, universe, cancelled, n);
    }
  }

  method ListEntries(matches: Matches) returns (r: Answer)
    ensures r == Entries(matches)
  {
    var keys := SortFacts(matches.Keys);
    r := [];
    for i := 0 to |keys|
      invariant |r| == i && forall j :: 0 <= j < i ==> r[j] == Entries(matches)[j]
    {
      assert keys[i] in keys;
      r := r + [(keys[i], matches[keys[i]])];
    }
  }

  /** A run under a live flag, poll for poll. */
  method RunQuery(query: Query, facts: AirFacts, resolver: Resolver, flag: QueryCancellation)
    returns (r: Result<Answer, QueryError>)
    requires flag.polls == 0
    modifies flag
    ensures r == RunCancellable(query, facts, resolver, flag.reading)
    ensures flag.polls == RunPolled(query, facts, resolver, flag.reading).polls
  {
    hide EvalQuery, FactUniverse, Entries;
    var cancelled := flag.IsCancelled();
    if cancelled { return Err(Cancelled); }
    var universe := CollectUniverse(facts, flag);
    if universe.Err? { return Err(universe.error); }
    var known := SortFacts(universe.value);
    var matches := EvaluateQuery(query, facts, resolver, known, flag);
    if matches.Err? { return Err(matches.error); }
    cancelled := flag.IsCancelled();
    if cancelled { return Err(Cancelled); }
    var answer := ListEntries(matches.value);
    r := Ok(answer);
  }
}
