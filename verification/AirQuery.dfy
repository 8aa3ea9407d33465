/** Questions over the fact base (src/air_query.rs). */
module AirQueries {
  import opened Outcomes
  import opened Ordering
  import opened AspectRegions
  import opened AspectTerms
  import opened AspectEvaluation

  datatype FactRef = ObjectFact(id: nat) | SourceFact(id: nat) | ParameterFact(id: nat) | HypothesisFact(id: nat)

  datatype FactKind = Objects | Sources | Parameters | Hypotheses

  /** The read-only views of the fact base. */
  datatype AirFacts = AirFacts(
    listed: FactKind -> seq<FactRef>,
    related: FactRef -> seq<FactRef>,
    extent: FactRef -> Option<seq<Region>>)

  datatype Query =
    | Kind(kind: FactKind)
    | Within(aspect: Aspect)
    | Related(to: Query)
    | NotExplainedBy(proposal: nat)
    | NotExplainedByComparison(comparison: nat)
    | And(all: seq<Query>)
    | Or(any: seq<Query>)
    | Not(negated: Query)

  datatype Derivation = Derivation(rule: string, premises: seq<FactRef>)

  datatype QueryError = Unevaluable(cause: AspectError) | Cancelled

  /** What a computation answers, and how many times the cancellation flag has been polled by then. */
  datatype Polled<T> = Polled(outcome: Result<T, QueryError>, polls: nat)

  /** The flag at each poll: once set it stays set. */
  ghost predicate NeverCleared(cancelled: nat -> bool) {
    forall i: nat, j: nat :: i <= j && cancelled(i) ==> cancelled(j)
  }

  const NEVER_CANCEL: nat -> bool := _ => false

  function FactRank(f: FactRef): int {
    match f
    case ObjectFact(_) => 0
    case SourceFact(_) => 1
    case ParameterFact(_) => 2
    case HypothesisFact(_) => 3
  }

  predicate FactLte(a: FactRef, b: FactRef) {
    if FactRank(a) != FactRank(b) then FactRank(a) < FactRank(b) else a.id <= b.id
  }

  lemma FactOrder()
    ensures TotalOrder(FactLte)
  {}

  /** Facts stand in the order object, source, parameter, hypothesis, and within one kind by identity. */
  lemma FactsInOrder(i: nat, j: nat)
    ensures FactLte(ObjectFact(i), SourceFact(j)) && !FactLte(SourceFact(j), ObjectFact(i))
    ensures FactLte(SourceFact(i), ParameterFact(j)) && !FactLte(ParameterFact(j), SourceFact(i))
    ensures FactLte(ParameterFact(i), HypothesisFact(j)) && !FactLte(HypothesisFact(j), ParameterFact(i))
    ensures FactLte(ObjectFact(i), ObjectFact(j)) <==> i <= j
    ensures FactLte(SourceFact(i), SourceFact(j)) <==> i <= j
    ensures FactLte(ParameterFact(i), ParameterFact(j)) <==> i <= j
    ensures FactLte(HypothesisFact(i), HypothesisFact(j)) <==> i <= j
  {}

  ghost function Sorted(facts: set<FactRef>): (r: seq<FactRef>)
    ensures StrictlySorted(FactLte, r)
    ensures forall f :: f in r <==> f in facts
  {
    FactOrder();
    Ascending(FactLte, facts)
  }

  lemma SortedUnique(facts: set<FactRef>, listing: seq<FactRef>)
    requires StrictlySorted(FactLte, listing) && forall f :: f in listing <==> f in facts
    ensures Sorted(facts) == listing
  {
    FactOrder();
    AscendingUnique(FactLte, Sorted(facts), listing);
  }

  // ----- universe

  const KINDS: seq<FactKind> := [Objects, Sources, Parameters, Hypotheses]

  /** Collects one kind, polling before each fact. */
  ghost function CollectKind(listed: seq<FactRef>, cancelled: nat -> bool, n: nat): (r: Polled<set<FactRef>>)
    ensures r.polls >= n
  {
    if listed == [] then Polled(Ok({}), n)
    else
      var front := CollectKind(listed[..|listed| - 1], cancelled, n);
      if front.outcome.Err? then front
      else if cancelled(front.polls) then Polled(Err(Cancelled), front.polls + 1)
      else Polled(Ok(front.outcome.value + {listed[|listed| - 1]}), front.polls + 1)
  }

  ghost function CollectKinds(kinds: seq<FactKind>, facts: AirFacts, cancelled: nat -> bool, n: nat)
    : (r: Polled<set<FactRef>>)
    ensures r.polls >= n
  {
    if kinds == [] then Polled(Ok({}), n)
    else
      var front := CollectKinds(kinds[..|kinds| - 1], facts, cancelled, n);
      if front.outcome.Err? then front
      else
        var last := CollectKind(facts.listed(kinds[|kinds| - 1]), cancelled, front.polls);
        if last.outcome.Err? then last
        else Polled(Ok(front.outcome.value + last.outcome.value), last.polls)
  }

  ghost function FactUniverse(facts: AirFacts, cancelled: nat -> bool, n: nat): (r: Polled<set<FactRef>>)
    ensures r.polls >= n
  {
    CollectKinds(KINDS, facts, cancelled, n)
  }

  // ----- admission

  type Matches = map<FactRef, Derivation>

  /** Admits what derives, except where the poll made for it finds the flag set: such a fact is silently dropped. */
  ghost function AdmitEach(
      facts: seq<FactRef>, derive: FactRef -> Option<Derivation>, cancelled: nat -> bool, n: nat): Matches
  {
    if facts == [] then map[]
    else
      var front, last := AdmitEach(facts[..|facts| - 1], derive, cancelled, n), facts[|facts| - 1];
      if cancelled(n + |facts| - 1) || derive(last).None? then front else front[last := derive(last).value]
  }

  ghost function AdmitFrom(
      facts: seq<FactRef>, derive: FactRef -> Option<Derivation>, cancelled: nat -> bool, n: nat): (r: Polled<Matches>)
    ensures r.polls >= n
  {
    Polled(Ok(AdmitEach(facts, derive, cancelled, n)), n + |facts|)
  }

  function Overlaps(lefts: seq<Region>, rights: seq<Region>): bool {
    exists i, j :: 0 <= i < |lefts| && 0 <= j < |rights| && lefts[i].Intersect(rights[j]).Some?
  }

  function DeriveSelf(rule: string, holds: FactRef -> bool): FactRef -> Option<Derivation> {
    fact => if holds(fact) then Some(Derivation(rule, [fact])) else None
  }

  function InSequence(universe: seq<FactRef>): FactRef -> bool {
    fact => fact in universe
  }

  function InRegions(selection: seq<Region>, facts: AirFacts): FactRef -> bool {
    fact => facts.extent(fact).Some? && Overlaps(selection, facts.extent(fact).value)
  }

  function NotIn(excluded: Matches): FactRef -> bool {
    fact => fact !in excluded
  }

  ghost function RelatedTargets(facts: AirFacts, targets: Matches, fact: FactRef): seq<FactRef> {
    Sorted(set g | g in facts.related(fact) && g in targets)
  }

  ghost function DeriveRelated(facts: AirFacts, targets: Matches): FactRef -> Option<Derivation> {
    fact =>
      var premises := RelatedTargets(facts, targets, fact);
      if premises == [] then None else Some(Derivation("related", premises))
  }

  function AllPremises(derivations: seq<Derivation>): set<FactRef> {
    set d, f | d in derivations && f in d.premises :: f
  }

  ghost function MergedPremises(fact: FactRef, derivations: seq<Derivation>): seq<FactRef> {
    if AllPremises(derivations) == {} then [fact] else Sorted(AllPremises(derivations))
  }

  /** What each of several results derives for a fact they all contain. */
  function Gather(results: seq<Matches>, fact: FactRef): (r: seq<Derivation>)
    requires forall m :: m in results ==> fact in m
    ensures |r| == |results| && forall i :: 0 <= i < |r| ==> r[i] == results[i][fact]
  {
    if results == [] then []
    else Gather(results[..|results| - 1], fact) + [results[|results| - 1][fact]]
  }

  ghost function DeriveAnd(results: seq<Matches>): FactRef -> Option<Derivation> {
    fact =>
      if forall m :: m in results ==> fact in m
      then Some(Derivation("and", MergedPremises(fact, Gather(results, fact)))) else None
  }

  function IdentityMatches(universe: seq<FactRef>): Matches {
    map fact | fact in universe :: Derivation("and-identity", [fact])
  }

  type Admitted = map<FactRef, seq<Derivation>>

  function Pushed(admitted: Admitted, fact: FactRef, derivation: Derivation): Admitted {
    admitted[fact := (if fact in admitted then admitted[fact] else []) + [derivation]]
  }

  /** Files the matches of one alternative, in order, polling before each. */
  ghost function PushEach(
      keys: seq<FactRef>, matches: Matches, admitted: Admitted, cancelled: nat -> bool, n: nat): (r: Polled<Admitted>)
    requires forall f :: f in keys ==> f in matches
    ensures r.polls >= n
  {
    if keys == [] then Polled(Ok(admitted), n)
    else
      var front := PushEach(keys[..|keys| - 1], matches, admitted, cancelled, n);
      var last := keys[|keys| - 1];
      if front.outcome.Err? then front
      else if cancelled(front.polls) then Polled(Err(Cancelled), front.polls + 1)
      else Polled(Ok(Pushed(front.outcome.value, last, matches[last])), front.polls + 1)
  }

  ghost function MergeAdmitted(admitted: Admitted): Matches {
    map fact | fact in admitted :: Derivation("or", MergedPremises(fact, admitted[fact]))
  }

  // ----- queries

  ghost function EvalSelection(
      aspect: Aspect, rule: string, facts: AirFacts, resolver: Resolver, universe: seq<FactRef>,
      cancelled: nat -> bool, n: nat): (r: Polled<Matches>)
    ensures r.polls >= n
  {
    var selection := Evaluate(aspect, resolver);
    if selection.Err? then Polled(Err(Unevaluable(selection.error)), n)
    else AdmitFrom(universe, DeriveSelf(rule, InRegions(selection.value.regions, facts)), cancelled, n)
  }

  ghost function EvalQuery(
      query: Query, facts: AirFacts, resolver: Resolver, universe: seq<FactRef>,
      cancelled: nat -> bool, n: nat): (r: Polled<Matches>)
    ensures r.polls > n
    decreases query, 1
  {
    if cancelled(n) then Polled(Err(Cancelled), n + 1)
    else
      match query
      case Kind(kind) => AdmitFrom(facts.listed(kind), DeriveSelf("kind", InSequence(universe)), cancelled, n + 1)
      case Within(aspect) => EvalSelection(aspect, "within", facts, resolver, universe, cancelled, n + 1)
      case NotExplainedBy(proposal) =>
        EvalSelection(ResidualOf(Proposal(proposal)), "not-explained-by", facts, resolver, universe, cancelled, n + 1)
      case NotExplainedByComparison(comparison) =>
        EvalSelection(
          ResidualOf(Comparison(comparison)), "not-explained-by", facts, resolver, universe, cancelled, n + 1)
      case Related(to) =>
        var targets := EvalQuery(to, facts, resolver, universe, cancelled, n + 1);
        if targets.outcome.Err? then targets
        else AdmitFrom(universe, DeriveRelated(facts, targets.outcome.value), cancelled, targets.polls)
      case And(children) =>
        if children == [] then Polled(Ok(IdentityMatches(universe)), n + 1)
        else
          var results := EvalEach(children, facts, resolver, universe, cancelled, n + 1);
          if results.outcome.Err? then Polled(Err(results.outcome.error), results.polls)
          else AdmitFrom(universe, DeriveAnd(results.outcome.value), cancelled, results.polls)
      case Or(children) =>
        var admitted := EvalAny(children, facts, resolver, universe, cancelled, n + 1);
        if admitted.outcome.Err? then Polled(Err(admitted.outcome.error), admitted.polls)
        else Polled(Ok(MergeAdmitted(admitted.outcome.value)), admitted.polls)
      case Not(child) =>
        var excluded := EvalQuery(child, facts, resolver, universe, cancelled, n + 1);
        if excluded.outcome.Err? then excluded
        else AdmitFrom(universe, DeriveSelf("not", NotIn(excluded.outcome.value)), cancelled, excluded.polls)
  }

  ghost function EvalEach(
      children: seq<Query>, facts: AirFacts, resolver: Resolver, universe: seq<FactRef>,
      cancelled: nat -> bool, n: nat): (r: Polled<seq<Matches>>)
    ensures r.polls >= n
    decreases children, 0
  {
    if children == [] then Polled(Ok([]), n)
    else
      var front := EvalEach(children[..|children| - 1], facts, resolver, universe, cancelled, n);
      if front.outcome.Err? then front
      else
        var last := EvalQuery(children[|children| - 1], facts, resolver, universe, cancelled, front.polls);
        if last.outcome.Err? then Polled(Err(last.outcome.error), last.polls)
        else Polled(Ok(front.outcome.value + [last.outcome.value]), last.polls)
  }

  ghost function EvalAny(
      children: seq<Query>, facts: AirFacts, resolver: Resolver, universe: seq<FactRef>,
      cancelled: nat -> bool, n: nat): (r: Polled<Admitted>)
    ensures r.polls >= n
    decreases children, 0
  {
    if children == [] then Polled(Ok(map[]), n)
    else
      var front := EvalAny(children[..|children| - 1], facts, resolver, universe, cancelled, n);
      if front.outcome.Err? then front
      else
        var last := EvalQuery(children[|children| - 1], facts, resolver, universe, cancelled, front.polls);
        if last.outcome.Err? then Polled(Err(last.outcome.error), last.polls)
        else PushEach(Sorted(last.outcome.value.Keys), last.outcome.value, front.outcome.value, cancelled, last.polls)
  }

  /** The matches as the list the program returns, in the order of their facts. */
  ghost function Entries(matches: Matches): (r: seq<(FactRef, Derivation)>)
  {
    var keys := Sorted(matches.Keys);
    seq(|keys|, i requires 0 <= i < |keys| => (keys[i], matches[keys[i]]))
  }

  type Answer = seq<(FactRef, Derivation)>

  ghost function RunPolled(query: Query, facts: AirFacts, resolver: Resolver, cancelled: nat -> bool)
    : (r: Polled<Answer>)
    ensures r.polls > 0
  {
    if cancelled(0) then Polled(Err(Cancelled), 1)
    else
      var universe := FactUniverse(facts, cancelled, 1);
      if universe.outcome.Err? then Polled(Err(universe.outcome.error), universe.polls)
      else
        var matches := EvalQuery(query, facts, resolver, Sorted(universe.outcome.value), cancelled, universe.polls);
        if matches.outcome.Err? then Polled(Err(matches.outcome.error), matches.polls)
        else if cancelled(matches.polls) then Polled(Err(Cancelled), matches.polls + 1)
        else Polled(Ok(Entries(matches.outcome.value)), matches.polls + 1)
  }

  ghost function RunCancellable(query: Query, facts: AirFacts, resolver: Resolver, cancelled: nat -> bool)
    : Result<Answer, QueryError>
  {
    RunPolled(query, facts, resolver, cancelled).outcome
  }

  ghost function RunUncancelled(query: Query, facts: AirFacts, resolver: Resolver): Result<Answer, QueryError> {
    RunCancellable(query, facts, resolver, NEVER_CANCEL)
  }
}
