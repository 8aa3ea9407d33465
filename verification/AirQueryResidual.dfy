/**
 * The queries for facts that a proposal or a comparison does not explain. They admit the facts that its extent
 * overlaps, and so agree with their name only where there is nothing to answer (src/air_query.rs).
 */
module ResidualQueries {
  import opened Outcomes
  import opened AspectRegions
  import opened AspectTerms
  import opened AspectEvaluation
  import opened AirQueries
  import opened QueryMeanings

  /** The query for the facts that a proposal or a comparison does not explain. */
  function ResidualQuery(reference: ExplanationRef): Query
    requires !reference.Definition?
  {
    match reference
    case Proposal(id) => NotExplainedBy(id)
    case Comparison(id) => NotExplainedByComparison(id)
  }

  /** The universe is valid and not empty, and the reference has a valid extent. */
  predicate ReferenceResolves(reference: ExplanationRef, resolver: Resolver) {
    && AllValid(resolver.universe) && resolver.universe != []
    && reference in resolver.explanations && AllValid(resolver.explanations[reference])
  }

  predicate NamesReference(t: Aspect, reference: ExplanationRef) {
    t == ExplainedBy(reference) || t == ResidualOf(reference)
  }

  lemma ReferenceEvaluates(t: Aspect, reference: ExplanationRef, resolver: Resolver)
    requires NamesReference(t, reference)
    ensures Evaluate(t, resolver).Ok? <==> ReferenceResolves(reference, resolver)
  {
    hide Evaluate, AgreeOnLayer, AllValid;
    EvaluateSucceedsExactly(t, resolver);
    LeafMentions(t);
    assert Normalize(t) == t;
  }

  lemma ReferenceTouches(reference: ExplanationRef, resolver: Resolver, extent: seq<Region>)
    ensures Touches(ResidualOf(reference), resolver, extent) <==> Touches(ExplainedBy(reference), resolver, extent)
  {
    hide Covered, AllValid;
    forall p
      ensures Holds(ResidualOf(reference), ReadingAt(resolver, p)) <==>
        Holds(ExplainedBy(reference), ReadingAt(resolver, p))
    {}
  }

  lemma SatisfiesBoth(reference: ExplanationRef, facts: AirFacts, resolver: Resolver, fact: FactRef)
    requires !reference.Definition?
    ensures Satisfies(ResidualQuery(reference), facts, resolver, fact) <==>
      Satisfies(Within(ExplainedBy(reference)), facts, resolver, fact)
  {
    hide Touches;
    if facts.extent(fact).Some? { ReferenceTouches(reference, resolver, facts.extent(fact).value); }
  }

  lemma AnswerableExactly(reference: ExplanationRef, resolver: Resolver)
    requires !reference.Definition?
    ensures Answerable(ResidualQuery(reference), resolver) <==> ReferenceResolves(reference, resolver)
    ensures Answerable(Within(ExplainedBy(reference)), resolver) <==> ReferenceResolves(reference, resolver)
  {
    hide Evaluate, ReferenceResolves;
    ReferenceEvaluates(ResidualOf(reference), reference, resolver);
    ReferenceEvaluates(ExplainedBy(reference), reference, resolver);
  }

  /** The query for unexplained facts admits the facts that the explanation touches, failures included. */
  lemma ResidualSelectsExplained(reference: ExplanationRef, facts: AirFacts, resolver: Resolver)
    requires !reference.Definition?
    ensures SameFacts(ResidualQuery(reference), Within(ExplainedBy(reference)), facts, resolver)
  {
    hide Satisfies, Answerable, SameFacts, ReferenceResolves;
    AnswerableExactly(reference, resolver);
    forall f
      ensures Satisfies(ResidualQuery(reference), facts, resolver, f) <==>
        Satisfies(Within(ExplainedBy(reference)), facts, resolver, f)
    {
      SatisfiesBoth(reference, facts, resolver, f);
    }
    SameMeaningSameFacts(ResidualQuery(reference), Within(ExplainedBy(reference)), facts, resolver);
  }

  /**
   * It agrees with its name, the facts that the explanation does not touch, exactly where there is nothing to
   * answer: the reference does not resolve, so that both are refused, or no fact is listed at all.
   */
  lemma ResidualMatchesItsNameExactly(reference: ExplanationRef, facts: AirFacts, resolver: Resolver)
    requires !reference.Definition?
    ensures SameFacts(ResidualQuery(reference), Not(Within(ExplainedBy(reference))), facts, resolver) <==>
      !ReferenceResolves(reference, resolver) || Universe(facts) == {}
  {
    hide Satisfies, Answerable, ReferenceResolves, RunUncancelled, Universe;
    var within := Within(ExplainedBy(reference));
    AnswerableExactly(reference, resolver);
    UnfoldNotAnswerable(within, resolver);
    RunMeans(ResidualQuery(reference), facts, resolver);
    RunMeans(Not(within), facts, resolver);
    forall f
      ensures Satisfies(ResidualQuery(reference), facts, resolver, f) <==> !Satisfies(Not(within), facts, resolver, f)
    {
      SatisfiesBoth(reference, facts, resolver, f);
      UnfoldNot(within, facts, resolver, f);
    }
    if ReferenceResolves(reference, resolver) {
      EitherListsEachFact(reference, facts, resolver);
    }
  }

  /** A fact of the universe is in exactly one of the two answers. */
  lemma EitherListsEachFact(reference: ExplanationRef, facts: AirFacts, resolver: Resolver)
    requires !reference.Definition? && ReferenceResolves(reference, resolver)
    ensures var residual := RunUncancelled(ResidualQuery(reference), facts, resolver);
      var untouched := RunUncancelled(Not(Within(ExplainedBy(reference))), facts, resolver);
      && residual.Ok? && untouched.Ok?
      && (forall f :: f in Universe(facts) ==> (Lists(residual.value, f) <==> !Lists(untouched.value, f)))
      && (forall f :: f !in Universe(facts) ==> !Lists(residual.value, f) && !Lists(untouched.value, f))
  {
    hide Satisfies, Answerable, ReferenceResolves, RunUncancelled, Universe, Lists;
    var within := Within(ExplainedBy(reference));
    AnswerableExactly(reference, resolver);
    UnfoldNotAnswerable(within, resolver);
    RunMeans(ResidualQuery(reference), facts, resolver);
    RunMeans(Not(within), facts, resolver);
    forall f
      ensures Satisfies(ResidualQuery(reference), facts, resolver, f) <==> !Satisfies(Not(within), facts, resolver, f)
    {
      SatisfiesBoth(reference, facts, resolver, f);
      UnfoldNot(within, facts, resolver, f);
    }
  }

  // ----- a fact that is explained in full

  const BOX: Region := Region(FrameSpan(0, 1), BandSpan(0.0, 1.0), 1)

  const LONE_FACT: FactRef := ObjectFact(0)

  /** One fact, whose extent is the whole universe and the whole extent of the explanation. */
  function LoneFact(): AirFacts {
    AirFacts(
      kind => if kind == Objects then [LONE_FACT] else [],
      _ => [],
      fact => if fact == LONE_FACT then Some([BOX]) else None)
  }

  function ExplainsAll(reference: ExplanationRef): Resolver {
    Resolver([BOX], map[], map[], map[reference := [BOX]])
  }

  /** The explanation covers the whole fact, and yet the query for unexplained facts admits it. */
  lemma ExplainedFactIsListed(reference: ExplanationRef)
    requires !reference.Definition?
    ensures var residual := RunUncancelled(ResidualQuery(reference), LoneFact(), ExplainsAll(reference));
      residual.Ok? && Lists(residual.value, LONE_FACT)
    ensures var untouched := RunUncancelled(Not(Within(ExplainedBy(reference))), LoneFact(), ExplainsAll(reference));
      untouched.Ok? && !Lists(untouched.value, LONE_FACT)
  {
    hide RunUncancelled, Lists, Satisfies;
    var facts, resolver := LoneFact(), ExplainsAll(reference);
    LoneFactKnown();
    LoneFactTouched(reference);
    assert ReferenceResolves(reference, resolver);
    EitherListsEachFact(reference, facts, resolver);
    AnswerableExactly(reference, resolver);
    RunMeans(ResidualQuery(reference), facts, resolver);
    SatisfiesBoth(reference, facts, resolver, LONE_FACT);
  }

  lemma LoneFactKnown()
    ensures LONE_FACT in Universe(LoneFact())
  {
    KindsKnown(LoneFact(), Objects);
    assert LONE_FACT in LoneFact().listed(Objects);
  }

  lemma LoneFactTouched(reference: ExplanationRef)
    ensures Satisfies(Within(ExplainedBy(reference)), LoneFact(), ExplainsAll(reference), LONE_FACT)
  {
    var p := Point(0, 0.0, 1);
    var resolver := ExplainsAll(reference);
    assert Covers([BOX][0], p);
    assert Holds(ExplainedBy(reference), ReadingAt(resolver, p));
    assert Touches(ExplainedBy(reference), resolver, [BOX]);
  }
}
