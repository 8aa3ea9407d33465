/** What a query means on the fact base, and that its answer is that set with exact premises (src/air_query.rs). */
module QueryMeanings {
  import opened Numbers
  import opened Outcomes
  import opened Ordering
  import opened ChannelMasks
  import opened AspectRegions
  import opened AspectNormalization
  import opened AspectTerms
  import opened AspectEvaluation
  import opened AirQueries

  // ----- points shared by two selections

  function LowestChannel(mask: ChannelMask): ChannelMask {
    mask & (!mask + 1)
  }

  lemma LowestChannelIsOne(mask: ChannelMask)
    requires mask != 0
    ensures LowestChannel(mask) != 0 && LowestChannel(mask) & (LowestChannel(mask) - 1) == 0
    ensures mask & LowestChannel(mask) != 0
  {}

  lemma HearsLowest(mask: ChannelMask, channel: Channel)
    requires channel == LowestChannel(mask) && mask & LowestChannel(mask) != 0
    ensures Hears(mask, channel)
  {}

  lemma SilentIsZero(mask: ChannelMask)
    ensures Silent(mask) <==> mask == 0
  {}

  lemma SomeChannel(mask: ChannelMask)
    requires !Silent(mask)
    ensures exists channel: Channel :: Hears(mask, channel)
  {
    hide *;
    SilentIsZero(mask);
    LowestChannelIsOne(mask);
    var channel: Channel := LowestChannel(mask);
    HearsLowest(mask, channel);
  }

  lemma SpansMeet(a: FrameSpan, b: FrameSpan, p: Point)
    ensures FrameIn(a, p) && FrameIn(b, p) ==> a.Intersect(b).Some?
    ensures a.Intersect(b).Some? && p.frame == Max(a.start, b.start) ==> FrameIn(a, p) && FrameIn(b, p)
  {}

  lemma BandsMeet(a: BandSpan, b: BandSpan, p: Point)
    requires a.Valid()
    ensures HzIn(a, p) && HzIn(b, p) ==> a.Intersect(b).Some?
    ensures a.Intersect(b).Some? && p.hz == (if a.minHz > b.minHz then a.minHz else b.minHz) ==>
      HzIn(a, p) && HzIn(b, p)
  {}

  lemma BoxesMeet(a: Region, b: Region)
    requires a.Valid()
    ensures a.Intersect(b).Some? <==> exists p :: Covers(a, p) && Covers(b, p)
  {
    hide Hears, Shared, Silent, FrameIn, HzIn, FrameSpan.Intersect, BandSpan.Intersect;
    if a.Intersect(b).Some? {
      SomeChannel(Shared(a.channels, b.channels));
      var channel: Channel :| Hears(Shared(a.channels, b.channels), channel);
      var p := Point(
        Max(a.time.start, b.time.start), if a.band.minHz > b.band.minHz then a.band.minHz else b.band.minHz, channel);
      MasksAreChannelSets(a.channels, b.channels, channel);
      SpansMeet(a.time, b.time, p);
      BandsMeet(a.band, b.band, p);
      assert Covers(a, p) && Covers(b, p);
    }
    if p :| Covers(a, p) && Covers(b, p) {
      MasksAreChannelSets(a.channels, b.channels, p.channel);
      SilentMeans(Shared(a.channels, b.channels), p.channel);
      SpansMeet(a.time, b.time, p);
      BandsMeet(a.band, b.band, p);
    }
  }

  /** The box test for overlap is the existence of a common point. */
  lemma OverlapMeansCommonPoint(lefts: seq<Region>, rights: seq<Region>)
    requires AllValid(lefts)
    ensures Overlaps(lefts, rights) <==> exists p :: Covered(lefts, p) && Covered(rights, p)
  {
    hide Covers, Region.Intersect;
    if Overlaps(lefts, rights) {
      var i, j :| 0 <= i < |lefts| && 0 <= j < |rights| && lefts[i].Intersect(rights[j]).Some?;
      BoxesMeet(lefts[i], rights[j]);
      var p :| Covers(lefts[i], p) && Covers(rights[j], p);
      assert Covered(lefts, p) && Covered(rights, p);
    }
    if p :| Covered(lefts, p) && Covered(rights, p) {
      var i :| 0 <= i < |lefts| && Covers(lefts[i], p);
      var j :| 0 <= j < |rights| && Covers(rights[j], p);
      BoxesMeet(lefts[i], rights[j]);
    }
  }

  // ----- meaning

  ghost function ReadingAt(resolver: Resolver, p: Point): Aspect -> bool {
    (t: Aspect) => t.IsLeaf() && Resolvable(t, resolver) && LeafSelects(t, resolver, p)
  }

  /** The term holds at some point of the universe that the extent covers. */
  ghost predicate Touches(aspect: Aspect, resolver: Resolver, extent: seq<Region>) {
    exists p :: Covered(resolver.universe, p) && Holds(aspect, ReadingAt(resolver, p)) && Covered(extent, p)
  }

  ghost predicate ExtentTouches(aspect: Aspect, resolver: Resolver, facts: AirFacts, fact: FactRef) {
    facts.extent(fact).Some? && Touches(aspect, resolver, facts.extent(fact).value)
  }

  /** Every fact listed under one of the kinds. */
  ghost function ListedUnder(kinds: seq<FactKind>, facts: AirFacts): set<FactRef> {
    set kind, fact | kind in kinds && fact in facts.listed(kind) :: fact
  }

  /** Every fact listed under any kind. */
  ghost function Universe(facts: AirFacts): set<FactRef> {
    ListedUnder(KINDS, facts)
  }

  /** The set a query stands for, written as a predicate on the facts of the universe. */
  ghost predicate Satisfies(query: Query, facts: AirFacts, resolver: Resolver, fact: FactRef) {
    match query
    case Kind(kind) => fact in facts.listed(kind)
    case Within(aspect) => ExtentTouches(aspect, resolver, facts, fact)
    case Related(to) =>
      exists g :: g in facts.related(fact) && g in Universe(facts) && Satisfies(to, facts, resolver, g)
    case NotExplainedBy(id) => ExtentTouches(ResidualOf(Proposal(id)), resolver, facts, fact)
    case NotExplainedByComparison(id) => ExtentTouches(ResidualOf(Comparison(id)), resolver, facts, fact)
    case And(children) => forall c :: c in children ==> Satisfies(c, facts, resolver, fact)
    case Or(children) => exists c :: c in children && Satisfies(c, facts, resolver, fact)
    case Not(child) => !Satisfies(child, facts, resolver, fact)
  }

  /** The facts that admit a fact: itself, its matching relatives, or what its matching operands were admitted by. */
  ghost function PremiseSet(query: Query, facts: AirFacts, resolver: Resolver, fact: FactRef): set<FactRef> {
    match query
    case Related(to) => set g | g in Universe(facts) && g in facts.related(fact) && Satisfies(to, facts, resolver, g)
    case And(children) =>
      if children == [] then {fact}
      else set g | g in Universe(facts) && exists c :: c in children && g in PremiseSet(c, facts, resolver, fact)
    case Or(children) =>
      set g | g in Universe(facts) && exists c :: c in children && Satisfies(c, facts, resolver, fact)
                                             && g in PremiseSet(c, facts, resolver, fact)
    case _ => {fact}
  }

  function RuleOf(query: Query): string {
    match query
    case Kind(_) => "kind"
    case Within(_) => "within"
    case Related(_) => "related"
    case NotExplainedBy(_) => "not-explained-by"
    case NotExplainedByComparison(_) => "not-explained-by"
    case And(children) => if children == [] then "and-identity" else "and"
    case Or(_) => "or"
    case Not(_) => "not"
  }

  /** Every selection the query depends on evaluates. */
  ghost predicate Answerable(query: Query, resolver: Resolver) {
    match query
    case Kind(_) => true
    case Within(aspect) => Evaluate(aspect, resolver).Ok?
    case Related(to) => Answerable(to, resolver)
    case NotExplainedBy(id) => Evaluate(ResidualOf(Proposal(id)), resolver).Ok?
    case NotExplainedByComparison(id) => Evaluate(ResidualOf(Comparison(id)), resolver).Ok?
    case And(children) => forall c :: c in children ==> Answerable(c, resolver)
    case Or(children) => forall c :: c in children ==> Answerable(c, resolver)
    case Not(child) => Answerable(child, resolver)
  }

  /** The matches are the facts that satisfy the query, each with its rule and its sorted premises. */
  ghost predicate Means(matches: Matches, query: Query, facts: AirFacts, resolver: Resolver) {
    && (forall f :: f in matches <==> f in Universe(facts) && Satisfies(query, facts, resolver, f))
    && (forall f :: f in matches ==>
          matches[f] == Derivation(RuleOf(query), Sorted(PremiseSet(query, facts, resolver, f))))
  }

  /** A fact of the universe that satisfies a query has premises, all of them in the universe. */
  lemma {:induction false} PremisesKnown(query: Query, facts: AirFacts, resolver: Resolver, fact: FactRef)
    requires fact in Universe(facts)
    ensures PremiseSet(query, facts, resolver, fact) <= Universe(facts)
    ensures Satisfies(query, facts, resolver, fact) ==> PremiseSet(query, facts, resolver, fact) != {}
  {
    hide ExtentTouches, Universe;
    if Satisfies(query, facts, resolver, fact) {
      match query {
        case Kind(_) =>
        case Within(_) =>
        case NotExplainedBy(_) =>
        case NotExplainedByComparison(_) =>
        case Not(_) =>
        case Related(to) =>
          var g :| g in facts.related(fact) && g in Universe(facts) && Satisfies(to, facts, resolver, g);
          assert g in PremiseSet(query, facts, resolver, fact);
        case And(children) =>
          if children != [] {
            var c := children[0];
            assert c in children;
            PremisesKnown(c, facts, resolver, fact);
            var g :| g in PremiseSet(c, facts, resolver, fact);
            assert g in PremiseSet(query, facts, resolver, fact);
          }
        case Or(children) =>
          var c :| c in children && Satisfies(c, facts, resolver, fact);
          PremisesKnown(c, facts, resolver, fact);
          var g :| g in PremiseSet(c, facts, resolver, fact);
          assert g in PremiseSet(query, facts, resolver, fact);
      }
    }
  }

  // ----- the universe

  lemma {:induction false} CollectKindMeans(listed: seq<FactRef>, n: nat)
    ensures CollectKind(listed, NEVER_CANCEL, n).outcome.Ok?
    ensures CollectKind(listed, NEVER_CANCEL, n).outcome.value == set f | f in listed
  {
    if listed != [] {
      var front, last := listed[..|listed| - 1], listed[|listed| - 1];
      CollectKindMeans(front, n);
      assert listed == front + [last];
      assert (set f | f in listed) == (set f | f in front) + {last};
    }
  }

  lemma ListedUnderOneMore(kinds: seq<FactKind>, last: FactKind, facts: AirFacts)
    ensures ListedUnder(kinds + [last], facts) == ListedUnder(kinds, facts) + set f | f in facts.listed(last)
  {}

  lemma {:induction false} CollectKindsMeans(kinds: seq<FactKind>, facts: AirFacts, n: nat)
    ensures CollectKinds(kinds, facts, NEVER_CANCEL, n).outcome.Ok?
    ensures CollectKinds(kinds, facts, NEVER_CANCEL, n).outcome.value == ListedUnder(kinds, facts)
  {
    if kinds != [] {
      hide CollectKind, ListedUnder;
      var front, last := kinds[..|kinds| - 1], kinds[|kinds| - 1];
      CollectKindsMeans(front, facts, n);
      CollectKindMeans(facts.listed(last), CollectKinds(front, facts, NEVER_CANCEL, n).polls);
      assert kinds == front + [last];
      ListedUnderOneMore(front, last, facts);
    }
  }

  // ----- admission

  lemma {:induction false} AdmitEachMeans(facts: seq<FactRef>, derive: FactRef -> Option<Derivation>, n: nat)
    ensures forall f :: f in AdmitEach(facts, derive, NEVER_CANCEL, n) <==> f in facts && derive(f).Some?
    ensures forall f :: f in AdmitEach(facts, derive, NEVER_CANCEL, n) ==>
      AdmitEach(facts, derive, NEVER_CANCEL, n)[f] == derive(f).value
  {
    if facts != [] {
      AdmitEachMeans(facts[..|facts| - 1], derive, n);
      assert facts == facts[..|facts| - 1] + [facts[|facts| - 1]];
    }
  }

  lemma SelfPremise(fact: FactRef)
    ensures Sorted({fact}) == [fact]
  {
    SortedUnique({fact}, [fact]);
  }

  /** A filter that admits facts on their own account. */
  lemma SelfMeans(
      listed: seq<FactRef>, rule: string, holds: FactRef -> bool, n: nat,
      query: Query, facts: AirFacts, resolver: Resolver)
    requires rule == RuleOf(query) && forall f :: PremiseSet(query, facts, resolver, f) == {f}
    requires forall f :: f in listed && holds(f) <==> f in Universe(facts) && Satisfies(query, facts, resolver, f)
    ensures Means(AdmitEach(listed, DeriveSelf(rule, holds), NEVER_CANCEL, n), query, facts, resolver)
  {
    hide Satisfies, PremiseSet, Universe, AdmitEach;
    AdmitEachMeans(listed, DeriveSelf(rule, holds), n);
    forall f ensures Sorted(PremiseSet(query, facts, resolver, f)) == [f] { SelfPremise(f); }
  }

  /** A rule that derives each fact that satisfies the query, with its sorted premises. */
  ghost predicate DerivesExactly(
      derive: FactRef -> Option<Derivation>, query: Query, facts: AirFacts, resolver: Resolver, f: FactRef) {
    && (derive(f).Some? <==> Satisfies(query, facts, resolver, f))
    && (derive(f).Some? ==>
          derive(f).value == Derivation(RuleOf(query), Sorted(PremiseSet(query, facts, resolver, f))))
  }

  lemma FilterMeans(
      derive: FactRef -> Option<Derivation>, query: Query, facts: AirFacts, resolver: Resolver,
      known: seq<FactRef>, n: nat)
    requires forall f :: f in known <==> f in Universe(facts)
    requires forall f :: f in known ==> DerivesExactly(derive, query, facts, resolver, f)
    ensures Means(AdmitEach(known, derive, NEVER_CANCEL, n), query, facts, resolver)
  {
    hide Universe, Satisfies, PremiseSet, AdmitEach, RuleOf;
    AdmitEachMeans(known, derive, n);
    assert forall f :: f in known && derive(f).Some? ==> DerivesExactly(derive, query, facts, resolver, f);
  }

  lemma ReadsItsPoint(resolver: Resolver, p: Point)
    ensures ReadsPoint(ReadingAt(resolver, p), resolver, p)
  {}

  lemma SelectionMeans(aspect: Aspect, facts: AirFacts, resolver: Resolver, fact: FactRef)
    requires Evaluate(aspect, resolver).Ok?
    ensures InRegions(Evaluate(aspect, resolver).value.regions, facts)(fact) <==>
      ExtentTouches(aspect, resolver, facts, fact)
  {
    hide Evaluate, Holds, Covered, Overlaps, ReadingAt, ReadsPoint, AllValid, Canonical;
    if facts.extent(fact).Some? {
      var extent := facts.extent(fact).value;
      var regions := Evaluate(aspect, resolver).value.regions;
      forall p
        ensures Covered(regions, p) <==> Covered(resolver.universe, p) && Holds(aspect, ReadingAt(resolver, p))
      {
        ReadsItsPoint(resolver, p);
        EvaluateIsPointwise(aspect, resolver, ReadingAt(resolver, p), p);
      }
      ReadsItsPoint(resolver, Point(0, 0.0, 1));
      EvaluateIsPointwise(aspect, resolver, ReadingAt(resolver, Point(0, 0.0, 1)), Point(0, 0.0, 1));
      CanonicalValid(regions);
      OverlapMeansCommonPoint(regions, extent);
    }
  }

  lemma EvalSelectionMeans(
      aspect: Aspect, query: Query, facts: AirFacts, resolver: Resolver, known: seq<FactRef>, n: nat)
    requires forall f :: f in known <==> f in Universe(facts)
    requires forall f :: PremiseSet(query, facts, resolver, f) == {f}
    requires forall f :: Satisfies(query, facts, resolver, f) <==> ExtentTouches(aspect, resolver, facts, f)
    ensures var r := EvalSelection(aspect, RuleOf(query), facts, resolver, known, NEVER_CANCEL, n).outcome;
      && (r.Ok? <==> Evaluate(aspect, resolver).Ok?)
      && (r.Ok? ==> Means(r.value, query, facts, resolver))
  {
    hide Evaluate, Satisfies, PremiseSet, Universe, InRegions, Means, ExtentTouches;
    if Evaluate(aspect, resolver).Ok? {
      var regions := Evaluate(aspect, resolver).value.regions;
      forall f ensures InRegions(regions, facts)(f) <==> ExtentTouches(aspect, resolver, facts, f) {
        SelectionMeans(aspect, facts, resolver, f);
      }
      SelfMeans(known, RuleOf(query), InRegions(regions, facts), n, query, facts, resolver);
    }
  }

  lemma RelatedMeans(
      to: Query, targets: Matches, facts: AirFacts, resolver: Resolver, known: seq<FactRef>, n: nat)
    requires forall f :: f in known <==> f in Universe(facts)
    requires Means(targets, to, facts, resolver)
    ensures Means(AdmitEach(known, DeriveRelated(facts, targets), NEVER_CANCEL, n), Related(to), facts, resolver)
  {
    hide Means, Universe, DerivesExactly;
    forall f | f in known ensures DerivesExactly(DeriveRelated(facts, targets), Related(to), facts, resolver, f) {
      RelatedDerives(to, targets, facts, resolver, f);
    }
    FilterMeans(DeriveRelated(facts, targets), Related(to), facts, resolver, known, n);
  }

  lemma RelatedDerives(to: Query, targets: Matches, facts: AirFacts, resolver: Resolver, f: FactRef)
    requires Means(targets, to, facts, resolver)
    ensures DerivesExactly(DeriveRelated(facts, targets), Related(to), facts, resolver, f)
  {
    RelatedTargetsMean(to, targets, facts, resolver, f);
    hide RelatedTargets, Satisfies, PremiseSet, Means;
  }

  lemma RelatedTargetsMean(to: Query, targets: Matches, facts: AirFacts, resolver: Resolver, f: FactRef)
    requires Means(targets, to, facts, resolver)
    ensures RelatedTargets(facts, targets, f) == Sorted(PremiseSet(Related(to), facts, resolver, f))
    ensures RelatedTargets(facts, targets, f) != [] <==> Satisfies(Related(to), facts, resolver, f)
  {
    hide Universe;
    var premises := set g | g in facts.related(f) && g in targets;
    assert premises == PremiseSet(Related(to), facts, resolver, f);
    if Satisfies(Related(to), facts, resolver, f) {
      var g :| g in facts.related(f) && g in Universe(facts) && Satisfies(to, facts, resolver, g);
      assert g in RelatedTargets(facts, targets, f);
    }
    if RelatedTargets(facts, targets, f) != [] {
      var g := RelatedTargets(facts, targets, f)[0];
      assert g in premises;
    }
  }

  // ----- conjunction

  ghost predicate EachMeans(results: seq<Matches>, children: seq<Query>, facts: AirFacts, resolver: Resolver) {
    && |results| == |children|
    && (forall i :: 0 <= i < |children| ==> Means(results[i], children[i], facts, resolver))
  }

  lemma MergedIsSorted(fact: FactRef, derivations: seq<Derivation>)
    requires AllPremises(derivations) != {}
    ensures MergedPremises(fact, derivations) == Sorted(AllPremises(derivations))
  {}

  lemma GatheredPremises(
      results: seq<Matches>, children: seq<Query>, facts: AirFacts, resolver: Resolver, fact: FactRef)
    requires EachMeans(results, children, facts, resolver) && children != []
    requires fact in Universe(facts) && forall m :: m in results ==> fact in m
    ensures AllPremises(Gather(results, fact)) == PremiseSet(And(children), facts, resolver, fact)
  {
    hide Universe, Satisfies;
    var gathered := Gather(results, fact);
    forall i | 0 <= i < |children|
      ensures gathered[i].premises == Sorted(PremiseSet(children[i], facts, resolver, fact))
    {
      assert results[i] in results;
      assert Means(results[i], children[i], facts, resolver);
    }
    forall g | g in PremiseSet(And(children), facts, resolver, fact) ensures g in AllPremises(gathered) {
      var c :| c in children && g in PremiseSet(c, facts, resolver, fact);
      var i :| 0 <= i < |children| && children[i] == c;
      assert gathered[i] in gathered;
    }
    forall g | g in AllPremises(gathered) ensures g in PremiseSet(And(children), facts, resolver, fact) {
      var d :| d in gathered && g in d.premises;
      var i :| 0 <= i < |gathered| && gathered[i] == d;
      PremisesKnown(children[i], facts, resolver, fact);
      assert children[i] in children;
    }
  }

  lemma AndMeans(
      children: seq<Query>, results: seq<Matches>, facts: AirFacts, resolver: Resolver, known: seq<FactRef>, n: nat)
    requires forall f :: f in known <==> f in Universe(facts)
    requires EachMeans(results, children, facts, resolver) && children != []
    ensures Means(AdmitEach(known, DeriveAnd(results), NEVER_CANCEL, n), And(children), facts, resolver)
  {
    hide EachMeans, Universe, DerivesExactly;
    forall f | f in known ensures DerivesExactly(DeriveAnd(results), And(children), facts, resolver, f) {
      AndDerives(children, results, facts, resolver, f);
    }
    FilterMeans(DeriveAnd(results), And(children), facts, resolver, known, n);
  }

  lemma AndDerives(children: seq<Query>, results: seq<Matches>, facts: AirFacts, resolver: Resolver, f: FactRef)
    requires EachMeans(results, children, facts, resolver) && children != [] && f in Universe(facts)
    ensures DerivesExactly(DeriveAnd(results), And(children), facts, resolver, f)
  {
    hide EachMeans, Universe, Satisfies, PremiseSet, AllPremises, MergedPremises, Gather;
    AllContain(children, results, facts, resolver, f);
    AndDerivation(results, f);
    hide DeriveAnd;
    if forall m :: m in results ==> f in m {
      GatheredPremises(results, children, facts, resolver, f);
      PremisesKnown(And(children), facts, resolver, f);
      MergedIsSorted(f, Gather(results, f));
    }
  }

  lemma AndDerivation(results: seq<Matches>, f: FactRef)
    ensures DeriveAnd(results)(f).Some? <==> forall m :: m in results ==> f in m
    ensures (forall m :: m in results ==> f in m) ==>
      DeriveAnd(results)(f) == Some(Derivation("and", MergedPremises(f, Gather(results, f))))
  {
    hide MergedPremises, Gather;
  }

  lemma AllContain(children: seq<Query>, results: seq<Matches>, facts: AirFacts, resolver: Resolver, f: FactRef)
    requires EachMeans(results, children, facts, resolver) && f in Universe(facts)
    ensures (forall m :: m in results ==> f in m) <==> Satisfies(And(children), facts, resolver, f)
  {
    hide Universe;
    if forall m :: m in results ==> f in m {
      forall c | c in children ensures Satisfies(c, facts, resolver, f) {
        var i :| 0 <= i < |children| && children[i] == c;
        assert results[i] in results && Means(results[i], children[i], facts, resolver);
      }
    }
    if Satisfies(And(children), facts, resolver, f) {
      forall m | m in results ensures f in m {
        var i :| 0 <= i < |results| && results[i] == m;
        assert Means(results[i], children[i], facts, resolver) && children[i] in children;
      }
    }
  }

  lemma IdentityMeans(known: seq<FactRef>, facts: AirFacts, resolver: Resolver)
    requires forall f :: f in known <==> f in Universe(facts)
    ensures Means(IdentityMatches(known), And([]), facts, resolver)
  {
    hide Universe;
    forall f ensures Sorted(PremiseSet(And([]), facts, resolver, f)) == [f] { SelfPremise(f); }
  }

  // ----- disjunction

  /** The derivations filed so far: one per operand that the fact satisfies. */
  ghost predicate Filed(admitted: Admitted, children: seq<Query>, facts: AirFacts, resolver: Resolver) {
    && (forall f :: f in admitted <==> f in Universe(facts) && Satisfies(Or(children), facts, resolver, f))
    && (forall f :: f in admitted ==> AllPremises(admitted[f]) == PremiseSet(Or(children), facts, resolver, f))
  }

  lemma {:induction false} PushEachMeans(keys: seq<FactRef>, matches: Matches, admitted: Admitted, n: nat)
    requires StrictlySorted(FactLte, keys)
    requires forall f :: f in keys ==> f in matches
    ensures PushEach(keys, matches, admitted, NEVER_CANCEL, n).outcome.Ok?
    ensures var r := PushEach(keys, matches, admitted, NEVER_CANCEL, n).outcome.value;
      forall f ::
        && (f in r <==> f in admitted || f in keys)
        && (f in keys ==> r[f] == (if f in admitted then admitted[f] else []) + [matches[f]])
        && (f in admitted && f !in keys ==> r[f] == admitted[f])
  {
    if keys != [] {
      var front, last := keys[..|keys| - 1], keys[|keys| - 1];
      assert keys == front + [last];
      PushEachMeans(front, matches, admitted, n);
      assert last !in front;
    }
  }

  lemma PremisesOfMore(derivations: seq<Derivation>, last: Derivation)
    ensures AllPremises(derivations + [last]) == AllPremises(derivations) + (set f | f in last.premises)
  {}

  lemma OrOfMore(front: seq<Query>, last: Query, facts: AirFacts, resolver: Resolver, f: FactRef)
    requires f in Universe(facts)
    ensures Satisfies(Or(front + [last]), facts, resolver, f) <==>
      Satisfies(Or(front), facts, resolver, f) || Satisfies(last, facts, resolver, f)
    ensures PremiseSet(Or(front + [last]), facts, resolver, f) ==
      PremiseSet(Or(front), facts, resolver, f)
      + (if Satisfies(last, facts, resolver, f) then PremiseSet(last, facts, resolver, f) else {})
  {
    hide Universe;
    var whole := front + [last];
    assert forall c :: c in whole <==> c in front || c == last;
    PremisesKnown(last, facts, resolver, f);
    UnfoldOr(front, facts, resolver, f);
    UnfoldOr(whole, facts, resolver, f);
    hide Satisfies, PremiseSet;
    assert Satisfies(last, facts, resolver, f) ==> Satisfies(Or(whole), facts, resolver, f) by { assert last in whole; }
    forall g ensures g in PremiseSet(Or(whole), facts, resolver, f) <==>
      || g in PremiseSet(Or(front), facts, resolver, f)
      || (Satisfies(last, facts, resolver, f) && g in PremiseSet(last, facts, resolver, f))
    {
      if g in PremiseSet(Or(whole), facts, resolver, f) {
        var c :| c in whole && Satisfies(c, facts, resolver, f) && g in PremiseSet(c, facts, resolver, f);
      }
      if Satisfies(last, facts, resolver, f) && g in PremiseSet(last, facts, resolver, f) { assert last in whole; }
    }
  }

  lemma UnfoldOr(children: seq<Query>, facts: AirFacts, resolver: Resolver, f: FactRef)
    ensures Satisfies(Or(children), facts, resolver, f) <==>
      exists c :: c in children && Satisfies(c, facts, resolver, f)
    ensures forall g :: g in PremiseSet(Or(children), facts, resolver, f) <==>
      g in Universe(facts) && exists c :: c in children && Satisfies(c, facts, resolver, f)
                                        && g in PremiseSet(c, facts, resolver, f)
  {}

  lemma FiledMore(
      front: seq<Query>, last: Query, admitted: Admitted, matches: Matches, facts: AirFacts, resolver: Resolver, n: nat)
    requires Filed(admitted, front, facts, resolver) && Means(matches, last, facts, resolver)
    ensures PushEach(Sorted(matches.Keys), matches, admitted, NEVER_CANCEL, n).outcome.Ok?
    ensures Filed(PushEach(Sorted(matches.Keys), matches, admitted, NEVER_CANCEL, n).outcome.value,
                  front + [last], facts, resolver)
  {
    hide Universe, Satisfies, PremiseSet, PushEach;
    PushEachMeans(Sorted(matches.Keys), matches, admitted, n);
    var r := PushEach(Sorted(matches.Keys), matches, admitted, NEVER_CANCEL, n).outcome.value;
    forall f
      ensures f in r <==> f in Universe(facts) && Satisfies(Or(front + [last]), facts, resolver, f)
      ensures f in r ==> AllPremises(r[f]) == PremiseSet(Or(front + [last]), facts, resolver, f)
    {
      if f in Universe(facts) {
        OrOfMore(front, last, facts, resolver, f);
        if f in r { FiledPremises(front, last, admitted, matches, facts, resolver, f); }
      }
    }
  }

  lemma FiledPremises(
      front: seq<Query>, last: Query, admitted: Admitted, matches: Matches, facts: AirFacts, resolver: Resolver,
      f: FactRef)
    requires Filed(admitted, front, facts, resolver) && Means(matches, last, facts, resolver)
    requires f in Universe(facts)
    ensures f in matches ==>
      AllPremises((if f in admitted then admitted[f] else []) + [matches[f]])
        == PremiseSet(Or(front), facts, resolver, f) + PremiseSet(last, facts, resolver, f)
    ensures f in admitted ==> AllPremises(admitted[f]) == PremiseSet(Or(front), facts, resolver, f)
  {
    hide Universe, AllPremises, Satisfies, PremiseSet;
    if f !in admitted { NoOperandNoPremise(front, facts, resolver, f); }
    assert AllPremises([]) == {} by { NothingFiled(); }
    if f in matches { PremisesOfMore(if f in admitted then admitted[f] else [], matches[f]); }
  }

  lemma NothingFiled()
    ensures AllPremises([]) == {}
  {}

  lemma NoOperandNoPremise(children: seq<Query>, facts: AirFacts, resolver: Resolver, f: FactRef)
    requires !Satisfies(Or(children), facts, resolver, f)
    ensures PremiseSet(Or(children), facts, resolver, f) == {}
  {}

  lemma OrMeans(children: seq<Query>, admitted: Admitted, facts: AirFacts, resolver: Resolver)
    requires Filed(admitted, children, facts, resolver)
    ensures Means(MergeAdmitted(admitted), Or(children), facts, resolver)
  {
    hide Universe, Satisfies, PremiseSet, AllPremises, MergedPremises;
    forall f | f in admitted
      ensures MergedPremises(f, admitted[f]) == Sorted(PremiseSet(Or(children), facts, resolver, f))
    {
      PremisesKnown(Or(children), facts, resolver, f);
      MergedIsSorted(f, admitted[f]);
    }
  }

  // ----- whole queries

  /** An undisturbed evaluation succeeds exactly when its selections do, and yields exactly the meaning. */
  lemma {:induction false} EvalQueryMeans(
      query: Query, facts: AirFacts, resolver: Resolver, known: seq<FactRef>, n: nat)
    requires forall f :: f in known <==> f in Universe(facts)
    ensures var r := EvalQuery(query, facts, resolver, known, NEVER_CANCEL, n).outcome;
      && (r.Ok? <==> Answerable(query, resolver))
      && (r.Ok? ==> Means(r.value, query, facts, resolver))
    decreases query, 1
  {
    hide Evaluate, EvalSelection, AdmitEach, MergeAdmitted, Means, Universe, ExtentTouches, PushEach, EvalEach, EvalAny;
    match query {
      case Kind(kind) =>
        KindsKnown(facts, kind);
        SelfMeans(facts.listed(kind), "kind", InSequence(known), n + 1, query, facts, resolver);
      case Within(aspect) => EvalSelectionMeans(aspect, query, facts, resolver, known, n + 1);
      case NotExplainedBy(id) => EvalSelectionMeans(ResidualOf(Proposal(id)), query, facts, resolver, known, n + 1);
      case NotExplainedByComparison(id) =>
        EvalSelectionMeans(ResidualOf(Comparison(id)), query, facts, resolver, known, n + 1);
      case Related(to) =>
        EvalQueryMeans(to, facts, resolver, known, n + 1);
        var targets := EvalQuery(to, facts, resolver, known, NEVER_CANCEL, n + 1);
        if targets.outcome.Ok? { RelatedMeans(to, targets.outcome.value, facts, resolver, known, targets.polls); }
      case And(children) =>
        if children == [] {
          IdentityMeans(known, facts, resolver);
        } else {
          EvalEachMeans(children, facts, resolver, known, n + 1);
          var results := EvalEach(children, facts, resolver, known, NEVER_CANCEL, n + 1);
          if results.outcome.Ok? { AndMeans(children, results.outcome.value, facts, resolver, known, results.polls); }
        }
      case Or(children) =>
        EvalAnyMeans(children, facts, resolver, known, n + 1);
        var admitted := EvalAny(children, facts, resolver, known, NEVER_CANCEL, n + 1);
        if admitted.outcome.Ok? { OrMeans(children, admitted.outcome.value, facts, resolver); }
      case Not(child) =>
        EvalQueryMeans(child, facts, resolver, known, n + 1);
        var excluded := EvalQuery(child, facts, resolver, known, NEVER_CANCEL, n + 1);
        if excluded.outcome.Ok? { NotMeans(child, excluded.outcome.value, facts, resolver, known, excluded.polls); }
    }
  }

  lemma KindsKnown(facts: AirFacts, kind: FactKind)
    ensures forall f :: f in facts.listed(kind) ==> f in Universe(facts)
  {
    assert kind in KINDS by {
      assert KINDS[0] == Objects && KINDS[1] == Sources && KINDS[2] == Parameters && KINDS[3] == Hypotheses;
    }
  }

  lemma NotMeans(child: Query, excluded: Matches, facts: AirFacts, resolver: Resolver, known: seq<FactRef>, n: nat)
    requires forall f :: f in known <==> f in Universe(facts)
    requires Means(excluded, child, facts, resolver)
    ensures Means(AdmitEach(known, DeriveSelf("not", NotIn(excluded)), NEVER_CANCEL, n), Not(child), facts, resolver)
  {
    hide Universe;
    SelfMeans(known, "not", NotIn(excluded), n, Not(child), facts, resolver);
  }

  lemma {:induction false} EvalEachMeans(
      children: seq<Query>, facts: AirFacts, resolver: Resolver, known: seq<FactRef>, n: nat)
    requires forall f :: f in known <==> f in Universe(facts)
    ensures var r := EvalEach(children, facts, resolver, known, NEVER_CANCEL, n).outcome;
      && (r.Ok? <==> forall c :: c in children ==> Answerable(c, resolver))
      && (r.Ok? ==> EachMeans(r.value, children, facts, resolver))
    decreases children, 0
  {
    hide EvalQuery, Means, Universe, Answerable;
    if children != [] {
      var front, last := children[..|children| - 1], children[|children| - 1];
      assert children == front + [last];
      EvalEachMeans(front, facts, resolver, known, n);
      EvalQueryMeans(last, facts, resolver, known, EvalEach(front, facts, resolver, known, NEVER_CANCEL, n).polls);
    }
  }

  lemma {:induction false} EvalAnyMeans(
      children: seq<Query>, facts: AirFacts, resolver: Resolver, known: seq<FactRef>, n: nat)
    requires forall f :: f in known <==> f in Universe(facts)
    ensures var r := EvalAny(children, facts, resolver, known, NEVER_CANCEL, n).outcome;
      && (r.Ok? <==> forall c :: c in children ==> Answerable(c, resolver))
      && (r.Ok? ==> Filed(r.value, children, facts, resolver))
    decreases children, 0
  {
    hide EvalQuery, Means, Universe, Answerable, PushEach;
    if children == [] {
      assert Filed(map[], [], facts, resolver);
    } else {
      hide Filed;
      var front, last := children[..|children| - 1], children[|children| - 1];
      assert children == front + [last];
      EvalAnyMeans(front, facts, resolver, known, n);
      var filed := EvalAny(front, facts, resolver, known, NEVER_CANCEL, n);
      EvalQueryMeans(last, facts, resolver, known, filed.polls);
      if filed.outcome.Ok? {
        var matches := EvalQuery(last, facts, resolver, known, NEVER_CANCEL, filed.polls);
        if matches.outcome.Ok? {
          FiledMore(front, last, filed.outcome.value, matches.outcome.value, facts, resolver, matches.polls);
        }
      }
    }
  }

  ghost predicate Lists(answer: Answer, fact: FactRef) {
    exists i :: 0 <= i < |answer| && answer[i].0 == fact
  }

  /**
   * An undisturbed run answers exactly when its selections evaluate. The answer lists, in strictly ascending
   * order, the facts of the universe that satisfy the query; each carries its exact premises, ascending,
   * never none, and all of them facts of the universe.
   */
  lemma RunMeans(query: Query, facts: AirFacts, resolver: Resolver)
    ensures RunUncancelled(query, facts, resolver).Ok? <==> Answerable(query, resolver)
    ensures RunUncancelled(query, facts, resolver).Ok? ==>
      var answer := RunUncancelled(query, facts, resolver).value;
      && (forall i, j :: 0 <= i < j < |answer| ==> FactLte(answer[i].0, answer[j].0) && answer[i].0 != answer[j].0)
      && (forall f :: Lists(answer, f) <==> f in Universe(facts) && Satisfies(query, facts, resolver, f))
      && (forall i :: 0 <= i < |answer| ==>
            && answer[i].1.rule == RuleOf(query)
            && answer[i].1.premises == Sorted(PremiseSet(query, facts, resolver, answer[i].0))
            && answer[i].1.premises != []
            && (forall g :: g in answer[i].1.premises ==> g in Universe(facts)))
  {
    hide EvalQuery, Answerable, Satisfies, PremiseSet, Universe;
    CollectKindsMeans(KINDS, facts, 1);
    assert FactUniverse(facts, NEVER_CANCEL, 1).outcome == Ok(Universe(facts)) by { UniverseMeans(facts); }
    var polls := FactUniverse(facts, NEVER_CANCEL, 1).polls;
    var known := Sorted(Universe(facts));
    EvalQueryMeans(query, facts, resolver, known, polls);
    var r := EvalQuery(query, facts, resolver, known, NEVER_CANCEL, polls).outcome;
    if r.Ok? { EntriesMean(r.value, query, facts, resolver); }
  }

  lemma UniverseMeans(facts: AirFacts)
    ensures FactUniverse(facts, NEVER_CANCEL, 1).outcome == Ok(Universe(facts))
  {
    hide CollectKinds;
    CollectKindsMeans(KINDS, facts, 1);
  }

  lemma EntriesMean(matches: Matches, query: Query, facts: AirFacts, resolver: Resolver)
    requires Means(matches, query, facts, resolver)
    ensures var answer := Entries(matches);
      && (forall i, j :: 0 <= i < j < |answer| ==> FactLte(answer[i].0, answer[j].0) && answer[i].0 != answer[j].0)
      && (forall f :: Lists(answer, f) <==> f in Universe(facts) && Satisfies(query, facts, resolver, f))
      && (forall i :: 0 <= i < |answer| ==>
            && answer[i].1.rule == RuleOf(query)
            && answer[i].1.premises == Sorted(PremiseSet(query, facts, resolver, answer[i].0))
            && answer[i].1.premises != []
            && (forall g :: g in answer[i].1.premises ==> g in Universe(facts)))
  {
    hide Satisfies, PremiseSet, Universe, FactLte, Lists;
    var keys, answer := Sorted(matches.Keys), Entries(matches);
    EntriesList(matches);
    forall i | 0 <= i < |answer|
      ensures answer[i].1.premises != [] && forall g :: g in answer[i].1.premises ==> g in Universe(facts)
    {
      assert keys[i] in matches;
      PremisesGiven(query, facts, resolver, keys[i]);
    }
  }

  lemma EntriesList(matches: Matches)
    ensures |Entries(matches)| == |Sorted(matches.Keys)|
    ensures forall i :: 0 <= i < |Entries(matches)| ==>
      && Entries(matches)[i].0 == Sorted(matches.Keys)[i] && Sorted(matches.Keys)[i] in matches
      && Entries(matches)[i].1 == matches[Sorted(matches.Keys)[i]]
    ensures forall f :: Lists(Entries(matches), f) <==> f in matches
  {
    hide FactLte;
    var keys, answer := Sorted(matches.Keys), Entries(matches);
    forall f | f in matches ensures Lists(answer, f) {
      var i :| 0 <= i < |keys| && keys[i] == f;
      assert answer[i].0 == f;
    }
    forall i | 0 <= i < |keys| ensures keys[i] in matches { assert keys[i] in keys; }
  }

  lemma PremisesGiven(query: Query, facts: AirFacts, resolver: Resolver, fact: FactRef)
    requires fact in Universe(facts) && Satisfies(query, facts, resolver, fact)
    ensures Sorted(PremiseSet(query, facts, resolver, fact)) != []
    ensures forall g :: g in Sorted(PremiseSet(query, facts, resolver, fact)) ==> g in Universe(facts)
  {
    hide Satisfies, PremiseSet, Universe;
    PremisesKnown(query, facts, resolver, fact);
    var g :| g in PremiseSet(query, facts, resolver, fact);
    assert g in Sorted(PremiseSet(query, facts, resolver, fact));
  }

  // ----- laws

  function Negated(queries: seq<Query>): (r: seq<Query>)
    ensures |r| == |queries| && forall i :: 0 <= i < |r| ==> r[i] == Not(queries[i])
  {
    if queries == [] then [] else [Not(queries[0])] + Negated(queries[1..])
  }

  ghost predicate SameFacts(a: Query, b: Query, facts: AirFacts, resolver: Resolver) {
    var ra, rb := RunUncancelled(a, facts, resolver), RunUncancelled(b, facts, resolver);
    (ra.Ok? <==> rb.Ok?) && (ra.Ok? ==> forall f :: Lists(ra.value, f) <==> Lists(rb.value, f))
  }

  lemma SameMeaningSameFacts(a: Query, b: Query, facts: AirFacts, resolver: Resolver)
    requires Answerable(a, resolver) <==> Answerable(b, resolver)
    requires forall f :: Satisfies(a, facts, resolver, f) <==> Satisfies(b, facts, resolver, f)
    ensures SameFacts(a, b, facts, resolver)
  {
    hide Answerable, Satisfies, RunUncancelled, Universe;
    RunMeans(a, facts, resolver);
    RunMeans(b, facts, resolver);
  }

  /** Negating twice admits the same facts, and so do the two sides of De Morgan's laws, failures included. */
  lemma NegationLaws(query: Query, queries: seq<Query>, facts: AirFacts, resolver: Resolver)
    ensures SameFacts(Not(Not(query)), query, facts, resolver)
    ensures SameFacts(Not(And(queries)), Or(Negated(queries)), facts, resolver)
    ensures SameFacts(Not(Or(queries)), And(Negated(queries)), facts, resolver)
  {
    hide SameFacts, Answerable, Satisfies, Negated;
    forall q, f ensures Satisfies(Not(q), facts, resolver, f) <==> !Satisfies(q, facts, resolver, f) {
      UnfoldNot(q, facts, resolver, f);
    }
    forall q ensures Answerable(Not(q), resolver) <==> Answerable(q, resolver) {
      UnfoldNotAnswerable(q, resolver);
    }
    NegatedAnswerable(queries, resolver);
    forall f
      ensures !Satisfies(And(queries), facts, resolver, f) <==> Satisfies(Or(Negated(queries)), facts, resolver, f)
      ensures !Satisfies(Or(queries), facts, resolver, f) <==> Satisfies(And(Negated(queries)), facts, resolver, f)
    {
      NegatedAll(queries, facts, resolver, f);
      NegatedAny(queries, facts, resolver, f);
    }
    SameMeaningSameFacts(Not(Not(query)), query, facts, resolver);
    SameMeaningSameFacts(Not(And(queries)), Or(Negated(queries)), facts, resolver);
    SameMeaningSameFacts(Not(Or(queries)), And(Negated(queries)), facts, resolver);
  }

  lemma UnfoldNot(q: Query, facts: AirFacts, resolver: Resolver, f: FactRef)
    ensures Satisfies(Not(q), facts, resolver, f) <==> !Satisfies(q, facts, resolver, f)
  {}

  lemma UnfoldNotAnswerable(q: Query, resolver: Resolver)
    ensures Answerable(Not(q), resolver) <==> Answerable(q, resolver)
  {}

  /** The members of a negated list are the negations of the members of the list. */
  lemma NegatedMembers(queries: seq<Query>)
    ensures forall c :: c in Negated(queries) ==> c.Not? && c.negated in queries
    ensures forall q :: q in queries ==> Not(q) in Negated(queries)
  {
    var negated := Negated(queries);
    forall q | q in queries ensures Not(q) in negated {
      var i :| 0 <= i < |queries| && queries[i] == q;
      assert negated[i] == Not(q);
    }
  }

  lemma NegatedAll(queries: seq<Query>, facts: AirFacts, resolver: Resolver, f: FactRef)
    ensures !Satisfies(And(queries), facts, resolver, f) <==> Satisfies(Or(Negated(queries)), facts, resolver, f)
  {
    hide Negated, ExtentTouches, Universe;
    NegatedMembers(queries);
    if q :| q in queries && !Satisfies(q, facts, resolver, f) {
      assert Not(q) in Negated(queries) && Satisfies(Not(q), facts, resolver, f);
    }
  }

  lemma NegatedAny(queries: seq<Query>, facts: AirFacts, resolver: Resolver, f: FactRef)
    ensures !Satisfies(Or(queries), facts, resolver, f) <==> Satisfies(And(Negated(queries)), facts, resolver, f)
  {
    hide Negated, ExtentTouches, Universe;
    NegatedMembers(queries);
    if q :| q in queries && Satisfies(q, facts, resolver, f) {
      assert Not(q) in Negated(queries) && !Satisfies(Not(q), facts, resolver, f);
    }
  }

  lemma NegatedAnswerable(queries: seq<Query>, resolver: Resolver)
    ensures Answerable(And(queries), resolver) <==> Answerable(And(Negated(queries)), resolver)
    ensures Answerable(And(queries), resolver) <==> Answerable(Or(queries), resolver)
    ensures Answerable(And(queries), resolver) <==> Answerable(Or(Negated(queries)), resolver)
  {
    hide Negated, Evaluate;
    NegatedMembers(queries);
    assert forall q :: q in queries ==> (Answerable(Not(q), resolver) <==> Answerable(q, resolver));
  }
}
