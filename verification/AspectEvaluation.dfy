/** From terms to boxes (src/aspect.rs). */
module AspectEvaluation {
  import opened Numbers
  import opened Outcomes
  import opened ChannelMasks
  import opened AspectRegions
  import opened AspectNormalization
  import opened AspectTerms

  datatype SignalLayer = Source | Explanation(reference: ExplanationRef) | Residual(reference: ExplanationRef)

  datatype Selection = Selection(regions: seq<Region>, signal: SignalLayer)

  /** A value under evaluation; without a layer it is geometry that fits any one layer. */
  datatype Evaluated = Evaluated(regions: seq<Region>, layer: Option<SignalLayer>)

  /** The extents that project references stand for. */
  datatype Resolver = Resolver(
    universe: seq<Region>,
    families: map<(U64, U64, nat), seq<FrameSpan>>,
    objects: map<nat, seq<Region>>,
    explanations: map<ExplanationRef, seq<Region>>)

  datatype AspectError =
    | Unresolvable(reference: Aspect)
    | InvalidSpan(start: int, end: int)
    | InvalidBand(band: BandSpan)
    | InvalidRegion(region: Region)
    | InvalidUniverse
    | IncompatibleSignalLayers(left: SignalLayer, right: SignalLayer)

  function MergeLayers(left: Option<SignalLayer>, right: Option<SignalLayer>)
    : Result<Option<SignalLayer>, AspectError>
  {
    if left.None? then Ok(right)
    else if right.None? || left == right then Ok(left)
    else Err(IncompatibleSignalLayers(left.value, right.value))
  }

  function FirstInvalid(regions: seq<Region>): Option<Region> {
    if regions == [] then None
    else if !regions[0].Valid() then Some(regions[0])
    else FirstInvalid(regions[1..])
  }

  function ValidateResolved(regions: seq<Region>): Result<(), AspectError> {
    match FirstInvalid(regions)
    case Some(region) => Err(InvalidRegion(region))
    case None => Ok(())
  }

  // ----- leaves

  function FilterMap(regions: seq<Region>, f: Region -> Option<Region>): seq<Region> {
    if regions == [] then []
    else
      FilterMap(regions[..|regions| - 1], f) +
      (match f(regions[|regions| - 1]) case Some(region) => [region] case None => [])
  }

  function CutTime(span: FrameSpan): Region -> Option<Region> {
    (region: Region) =>
      match region.time.Intersect(span)
      case Some(time) => Some(region.(time := time))
      case None => None
  }

  function CutBand(band: BandSpan): Region -> Option<Region> {
    (region: Region) =>
      match region.band.Intersect(band)
      case Some(shared) => Some(region.(band := shared))
      case None => None
  }

  function CutChannels(mask: ChannelMask): Region -> Option<Region> {
    (region: Region) =>
      var shared := Shared(region.channels, mask);
      if Silent(shared) then None else Some(region.(channels := shared))
  }

  ghost function EvalTime(span: FrameSpan, universe: seq<Region>): Result<seq<Region>, AspectError> {
    if span.start >= span.end then Err(InvalidSpan(span.start, span.end))
    else Ok(NormalizeRegions(FilterMap(universe, CutTime(span))))
  }

  ghost function EvalSpans(spans: seq<FrameSpan>, universe: seq<Region>): Result<seq<Region>, AspectError> {
    if spans == [] then Ok([])
    else
      var front :- EvalSpans(spans[..|spans| - 1], universe);
      var last :- EvalTime(spans[|spans| - 1], universe);
      Ok(front + last)
  }

  ghost function EvalExtent(t: Aspect, extent: Option<seq<Region>>, universe: seq<Region>)
    : Result<seq<Region>, AspectError>
  {
    if extent.None? then Err(Unresolvable(t))
    else
      var _ :- ValidateResolved(extent.value);
      Ok(NormalizeRegions(IntersectEach(extent.value, universe)))
  }

  ghost function EvalLeaf(t: Aspect, resolver: Resolver, universe: seq<Region>): Result<seq<Region>, AspectError>
    requires t.IsLeaf()
  {
    match t
    case Time(span) => EvalTime(span, universe)
    case Band(band) =>
      if !band.Valid() then Err(InvalidBand(band))
      else Ok(NormalizeRegions(FilterMap(universe, CutBand(band))))
    case Channels(mask) => Ok(NormalizeRegions(FilterMap(universe, CutChannels(mask))))
    case Family(source, recipe, id) =>
      if (source, recipe, id) !in resolver.families then Err(Unresolvable(t))
      else
        var regions :- EvalSpans(resolver.families[(source, recipe, id)], universe);
        Ok(NormalizeRegions(regions))
    case Object(id) => EvalExtent(t, Lookup(resolver.objects, id), universe)
    case ExplainedBy(reference) => EvalExtent(t, Lookup(resolver.explanations, reference), universe)
    case ResidualOf(reference) => EvalExtent(t, Lookup(resolver.explanations, reference), universe)
  }

  function LeafLayer(t: Aspect): Option<SignalLayer> {
    match t
    case ExplainedBy(reference) => Some(Explanation(reference))
    case ResidualOf(reference) => Some(Residual(reference))
    case _ => None
  }

  // ----- terms

  ghost function Eval(t: Aspect, resolver: Resolver, universe: seq<Region>): Result<Evaluated, AspectError>
    decreases t, 1
  {
    match t
    case Empty => Ok(Evaluated([], None))
    case All => Ok(Evaluated(universe, None))
    case Union(children) =>
      var all :- EvalUnion(children, resolver, universe);
      Ok(all.(regions := NormalizeRegions(all.regions)))
    case Intersect(parts) => EvalIntersect(parts, resolver, universe)
    case Complement(child) =>
      var value :- Eval(child, resolver, universe);
      Ok(value.(regions := NormalizeRegions(SubtractAll(universe, value.regions))))
    case _ =>
      var regions :- EvalLeaf(t, resolver, universe);
      Ok(Evaluated(regions, LeafLayer(t)))
  }

  ghost function EvalUnion(children: seq<Aspect>, resolver: Resolver, universe: seq<Region>)
    : Result<Evaluated, AspectError>
    decreases children, 0
  {
    if children == [] then Ok(Evaluated([], None))
    else
      var front :- EvalUnion(children[..|children| - 1], resolver, universe);
      var last :- Eval(children[|children| - 1], resolver, universe);
      var layer :- MergeLayers(front.layer, last.layer);
      Ok(Evaluated(front.regions + last.regions, layer))
  }

  ghost function EvalIntersect(parts: seq<Aspect>, resolver: Resolver, universe: seq<Region>)
    : Result<Evaluated, AspectError>
    decreases parts, 0
  {
    if parts == [] then Ok(Evaluated(universe, None))
    else
      var front :- EvalIntersect(parts[..|parts| - 1], resolver, universe);
      var last :- Eval(parts[|parts| - 1], resolver, universe);
      var layer :- MergeLayers(front.layer, last.layer);
      Ok(Evaluated(NormalizeRegions(IntersectEach(front.regions, last.regions)), layer))
  }

  function LayerOrSource(layer: Option<SignalLayer>): SignalLayer {
    if layer.Some? then layer.value else Source
  }

  ghost function Evaluate(t: Aspect, resolver: Resolver): Result<Selection, AspectError> {
    var _ :- ValidateResolved(resolver.universe);
    if resolver.universe == [] then Err(InvalidUniverse)
    else
      var value :- Eval(Normalize(t), resolver, NormalizeRegions(resolver.universe));
      Ok(Selection(NormalizeRegions(value.regions), LayerOrSource(value.layer)))
  }

  // ----- meaning of the leaves

  /** Whether a leaf names something that exists and is well formed. */
  predicate Resolvable(t: Aspect, resolver: Resolver) {
    match t
    case Time(span) => span.start < span.end
    case Band(band) => band.Valid()
    case Channels(_) => true
    case Family(source, recipe, id) =>
      && (source, recipe, id) in resolver.families
      && (forall span :: span in resolver.families[(source, recipe, id)] ==> span.start < span.end)
    case Object(id) => id in resolver.objects && AllValid(resolver.objects[id])
    case ExplainedBy(r) => r in resolver.explanations && AllValid(resolver.explanations[r])
    case ResidualOf(r) => r in resolver.explanations && AllValid(resolver.explanations[r])
    case _ => true
  }

  /** Whether a point belongs to what a resolvable leaf stands for. */
  ghost predicate LeafSelects(t: Aspect, resolver: Resolver, p: Point)
    requires Resolvable(t, resolver)
  {
    match t
    case Time(span) => FrameIn(span, p)
    case Band(band) => HzIn(band, p)
    case Channels(mask) => Hears(mask, p.channel)
    case Family(source, recipe, id) =>
      exists span :: span in resolver.families[(source, recipe, id)] && FrameIn(span, p)
    case Object(id) => Covered(resolver.objects[id], p)
    case ExplainedBy(r) => Covered(resolver.explanations[r], p)
    case ResidualOf(r) => Covered(resolver.explanations[r], p)
    case _ => false
  }

  /** A reading of the leaves at one point; what it says of a leaf that does not resolve is left open. */
  ghost predicate ReadsPoint(reading: Aspect -> bool, resolver: Resolver, p: Point) {
    forall t: Aspect :: t.IsLeaf() && Resolvable(t, resolver) ==> (reading(t) <==> LeafSelects(t, resolver, p))
  }

  // ----- geometry of the leaves

  lemma {:induction false} FirstInvalidMeans(regions: seq<Region>)
    ensures FirstInvalid(regions).None? <==> AllValid(regions)
  {
    if regions != [] {
      FirstInvalidMeans(regions[1..]);
      if AllValid(regions[1..]) && regions[0].Valid() {
        forall i | 0 <= i < |regions| ensures regions[i].Valid() {
          if i > 0 { assert regions[1..][i - 1].Valid(); }
        }
      }
      if AllValid(regions) {
        forall i | 0 <= i < |regions| - 1 ensures regions[1..][i].Valid() { assert regions[i + 1].Valid(); }
      }
    }
  }

  /** A cut keeps a valid box valid and keeps exactly its points that satisfy the condition. */
  ghost predicate CutsTo(f: Region -> Option<Region>, keep: bool, p: Point) {
    forall r: Region :: r.Valid() ==>
      && (f(r).Some? ==> f(r).value.Valid())
      && ((f(r).Some? && Covers(f(r).value, p)) <==> (Covers(r, p) && keep))
  }

  lemma {:induction false} FilterMapExact(regions: seq<Region>, f: Region -> Option<Region>, keep: bool, p: Point)
    requires AllValid(regions) && CutsTo(f, keep, p)
    ensures AllValid(FilterMap(regions, f))
    ensures Covered(FilterMap(regions, f), p) <==> Covered(regions, p) && keep
  {
    hide Covered, AllValid, Covers;
    NothingCovered(p);
    if regions != [] {
      var front, last := regions[..|regions| - 1], regions[|regions| - 1];
      CoveredSplit(regions, p);
      FilterMapExact(front, f, keep, p);
      var piece := match f(last) case Some(region) => [region] case None => [];
      if f(last).Some? { SingletonCovered(f(last).value, p); }
      CoveredConcat(FilterMap(front, f), piece, p);
    }
  }

  lemma CutTimeExact(span: FrameSpan, p: Point)
    ensures CutsTo(CutTime(span), FrameIn(span, p), p)
  {
    hide Hears, Silent, HzIn;
    forall r: Region | r.Valid()
      ensures CutTime(span)(r).Some? ==> CutTime(span)(r).value.Valid()
      ensures (CutTime(span)(r).Some? && Covers(CutTime(span)(r).value, p)) <==> Covers(r, p) && FrameIn(span, p)
    {
      SpansIntersect(r.time, span, p);
    }
  }

  lemma CutBandExact(band: BandSpan, p: Point)
    requires band.Valid()
    ensures CutsTo(CutBand(band), HzIn(band, p), p)
  {
    hide Hears, Silent, FrameIn;
    forall r: Region | r.Valid()
      ensures CutBand(band)(r).Some? ==> CutBand(band)(r).value.Valid()
      ensures (CutBand(band)(r).Some? && Covers(CutBand(band)(r).value, p)) <==> Covers(r, p) && HzIn(band, p)
    {
      BandsIntersect(r.band, band, p);
    }
  }

  lemma CutChannelsExact(mask: ChannelMask, p: Point)
    ensures CutsTo(CutChannels(mask), Hears(mask, p.channel), p)
  {
    hide Hears, Silent, FrameIn, HzIn, Shared;
    forall r: Region | r.Valid()
      ensures CutChannels(mask)(r).Some? ==> CutChannels(mask)(r).value.Valid()
      ensures (CutChannels(mask)(r).Some? && Covers(CutChannels(mask)(r).value, p))
         <==> Covers(r, p) && Hears(mask, p.channel)
    {
      MasksAreChannelSets(r.channels, mask, p.channel);
      SilentMeans(Shared(r.channels, mask), p.channel);
    }
  }

  lemma EvalTimeExact(span: FrameSpan, universe: seq<Region>, p: Point)
    requires AllValid(universe)
    ensures EvalTime(span, universe).Ok? <==> span.start < span.end
    ensures EvalTime(span, universe).Ok? ==>
      && AllValid(EvalTime(span, universe).value)
      && (Covered(EvalTime(span, universe).value, p) <==> Covered(universe, p) && FrameIn(span, p))
  {
    hide Covered, FrameIn, AllValid, NormalizeRegions, FilterMap;
    if span.start < span.end {
      CutTimeExact(span, p);
      FilterMapExact(universe, CutTime(span), FrameIn(span, p), p);
      NormalizeExact(FilterMap(universe, CutTime(span)), p);
      CanonicalValid(NormalizeRegions(FilterMap(universe, CutTime(span))));
    }
  }

  lemma CanonicalValid(regions: seq<Region>)
    requires Canonical(regions)
    ensures AllValid(regions)
  {}

  lemma {:induction false} EvalSpansExact(spans: seq<FrameSpan>, universe: seq<Region>, p: Point)
    requires AllValid(universe)
    ensures EvalSpans(spans, universe).Ok? <==> forall span :: span in spans ==> span.start < span.end
    ensures EvalSpans(spans, universe).Ok? ==>
      && AllValid(EvalSpans(spans, universe).value)
      && (Covered(EvalSpans(spans, universe).value, p) <==>
            Covered(universe, p) && exists span :: span in spans && FrameIn(span, p))
  {
    hide Covered, FrameIn, AllValid, EvalTime;
    NothingCovered(p);
    if spans != [] {
      var front, last := spans[..|spans| - 1], spans[|spans| - 1];
      assert spans == front + [last];
      EvalSpansExact(front, universe, p);
      EvalTimeExact(last, universe, p);
      if EvalSpans(spans, universe).Ok? {
        CoveredConcat(EvalSpans(front, universe).value, EvalTime(last, universe).value, p);
      }
    }
  }

  lemma EvalExtentExact(t: Aspect, extent: Option<seq<Region>>, universe: seq<Region>, p: Point)
    requires AllValid(universe)
    ensures EvalExtent(t, extent, universe).Ok? <==> extent.Some? && AllValid(extent.value)
    ensures EvalExtent(t, extent, universe).Ok? ==>
      && AllValid(EvalExtent(t, extent, universe).value)
      && (Covered(EvalExtent(t, extent, universe).value, p) <==> Covered(universe, p) && Covered(extent.value, p))
  {
    hide Covered, AllValid, NormalizeRegions, IntersectEach;
    if extent.Some? {
      FirstInvalidMeans(extent.value);
      if AllValid(extent.value) {
        IntersectEachExact(extent.value, universe, p);
        NormalizeExact(IntersectEach(extent.value, universe), p);
        CanonicalValid(NormalizeRegions(IntersectEach(extent.value, universe)));
      }
    }
  }

  /** A leaf evaluates exactly when it resolves, and then to its points within the universe. */
  lemma EvalLeafExact(t: Aspect, resolver: Resolver, universe: seq<Region>, p: Point)
    requires t.IsLeaf() && AllValid(universe)
    ensures EvalLeaf(t, resolver, universe).Ok? <==> Resolvable(t, resolver)
    ensures EvalLeaf(t, resolver, universe).Ok? ==>
      && AllValid(EvalLeaf(t, resolver, universe).value)
      && (Covered(EvalLeaf(t, resolver, universe).value, p) <==> Covered(universe, p) && LeafSelects(t, resolver, p))
  {
    hide Covered, FrameIn, HzIn, Hears, AllValid, NormalizeRegions, FilterMap, EvalTime, EvalExtent, EvalSpans;
    match t {
      case Time(span) => EvalTimeExact(span, universe, p);
      case Band(band) =>
        if band.Valid() {
          CutBandExact(band, p);
          FilterMapExact(universe, CutBand(band), HzIn(band, p), p);
          NormalizeExact(FilterMap(universe, CutBand(band)), p);
          CanonicalValid(NormalizeRegions(FilterMap(universe, CutBand(band))));
        }
      case Channels(mask) =>
        CutChannelsExact(mask, p);
        FilterMapExact(universe, CutChannels(mask), Hears(mask, p.channel), p);
        NormalizeExact(FilterMap(universe, CutChannels(mask)), p);
        CanonicalValid(NormalizeRegions(FilterMap(universe, CutChannels(mask))));
      case Family(source, recipe, id) =>
        if (source, recipe, id) in resolver.families {
          var spans := resolver.families[(source, recipe, id)];
          EvalSpansExact(spans, universe, p);
          if EvalSpans(spans, universe).Ok? {
            NormalizeExact(EvalSpans(spans, universe).value, p);
            CanonicalValid(NormalizeRegions(EvalSpans(spans, universe).value));
          }
        }
      case Object(id) => EvalExtentExact(t, Lookup(resolver.objects, id), universe, p);
      case ExplainedBy(r) => EvalExtentExact(t, Lookup(resolver.explanations, r), universe, p);
      case ResidualOf(r) => EvalExtentExact(t, Lookup(resolver.explanations, r), universe, p);
    }
  }

  // ----- geometry of terms

  /** Boxes stay valid and cover exactly the points of the universe where the condition holds. */
  ghost predicate Selects(regions: seq<Region>, universe: seq<Region>, condition: bool, p: Point) {
    AllValid(regions) && (Covered(regions, p) <==> Covered(universe, p) && condition)
  }

  /** Evaluating a term gives the points of the universe where the term holds. */
  lemma {:induction false} EvalExact(
      t: Aspect, resolver: Resolver, universe: seq<Region>, reading: Aspect -> bool, p: Point)
    requires AllValid(universe) && ReadsPoint(reading, resolver, p)
    requires Eval(t, resolver, universe).Ok?
    ensures Selects(Eval(t, resolver, universe).value.regions, universe, Holds(t, reading), p)
    decreases t, 1
  {
    hide Covered, AllValid, Covers, NormalizeRegions, EvalLeaf, LeafSelects, SubtractAll, Resolvable;
    match t {
      case Empty => NothingCovered(p);
      case All =>
      case Union(children) =>
        EvalUnionExact(children, resolver, universe, reading, p);
        var regions := EvalUnion(children, resolver, universe).value.regions;
        NormalizeExact(regions, p);
        CanonicalValid(NormalizeRegions(regions));
      case Intersect(parts) => EvalIntersectExact(parts, resolver, universe, reading, p);
      case Complement(child) =>
        EvalExact(child, resolver, universe, reading, p);
        var regions := Eval(child, resolver, universe).value.regions;
        SubtractAllExact(universe, regions, p);
        NormalizeExact(SubtractAll(universe, regions), p);
        CanonicalValid(NormalizeRegions(SubtractAll(universe, regions)));
      case _ => EvalLeafExact(t, resolver, universe, p);
    }
  }

  lemma {:induction false} EvalUnionExact(
      children: seq<Aspect>, resolver: Resolver, universe: seq<Region>, reading: Aspect -> bool, p: Point)
    requires AllValid(universe) && ReadsPoint(reading, resolver, p)
    requires EvalUnion(children, resolver, universe).Ok?
    ensures Selects(EvalUnion(children, resolver, universe).value.regions, universe,
                    exists c :: c in children && Holds(c, reading), p)
    decreases children, 0
  {
    hide Covered, AllValid, Covers, NormalizeRegions, Holds, ReadsPoint, Eval;
    NothingCovered(p);
    if children != [] {
      var front, last := children[..|children| - 1], children[|children| - 1];
      assert children == front + [last];
      EvalUnionExact(front, resolver, universe, reading, p);
      EvalExact(last, resolver, universe, reading, p);
      CoveredConcat(
        EvalUnion(front, resolver, universe).value.regions, Eval(last, resolver, universe).value.regions, p);
    }
  }

  lemma {:induction false} EvalIntersectExact(
      parts: seq<Aspect>, resolver: Resolver, universe: seq<Region>, reading: Aspect -> bool, p: Point)
    requires AllValid(universe) && ReadsPoint(reading, resolver, p)
    requires EvalIntersect(parts, resolver, universe).Ok?
    ensures Selects(EvalIntersect(parts, resolver, universe).value.regions, universe,
                    forall c :: c in parts ==> Holds(c, reading), p)
    decreases parts, 0
  {
    hide Covered, AllValid, Covers, NormalizeRegions, Holds, ReadsPoint, Eval, IntersectEach;
    if parts != [] {
      var front, last := parts[..|parts| - 1], parts[|parts| - 1];
      assert parts == front + [last];
      EvalIntersectExact(front, resolver, universe, reading, p);
      EvalExact(last, resolver, universe, reading, p);
      var lefts := EvalIntersect(front, resolver, universe).value.regions;
      var rights := Eval(last, resolver, universe).value.regions;
      IntersectEachExact(lefts, rights, p);
      NormalizeExact(IntersectEach(lefts, rights), p);
      CanonicalValid(NormalizeRegions(IntersectEach(lefts, rights)));
    }
  }

  /**
   * The boxes of an evaluated term cover a point exactly when the universe does and the term as written holds
   * there, however deeply unions, meets and complements nest and whatever the normal form dropped; and the
   * boxes are canonical.
   */
  lemma EvaluateIsPointwise(t: Aspect, resolver: Resolver, reading: Aspect -> bool, p: Point)
    requires Evaluate(t, resolver).Ok? && ReadsPoint(reading, resolver, p)
    ensures Canonical(Evaluate(t, resolver).value.regions)
    ensures Covered(Evaluate(t, resolver).value.regions, p) <==>
      Covered(resolver.universe, p) && Holds(t, reading)
  {
    hide Covered, AllValid, Canonical, NormalizeRegions, Holds, ReadsPoint, Eval, Normalize;
    FirstInvalidMeans(resolver.universe);
    NormalizeExact(resolver.universe, p);
    var universe := NormalizeRegions(resolver.universe);
    CanonicalValid(universe);
    EvalExact(Normalize(t), resolver, universe, reading, p);
    NormalizeExact(Eval(Normalize(t), resolver, universe).value.regions, p);
    NormalizeKeepsMeaning(t, reading);
  }

  // ----- success

  predicate LeavesResolve(t: Aspect, resolver: Resolver) {
    match t
    case Empty => true
    case All => true
    case Union(children) => forall c :: c in children ==> LeavesResolve(c, resolver)
    case Intersect(parts) => forall c :: c in parts ==> LeavesResolve(c, resolver)
    case Complement(child) => LeavesResolve(child, resolver)
    case _ => Resolvable(t, resolver)
  }

  /** A term mentions a layer where it names an explanation or a residual, also under a complement. */
  predicate Mentions(t: Aspect, layer: SignalLayer) {
    match t
    case Empty => false
    case All => false
    case Union(children) => exists c :: c in children && Mentions(c, layer)
    case Intersect(parts) => exists c :: c in parts && Mentions(c, layer)
    case Complement(child) => Mentions(child, layer)
    case _ => LeafLayer(t) == Some(layer)
  }

  ghost predicate AgreeOnLayer(terms: seq<Aspect>) {
    forall a, b, x, y :: a in terms && b in terms && Mentions(a, x) && Mentions(b, y) ==> x == y
  }

  /** The layer, if any, is the only one that any of the terms mentions. */
  ghost predicate OnlyLayer(terms: seq<Aspect>, layer: Option<SignalLayer>) {
    && (layer.Some? ==> exists c :: c in terms && Mentions(c, layer.value))
    && (forall c, x :: c in terms && Mentions(c, x) ==> layer == Some(x))
  }

  lemma OnlyLayerAgrees(terms: seq<Aspect>, layer: Option<SignalLayer>)
    requires OnlyLayer(terms, layer)
    ensures AgreeOnLayer(terms)
  {
    forall a, b, x, y | a in terms && b in terms && Mentions(a, x) && Mentions(b, y) ensures x == y {
      assert layer == Some(x) && layer == Some(y);
    }
  }

  lemma AgreeOnParts(whole: seq<Aspect>, part: seq<Aspect>)
    requires AgreeOnLayer(whole) && (forall t :: t in part ==> t in whole)
    ensures AgreeOnLayer(part)
  {}

  /** Extending by one term: the layers merge exactly when the extended list agrees. */
  lemma MergeMeans(front: seq<Aspect>, last: Aspect, a: Option<SignalLayer>, b: Option<SignalLayer>)
    requires OnlyLayer(front, a) && OnlyLayer([last], b)
    ensures MergeLayers(a, b).Ok? <==> AgreeOnLayer(front + [last])
    ensures MergeLayers(a, b).Ok? ==> OnlyLayer(front + [last], MergeLayers(a, b).value)
  {
    hide Mentions;
    var whole := front + [last];
    assert forall c :: c in whole <==> c in front || c == last;
    if a.Some? && b.Some? {
      var c :| c in front && Mentions(c, a.value);
      var d :| d in [last] && Mentions(d, b.value);
      assert c in whole && last in whole;
    }
    if MergeLayers(a, b).Ok? {
      var layer := MergeLayers(a, b).value;
      if a.Some? {
        var c :| c in front && Mentions(c, a.value);
        assert c in whole;
      }
      if b.Some? { assert last in whole && Mentions(last, b.value); }
      forall c, x | c in whole && Mentions(c, x) ensures layer == Some(x) {
        if c !in front { assert c in [last]; }
      }
      assert OnlyLayer(whole, layer);
      OnlyLayerAgrees(whole, layer);
    }
  }

  /** A normal term evaluates exactly when every leaf resolves and no two layers meet. */
  lemma {:induction false} EvalSucceedsExactly(t: Aspect, resolver: Resolver, universe: seq<Region>)
    requires AllValid(universe)
    ensures Eval(t, resolver, universe).Ok? <==> LeavesResolve(t, resolver) && AgreeOnLayer([t])
    ensures Eval(t, resolver, universe).Ok? ==> OnlyLayer([t], Eval(t, resolver, universe).value.layer)
    decreases t, 1
  {
    hide AllValid, EvalLeaf, Resolvable, NormalizeRegions, SubtractAll, AgreeOnLayer, OnlyLayer;
    match t {
      case Empty => Layerless(t);
      case All => Layerless(t);
      case Union(children) =>
        EvalUnionSucceedsExactly(children, resolver, universe);
        ListOfOne(t, children, EvalUnion(children, resolver, universe));
      case Intersect(parts) =>
        EvalIntersectSucceedsExactly(parts, resolver, universe);
        ListOfOne(t, parts, EvalIntersect(parts, resolver, universe));
      case Complement(child) =>
        EvalSucceedsExactly(child, resolver, universe);
        assert forall x :: Mentions(t, x) <==> exists c :: c in [child] && Mentions(c, x) by {
          assert child in [child];
        }
        ListOfOne(t, [child], Eval(child, resolver, universe));
      case _ =>
        EvalLeafExact(t, resolver, universe, Point(0, 0.0, 1));
        LeafMentions(t);
    }
  }

  lemma Layerless(t: Aspect)
    requires t.Empty? || t.All?
    ensures AgreeOnLayer([t]) && OnlyLayer([t], None)
  {}

  lemma LeafMentions(t: Aspect)
    requires t.IsLeaf()
    ensures AgreeOnLayer([t]) && OnlyLayer([t], LeafLayer(t))
  {
    assert forall x :: Mentions(t, x) <==> LeafLayer(t) == Some(x);
    if LeafLayer(t).Some? { assert t in [t]; }
  }

  /** A term that mentions what a list mentions stands for that list. */
  lemma ListOfOne(t: Aspect, terms: seq<Aspect>, value: Result<Evaluated, AspectError>)
    requires forall x :: Mentions(t, x) <==> exists c :: c in terms && Mentions(c, x)
    requires value.Ok? ==> OnlyLayer(terms, value.value.layer)
    ensures AgreeOnLayer([t]) <==> AgreeOnLayer(terms)
    ensures value.Ok? ==> OnlyLayer([t], value.value.layer)
  {
    hide Mentions;
    AgreeEitherWay(t, terms);
    if value.Ok? && value.value.layer.Some? {
      assert t in [t] && Mentions(t, value.value.layer.value);
    }
  }

  lemma AgreeEitherWay(t: Aspect, terms: seq<Aspect>)
    requires forall x :: Mentions(t, x) <==> exists c :: c in terms && Mentions(c, x)
    ensures AgreeOnLayer([t]) <==> AgreeOnLayer(terms)
  {
    hide Mentions;
    if AgreeOnLayer(terms) {
      forall x, y | Mentions(t, x) && Mentions(t, y) ensures x == y {
        var a :| a in terms && Mentions(a, x);
        var b :| b in terms && Mentions(b, y);
      }
    }
    if AgreeOnLayer([t]) {
      assert t in [t];
      forall a, b, x, y | a in terms && b in terms && Mentions(a, x) && Mentions(b, y) ensures x == y {
        assert Mentions(t, x) && Mentions(t, y);
      }
    }
  }

  lemma {:induction false} EvalUnionSucceedsExactly(children: seq<Aspect>, resolver: Resolver, universe: seq<Region>)
    requires AllValid(universe)
    ensures EvalUnion(children, resolver, universe).Ok? <==>
      (forall c :: c in children ==> LeavesResolve(c, resolver)) && AgreeOnLayer(children)
    ensures EvalUnion(children, resolver, universe).Ok? ==>
      OnlyLayer(children, EvalUnion(children, resolver, universe).value.layer)
    decreases children, 0
  {
    hide AllValid, Eval, LeavesResolve, Mentions, MergeLayers;
    if children != [] {
      var front, last := children[..|children| - 1], children[|children| - 1];
      assert children == front + [last];
      EvalUnionSucceedsExactly(front, resolver, universe);
      EvalSucceedsExactly(last, resolver, universe);
      SuccessStep(front, last, EvalUnion(front, resolver, universe), Eval(last, resolver, universe));
    }
  }

  /** One step of a list evaluation, left to right. */
  lemma SuccessStep(
      front: seq<Aspect>, last: Aspect, a: Result<Evaluated, AspectError>, b: Result<Evaluated, AspectError>)
    requires a.Ok? ==> OnlyLayer(front, a.value.layer)
    requires b.Ok? ==> OnlyLayer([last], b.value.layer)
    ensures AgreeOnLayer(front + [last]) ==> AgreeOnLayer(front) && AgreeOnLayer([last])
    ensures a.Ok? && b.Ok? ==> (MergeLayers(a.value.layer, b.value.layer).Ok? <==> AgreeOnLayer(front + [last]))
    ensures a.Ok? && b.Ok? && MergeLayers(a.value.layer, b.value.layer).Ok? ==>
      OnlyLayer(front + [last], MergeLayers(a.value.layer, b.value.layer).value)
  {
    hide Mentions, AgreeOnLayer, OnlyLayer, MergeLayers;
    if AgreeOnLayer(front + [last]) {
      AgreeOnParts(front + [last], front);
      AgreeOnParts(front + [last], [last]);
    }
    if a.Ok? && b.Ok? { MergeMeans(front, last, a.value.layer, b.value.layer); }
  }

  lemma {:induction false} EvalIntersectSucceedsExactly(parts: seq<Aspect>, resolver: Resolver, universe: seq<Region>)
    requires AllValid(universe)
    ensures EvalIntersect(parts, resolver, universe).Ok? <==>
      (forall c :: c in parts ==> LeavesResolve(c, resolver)) && AgreeOnLayer(parts)
    ensures EvalIntersect(parts, resolver, universe).Ok? ==>
      OnlyLayer(parts, EvalIntersect(parts, resolver, universe).value.layer)
    decreases parts, 0
  {
    hide AllValid, Eval, LeavesResolve, Mentions, MergeLayers, NormalizeRegions, IntersectEach;
    if parts != [] {
      var front, last := parts[..|parts| - 1], parts[|parts| - 1];
      assert parts == front + [last];
      EvalIntersectSucceedsExactly(front, resolver, universe);
      EvalSucceedsExactly(last, resolver, universe);
      SuccessStep(front, last, EvalIntersect(front, resolver, universe), Eval(last, resolver, universe));
    }
  }

  /**
   * Evaluation succeeds exactly over a valid, non-empty universe when every leaf of the normal form resolves
   * and the normal form mentions at most one layer; that layer, or the source, is then the selected signal.
   */
  lemma EvaluateSucceedsExactly(t: Aspect, resolver: Resolver)
    ensures Evaluate(t, resolver).Ok? <==>
      && AllValid(resolver.universe) && resolver.universe != []
      && LeavesResolve(Normalize(t), resolver) && AgreeOnLayer([Normalize(t)])
    ensures Evaluate(t, resolver).Ok? ==>
      exists layer :: OnlyLayer([Normalize(t)], layer) && Evaluate(t, resolver).value.signal == LayerOrSource(layer)
  {
    hide AllValid, Canonical, NormalizeRegions, Eval, Normalize, LeavesResolve, AgreeOnLayer, OnlyLayer;
    FirstInvalidMeans(resolver.universe);
    if AllValid(resolver.universe) {
      var universe := NormalizeRegions(resolver.universe);
      NormalizeExact(resolver.universe, Point(0, 0.0, 1));
      CanonicalValid(universe);
      EvalSucceedsExactly(Normalize(t), resolver, universe);
    }
  }

  // ----- the selected signal

  /** The leaf occurs somewhere in the term, also under complements. */
  predicate HasLeaf(t: Aspect, leaf: Aspect) {
    match t
    case Empty => false
    case All => false
    case Union(children) => exists c :: c in children && HasLeaf(c, leaf)
    case Intersect(parts) => exists c :: c in parts && HasLeaf(c, leaf)
    case Complement(child) => HasLeaf(child, leaf)
    case _ => t == leaf
  }

  lemma {:induction false} MentionsExactly(t: Aspect, reference: ExplanationRef)
    ensures Mentions(t, Explanation(reference)) <==> HasLeaf(t, ExplainedBy(reference))
    ensures Mentions(t, Residual(reference)) <==> HasLeaf(t, ResidualOf(reference))
    ensures !Mentions(t, Source)
  {
    match t {
      case Empty =>
      case All =>
      case Union(children) => forall c | c in children { MentionsExactly(c, reference); }
      case Intersect(parts) => forall c | c in parts { MentionsExactly(c, reference); }
      case Complement(child) => MentionsExactly(child, reference);
      case _ =>
    }
  }

  /**
   * The selected signal is an explanation exactly when the normal form names what it explains, a residual exactly
   * when it names what that leaves over, and the source exactly when it names neither.
   */
  lemma SignalIsWhatTheTermNames(t: Aspect, resolver: Resolver)
    requires Evaluate(t, resolver).Ok?
    ensures var signal, normal := Evaluate(t, resolver).value.signal, Normalize(t);
      && (forall r :: signal == Explanation(r) <==> HasLeaf(normal, ExplainedBy(r)))
      && (forall r :: signal == Residual(r) <==> HasLeaf(normal, ResidualOf(r)))
      && (signal == Source <==> forall r :: !HasLeaf(normal, ExplainedBy(r)) && !HasLeaf(normal, ResidualOf(r)))
  {
    hide Evaluate, Normalize, AgreeOnLayer, AllValid, LeavesResolve, HasLeaf, Mentions;
    EvaluateSucceedsExactly(t, resolver);
    var signal, normal := Evaluate(t, resolver).value.signal, Normalize(t);
    var layer :| OnlyLayer([normal], layer) && signal == LayerOrSource(layer);
    assert normal in [normal];
    forall r
      ensures HasLeaf(normal, ExplainedBy(r)) <==> layer == Some(Explanation(r))
      ensures HasLeaf(normal, ResidualOf(r)) <==> layer == Some(Residual(r))
    {
      MentionsExactly(normal, r);
    }
    MentionsExactly(normal, Definition(0));
  }

  // ----- refusals

  predicate NamesLayer(t: Aspect, layer: SignalLayer) {
    match layer
    case Source => false
    case Explanation(reference) => HasLeaf(t, ExplainedBy(reference))
    case Residual(reference) => HasLeaf(t, ResidualOf(reference))
  }

  lemma MentionsNamed(t: Aspect, layer: SignalLayer)
    ensures Mentions(t, layer) <==> NamesLayer(t, layer)
  {
    match layer
    case Source => MentionsExactly(t, Definition(0));
    case Explanation(reference) => MentionsExactly(t, reference);
    case Residual(reference) => MentionsExactly(t, reference);
  }

  /** The extent that a leaf stands for, if the project knows it. */
  function ExtentOf(leaf: Aspect, resolver: Resolver): Option<seq<Region>> {
    match leaf
    case Object(id) => Lookup(resolver.objects, id)
    case ExplainedBy(reference) => Lookup(resolver.explanations, reference)
    case ResidualOf(reference) => Lookup(resolver.explanations, reference)
    case _ => None
  }

  /** The spans that a family leaf stands for, if the project knows it. */
  function SpansOf(leaf: Aspect, resolver: Resolver): Option<seq<FrameSpan>> {
    if leaf.Family? then Lookup(resolver.families, (leaf.source, leaf.recipe, leaf.family)) else None
  }

  /** The leaf has the fault that the error names. */
  predicate LeafFault(leaf: Aspect, resolver: Resolver, error: AspectError) {
    match error
    case Unresolvable(reference) =>
      && leaf == reference
      && (if leaf.Family? then SpansOf(leaf, resolver).None?
          else (leaf.Object? || leaf.ExplainedBy? || leaf.ResidualOf?) && ExtentOf(leaf, resolver).None?)
    case InvalidSpan(start, end) =>
      start >= end && ((leaf.Time? && leaf.span.start == start && leaf.span.end == end) ||
                       (SpansOf(leaf, resolver).Some? &&
                        exists span :: span in SpansOf(leaf, resolver).value && span.start == start && span.end == end))
    case InvalidBand(band) => leaf == Band(band) && !band.Valid()
    case InvalidRegion(region) =>
      !region.Valid() && ExtentOf(leaf, resolver).Some? && region in ExtentOf(leaf, resolver).value
    case InvalidUniverse => false
    case IncompatibleSignalLayers(_, _) => false
  }

  /** Some leaf of the term has the fault, or the term names two different layers. */
  ghost predicate TermFault(t: Aspect, resolver: Resolver, error: AspectError) {
    if error.IncompatibleSignalLayers?
    then error.left != error.right && NamesLayer(t, error.left) && NamesLayer(t, error.right)
    else exists leaf :: HasLeaf(t, leaf) && LeafFault(leaf, resolver, error)
  }

  lemma {:induction false} FirstInvalidFound(regions: seq<Region>)
    ensures FirstInvalid(regions).Some? ==>
      FirstInvalid(regions).value in regions && !FirstInvalid(regions).value.Valid()
  {
    if regions != [] { FirstInvalidFound(regions[1..]); }
  }

  lemma {:induction false} SpansFault(spans: seq<FrameSpan>, universe: seq<Region>)
    ensures EvalSpans(spans, universe).Err? ==>
      exists span :: span in spans && span.start >= span.end
        && EvalSpans(spans, universe).error == InvalidSpan(span.start, span.end)
  {
    hide NormalizeRegions;
    if spans != [] {
      var front, last := spans[..|spans| - 1], spans[|spans| - 1];
      assert spans == front + [last];
      SpansFault(front, universe);
      assert last in spans;
    }
  }

  lemma LeafRefusal(leaf: Aspect, resolver: Resolver, universe: seq<Region>)
    requires leaf.IsLeaf() && EvalLeaf(leaf, resolver, universe).Err?
    ensures LeafFault(leaf, resolver, EvalLeaf(leaf, resolver, universe).error)
  {
    hide NormalizeRegions, IntersectEach, FilterMap, EvalSpans;
    match leaf {
      case Time(span) =>
      case Band(band) =>
      case Channels(mask) =>
      case Family(source, recipe, id) =>
        if (source, recipe, id) in resolver.families {
          SpansFault(resolver.families[(source, recipe, id)], universe);
        }
      case Object(id) => if id in resolver.objects { FirstInvalidFound(resolver.objects[id]); }
      case ExplainedBy(r) => if r in resolver.explanations { FirstInvalidFound(resolver.explanations[r]); }
      case ResidualOf(r) => if r in resolver.explanations { FirstInvalidFound(resolver.explanations[r]); }
    }
  }

  /** A fault of an operand is a fault of the term. */
  lemma FaultSpreads(t: Aspect, part: Aspect, resolver: Resolver, error: AspectError)
    requires TermFault(part, resolver, error)
    requires forall leaf :: HasLeaf(part, leaf) ==> HasLeaf(t, leaf)
    ensures TermFault(t, resolver, error)
  {
    hide HasLeaf, LeafFault;
  }

  lemma {:induction false} EvalRefusal(t: Aspect, resolver: Resolver, universe: seq<Region>)
    requires AllValid(universe)
    ensures Eval(t, resolver, universe).Err? ==> TermFault(t, resolver, Eval(t, resolver, universe).error)
    decreases t, 1
  {
    hide AllValid, EvalLeaf, NormalizeRegions, SubtractAll, LeafFault, TermFault;
    match t {
      case Empty =>
      case All =>
      case Union(children) => EvalUnionRefusal(t, children, resolver, universe);
      case Intersect(parts) => EvalIntersectRefusal(t, parts, resolver, universe);
      case Complement(child) =>
        EvalRefusal(child, resolver, universe);
        if Eval(child, resolver, universe).Err? {
          FaultSpreads(t, child, resolver, Eval(child, resolver, universe).error);
        }
      case _ =>
        if EvalLeaf(t, resolver, universe).Err? {
          LeafRefusal(t, resolver, universe);
          LeafIsFault(t, resolver, EvalLeaf(t, resolver, universe).error);
        }
    }
  }

  lemma LeafIsFault(leaf: Aspect, resolver: Resolver, error: AspectError)
    requires leaf.IsLeaf() && LeafFault(leaf, resolver, error)
    ensures TermFault(leaf, resolver, error)
  {
    assert HasLeaf(leaf, leaf);
  }

  /** Two layers that do not merge are both named. */
  lemma LayersClash(t: Aspect, front: seq<Aspect>, last: Aspect, resolver: Resolver,
                    a: Option<SignalLayer>, b: Option<SignalLayer>)
    requires OnlyLayer(front, a) && OnlyLayer([last], b) && MergeLayers(a, b).Err?
    requires forall c, leaf :: (c in front || c == last) && HasLeaf(c, leaf) ==> HasLeaf(t, leaf)
    ensures TermFault(t, resolver, MergeLayers(a, b).error)
  {
    hide HasLeaf, Mentions;
    var c :| c in front && Mentions(c, a.value);
    var d :| d in [last] && Mentions(d, b.value);
    MentionsNamed(c, a.value);
    MentionsNamed(d, b.value);
  }

  lemma {:induction false} EvalUnionRefusal(
    t: Aspect, children: seq<Aspect>, resolver: Resolver, universe: seq<Region>)
    requires AllValid(universe)
    requires forall c, leaf :: c in children && HasLeaf(c, leaf) ==> HasLeaf(t, leaf)
    ensures EvalUnion(children, resolver, universe).Err? ==>
      TermFault(t, resolver, EvalUnion(children, resolver, universe).error)
    decreases children, 0
  {
    hide AllValid, Eval, HasLeaf, TermFault, OnlyLayer, MergeLayers, LeavesResolve, AgreeOnLayer;
    if children != [] {
      var front, last := children[..|children| - 1], children[|children| - 1];
      assert children == front + [last];
      EvalUnionRefusal(t, front, resolver, universe);
      EvalRefusal(last, resolver, universe);
      EvalUnionSucceedsExactly(front, resolver, universe);
      EvalSucceedsExactly(last, resolver, universe);
      var a, b := EvalUnion(front, resolver, universe), Eval(last, resolver, universe);
      if a.Ok? && b.Err? { FaultSpreads(t, last, resolver, b.error); }
      if a.Ok? && b.Ok? && MergeLayers(a.value.layer, b.value.layer).Err? {
        LayersClash(t, front, last, resolver, a.value.layer, b.value.layer);
      }
    }
  }

  lemma {:induction false} EvalIntersectRefusal(
    t: Aspect, parts: seq<Aspect>, resolver: Resolver, universe: seq<Region>)
    requires AllValid(universe)
    requires forall c, leaf :: c in parts && HasLeaf(c, leaf) ==> HasLeaf(t, leaf)
    ensures EvalIntersect(parts, resolver, universe).Err? ==>
      TermFault(t, resolver, EvalIntersect(parts, resolver, universe).error)
    decreases parts, 0
  {
    hide AllValid, Eval, HasLeaf, TermFault, OnlyLayer, MergeLayers, LeavesResolve, AgreeOnLayer;
    hide NormalizeRegions, IntersectEach;
    if parts != [] {
      var front, last := parts[..|parts| - 1], parts[|parts| - 1];
      assert parts == front + [last];
      EvalIntersectRefusal(t, front, resolver, universe);
      EvalRefusal(last, resolver, universe);
      EvalIntersectSucceedsExactly(front, resolver, universe);
      EvalSucceedsExactly(last, resolver, universe);
      var a, b := EvalIntersect(front, resolver, universe), Eval(last, resolver, universe);
      if a.Ok? && b.Err? { FaultSpreads(t, last, resolver, b.error); }
      if a.Ok? && b.Ok? && MergeLayers(a.value.layer, b.value.layer).Err? {
        LayersClash(t, front, last, resolver, a.value.layer, b.value.layer);
      }
    }
  }

  /**
   * Every refusal names a real fault: an invalid region of the universe, an empty universe, a leaf of the normal form
   * that is unknown or malformed, or two layers that the normal form names.
   */
  lemma EvaluateRefusalsAreReal(t: Aspect, resolver: Resolver)
    requires Evaluate(t, resolver).Err?
    ensures var error := Evaluate(t, resolver).error;
      || (error.InvalidRegion? && error.region in resolver.universe && !error.region.Valid())
      || (error == InvalidUniverse && resolver.universe == [])
      || TermFault(Normalize(t), resolver, error)
  {
    hide Eval, Normalize, NormalizeRegions, AllValid, Canonical, TermFault;
    FirstInvalidFound(resolver.universe);
    FirstInvalidMeans(resolver.universe);
    if AllValid(resolver.universe) {
      var universe := NormalizeRegions(resolver.universe);
      NormalizeExact(resolver.universe, Point(0, 0.0, 1));
      CanonicalValid(universe);
      EvalRefusal(Normalize(t), resolver, universe);
    }
  }
}
