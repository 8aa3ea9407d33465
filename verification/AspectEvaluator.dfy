/** The loops of the aspect algebra (src/aspect.rs). */
module AspectEvaluator {
  import opened Outcomes
  import opened Ordering
  import opened AspectRegions
  import opened AspectNormalization
  import opened AspectTerms
  import opened AspectEvaluation

  // ----- terms

  method SortTerms(terms: seq<Aspect>) returns (r: seq<Aspect>)
    ensures r == SortedTerms(terms)
  {
    TermOrder();
    r := SortDedup(TermLte, terms);
  }

  lemma {:induction false} NormalizeEachStep(terms: seq<Aspect>, i: nat)
    requires i < |terms|
    ensures NormalizeEach(terms[..i + 1]) == NormalizeEach(terms[..i]) + [Normalize(terms[i])]
  {
    hide Normalize;
    if i > 0 {
      NormalizeEachStep(terms[1..], i - 1);
      assert terms[..i + 1][1..] == terms[1..][..i];
      assert terms[..i][1..] == terms[1..][..i - 1];
    } else {
      assert terms[..1] == [terms[0]] && terms[..0] == [];
    }
  }

  lemma {:induction false} NormalizeEachHas(terms: seq<Aspect>, i: nat)
    requires i < |terms|
    ensures Normalize(terms[i]) in NormalizeEach(terms)
  {
    hide Normalize;
    if i > 0 { NormalizeEachHas(terms[1..], i - 1); }
  }

  method NormalizeTerm(t: Aspect) returns (r: Aspect)
    ensures r == Normalize(t)
    decreases t, 1
  {
    match t {
      case Union(children) => r := NormalizeUnion(children);
      case Intersect(parts) => r := NormalizeIntersection(parts);
      case Complement(child) =>
        var inner := NormalizeTerm(child);
        r := ComplementOf(inner);
      case _ => r := t;
    }
  }

  method NormalizeUnion(children: seq<Aspect>) returns (r: Aspect)
    ensures r == UnionOf(NormalizeEach(children))
    decreases children, 0
  {
    hide Normalize, SortedTerms, KeptInUnion;
    var flat: seq<Aspect> := [];
    for i := 0 to |children|
      invariant flat == FlatUnion(NormalizeEach(children[..i]))
      invariant All !in NormalizeEach(children[..i])
    {
      var child := NormalizeTerm(children[i]);
      NormalizeEachStep(children, i);
      var front := NormalizeEach(children[..i]);
      assert NormalizeEach(children[..i + 1])[..|front|] == front;
      if child == All {
        NormalizeEachHas(children, i);
        return All;
      }
      if child != Empty {
        flat := if child.Union? then flat + child.children else flat + [child];
      }
    }
    assert children[..|children|] == children;
    flat := SortTerms(flat);
    flat := AbsorbIntersections(flat);
    r := if |flat| == 0 then Empty else if |flat| == 1 then flat[0] else Union(flat);
  }

  method NormalizeIntersection(parts: seq<Aspect>) returns (r: Aspect)
    ensures r == IntersectOf(NormalizeEach(parts))
    decreases parts, 0
  {
    hide Normalize, SortedTerms, KeptInIntersect;
    var flat: seq<Aspect> := [];
    for i := 0 to |parts|
      invariant flat == FlatIntersect(NormalizeEach(parts[..i]))
      invariant Empty !in NormalizeEach(parts[..i])
    {
      var child := NormalizeTerm(parts[i]);
      NormalizeEachStep(parts, i);
      var front := NormalizeEach(parts[..i]);
      assert NormalizeEach(parts[..i + 1])[..|front|] == front;
      if child == Empty {
        NormalizeEachHas(parts, i);
        return Empty;
      }
      if child != All {
        flat := if child.Intersect? then flat + child.parts else flat + [child];
      }
    }
    assert parts[..|parts|] == parts;
    flat := SortTerms(flat);
    flat := AbsorbUnions(flat);
    r := if |flat| == 0 then All else if |flat| == 1 then flat[0] else Intersect(flat);
  }

  // ----- boxes

  method FilterRegions(universe: seq<Region>, f: Region -> Option<Region>) returns (r: seq<Region>)
    ensures r == NormalizeRegions(FilterMap(universe, f))
  {
    hide NormalizeRegions, Canonical;
    r := [];
    for i := 0 to |universe|
      invariant r == FilterMap(universe[..i], f)
    {
      assert universe[..i + 1][..i] == universe[..i];
      match f(universe[i]) {
        case Some(region) => r := r + [region];
        case None =>
      }
    }
    assert universe[..|universe|] == universe;
    r := NormalizeConcrete(r);
  }

  method IntersectConcrete(lefts: seq<Region>, rights: seq<Region>) returns (r: seq<Region>)
    ensures r == NormalizeRegions(IntersectEach(lefts, rights))
  {
    hide NormalizeRegions, Canonical;
    r := [];
    for i := 0 to |lefts|
      invariant r == IntersectEach(lefts[..i], rights)
    {
      assert lefts[..i + 1][..i] == lefts[..i];
      for j := 0 to |rights|
        invariant r == IntersectEach(lefts[..i], rights) + IntersectOne(lefts[i], rights[..j])
      {
        assert rights[..j + 1][..j] == rights[..j];
        match lefts[i].Intersect(rights[j]) {
          case Some(region) => r := r + [region];
          case None =>
        }
      }
      assert rights[..|rights|] == rights;
    }
    assert lefts[..|lefts|] == lefts;
    r := NormalizeConcrete(r);
  }

  method SubtractConcrete(regions: seq<Region>, removes: seq<Region>) returns (r: seq<Region>)
    ensures r == NormalizeRegions(SubtractAll(regions, removes))
  {
    hide NormalizeRegions, Canonical, SubtractRegion;
    r := regions;
    for i := 0 to |removes|
      invariant r == SubtractAll(regions, removes[..i])
    {
      assert removes[..i + 1][..i] == removes[..i];
      var pieces: seq<Region> := [];
      for j := 0 to |r|
        invariant pieces == SubtractFromEach(r[..j], removes[i])
      {
        assert r[..j + 1][..j] == r[..j];
        pieces := pieces + SubtractRegion(r[j], removes[i]);
      }
      assert r[..|r|] == r;
      r := pieces;
    }
    assert removes[..|removes|] == removes;
    r := NormalizeConcrete(r);
  }

  // ----- evaluation

  method EvaluateTime(span: FrameSpan, universe: seq<Region>) returns (r: Result<seq<Region>, AspectError>)
    ensures r == EvalTime(span, universe)
  {
    if span.start >= span.end { return Err(InvalidSpan(span.start, span.end)); }
    var regions := FilterRegions(universe, CutTime(span));
    r := Ok(regions);
  }

  method EvaluateSpans(spans: seq<FrameSpan>, universe: seq<Region>) returns (r: Result<seq<Region>, AspectError>)
    ensures r == EvalSpans(spans, universe)
  {
    hide EvalTime;
    var regions: seq<Region> := [];
    for i := 0 to |spans|
      invariant EvalSpans(spans[..i], universe) == Ok(regions)
    {
      assert spans[..i + 1][..i] == spans[..i];
      var value := EvaluateTime(spans[i], universe);
      if value.Err? {
        SpansFail(spans, i + 1, universe);
        return value;
      }
      regions := regions + value.value;
    }
    assert spans[..|spans|] == spans;
    r := Ok(regions);
  }

  /** The first failure is the answer. */
  lemma {:induction false} SpansFail(spans: seq<FrameSpan>, n: nat, universe: seq<Region>)
    requires n <= |spans| && EvalSpans(spans[..n], universe).Err?
    ensures EvalSpans(spans, universe) == EvalSpans(spans[..n], universe)
  {
    hide EvalTime;
    if n == |spans| {
      assert spans[..n] == spans;
    } else {
      assert spans[..|spans| - 1][..n] == spans[..n];
      SpansFail(spans[..|spans| - 1], n, universe);
    }
  }

  method EvaluateExtent(t: Aspect, extent: Option<seq<Region>>, universe: seq<Region>)
    returns (r: Result<seq<Region>, AspectError>)
    ensures r == EvalExtent(t, extent, universe)
  {
    if extent.None? { return Err(Unresolvable(t)); }
    var valid := ValidateResolved(extent.value);
    if valid.Err? { return Err(valid.error); }
    var regions := IntersectConcrete(extent.value, universe);
    r := Ok(regions);
  }

  method EvaluateLeaf(t: Aspect, resolver: Resolver, universe: seq<Region>)
    returns (r: Result<seq<Region>, AspectError>)
    requires t.IsLeaf()
    ensures r == EvalLeaf(t, resolver, universe)
  {
    hide EvalTime, EvalExtent, EvalSpans, NormalizeRegions, Canonical;
    match t {
      case Time(span) => r := EvaluateTime(span, universe);
      case Band(band) =>
        if !band.Valid() { return Err(InvalidBand(band)); }
        var regions := FilterRegions(universe, CutBand(band));
        r := Ok(regions);
      case Channels(mask) =>
        var regions := FilterRegions(universe, CutChannels(mask));
        r := Ok(regions);
      case Family(source, recipe, id) =>
        if (source, recipe, id) !in resolver.families { return Err(Unresolvable(t)); }
        r := EvaluateSpans(resolver.families[(source, recipe, id)], universe);
        if r.Ok? {
          var regions := NormalizeConcrete(r.value);
          r := Ok(regions);
        }
      case Object(id) => r := EvaluateExtent(t, Lookup(resolver.objects, id), universe);
      case ExplainedBy(reference) => r := EvaluateExtent(t, Lookup(resolver.explanations, reference), universe);
      case ResidualOf(reference) => r := EvaluateExtent(t, Lookup(resolver.explanations, reference), universe);
    }
  }

  method EvaluateInner(t: Aspect, resolver: Resolver, universe: seq<Region>) returns (r: Result<Evaluated, AspectError>)
    ensures r == Eval(t, resolver, universe)
    decreases t, 1
  {
    hide EvalLeaf, NormalizeRegions, Canonical, SubtractAll;
    match t {
      case Empty => r := Ok(Evaluated([], None));
      case All => r := Ok(Evaluated(universe, None));
      case Union(children) =>
        r := EvaluateUnion(children, resolver, universe);
        if r.Ok? {
          var regions := NormalizeConcrete(r.value.regions);
          r := Ok(r.value.(regions := regions));
        }
      case Intersect(parts) => r := EvaluateIntersect(parts, resolver, universe);
      case Complement(child) =>
        r := EvaluateInner(child, resolver, universe);
        if r.Ok? {
          var regions := SubtractConcrete(universe, r.value.regions);
          r := Ok(r.value.(regions := regions));
        }
      case _ =>
        var regions := EvaluateLeaf(t, resolver, universe);
        r := if regions.Ok? then Ok(Evaluated(regions.value, LeafLayer(t))) else Err(regions.error);
    }
  }

  method EvaluateUnion(children: seq<Aspect>, resolver: Resolver, universe: seq<Region>)
    returns (r: Result<Evaluated, AspectError>)
    ensures r == EvalUnion(children, resolver, universe)
    decreases children, 0
  {
    hide Eval;
    var output: seq<Region> := [];
    var layer: Option<SignalLayer> := None;
    for i := 0 to |children|
      invariant EvalUnion(children[..i], resolver, universe) == Ok(Evaluated(output, layer))
    {
      assert children[..i + 1][..i] == children[..i];
      var value := EvaluateInner(children[i], resolver, universe);
      if value.Err? {
        UnionFails(children, i + 1, resolver, universe);
        return value;
      }
      var merged := MergeLayers(layer, value.value.layer);
      if merged.Err? {
        UnionFails(children, i + 1, resolver, universe);
        return Err(merged.error);
      }
      layer := merged.value;
      output := output + value.value.regions;
    }
    assert children[..|children|] == children;
    r := Ok(Evaluated(output, layer));
  }

  lemma {:induction false} UnionFails(children: seq<Aspect>, n: nat, resolver: Resolver, universe: seq<Region>)
    requires n <= |children| && EvalUnion(children[..n], resolver, universe).Err?
    ensures EvalUnion(children, resolver, universe) == EvalUnion(children[..n], resolver, universe)
  {
    hide Eval;
    if n == |children| {
      assert children[..n] == children;
    } else {
      assert children[..|children| - 1][..n] == children[..n];
      UnionFails(children[..|children| - 1], n, resolver, universe);
    }
  }

  method EvaluateIntersect(parts: seq<Aspect>, resolver: Resolver, universe: seq<Region>)
    returns (r: Result<Evaluated, AspectError>)
    ensures r == EvalIntersect(parts, resolver, universe)
    decreases parts, 0
  {
    hide Eval, NormalizeRegions;
    var output := universe;
    var layer: Option<SignalLayer> := None;
    for i := 0 to |parts|
      invariant EvalIntersect(parts[..i], resolver, universe) == Ok(Evaluated(output, layer))
    {
      assert parts[..i + 1][..i] == parts[..i];
      var value := EvaluateInner(parts[i], resolver, universe);
      if value.Err? {
        IntersectFails(parts, i + 1, resolver, universe);
        return value;
      }
      var merged := MergeLayers(layer, value.value.layer);
      if merged.Err? {
        IntersectFails(parts, i + 1, resolver, universe);
        return Err(merged.error);
      }
      layer := merged.value;
      output := IntersectConcrete(output, value.value.regions);
    }
    assert parts[..|parts|] == parts;
    r := Ok(Evaluated(output, layer));
  }

  lemma {:induction false} IntersectFails(parts: seq<Aspect>, n: nat, resolver: Resolver, universe: seq<Region>)
    requires n <= |parts| && EvalIntersect(parts[..n], resolver, universe).Err?
    ensures EvalIntersect(parts, resolver, universe) == EvalIntersect(parts[..n], resolver, universe)
  {
    hide Eval, NormalizeRegions;
    if n == |parts| {
      assert parts[..n] == parts;
    } else {
      assert parts[..|parts| - 1][..n] == parts[..n];
      IntersectFails(parts[..|parts| - 1], n, resolver, universe);
    }
  }

  /** The whole computation: the executable form meets its specification on every term and resolver. */
  method EvaluateAspect(t: Aspect, resolver: Resolver) returns (r: Result<Selection, AspectError>)
    ensures r == Evaluate(t, resolver)
    ensures r.Ok? ==> Canonical(r.value.regions)
  {
    hide Eval, Normalize, NormalizeRegions, Canonical;
    var valid := ValidateResolved(resolver.universe);
    if valid.Err? { return Err(valid.error); }
    if resolver.universe == [] { return Err(InvalidUniverse); }
    var universe := NormalizeConcrete(resolver.universe);
    var normal := NormalizeTerm(t);
    var value := EvaluateInner(normal, resolver, universe);
    if value.Err? { return Err(value.error); }
    var regions := NormalizeConcrete(value.value.regions);
    r := Ok(Selection(regions, LayerOrSource(value.value.layer)));
  }
}
