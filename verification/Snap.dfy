/** Snapping to guides and to the grid. */
module Snap {
  import opened Numbers
  import opened Outcomes
  import opened Arithmetic
  import opened Arrangement

  datatype GuideKind =
    | MarkerGuide | LoopBoundary | PunchBoundary | Transient | Event | Playhead
    | ClipStart(startOf: ClipId) | ClipEnd(endOf: ClipId) | Bar | Beat | Grid
  {
    /** Declaration order, then the clip identity. */
    function Rank(): (int, int) {
      match this
      case MarkerGuide => (0, 0)
      case LoopBoundary => (1, 0)
      case PunchBoundary => (2, 0)
      case Transient => (3, 0)
      case Event => (4, 0)
      case Playhead => (5, 0)
      case ClipStart(id) => (6, id)
      case ClipEnd(id) => (7, id)
      case Bar => (8, 0)
      case Beat => (9, 0)
      case Grid => (10, 0)
    }
  }

  datatype Guide = Guide(frame: Frame, kind: GuideKind, key: U64)

  datatype SnapContext = SnapContext(gridQuantum: Option<U64>, tolerance: U64, guides: seq<Guide>)

  datatype SnapResult = SnapResult(proposed: Frame, snapped: Frame, guide: Guide) {
    function Adjustment(): I64 {
      Saturate(snapped - proposed)
    }
  }

  /** The grid multiples that enclose a frame, with saturating arithmetic. */
  function GridGuides(quantum: U64, proposed: Frame): seq<Guide>
    requires quantum > 0
  {
    var q := Min(quantum, I64_MAX);
    var lower := Saturate(proposed - proposed % q);
    var upper := Saturate(lower + q);
    [Guide(lower, Grid, 0)] + (if upper != lower then [Guide(upper, Grid, 1)] else [])
  }

  function Candidates(context: SnapContext, proposed: Frame): seq<Guide> {
    context.guides +
    (if context.gridQuantum.Some? && context.gridQuantum.value > 0
     then GridGuides(context.gridQuantum.value, proposed) else [])
  }

  predicate BelongsTo(guide: Guide, excluded: set<ClipId>) {
    match guide.kind
    case ClipStart(id) => id in excluded
    case ClipEnd(id) => id in excluded
    case _ => false
  }

  predicate Eligible(context: SnapContext, proposed: Frame, excluded: set<ClipId>, guide: Guide) {
    !BelongsTo(guide, excluded) && Abs(proposed - guide.frame) <= context.tolerance
  }

  /** By distance, then kind, then frame, then key. */
  predicate NoWorse(proposed: Frame, a: Guide, b: Guide) {
    var da, db := Abs(proposed - a.frame), Abs(proposed - b.frame);
    var ka, kb := a.kind.Rank(), b.kind.Rank();
    da < db || (da == db &&
    (ka.0 < kb.0 || (ka.0 == kb.0 &&
    (ka.1 < kb.1 || (ka.1 == kb.1 &&
    (a.frame < b.frame || (a.frame == b.frame && a.key <= b.key)))))))
  }

  /** Scans the candidates in order and keeps the first least eligible one. */
  function BestOf(context: SnapContext, proposed: Frame, excluded: set<ClipId>, candidates: seq<Guide>): Option<Guide> {
    if candidates == [] then None
    else
      var best := BestOf(context, proposed, excluded, candidates[..|candidates| - 1]);
      var guide := candidates[|candidates| - 1];
      if !Eligible(context, proposed, excluded, guide) then best
      else if best.Some? && NoWorse(proposed, best.value, guide) then best
      else Some(guide)
  }

  function Resolve(context: SnapContext, proposed: Frame, excluded: set<ClipId>): Option<SnapResult> {
    match BestOf(context, proposed, excluded, Candidates(context, proposed))
    case None => None
    case Some(guide) => Some(SnapResult(proposed, guide.frame, guide))
  }

  lemma NoWorseIsTotal(proposed: Frame, a: Guide, b: Guide, c: Guide)
    ensures NoWorse(proposed, a, b) || NoWorse(proposed, b, a)
    ensures NoWorse(proposed, a, b) && NoWorse(proposed, b, a) ==> a == b
    ensures NoWorse(proposed, a, b) && NoWorse(proposed, b, c) ==> NoWorse(proposed, a, c)
  {}

  /** The guide is an eligible candidate and none is better. */
  ghost predicate IsLeast(
    context: SnapContext, proposed: Frame, excluded: set<ClipId>, candidates: seq<Guide>, best: Option<Guide>)
  {
    match best
    case None => forall g :: g in candidates ==> !Eligible(context, proposed, excluded, g)
    case Some(least) =>
      && least in candidates && Eligible(context, proposed, excluded, least)
      && forall g :: g in candidates && Eligible(context, proposed, excluded, g) ==> NoWorse(proposed, least, g)
  }

  lemma {:induction false} BestIsLeast(
    context: SnapContext, proposed: Frame, excluded: set<ClipId>, candidates: seq<Guide>)
    ensures IsLeast(context, proposed, excluded, candidates, BestOf(context, proposed, excluded, candidates))
  {
    if candidates != [] {
      var front, last := candidates[..|candidates| - 1], candidates[|candidates| - 1];
      BestIsLeast(context, proposed, excluded, front);
      assert candidates == front + [last];
      var best := BestOf(context, proposed, excluded, front);
      if best.Some? {
        forall g { NoWorseIsTotal(proposed, last, best.value, g); }
      }
      NoWorseIsTotal(proposed, last, last, last);
    }
  }

  // ----- the order of guides

  /** The kinds in the order in which they win at equal distance; the clip kinds stand for every clip. */
  const KIND_ORDER: seq<GuideKind> := [
    MarkerGuide, LoopBoundary, PunchBoundary, Transient, Event, Playhead, ClipStart(0), ClipEnd(0), Bar, Beat, Grid]

  predicate SameKind(a: GuideKind, b: GuideKind) {
    a == b || (a.ClipStart? && b.ClipStart?) || (a.ClipEnd? && b.ClipEnd?)
  }

  /** At equal distance the kind listed first wins. */
  lemma KindsInOrder(proposed: Frame, a: Guide, b: Guide, i: nat, j: nat)
    requires Abs(proposed - a.frame) == Abs(proposed - b.frame)
    requires i < j < |KIND_ORDER| && SameKind(a.kind, KIND_ORDER[i]) && SameKind(b.kind, KIND_ORDER[j])
    ensures NoWorse(proposed, a, b) && !NoWorse(proposed, b, a)
  {}

  /** Distance decides first; within a kind and a clip the frame and then the key. */
  lemma GuidesInOrder(proposed: Frame, a: Guide, b: Guide)
    requires NoWorse(proposed, a, b)
    ensures Abs(proposed - a.frame) <= Abs(proposed - b.frame)
    ensures Abs(proposed - a.frame) == Abs(proposed - b.frame) && SameKind(a.kind, b.kind) ==>
      && (a.kind.ClipStart? && a.kind != b.kind ==> a.kind.startOf < b.kind.startOf)
      && (a.kind.ClipEnd? && a.kind != b.kind ==> a.kind.endOf < b.kind.endOf)
      && (a.kind == b.kind ==> a.frame < b.frame || (a.frame == b.frame && a.key <= b.key))
  {}

  /** A guide on an edge of one of the clips. */
  predicate OnEdgeOf(guide: Guide, clips: set<ClipId>) {
    (guide.kind.ClipStart? && guide.kind.startOf in clips) || (guide.kind.ClipEnd? && guide.kind.endOf in clips)
  }

  /** A guide of the context, or one that the grid offers, within reach and on no edge of the excluded clips. */
  predicate InReach(context: SnapContext, proposed: Frame, excluded: set<ClipId>, guide: Guide) {
    && (guide in context.guides
        || (context.gridQuantum.Some? && context.gridQuantum.value > 0
            && guide in GridGuides(context.gridQuantum.value, proposed)))
    && !OnEdgeOf(guide, excluded)
    && Abs(proposed - guide.frame) <= context.tolerance
  }

  lemma InReachExactly(context: SnapContext, proposed: Frame, excluded: set<ClipId>, guide: Guide)
    ensures InReach(context, proposed, excluded, guide) <==>
      guide in Candidates(context, proposed) && Eligible(context, proposed, excluded, guide)
  {}

  /** Resolving finds a guide in reach before which no other comes, and nothing exactly when none is in reach. */
  lemma ResolveFindsFirst(context: SnapContext, proposed: Frame, excluded: set<ClipId>)
    ensures Resolve(context, proposed, excluded).None? <==>
      forall g :: !InReach(context, proposed, excluded, g)
    ensures Resolve(context, proposed, excluded).Some? ==>
      var found := Resolve(context, proposed, excluded).value;
      && found.proposed == proposed && found.snapped == found.guide.frame
      && InReach(context, proposed, excluded, found.guide)
      && (forall g :: InReach(context, proposed, excluded, g) ==> NoWorse(proposed, found.guide, g))
  {
    hide NoWorse, InReach, Eligible, Candidates;
    forall g { InReachExactly(context, proposed, excluded, g); }
    BestIsLeast(context, proposed, excluded, Candidates(context, proposed));
  }

  /** Which guide wins depends on the guides offered, not on the order they are listed in. */
  lemma GuideOrderIsIrrelevant(a: SnapContext, b: SnapContext, proposed: Frame, excluded: set<ClipId>)
    requires a.gridQuantum == b.gridQuantum && a.tolerance == b.tolerance
    requires forall g :: g in a.guides <==> g in b.guides
    ensures Resolve(a, proposed, excluded) == Resolve(b, proposed, excluded)
  {
    var ca, cb := Candidates(a, proposed), Candidates(b, proposed);
    assert forall g :: g in ca <==> g in cb;
    BestIsLeast(a, proposed, excluded, ca);
    BestIsLeast(b, proposed, excluded, cb);
    var ga, gb := BestOf(a, proposed, excluded, ca), BestOf(b, proposed, excluded, cb);
    if ga.Some? && gb.Some? {
      NoWorseIsTotal(proposed, ga.value, gb.value, ga.value);
    }
  }

  /** The quantum that the grid counts in: quanta beyond the signed range are cut to it. */
  function Step(quantum: U64): I64 {
    Min(quantum, I64_MAX)
  }

  /** The largest multiple of the step at or below a frame. */
  function MultipleBelow(step: int, frame: int): int
    requires step > 0
  {
    step * (frame / step)
  }

  /** Two guides, on the multiples of the step that enclose the frame. */
  predicate OnEnclosingMultiples(guides: seq<Guide>, step: int, frame: int)
    requires step > 0
  {
    && |guides| == 2
    && guides[0].frame % step == 0 && guides[1].frame % step == 0
    && guides[0].frame <= frame < guides[1].frame == guides[0].frame + step
    && guides[0].kind == Grid == guides[1].kind && guides[0].key == 0 && guides[1].key == 1
  }

  /**
   * The grid offers the two multiples that enclose the frame, negative frames included, exactly when both can be
   * addressed, and then no multiple is nearer than the nearer of them.
   */
  lemma GridGuidesEnclose(quantum: U64, proposed: Frame, multiple: int)
    requires quantum > 0
    ensures var guides, step := GridGuides(quantum, proposed), Step(quantum);
      && (OnEnclosingMultiples(guides, step, proposed) <==>
           FitsI64(MultipleBelow(step, proposed)) && FitsI64(MultipleBelow(step, proposed) + step))
      && (OnEnclosingMultiples(guides, step, proposed) && multiple % step == 0 ==>
           Min(proposed - guides[0].frame, guides[1].frame - proposed) <= Abs(proposed - multiple))
  {
    var guides, step := GridGuides(quantum, proposed), Step(quantum);
    var k := proposed / step;
    DivMod(proposed, step);
    var lower := proposed - proposed % step;
    assert lower == step * k == MultipleBelow(step, proposed);
    QuotientUnique(step, k, 0);
    QuotientUnique(step, k + 1, 0);
    assert lower + step == step * (k + 1) by { Distribute(k, 1, step); }
    if OnEnclosingMultiples(guides, step, proposed) {
      EnclosingMultiple(step, proposed, guides[0].frame);
      if multiple % step == 0 {
        var m := multiple / step;
        DivMod(multiple, step);
        NeighbouringMultiples(step, k, m);
      }
    }
  }

  /** Only one multiple of the step lies less than a step below a frame. */
  lemma EnclosingMultiple(step: int, frame: int, multiple: int)
    requires step > 0 && multiple % step == 0 && multiple <= frame < multiple + step
    ensures multiple == MultipleBelow(step, frame)
  {
    var m := multiple / step;
    DivMod(multiple, step);
    QuotientUnique(step, m, frame - multiple);
  }

  lemma NeighbouringMultiples(q: int, k: int, m: int)
    requires q > 0
    ensures q * m <= q * k || q * m >= q * (k + 1)
  {
    if m > k { assert q * (m - (k + 1)) >= 0; } else { assert q * (k - m) >= 0; }
  }

  // ----- several moving edges

  datatype MovingClip = MovingClip(id: ClipId, placement: FrameRange)

  /** A snap found for one edge of one clip; edge 0 is the start, edge 1 the end. */
  datatype EdgeSnap = EdgeSnap(clip: ClipId, edge: nat, result: SnapResult) {
    function Cost(): nat {
      Abs(result.Adjustment())
    }
  }

  /** By adjustment, clip, edge, then the guide itself. */
  predicate StrictlyBetter(a: EdgeSnap, b: EdgeSnap) {
    var ka, kb := a.result.guide.kind.Rank(), b.result.guide.kind.Rank();
    var fa, fb := a.result.guide.frame, b.result.guide.frame;
    a.Cost() < b.Cost() || (a.Cost() == b.Cost() &&
    (a.clip < b.clip || (a.clip == b.clip &&
    (a.edge < b.edge || (a.edge == b.edge &&
    (ka.0 < kb.0 || (ka.0 == kb.0 &&
    (ka.1 < kb.1 || (ka.1 == kb.1 &&
    (fa < fb || (fa == fb && a.result.guide.key < b.result.guide.key)))))))))))
  }

  /** Snaps of one edge that cost the same are ranked as their guides are. */
  lemma TieByGuide(a: EdgeSnap, b: EdgeSnap)
    requires a.clip == b.clip && a.edge == b.edge && a.Cost() == b.Cost() && a.result.proposed == b.result.proposed
    requires Abs(a.result.proposed - a.result.guide.frame) == Abs(b.result.proposed - b.result.guide.frame)
    ensures StrictlyBetter(a, b) <==>
      a.result.guide != b.result.guide && NoWorse(a.result.proposed, a.result.guide, b.result.guide)
  {
    NoWorseIsTotal(a.result.proposed, a.result.guide, b.result.guide, a.result.guide);
  }

  function EdgeFrame(clip: MovingClip, edge: nat): Frame {
    if edge == 0 then clip.placement.start else clip.placement.end
  }

  /** The place an edge would take, as saturating addition delivers it. */
  function Proposed(clip: MovingClip, edge: nat, rawDelta: I64): Frame {
    Saturate(EdgeFrame(clip, edge) + rawDelta)
  }

  predicate IsEdge(clips: seq<MovingClip>, i: int, edge: nat) {
    0 <= i < |clips| && edge < 2
  }

  function Better(best: Option<EdgeSnap>, candidate: Option<EdgeSnap>): Option<EdgeSnap> {
    if candidate.Some? && (best.None? || StrictlyBetter(candidate.value, best.value)) then candidate else best
  }

  function SnapEdge(context: SnapContext, clip: MovingClip, edge: nat, rawDelta: I64, moving: set<ClipId>)
    : Option<EdgeSnap>
  {
    match Resolve(context, Proposed(clip, edge, rawDelta), moving)
    case None => None
    case Some(result) => Some(EdgeSnap(clip.id, edge, result))
  }

  function BestEdge(context: SnapContext, clips: seq<MovingClip>, rawDelta: I64, moving: set<ClipId>)
    : Option<EdgeSnap>
  {
    if clips == [] then None
    else
      var front, clip := BestEdge(context, clips[..|clips| - 1], rawDelta, moving), clips[|clips| - 1];
      Better(Better(front, SnapEdge(context, clip, 0, rawDelta, moving)), SnapEdge(context, clip, 1, rawDelta, moving))
  }

  function SnapMovingEdges(
    context: SnapContext, clips: seq<MovingClip>, rawDelta: I64, moving: set<ClipId>): (I64, Option<SnapResult>)
  {
    match BestEdge(context, clips, rawDelta, moving)
    case None => (rawDelta, None)
    case Some(best) => (Saturate(rawDelta + best.result.Adjustment()), Some(best.result))
  }

  /** The loop over clips and edges. */
  method ComputeSnapMovingEdges(context: SnapContext, clips: seq<MovingClip>, rawDelta: I64, moving: set<ClipId>)
    returns (delta: I64, snapped: Option<SnapResult>)
    ensures (delta, snapped) == SnapMovingEdges(context, clips, rawDelta, moving)
  {
    hide SnapEdge, StrictlyBetter;
    var best: Option<EdgeSnap> := None;
    for i := 0 to |clips|
      invariant best == BestEdge(context, clips[..i], rawDelta, moving)
    {
      assert clips[..i + 1][..i] == clips[..i];
      var edge := 0;
      while edge < 2
        invariant 0 <= edge <= 2
        invariant best ==
          (var front := BestEdge(context, clips[..i], rawDelta, moving);
           if edge == 0 then front
           else if edge == 1 then Better(front, SnapEdge(context, clips[i], 0, rawDelta, moving))
           else Better(Better(front, SnapEdge(context, clips[i], 0, rawDelta, moving)),
                       SnapEdge(context, clips[i], 1, rawDelta, moving)))
      {
        var candidate := SnapEdge(context, clips[i], edge, rawDelta, moving);
        if candidate.Some? && (best.None? || StrictlyBetter(candidate.value, best.value)) {
          best := candidate;
        }
        edge := edge + 1;
      }
    }
    assert clips[..|clips|] == clips;
    match best {
      case None => return rawDelta, None;
      case Some(found) => return Saturate(rawDelta + found.result.Adjustment()), Some(found.result);
    }
  }

  /** Cheaper, or as cheap and of a lower clip, or of the same clip and no later edge. */
  predicate NoLater(a: EdgeSnap, b: EdgeSnap) {
    || a.Cost() < b.Cost()
    || (a.Cost() == b.Cost() && (a.clip < b.clip || (a.clip == b.clip && a.edge <= b.edge)))
  }

  /** The chosen snap comes from some edge; no edge has a cheaper one, and of the cheapest it is the first. */
  ghost predicate IsCheapest(
    context: SnapContext, clips: seq<MovingClip>, rawDelta: I64, moving: set<ClipId>, best: Option<EdgeSnap>)
  {
    && (best.Some? ==> FromSomeEdge(context, clips, rawDelta, moving, best))
    && forall i, edge: nat ::
         IsEdge(clips, i, edge) && SnapEdge(context, clips[i], edge, rawDelta, moving).Some?
         ==> best.Some? && NoLater(best.value, SnapEdge(context, clips[i], edge, rawDelta, moving).value)
  }

  ghost predicate FromSomeEdge(
    context: SnapContext, clips: seq<MovingClip>, rawDelta: I64, moving: set<ClipId>, best: Option<EdgeSnap>)
  {
    exists i, edge: nat :: IsEdge(clips, i, edge) && SnapEdge(context, clips[i], edge, rawDelta, moving) == best
  }

  lemma {:induction false} BestEdgeIsCheapest(
    context: SnapContext, clips: seq<MovingClip>, rawDelta: I64, moving: set<ClipId>)
    ensures IsCheapest(context, clips, rawDelta, moving, BestEdge(context, clips, rawDelta, moving))
  {
    hide SnapEdge, StrictlyBetter, Better, FromSomeEdge;
    if clips != [] {
      var front, clip := clips[..|clips| - 1], clips[|clips| - 1];
      BestEdgeIsCheapest(context, front, rawDelta, moving);
      var before := BestEdge(context, front, rawDelta, moving);
      var first, second := SnapEdge(context, clip, 0, rawDelta, moving), SnapEdge(context, clip, 1, rawDelta, moving);
      BetterIsCheaper(before, first);
      BetterIsCheaper(Better(before, first), second);
      LastEdges(context, clips, rawDelta, moving, 0);
      LastEdges(context, clips, rawDelta, moving, 1);
      if before.Some? { EdgeOfFront(context, clips, rawDelta, moving, before); }
      assert forall i, edge: nat :: IsEdge(clips, i, edge) ==>
        IsEdge(front, i, edge) || (i == |clips| - 1 && (edge == 0 || edge == 1));
    }
  }

  lemma EdgeOfFront(
    context: SnapContext, clips: seq<MovingClip>, rawDelta: I64, moving: set<ClipId>, best: Option<EdgeSnap>)
    requires clips != [] && FromSomeEdge(context, clips[..|clips| - 1], rawDelta, moving, best)
    ensures FromSomeEdge(context, clips, rawDelta, moving, best)
  {
    hide SnapEdge;
    var front := clips[..|clips| - 1];
    var i, edge: nat :| IsEdge(front, i, edge) && SnapEdge(context, front[i], edge, rawDelta, moving) == best;
    assert IsEdge(clips, i, edge) && clips[i] == front[i];
  }

  lemma LastEdges(context: SnapContext, clips: seq<MovingClip>, rawDelta: I64, moving: set<ClipId>, edge: nat)
    requires clips != [] && edge < 2
    ensures FromSomeEdge(
      context, clips, rawDelta, moving, SnapEdge(context, clips[|clips| - 1], edge, rawDelta, moving))
  {
    hide SnapEdge;
    assert IsEdge(clips, |clips| - 1, edge);
  }

  lemma BetterIsCheaper(best: Option<EdgeSnap>, candidate: Option<EdgeSnap>)
    ensures var chosen := Better(best, candidate);
      && (chosen == best || chosen == candidate)
      && (best.Some? ==> chosen.Some? && NoLater(chosen.value, best.value))
      && (candidate.Some? ==> chosen.Some? && NoLater(chosen.value, candidate.value))
  {}

  predicate Offered(
    context: SnapContext, clip: MovingClip, edge: nat, rawDelta: I64, moving: set<ClipId>, guide: Guide)
  {
    && guide in Candidates(context, Proposed(clip, edge, rawDelta))
    && Eligible(context, Proposed(clip, edge, rawDelta), moving, guide)
  }

  /** No edge is offered a guide nearer to where it would go than the adjustment that the chosen snap makes. */
  ghost predicate NoNearerGuide(
    context: SnapContext, clips: seq<MovingClip>, rawDelta: I64, moving: set<ClipId>, found: SnapResult)
  {
    forall i, edge: nat, g ::
      IsEdge(clips, i, edge) && Offered(context, clips[i], edge, rawDelta, moving, g)
      ==> Abs(found.Adjustment()) <= Abs(Proposed(clips[i], edge, rawDelta) - g.frame)
  }

  /** No moving edge is offered a guide at all. */
  ghost predicate NothingOffered(
    context: SnapContext, clips: seq<MovingClip>, rawDelta: I64, moving: set<ClipId>)
  {
    forall i, edge: nat, g :: IsEdge(clips, i, edge) ==> !Offered(context, clips[i], edge, rawDelta, moving, g)
  }

  /** The edge would go to an addressable frame, its guide is in reach from there, and so is the whole move. */
  predicate NothingSaturates(edgeFrame: Frame, rawDelta: I64, guide: Frame) {
    && FitsI64(edgeFrame + rawDelta)
    && FitsI64(guide - (edgeFrame + rawDelta))
    && FitsI64(guide - edgeFrame)
  }

  /** The edge that the move was snapped by lands on its guide exactly when nothing saturates on the way. */
  ghost predicate SnappedEdgeLandsExactly(
    context: SnapContext, clips: seq<MovingClip>, rawDelta: I64, moving: set<ClipId>, delta: int, found: SnapResult)
  {
    exists i, edge: nat :: IsEdge(clips, i, edge)
      && FoundAt(context, clips[i], edge, rawDelta, moving, found)
      && (EdgeFrame(clips[i], edge) + delta == found.guide.frame <==>
            NothingSaturates(EdgeFrame(clips[i], edge), rawDelta, found.guide.frame))
  }

  predicate FoundAt(
    context: SnapContext, clip: MovingClip, edge: nat, rawDelta: I64, moving: set<ClipId>, found: SnapResult)
  {
    var snap := SnapEdge(context, clip, edge, rawDelta, moving);
    snap.Some? && snap.value.result == found
  }

  /**
   * Without an offered guide the move stays as it was. Otherwise it was snapped by some moving edge, which lands on
   * its guide exactly when nothing saturates, and no moving edge is offered a nearer guide.
   */
  lemma MovingEdgesLand(context: SnapContext, clips: seq<MovingClip>, rawDelta: I64, moving: set<ClipId>)
    ensures var (delta, found) := SnapMovingEdges(context, clips, rawDelta, moving);
      && (found.None? <==> NothingOffered(context, clips, rawDelta, moving))
      && (found.None? ==> delta == rawDelta)
      && (found.Some? ==> SnappedEdgeLandsExactly(context, clips, rawDelta, moving, delta, found.value))
      && (found.Some? ==> NoNearerGuide(context, clips, rawDelta, moving, found.value))
  {
    hide SnapEdge, BestEdge, SnapResult.Adjustment, Offered, NothingSaturates;
    var best := BestEdge(context, clips, rawDelta, moving);
    BestEdgeIsCheapest(context, clips, rawDelta, moving);
    forall i, edge: nat, g | IsEdge(clips, i, edge) && Offered(context, clips[i], edge, rawDelta, moving, g)
      ensures best.Some? && Costs(best.value, Proposed(clips[i], edge, rawDelta), g)
    {
      SnapEdgeNearest(context, clips[i], edge, rawDelta, moving, g);
    }
    if best.Some? {
      var i, edge: nat :| IsEdge(clips, i, edge) && SnapEdge(context, clips[i], edge, rawDelta, moving) == best;
      SnapEdgeFound(context, clips[i], edge, rawDelta, moving);
      LandsExactly(EdgeFrame(clips[i], edge), rawDelta, best.value.result);
      assert FoundAt(context, clips[i], edge, rawDelta, moving, best.value.result);
    }
  }

  /** A snap costs no more than the distance between a frame and a guide. */
  predicate Costs(snap: EdgeSnap, frame: Frame, guide: Guide) {
    snap.Cost() <= Abs(frame - guide.frame)
  }

  /** Where an edge goes that is snapped by its own guide. */
  lemma LandsExactly(edgeFrame: Frame, rawDelta: I64, result: SnapResult)
    requires result.proposed == Saturate(edgeFrame + rawDelta) && result.snapped == result.guide.frame
    ensures edgeFrame + Saturate(rawDelta + result.Adjustment()) == result.guide.frame <==>
      NothingSaturates(edgeFrame, rawDelta, result.guide.frame)
  {}

  /** The snap of an edge is an offered guide. */
  lemma SnapEdgeFound(context: SnapContext, clip: MovingClip, edge: nat, rawDelta: I64, moving: set<ClipId>)
    ensures var snap := SnapEdge(context, clip, edge, rawDelta, moving);
      snap.Some? ==>
        && snap.value.result.proposed == Proposed(clip, edge, rawDelta)
        && snap.value.result.snapped == snap.value.result.guide.frame
        && Offered(context, clip, edge, rawDelta, moving, snap.value.result.guide)
  {
    var proposed := Proposed(clip, edge, rawDelta);
    BestIsLeast(context, proposed, moving, Candidates(context, proposed));
  }

  /** An edge that is offered a guide has a snap that costs no more than the distance of that guide. */
  lemma SnapEdgeNearest(
    context: SnapContext, clip: MovingClip, edge: nat, rawDelta: I64, moving: set<ClipId>, guide: Guide)
    requires Offered(context, clip, edge, rawDelta, moving, guide)
    ensures var snap := SnapEdge(context, clip, edge, rawDelta, moving);
      snap.Some? && Costs(snap.value, Proposed(clip, edge, rawDelta), guide)
  {
    var proposed := Proposed(clip, edge, rawDelta);
    BestIsLeast(context, proposed, moving, Candidates(context, proposed));
  }

  // ----- a move that saturates

  const LAST_FRAME_GUIDE: Guide := Guide(I64_MAX, MarkerGuide, 0)

  function LastClip(): seq<MovingClip> {
    [MovingClip(1, FrameBounds(I64_MAX - 1, I64_MAX))]
  }

  function LastContext(): SnapContext {
    SnapContext(None, 0, [LAST_FRAME_GUIDE])
  }

  lemma LastEdgeSnaps(edge: nat)
    requires edge < 2
    ensures SnapEdge(LastContext(), LastClip()[0], edge, 5, {1})
         == Some(EdgeSnap(1, edge, SnapResult(I64_MAX, I64_MAX, LAST_FRAME_GUIDE)))
  {
    assert Candidates(LastContext(), I64_MAX) == [LAST_FRAME_GUIDE];
    assert [LAST_FRAME_GUIDE][..0] == [];
    assert BestOf(LastContext(), I64_MAX, {1}, []) == None;
  }

  /** Pushed beyond the last frame, a clip is snapped to a guide that none of its edges lands on. */
  lemma SaturatedMoveMisses()
    ensures var (delta, found) := SnapMovingEdges(LastContext(), LastClip(), 5, {1});
      && found == Some(SnapResult(I64_MAX, I64_MAX, LAST_FRAME_GUIDE))
      && (forall edge: nat :: edge < 2 ==> EdgeFrame(LastClip()[0], edge) + delta != LAST_FRAME_GUIDE.frame)
  {
    LastEdgeSnaps(0);
    LastEdgeSnaps(1);
    hide SnapEdge;
    var clips := LastClip();
    assert clips[..0] == [];
    assert BestEdge(LastContext(), [], 5, {1}) == None;
  }
}
