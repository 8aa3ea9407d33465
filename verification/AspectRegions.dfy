/** Boxes and their unions (src/aspect.rs). */
module AspectRegions {
  import opened Numbers
  import opened Outcomes
  import opened ChannelMasks

  datatype FrameSpan = FrameSpan(start: I64, end: I64) {
    function Intersect(other: FrameSpan): Option<FrameSpan> {
      NewFrameSpan(if start > other.start then start else other.start, if end < other.end then end else other.end)
    }
  }

  function NewFrameSpan(start: I64, end: I64): Option<FrameSpan> {
    if start < end then Some(FrameSpan(start, end)) else None
  }

  datatype BandSpan = BandSpan(minHz: real, maxHz: real) {
    predicate Valid() {
      0.0 <= minHz < maxHz
    }

    function Intersect(other: BandSpan): Option<BandSpan> {
      NewBandSpan(
        if minHz > other.minHz then minHz else other.minHz, if maxHz < other.maxHz then maxHz else other.maxHz)
    }
  }

  function NewBandSpan(minHz: real, maxHz: real): Option<BandSpan> {
    if BandSpan(minHz, maxHz).Valid() then Some(BandSpan(minHz, maxHz)) else None
  }

  datatype Region = Region(time: FrameSpan, band: BandSpan, channels: ChannelMask) {
    predicate Valid() {
      time.start < time.end && band.Valid() && !Silent(channels)
    }

    function Intersect(other: Region): Option<Region> {
      var shared := Shared(channels, other.channels);
      if Silent(shared) then None
      else
        match (time.Intersect(other.time), band.Intersect(other.band))
        case (Some(t), Some(b)) => Some(Region(t, b, shared))
        case _ => None
    }
  }

  // ----- points

  datatype Point = Point(frame: int, hz: real, channel: Channel)

  predicate FrameIn(span: FrameSpan, p: Point) {
    span.start <= p.frame < span.end
  }

  predicate HzIn(band: BandSpan, p: Point) {
    band.minHz <= p.hz < band.maxHz
  }

  predicate Covers(region: Region, p: Point) {
    FrameIn(region.time, p) && HzIn(region.band, p) && Hears(region.channels, p.channel)
  }

  predicate Covered(regions: seq<Region>, p: Point) {
    exists i :: 0 <= i < |regions| && Covers(regions[i], p)
  }

  predicate AllValid(regions: seq<Region>) {
    forall i :: 0 <= i < |regions| ==> regions[i].Valid()
  }

  lemma CoveredConcat(a: seq<Region>, b: seq<Region>, p: Point)
    ensures Covered(a + b, p) <==> Covered(a, p) || Covered(b, p)
    ensures AllValid(a + b) <==> AllValid(a) && AllValid(b)
  {
    var whole := a + b;
    assert forall i :: 0 <= i < |a| ==> whole[i] == a[i];
    assert forall i :: 0 <= i < |b| ==> whole[|a| + i] == b[i];
    if Covered(whole, p) {
      var i :| 0 <= i < |whole| && Covers(whole[i], p);
      if i >= |a| { assert Covers(b[i - |a|], p); }
    }
    if Covered(b, p) {
      var i :| 0 <= i < |b| && Covers(b[i], p);
      assert Covers(whole[|a| + i], p);
    }
    if AllValid(whole) {
      forall i | 0 <= i < |b| ensures b[i].Valid() { assert whole[|a| + i].Valid(); }
    }
  }

  /** Only which regions are listed matters for coverage. */
  lemma CoveredByMembers(a: seq<Region>, b: seq<Region>, p: Point)
    requires forall r :: r in a ==> r in b
    ensures Covered(a, p) ==> Covered(b, p)
    ensures AllValid(b) ==> AllValid(a)
  {
    if Covered(a, p) {
      var i :| 0 <= i < |a| && Covers(a[i], p);
      assert a[i] in b;
      var j :| 0 <= j < |b| && b[j] == a[i];
    }
    forall i | 0 <= i < |a| && AllValid(b) ensures a[i].Valid() {
      assert a[i] in b;
      var j :| 0 <= j < |b| && b[j] == a[i];
    }
  }

  /** Intersection of two boxes is intersection of points. */
  lemma IntersectExact(a: Region, b: Region, p: Point)
    requires a.Valid() && b.Valid()
    ensures a.Intersect(b).Some? ==> a.Intersect(b).value.Valid()
    ensures (a.Intersect(b).Some? && Covers(a.Intersect(b).value, p)) <==> Covers(a, p) && Covers(b, p)
  {
    hide Hears, Shared, Silent;
    MasksAreChannelSets(a.channels, b.channels, p.channel);
    SilentMeans(Shared(a.channels, b.channels), p.channel);
    SpansIntersect(a.time, b.time, p);
    BandsIntersect(a.band, b.band, p);
  }

  lemma SpansIntersect(a: FrameSpan, b: FrameSpan, p: Point)
    ensures (a.Intersect(b).Some? && FrameIn(a.Intersect(b).value, p)) <==> FrameIn(a, p) && FrameIn(b, p)
    ensures a.Intersect(b).Some? ==> a.Intersect(b).value.start < a.Intersect(b).value.end
  {}

  lemma BandsIntersect(a: BandSpan, b: BandSpan, p: Point)
    requires a.Valid() && b.Valid()
    ensures (a.Intersect(b).Some? && HzIn(a.Intersect(b).value, p)) <==> HzIn(a, p) && HzIn(b, p)
    ensures a.Intersect(b).Some? ==> a.Intersect(b).value.Valid()
  {}

  // ----- difference

  function SlabBefore(source: Region, overlap: Region): seq<Region> {
    if source.time.start < overlap.time.start
    then [source.(time := FrameSpan(source.time.start, overlap.time.start))] else []
  }

  function SlabAfter(source: Region, overlap: Region): seq<Region> {
    if overlap.time.end < source.time.end
    then [source.(time := FrameSpan(overlap.time.end, source.time.end))] else []
  }

  function SlabBelow(source: Region, overlap: Region): seq<Region> {
    if source.band.minHz < overlap.band.minHz
    then [Region(overlap.time, BandSpan(source.band.minHz, overlap.band.minHz), source.channels)] else []
  }

  function SlabAbove(source: Region, overlap: Region): seq<Region> {
    if overlap.band.maxHz < source.band.maxHz
    then [Region(overlap.time, BandSpan(overlap.band.maxHz, source.band.maxHz), source.channels)] else []
  }

  function SlabAside(source: Region, overlap: Region): seq<Region> {
    var remaining := Without(source.channels, overlap.channels);
    if !Silent(remaining) then [Region(overlap.time, overlap.band, remaining)] else []
  }

  /** Rectangular difference in time, then frequency, then channel slabs. */
  function SubtractRegion(source: Region, remove: Region): seq<Region> {
    match source.Intersect(remove)
    case None => [source]
    case Some(overlap) =>
      SlabBefore(source, overlap) + SlabAfter(source, overlap) + SlabBelow(source, overlap)
      + SlabAbove(source, overlap) + SlabAside(source, overlap)
  }

  lemma SingletonCovered(region: Region, p: Point)
    ensures Covered([region], p) <==> Covers(region, p)
    ensures AllValid([region]) <==> region.Valid()
  {
    assert Covers([region][0], p) <==> Covers(region, p);
  }

  lemma NothingCovered(p: Point)
    ensures !Covered([], p) && AllValid([])
  {}

  /** The overlap lies inside the source box. */
  predicate Inside(overlap: Region, source: Region) {
    && source.time.start <= overlap.time.start < overlap.time.end <= source.time.end
    && source.band.minHz <= overlap.band.minHz < overlap.band.maxHz <= source.band.maxHz
    && 0.0 <= source.band.minHz
    && !Silent(source.channels)
  }

  lemma TimeSlabsExact(source: Region, overlap: Region, p: Point)
    requires source.Valid() && Inside(overlap, source)
    ensures AllValid(SlabBefore(source, overlap)) && AllValid(SlabAfter(source, overlap))
    ensures Covered(SlabBefore(source, overlap), p) || Covered(SlabAfter(source, overlap), p)
       <==> Covers(source, p) && !FrameIn(overlap.time, p)
    ensures !(Covered(SlabBefore(source, overlap), p) && Covered(SlabAfter(source, overlap), p))
  {
    hide Hears, Silent;
    NothingCovered(p);
    SingletonCovered(source.(time := FrameSpan(source.time.start, overlap.time.start)), p);
    SingletonCovered(source.(time := FrameSpan(overlap.time.end, source.time.end)), p);
  }

  lemma BandSlabsExact(source: Region, overlap: Region, p: Point)
    requires source.Valid() && Inside(overlap, source)
    ensures AllValid(SlabBelow(source, overlap)) && AllValid(SlabAbove(source, overlap))
    ensures Covered(SlabBelow(source, overlap), p) || Covered(SlabAbove(source, overlap), p)
       <==> FrameIn(overlap.time, p) && Covers(source, p) && !HzIn(overlap.band, p)
    ensures !(Covered(SlabBelow(source, overlap), p) && Covered(SlabAbove(source, overlap), p))
  {
    hide Hears, Silent;
    NothingCovered(p);
    SingletonCovered(Region(overlap.time, BandSpan(source.band.minHz, overlap.band.minHz), source.channels), p);
    SingletonCovered(Region(overlap.time, BandSpan(overlap.band.maxHz, source.band.maxHz), source.channels), p);
  }

  lemma ChannelSlabExact(source: Region, overlap: Region, p: Point)
    requires source.Valid() && Inside(overlap, source)
    ensures AllValid(SlabAside(source, overlap))
    ensures Covered(SlabAside(source, overlap), p)
       <==> && FrameIn(overlap.time, p) && HzIn(overlap.band, p)
            && Covers(source, p) && !Hears(overlap.channels, p.channel)
  {
    hide Hears, Silent, Without;
    NothingCovered(p);
    MasksAreChannelSets(source.channels, overlap.channels, p.channel);
    SilentMeans(Without(source.channels, overlap.channels), p.channel);
    SingletonCovered(Region(overlap.time, overlap.band, Without(source.channels, overlap.channels)), p);
  }

  lemma OverlapInside(source: Region, remove: Region)
    requires source.Valid() && remove.Valid() && source.Intersect(remove).Some?
    ensures Inside(source.Intersect(remove).value, source)
  {}

  /** Whole slabs of the source in time; within the shared time slabs in frequency; within both, other channels. */
  predicate PieceOf(piece: Region, source: Region, remove: Region) {
    || (piece.band == source.band && piece.channels == source.channels
        && (piece.time.end <= remove.time.start || remove.time.end <= piece.time.start))
    || (SharesTime(piece, source, remove) && piece.channels == source.channels
        && (piece.band.maxHz <= remove.band.minHz || remove.band.maxHz <= piece.band.minHz))
    || (SharesTime(piece, source, remove) && SharesBand(piece, source, remove)
        && piece.channels == Without(source.channels, remove.channels))
  }

  predicate SharesTime(piece: Region, a: Region, b: Region) {
    && piece.time.start == (if a.time.start <= b.time.start then b.time.start else a.time.start)
    && piece.time.end == (if a.time.end <= b.time.end then a.time.end else b.time.end)
  }

  predicate SharesBand(piece: Region, a: Region, b: Region) {
    && piece.band.minHz == (if a.band.minHz <= b.band.minHz then b.band.minHz else a.band.minHz)
    && piece.band.maxHz == (if a.band.maxHz <= b.band.maxHz then a.band.maxHz else b.band.maxHz)
  }

  /** How a difference is cut: in time first, then in frequency, then in channels. */
  lemma PiecesInSlabs(source: Region, remove: Region, piece: Region)
    requires source.Valid() && remove.Valid() && source.Intersect(remove).Some?
    requires piece in SubtractRegion(source, remove)
    ensures PieceOf(piece, source, remove)
  {
    WithoutShared(source.channels, remove.channels);
    hide Without, Silent, Shared;
  }

  lemma WithoutShared(a: ChannelMask, b: ChannelMask)
    ensures Without(a, Shared(a, b)) == Without(a, b)
  {}

  /** The pieces of a difference are at most five valid boxes that cover exactly the source without the removed box. */
  lemma SubtractExact(source: Region, remove: Region, p: Point)
    requires source.Valid() && remove.Valid()
    ensures |SubtractRegion(source, remove)| <= 5
    ensures AllValid(SubtractRegion(source, remove))
    ensures Covered(SubtractRegion(source, remove), p) <==> Covers(source, p) && !Covers(remove, p)
  {
    hide SlabBefore, SlabAfter, SlabBelow, SlabAbove, SlabAside, Hears, Silent, Shared, Inside, Covered, AllValid;
    IntersectExact(source, remove, p);
    match source.Intersect(remove)
    case None => SingletonCovered(source, p);
    case Some(overlap) =>
      OverlapInside(source, remove);
      MasksAreChannelSets(source.channels, remove.channels, p.channel);
      TimeSlabsExact(source, overlap, p);
      BandSlabsExact(source, overlap, p);
      ChannelSlabExact(source, overlap, p);
      var times := SlabBefore(source, overlap) + SlabAfter(source, overlap);
      var bands := times + SlabBelow(source, overlap) + SlabAbove(source, overlap);
      CoveredConcat(SlabBefore(source, overlap), SlabAfter(source, overlap), p);
      CoveredConcat(times, SlabBelow(source, overlap), p);
      CoveredConcat(times + SlabBelow(source, overlap), SlabAbove(source, overlap), p);
      CoveredConcat(bands, SlabAside(source, overlap), p);
      SlabCounts(source, overlap);
  }

  lemma SlabCounts(source: Region, overlap: Region)
    ensures |SlabBefore(source, overlap)| <= 1 && |SlabAfter(source, overlap)| <= 1
    ensures |SlabBelow(source, overlap)| <= 1 && |SlabAbove(source, overlap)| <= 1
    ensures |SlabAside(source, overlap)| <= 1
  {}

  /** No two boxes of the list share a point. */
  ghost predicate PairwiseDisjoint(regions: seq<Region>) {
    forall i, j, p :: 0 <= i < j < |regions| ==> !(Covers(regions[i], p) && Covers(regions[j], p))
  }

  lemma DisjointConcat(a: seq<Region>, b: seq<Region>)
    requires PairwiseDisjoint(a) && PairwiseDisjoint(b)
    requires forall p :: !(Covered(a, p) && Covered(b, p))
    ensures PairwiseDisjoint(a + b)
  {
    var whole := a + b;
    forall i, j, p | 0 <= i < j < |whole| ensures !(Covers(whole[i], p) && Covers(whole[j], p)) {
      if j < |a| {
        assert !(Covers(a[i], p) && Covers(a[j], p));
      } else if i >= |a| {
        assert !(Covers(b[i - |a|], p) && Covers(b[j - |a|], p));
      } else if Covers(whole[i], p) && Covers(whole[j], p) {
        assert Covers(a[i], p) && Covers(b[j - |a|], p);
        assert Covered(a, p) && Covered(b, p);
      }
    }
  }

  lemma SlabsSingle(source: Region, overlap: Region)
    ensures PairwiseDisjoint(SlabBefore(source, overlap)) && PairwiseDisjoint(SlabAfter(source, overlap))
    ensures PairwiseDisjoint(SlabBelow(source, overlap)) && PairwiseDisjoint(SlabAbove(source, overlap))
    ensures PairwiseDisjoint(SlabAside(source, overlap))
  {}

  /** The pieces never overlap. */
  lemma SubtractDisjoint(source: Region, remove: Region)
    requires source.Valid() && remove.Valid()
    ensures PairwiseDisjoint(SubtractRegion(source, remove))
  {
    hide SlabBefore, SlabAfter, SlabBelow, SlabAbove, SlabAside, Hears, Silent, Shared, Inside, Covered, AllValid;
    hide PairwiseDisjoint;
    match source.Intersect(remove)
    case None => SingleDisjoint(source);
    case Some(overlap) =>
      OverlapInside(source, remove);
      SlabsSingle(source, overlap);
      var before, after := SlabBefore(source, overlap), SlabAfter(source, overlap);
      var below, above, aside :=
        SlabBelow(source, overlap), SlabAbove(source, overlap), SlabAside(source, overlap);
      forall p
        ensures !(Covered(before, p) && Covered(after, p))
        ensures !(Covered(before + after, p) && Covered(below, p))
        ensures !(Covered(before + after + below, p) && Covered(above, p))
        ensures !(Covered(before + after + below + above, p) && Covered(aside, p))
      {
        TimeSlabsExact(source, overlap, p);
        BandSlabsExact(source, overlap, p);
        ChannelSlabExact(source, overlap, p);
        CoveredConcat(before, after, p);
        CoveredConcat(before + after, below, p);
        CoveredConcat(before + after + below, above, p);
      }
      DisjointConcat(before, after);
      DisjointConcat(before + after, below);
      DisjointConcat(before + after + below, above);
      DisjointConcat(before + after + below + above, aside);
  }

  lemma SingleDisjoint(region: Region)
    ensures PairwiseDisjoint([region])
  {}

  function SubtractFromEach(regions: seq<Region>, remove: Region): seq<Region> {
    if regions == [] then []
    else SubtractFromEach(regions[..|regions| - 1], remove) + SubtractRegion(regions[|regions| - 1], remove)
  }

  function SubtractAll(regions: seq<Region>, removes: seq<Region>): seq<Region> {
    if removes == [] then regions
    else SubtractFromEach(SubtractAll(regions, removes[..|removes| - 1]), removes[|removes| - 1])
  }

  lemma CoveredSplit(regions: seq<Region>, p: Point)
    requires regions != []
    ensures Covered(regions, p) <==>
      Covered(regions[..|regions| - 1], p) || Covers(regions[|regions| - 1], p)
    ensures AllValid(regions) <==> AllValid(regions[..|regions| - 1]) && regions[|regions| - 1].Valid()
  {
    assert regions == regions[..|regions| - 1] + [regions[|regions| - 1]];
    CoveredConcat(regions[..|regions| - 1], [regions[|regions| - 1]], p);
    SingletonCovered(regions[|regions| - 1], p);
  }

  lemma {:induction false} SubtractFromEachExact(regions: seq<Region>, remove: Region, p: Point)
    requires AllValid(regions) && remove.Valid()
    ensures AllValid(SubtractFromEach(regions, remove))
    ensures Covered(SubtractFromEach(regions, remove), p) <==> Covered(regions, p) && !Covers(remove, p)
  {
    hide Covered, AllValid, SubtractRegion, Covers;
    if regions == [] {
      NothingCovered(p);
    } else {
      var front, last := regions[..|regions| - 1], regions[|regions| - 1];
      CoveredSplit(regions, p);
      SubtractFromEachExact(front, remove, p);
      SubtractExact(last, remove, p);
      CoveredConcat(SubtractFromEach(front, remove), SubtractRegion(last, remove), p);
    }
  }

  /** Folding the difference over a list of boxes is exact set difference. */
  lemma {:induction false} SubtractAllExact(regions: seq<Region>, removes: seq<Region>, p: Point)
    requires AllValid(regions) && AllValid(removes)
    ensures AllValid(SubtractAll(regions, removes))
    ensures Covered(SubtractAll(regions, removes), p) <==> Covered(regions, p) && !Covered(removes, p)
  {
    hide Covered, AllValid, SubtractFromEach, Covers;
    if removes == [] {
      NothingCovered(p);
    } else {
      CoveredSplit(removes, p);
      SubtractAllExact(regions, removes[..|removes| - 1], p);
      SubtractFromEachExact(SubtractAll(regions, removes[..|removes| - 1]), removes[|removes| - 1], p);
    }
  }

  // ----- pairwise intersection

  function IntersectOne(left: Region, rights: seq<Region>): seq<Region> {
    if rights == [] then []
    else
      IntersectOne(left, rights[..|rights| - 1]) +
      (match left.Intersect(rights[|rights| - 1]) case Some(region) => [region] case None => [])
  }

  function IntersectEach(lefts: seq<Region>, rights: seq<Region>): seq<Region> {
    if lefts == [] then []
    else IntersectEach(lefts[..|lefts| - 1], rights) + IntersectOne(lefts[|lefts| - 1], rights)
  }

  lemma {:induction false} IntersectOneExact(left: Region, rights: seq<Region>, p: Point)
    requires left.Valid() && AllValid(rights)
    ensures AllValid(IntersectOne(left, rights))
    ensures Covered(IntersectOne(left, rights), p) <==> Covers(left, p) && Covered(rights, p)
  {
    hide Covered, AllValid, Covers;
    NothingCovered(p);
    if rights != [] {
      var last := rights[|rights| - 1];
      CoveredSplit(rights, p);
      IntersectOneExact(left, rights[..|rights| - 1], p);
      IntersectExact(left, last, p);
      var piece := match left.Intersect(last) case Some(region) => [region] case None => [];
      if left.Intersect(last).Some? { SingletonCovered(left.Intersect(last).value, p); }
      CoveredConcat(IntersectOne(left, rights[..|rights| - 1]), piece, p);
    }
  }

  lemma {:induction false} IntersectEachExact(lefts: seq<Region>, rights: seq<Region>, p: Point)
    requires AllValid(lefts) && AllValid(rights)
    ensures AllValid(IntersectEach(lefts, rights))
    ensures Covered(IntersectEach(lefts, rights), p) <==> Covered(lefts, p) && Covered(rights, p)
  {
    hide Covered, AllValid, Covers;
    NothingCovered(p);
    if lefts != [] {
      CoveredSplit(lefts, p);
      IntersectEachExact(lefts[..|lefts| - 1], rights, p);
      IntersectOneExact(lefts[|lefts| - 1], rights, p);
      CoveredConcat(IntersectEach(lefts[..|lefts| - 1], rights), IntersectOne(lefts[|lefts| - 1], rights), p);
    }
  }
}
