/** Canonical unions of boxes (src/aspect.rs). */
module AspectNormalization {
  import opened Outcomes
  import opened Ordering
  import opened ChannelMasks
  import opened AspectRegions

  // ----- order

  /** Lexicographic in start, end, low edge, high edge, channel mask. */
  predicate RegionLte(a: Region, b: Region) {
    if a.time.start != b.time.start then a.time.start < b.time.start
    else if a.time.end != b.time.end then a.time.end < b.time.end
    else if a.band.minHz != b.band.minHz then a.band.minHz < b.band.minHz
    else if a.band.maxHz != b.band.maxHz then a.band.maxHz < b.band.maxHz
    else MaskLte(a.channels, b.channels)
  }

  lemma RegionOrder()
    ensures TotalOrder(RegionLte)
  {
    hide MaskLte;
    forall x: Region, y: Region
      ensures RegionLte(x, y) || RegionLte(y, x)
      ensures RegionLte(x, y) && RegionLte(y, x) ==> x == y
    {
      MaskLteTotal(x.channels, y.channels);
    }
    forall x: Region, y: Region, z: Region ensures RegionLte(x, y) && RegionLte(y, z) ==> RegionLte(x, z) {
      MaskLteTransitive(x.channels, y.channels, z.channels);
    }
  }

  /** The first of start, end, low edge and high edge in which two boxes differ decides. */
  lemma RegionsInOrder(a: Region, b: Region)
    ensures a.time.start < b.time.start ==> RegionLte(a, b) && !RegionLte(b, a)
    ensures a.time.start == b.time.start && a.time.end < b.time.end ==> RegionLte(a, b) && !RegionLte(b, a)
    ensures a.time == b.time && a.band.minHz < b.band.minHz ==> RegionLte(a, b) && !RegionLte(b, a)
    ensures a.time == b.time && a.band.minHz == b.band.minHz && a.band.maxHz < b.band.maxHz ==>
      RegionLte(a, b) && !RegionLte(b, a)
    ensures a.time == b.time && a.band == b.band ==> (RegionLte(a, b) <==> a.channels as int <= b.channels as int)
  {}

  ghost function SortedRegions(regions: seq<Region>): (r: seq<Region>)
    ensures StrictlySorted(RegionLte, r)
    ensures forall x :: x in r <==> x in regions
    ensures |r| <= |regions|
  {
    RegionOrder();
    var r := Ascending(RegionLte, Elements(regions));
    DistinctByCount(r);
    DistinctByCount(regions);
    assert Elements(r) == Elements(regions);
    r
  }

  lemma SortedRegionsIdentity(regions: seq<Region>)
    requires StrictlySorted(RegionLte, regions)
    ensures SortedRegions(regions) == regions
  {
    RegionOrder();
    AscendingOfSorted(RegionLte, regions);
  }

  // ----- merging

  /** Two boxes that agree on two axes and touch on the third become one. */
  function MergeRegions(left: Region, right: Region): Option<Region> {
    if left.band == right.band && left.channels == right.channels
       && left.time.end >= right.time.start && right.time.end >= left.time.start
    then Some(left.(time := FrameSpan(
      if left.time.start <= right.time.start then left.time.start else right.time.start,
      if left.time.end >= right.time.end then left.time.end else right.time.end)))
    else if left.time == right.time && left.channels == right.channels
       && left.band.maxHz >= right.band.minHz && right.band.maxHz >= left.band.minHz
    then Some(left.(band := BandSpan(
      if left.band.minHz <= right.band.minHz then left.band.minHz else right.band.minHz,
      if left.band.maxHz >= right.band.maxHz then left.band.maxHz else right.band.maxHz)))
    else if left.time == right.time && left.band == right.band
    then Some(left.(channels := Joined(left.channels, right.channels)))
    else None
  }

  /** Boxes merge exactly if they agree on two axes, and on the third, unless it is the channels, leave no gap. */
  lemma MergesExactly(left: Region, right: Region)
    ensures MergeRegions(left, right).Some? <==>
      || (left.band == right.band && left.channels == right.channels
          && left.time.start <= right.time.end && right.time.start <= left.time.end)
      || (left.time == right.time && left.channels == right.channels
          && left.band.minHz <= right.band.maxHz && right.band.minHz <= left.band.maxHz)
      || (left.time == right.time && left.band == right.band)
  {}

  /** A merge loses nothing and adds nothing. */
  lemma MergeExact(left: Region, right: Region, p: Point)
    requires left.Valid() && right.Valid() && MergeRegions(left, right).Some?
    ensures MergeRegions(left, right).value.Valid()
    ensures Covers(MergeRegions(left, right).value, p) <==> Covers(left, p) || Covers(right, p)
  {
    hide Hears, Silent, Joined;
    MasksAreChannelSets(left.channels, right.channels, p.channel);
  }

  /** The first pair (left, right), scanning right within left, that merges. */
  function MergeWith(regions: seq<Region>, left: nat, right: nat): Option<nat>
    requires left < right <= |regions|
    decreases |regions| - right
  {
    if right == |regions| then None
    else if MergeRegions(regions[left], regions[right]).Some? then Some(right)
    else MergeWith(regions, left, right + 1)
  }

  function FirstMerge(regions: seq<Region>, left: nat): Option<(nat, nat)>
    requires left <= |regions|
    decreases |regions| - left
  {
    if left == |regions| then None
    else
      match MergeWith(regions, left, left + 1)
      case Some(right) => Some((left, right))
      case None => FirstMerge(regions, left + 1)
  }

  lemma {:induction false} MergeWithFinds(regions: seq<Region>, left: nat, right: nat)
    requires left < right <= |regions|
    ensures match MergeWith(regions, left, right)
      case Some(r) => right <= r < |regions| && MergeRegions(regions[left], regions[r]).Some?
      case None => forall r :: right <= r < |regions| ==> MergeRegions(regions[left], regions[r]).None?
    decreases |regions| - right
  {
    hide MergeRegions;
    if right < |regions| { MergeWithFinds(regions, left, right + 1); }
  }

  /** No two listed boxes can be merged. */
  ghost predicate Unmergeable(regions: seq<Region>) {
    forall i, j :: 0 <= i < j < |regions| ==> MergeRegions(regions[i], regions[j]).None?
  }

  lemma {:induction false} FirstMergeFinds(regions: seq<Region>, left: nat)
    requires left <= |regions|
    ensures match FirstMerge(regions, left)
      case Some(pair) => left <= pair.0 < pair.1 < |regions| && MergeRegions(regions[pair.0], regions[pair.1]).Some?
      case None => forall i, j :: left <= i < j < |regions| ==> MergeRegions(regions[i], regions[j]).None?
    decreases |regions| - left
  {
    hide MergeRegions;
    if left < |regions| {
      MergeWithFinds(regions, left, left + 1);
      FirstMergeFinds(regions, left + 1);
    }
  }

  /** Replaces the left box of a merging pair by the merged one and removes the right box. */
  function Merged(regions: seq<Region>, left: nat, right: nat): (r: seq<Region>)
    requires left < right < |regions| && MergeRegions(regions[left], regions[right]).Some?
    ensures |r| == |regions| - 1
  {
    var replaced := regions[left := MergeRegions(regions[left], regions[right]).value];
    replaced[..right] + replaced[right + 1..]
  }

  lemma MergedExact(regions: seq<Region>, left: nat, right: nat, p: Point)
    requires left < right < |regions| && MergeRegions(regions[left], regions[right]).Some?
    requires AllValid(regions)
    ensures AllValid(Merged(regions, left, right))
    ensures Covered(Merged(regions, left, right), p) <==> Covered(regions, p)
  {
    hide MergeRegions, Covers;
    var merged := MergeRegions(regions[left], regions[right]).value;
    var after := Merged(regions, left, right);
    MergeExact(regions[left], regions[right], p);
    assert forall i :: 0 <= i < |after| ==>
      after[i] == if i == left then merged else if i < right then regions[i] else regions[i + 1];
    if Covered(regions, p) {
      var i :| 0 <= i < |regions| && Covers(regions[i], p);
      if i == left || i == right { assert Covers(after[left], p); }
      else if i < right { assert Covers(after[i], p); }
      else { assert Covers(after[i - 1], p); }
    }
    if Covered(after, p) {
      var i :| 0 <= i < |after| && Covers(after[i], p);
      if i == left { assert Covers(regions[left], p) || Covers(regions[right], p); }
      else if i < right { assert Covers(regions[i], p); }
      else { assert Covers(regions[i + 1], p); }
    }
  }

  /** Merges the first pair and sorts again, until no pair merges; every round leaves one box fewer. */
  ghost function MergeToFixpoint(regions: seq<Region>): seq<Region>
    decreases |regions|
  {
    match FirstMerge(regions, 0)
    case None => regions
    case Some(pair) =>
      FirstMergeFinds(regions, 0);
      MergeToFixpoint(SortedRegions(Merged(regions, pair.0, pair.1)))
  }

  function ValidOnly(regions: seq<Region>): seq<Region> {
    if regions == [] then []
    else
      var front, last := ValidOnly(regions[..|regions| - 1]), regions[|regions| - 1];
      if last.Valid() then front + [last] else front
  }

  ghost function NormalizeRegions(regions: seq<Region>): seq<Region> {
    MergeToFixpoint(SortedRegions(ValidOnly(regions)))
  }

  // ----- the canonical form

  /** Valid boxes, ascending without repetition, none of which merge. */
  ghost predicate Canonical(regions: seq<Region>) {
    AllValid(regions) && StrictlySorted(RegionLte, regions) && Unmergeable(regions)
  }

  lemma {:induction false} ValidOnlyMembers(regions: seq<Region>)
    ensures forall r :: r in ValidOnly(regions) <==> r in regions && r.Valid()
  {
    if regions != [] {
      var front, last := regions[..|regions| - 1], regions[|regions| - 1];
      ValidOnlyMembers(front);
      assert regions == front + [last];
    }
  }

  lemma SortedCovers(regions: seq<Region>, p: Point)
    ensures Covered(SortedRegions(regions), p) <==> Covered(regions, p)
    ensures AllValid(SortedRegions(regions)) <==> AllValid(regions)
  {
    CoveredByMembers(regions, SortedRegions(regions), p);
    CoveredByMembers(SortedRegions(regions), regions, p);
  }

  lemma {:induction false} FixpointExact(regions: seq<Region>, p: Point)
    requires AllValid(regions) && StrictlySorted(RegionLte, regions)
    ensures Canonical(MergeToFixpoint(regions))
    ensures Covered(MergeToFixpoint(regions), p) <==> Covered(regions, p)
    decreases |regions|
  {
    hide AllValid, Covered, MergeRegions, RegionLte;
    FirstMergeFinds(regions, 0);
    if FirstMerge(regions, 0).Some? {
      var (left, right) := FirstMerge(regions, 0).value;
      MergedExact(regions, left, right, p);
      SortedCovers(Merged(regions, left, right), p);
      FixpointExact(SortedRegions(Merged(regions, left, right)), p);
    }
  }

  /** Normalization keeps every covered point and leaves the canonical form. */
  lemma NormalizeExact(regions: seq<Region>, p: Point)
    ensures Canonical(NormalizeRegions(regions))
    ensures AllValid(regions) ==> (Covered(NormalizeRegions(regions), p) <==> Covered(regions, p))
  {
    hide MergeRegions, RegionLte, Covers;
    var kept := ValidOnly(regions);
    ValidOnlyMembers(regions);
    assert AllValid(kept) by {
      forall i | 0 <= i < |kept| ensures kept[i].Valid() { assert kept[i] in kept; }
    }
    SortedCovers(kept, p);
    FixpointExact(SortedRegions(kept), p);
    CoveredByMembers(kept, regions, p);
    if AllValid(regions) {
      forall r | r in regions ensures r in kept {
        var i :| 0 <= i < |regions| && regions[i] == r;
        assert regions[i].Valid();
      }
      CoveredByMembers(regions, kept, p);
    }
  }

  lemma {:induction false} ValidOnlyIdentity(regions: seq<Region>)
    requires AllValid(regions)
    ensures ValidOnly(regions) == regions
  {
    if regions != [] {
      assert regions[|regions| - 1].Valid();
      ValidOnlyIdentity(regions[..|regions| - 1]);
    }
  }

  /** A canonical list is left alone, so normalizing twice is normalizing once. */
  lemma CanonicalIsNormal(regions: seq<Region>)
    requires Canonical(regions)
    ensures NormalizeRegions(regions) == regions
  {
    hide MergeRegions, RegionLte;
    ValidOnlyIdentity(regions);
    SortedRegionsIdentity(regions);
    FirstMergeFinds(regions, 0);
  }

  lemma NormalizeIdempotent(regions: seq<Region>)
    ensures NormalizeRegions(NormalizeRegions(regions)) == NormalizeRegions(regions)
  {
    NormalizeExact(regions, Point(0, 0.0, 1));
    CanonicalIsNormal(NormalizeRegions(regions));
  }

  // ----- the loop

  method ComputeFirstMerge(regions: seq<Region>) returns (pair: Option<(nat, nat)>)
    ensures pair == FirstMerge(regions, 0)
  {
    var left := 0;
    while left < |regions|
      invariant left <= |regions|
      invariant FirstMerge(regions, 0) == FirstMerge(regions, left)
    {
      var right := left + 1;
      while right < |regions|
        invariant left < right <= |regions|
        invariant MergeWith(regions, left, left + 1) == MergeWith(regions, left, right)
      {
        if MergeRegions(regions[left], regions[right]).Some? {
          return Some((left, right));
        }
        right := right + 1;
      }
      left := left + 1;
    }
    pair := None;
  }

  method KeepValid(input: seq<Region>) returns (regions: seq<Region>)
    ensures regions == ValidOnly(input)
  {
    regions := [];
    for i := 0 to |input|
      invariant regions == ValidOnly(input[..i])
    {
      assert input[..i + 1][..i] == input[..i];
      if input[i].Valid() { regions := regions + [input[i]]; }
    }
    assert input[..|input|] == input;
  }

  method SortRegions(input: seq<Region>) returns (regions: seq<Region>)
    ensures regions == SortedRegions(input)
  {
    RegionOrder();
    regions := SortDedup(RegionLte, input);
  }

  method MergePair(input: seq<Region>, left: nat, right: nat) returns (regions: seq<Region>)
    requires left < right < |input| && MergeRegions(input[left], input[right]).Some?
    ensures regions == Merged(input, left, right)
  {
    hide MergeRegions;
    regions := input[left := MergeRegions(input[left], input[right]).value];
    regions := regions[..right] + regions[right + 1..];
  }

  /** Filters, sorts, and merges until nothing merges. */
  method NormalizeConcrete(input: seq<Region>) returns (regions: seq<Region>)
    ensures regions == NormalizeRegions(input)
    ensures Canonical(regions)
  {
    hide MergeRegions, RegionLte, Merged, ValidOnly, FirstMerge, Canonical;
    NormalizeExact(input, Point(0, 0.0, 1));
    regions := KeepValid(input);
    regions := SortRegions(regions);
    var merged := true;
    while merged
      invariant NormalizeRegions(input) == MergeToFixpoint(regions)
      invariant !merged ==> FirstMerge(regions, 0).None?
      decreases |regions|, merged
    {
      var pair := ComputeFirstMerge(regions);
      FirstMergeFinds(regions, 0);
      merged := pair.Some?;
      if pair.Some? {
        regions := MergePair(regions, pair.value.0, pair.value.1);
        regions := SortRegions(regions);
      }
    }
  }
}
